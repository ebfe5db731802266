/** The recursive-descent parser: one lookahead token over a moving lexer, proved against `Parsing`. */
module Parsers {
  import opened Lexing
  import opened Lexers
  import opened Parsing

  /** A parse function returns a value or ends the process. */
  datatype Outcome<+T> = Got(value: T) | Exited(error: ParseError)

  /** The result of a method and the stream it leaves, against the functional result. */
  ghost predicate Agrees<T>(r: Outcome<T>, stream: seq<Token>, p: Parsed<T>) {
    match p
    case Ok(value, rest) => r == Got(value) && stream == rest
    case Fail(error) => r == Exited(error)
  }

  ghost function After<T>(xs: seq<T>, p: Parsed<seq<T>>): Parsed<seq<T>> {
    match p
    case Ok(value, rest) => Ok(xs + value, rest)
    case Fail(error) => Fail(error)
  }

  ghost function Nested(left: Ast, p: Parsed<seq<(CondOp, Ast)>>): Parsed<Ast> {
    match p
    case Ok(others, rest) => Ok(LeftNest(left, others), rest)
    case Fail(error) => Fail(error)
  }

  lemma AfterOne<T>(xs: seq<T>, x: T, p: Parsed<seq<T>>)
    ensures After(xs, After([x], p)) == After(xs + [x], p)
  {
    if p.Ok? {
      assert xs + ([x] + p.value) == xs + [x] + p.value;
    }
  }

  lemma AfterNone<T>(xs: seq<T>, rest: seq<Token>)
    ensures After(xs, Ok([], rest)) == Ok(xs, rest)
  {
    assert xs + [] == xs;
  }

  lemma AfterNothing<T>(p: Parsed<seq<T>>)
    ensures After([], p) == p
  {
    if p.Ok? {
      assert [] + p.value == p.value;
    }
  }

  class Parser {
    const lex: Lexer
    var tok: Token

    ghost predicate Valid()
      reads this, lex
    {
      lex.Valid() && !tok.Abort? && (tok.Fd? ==> IsNumber(tok.raw))
    }

    /** The lookahead and everything the lexer will still hand out. */
    ghost function Stream(): (toks: seq<Token>)
      requires Valid()
      reads this, lex
      ensures toks != [] && toks[0] == tok
    {
      if tok.Eof? then [Eof] else [tok] + Tokens(lex.input, lex.pos)
    }

    constructor (lexer: Lexer)
      requires lexer.Valid()
      ensures Valid() && lex == lexer && tok == Eof
    {
      lex := lexer;
      tok := Eof;
    }

    /** Fetches the next token into the lookahead; false when the lexer aborts. */
    method Fetch() returns (ok: bool)
      requires lex.Valid()
      modifies this, lex
      ensures ok == !TokenAt(lex.input, old(lex.pos)).0.Abort?
      ensures ok ==> Valid() && Stream() == Tokens(lex.input, old(lex.pos))
    {
      tok := lex.NextToken();
      ok := !tok.Abort?;
    }

    method NextToken() returns (ok: bool)
      requires Valid() && !tok.Eof?
      modifies this, lex
      ensures ok == Next(old(Stream())).Ok? && (!ok ==> Next(old(Stream())) == Fail(LexerAbort))
      ensures ok ==> Valid() && Stream() == old(Stream())[1..] && |Stream()| < |old(Stream())|
    {
      ghost var toks := Tokens(lex.input, lex.pos);
      assert Stream()[1..] == toks && toks[0] == TokenAt(lex.input, lex.pos).0;
      ok := Fetch();
    }

    method ParseArguments() returns (r: Outcome<seq<seq<Part>>>)
      requires Valid()
      modifies this, lex
      ensures r.Got? ==> Valid()
      ensures Agrees(r, if r.Got? then Stream() else [], Parsing.ParseArguments(old(Stream())))
    {
      var args := [];
      ghost var all := Parsing.ParseArguments(Stream());
      AfterNothing(all);
      while tok.Word?
        invariant Valid() && all == After(args, Parsing.ParseArguments(Stream()))
        decreases |Stream()|
      {
        ghost var before, p := args, Stream();
        ghost var word := tok.parts;
        args := args + [tok.parts];
        var ok := NextToken();
        if !ok {
          return Exited(LexerAbort);
        }
        AfterOne(before, word, Parsing.ParseArguments(Stream()));
      }
      AfterNone(args, Stream());
      return Got(args);
    }

    /** One `[fd] operator target`. */
    method ParseRedirection() returns (r: Outcome<Redir>)
      requires Valid() && (tok.Fd? || IsRedirection(tok))
      modifies this, lex
      ensures r.Got? ==> Valid() && |Stream()| < |old(Stream())|
      ensures Agrees(r, if r.Got? then Stream() else [], Parsing.ParseRedirection(old(Stream())))
    {
      var fd := 0;
      if tok.Fd? {
        fd := FdValue(tok.raw);
        var ok := NextToken();
        if !ok {
          return Exited(LexerAbort);
        }
      }
      r := ParseTarget(fd);
    }

    /** The operator and its target, with the descriptor read so far. */
    method ParseTarget(fd: int) returns (r: Outcome<Redir>)
      requires Valid()
      modifies this, lex
      ensures r.Got? ==> Valid() && |Stream()| < |old(Stream())|
      ensures Agrees(r, if r.Got? then Stream() else [], Parsing.ParseTarget(fd, old(Stream())))
    {
      var kind, target := Input, fd;
      match tok {
        case RedirIn => kind := Input;
        case RedirOut =>
          kind := Output;
          if fd == 0 {
            target := 1;
          }
        case RedirAppend =>
          kind := Appending;
          if fd == 0 {
            target := 1;
          }
        case _ => return Exited(UnexpectedInRedirection);
      }
      assert kind == KindOf(tok) && target == DefaultFd(fd, kind);
      var ok := NextToken();
      if !ok {
        return Exited(LexerAbort);
      }
      if !tok.Word? {
        return Exited(ExpectedFilename);
      }
      var parts := tok.parts;
      ok := NextToken();
      if !ok {
        return Exited(LexerAbort);
      }
      return Got(Redir(target, kind, parts));
    }

    method ParseRedirections() returns (r: Outcome<seq<Redir>>)
      requires Valid()
      modifies this, lex
      ensures r.Got? ==> Valid()
      ensures Agrees(r, if r.Got? then Stream() else [], Parsing.ParseRedirections(old(Stream())))
    {
      var redirs := [];
      ghost var all := Parsing.ParseRedirections(Stream());
      AfterNothing(all);
      while tok.Fd? || tok.RedirIn? || tok.RedirOut? || tok.RedirAppend?
        invariant Valid() && all == After(redirs, Parsing.ParseRedirections(Stream()))
        decreases |Stream()|
      {
        var redir := ParseRedirection();
        if redir.Exited? {
          return Exited(redir.error);
        }
        AfterOne(redirs, redir.value, Parsing.ParseRedirections(Stream()));
        redirs := redirs + [redir.value];
      }
      AfterNone(redirs, Stream());
      return Got(redirs);
    }

    method ParseCommand() returns (r: Outcome<Ast>)
      requires Valid()
      modifies this, lex
      ensures r.Got? ==> Valid()
      ensures Agrees(r, if r.Got? then Stream() else [], Parsing.ParseCommand(old(Stream())))
    {
      if !tok.Word? {
        return Got(Null);
      }
      var argv := ParseArguments();
      if argv.Exited? {
        return Exited(argv.error);
      }
      var redirs := ParseRedirections();
      if redirs.Exited? {
        return Exited(redirs.error);
      }
      return Got(Command(argv.value, redirs.value, tok.Bg?));
    }

    method ParsePipeline() returns (r: Outcome<Ast>)
      requires Valid()
      modifies this, lex
      ensures r.Got? ==> Valid()
      ensures Agrees(r, if r.Got? then Stream() else [], Parsing.ParsePipeline(old(Stream())))
    {
      var first := ParseCommand();
      if first.Exited? {
        return Exited(first.error);
      }
      var others := [];
      ghost var all := Parsing.ParsePipes(Stream());
      AfterNothing(all);
      while tok.Pipe?
        invariant Valid() && all == After(others, Parsing.ParsePipes(Stream()))
        decreases |Stream()|
      {
        var ok := NextToken();
        if !ok {
          return Exited(LexerAbort);
        }
        var command := ParseCommand();
        if command.Exited? {
          return Exited(command.error);
        }
        if command.value.Null? {
          return Exited(ExpectedCommand);
        }
        AfterOne(others, command.value, Parsing.ParsePipes(Stream()));
        others := others + [command.value];
      }
      AfterNone(others, Stream());
      return Got(if others == [] then first.value else Pipeline([first.value] + others));
    }

    method ParseConditional() returns (r: Outcome<Ast>)
      requires Valid()
      modifies this, lex
      ensures r.Got? ==> Valid()
      ensures Agrees(r, if r.Got? then Stream() else [], Parsing.ParseConditional(old(Stream())))
    {
      var first := ParsePipeline();
      if first.Exited? {
        return Exited(first.error);
      }
      var left := first.value;
      ghost var all := Nested(left, Parsing.ParseOperators(Stream()));
      while tok.And? || tok.Or?
        invariant Valid() && all == Nested(left, Parsing.ParseOperators(Stream()))
        decreases |Stream()|
      {
        var op := if tok.And? then AndIf else OrIf;
        var ok := NextToken();
        if !ok {
          return Exited(LexerAbort);
        }
        var right := ParsePipeline();
        if right.Exited? {
          return Exited(right.error);
        }
        left := Conditional(left, right.value, op);
      }
      return Got(left);
    }

    method SkipSeparators() returns (ok: bool)
      requires Valid()
      modifies this, lex
      ensures ok ==> Valid()
      ensures ok == Parsing.SkipSeparators(old(Stream())).Ok?
      ensures ok ==> Stream() == Parsing.SkipSeparators(old(Stream())).rest
      ensures !ok ==> Parsing.SkipSeparators(old(Stream())) == Fail(LexerAbort)
    {
      ghost var all := Parsing.SkipSeparators(Stream());
      while tok.Semi? || tok.Bg?
        invariant Valid() && all == Parsing.SkipSeparators(Stream())
        decreases |Stream()|
      {
        ok := NextToken();
        if !ok {
          return;
        }
      }
      ok := true;
    }

    /** The outer loop, entered with the first token in the lookahead. */
    method ParseItems() returns (r: Outcome<seq<Ast>>)
      requires Valid()
      modifies this, lex
      ensures match Parsing.ParseItems(old(Stream()))
              case Ok(items, _) => r == Got(items)
              case Fail(error) => r == Exited(error)
    {
      var items := [];
      ghost var all := Parsing.ParseItems(Stream());
      AfterNothing(all);
      while true
        invariant Valid() && all == After(items, Parsing.ParseItems(Stream()))
        decreases |Stream()|
      {
        var item := ParseConditional();
        if item.Exited? {
          return Exited(item.error);
        }
        if item.value.Null? {
          AfterNone(items, Stream());
          return Got(items);
        }
        var ok := SkipSeparators();
        if !ok {
          return Exited(LexerAbort);
        }
        if tok.Eof? {
          return Got(items + [item.value]);
        }
        AfterOne(items, item.value, Parsing.ParseItems(Stream()));
        items := items + [item.value];
      }
    }

    /** Parses a whole input line. */
    method CreateAst() returns (r: Program)
      requires Valid()
      modifies this, lex
      ensures r == ParseProgram(Tokens(lex.input, old(lex.pos)))
    {
      var ok := Fetch();
      if !ok {
        return Exit(LexerAbort);
      }
      if tok.Eof? {
        return Tree(Null);
      }
      var items := ParseItems();
      match items
      case Exited(error) => return Exit(error);
      case Got(nodes) => return Tree(Sequence(nodes));
    }
  }

  /** A line of input from its first character to its tree. */
  method ParseLine(text: CString) returns (r: Program)
    ensures r == ParseText(text)
  {
    var lexer := new Lexer(text);
    var parser := new Parser(lexer);
    r := parser.CreateAst();
  }

}
