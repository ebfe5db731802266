/** The lexer object: a position that moves over the input, proved against `Lexing`. */
module Lexers {
  import opened Lexing
  import opened Sequences

  class Lexer {
    const input: CString
    var pos: nat

    ghost predicate Valid()
      reads this
    {
      pos <= |input|
    }

    constructor (text: CString)
      ensures Valid() && input == text && pos == 0
    {
      input := text;
      pos := 0;
    }

    method Advance() returns (c: char)
      requires Valid()
      modifies this
      ensures Valid() && c == Peek(input, old(pos))
      ensures pos == if old(pos) < |input| then old(pos) + 1 else old(pos)
    {
      c := Peek(input, pos);
      if pos < |input| {
        pos := pos + 1;
      }
    }

    method SkipWhitespace()
      requires Valid()
      modifies this
      ensures Valid() && pos == SkipSpaces(input, old(pos))
    {
      while Peek(input, pos) != '\0' && IsSpace(Peek(input, pos))
        invariant Valid() && SkipSpaces(input, pos) == SkipSpaces(input, old(pos))
        decreases |input| - pos
      {
        pos := pos + 1;
      }
    }

    method HandleEscape() returns (c: char)
      requires Valid() && pos < |input|
      modifies this
      ensures Valid()
      ensures c == if old(pos) + 1 < |input| then Unescape(input[old(pos) + 1]) else '\0'
      ensures pos == if old(pos) + 1 < |input| then old(pos) + 2 else old(pos) + 1
    {
      var backslash := Advance();
      c := Advance();
      c := Unescape(c);
    }

    method HandleLiteral(q: Quote) returns (value: string)
      requires Valid()
      modifies this
      ensures Valid() && value == LiteralAt(input, old(pos), q).0 && pos == LiteralAt(input, old(pos), q).1
    {
      value := "";
      ghost var all := LiteralAt(input, pos, q);
      while pos < |input| && !EndsLiteral(input[pos], q)
        invariant Valid()
        invariant all.0 == value + LiteralAt(input, pos, q).0 && all.1 == LiteralAt(input, pos, q).1
        decreases |input| - pos
      {
        ghost var c, before := LiteralChar(input, pos, q).0, value;
        if input[pos] == '\\' && q != SingleQuote {
          var esc := HandleEscape();
          if esc != '\0' {
            // a backslash at the very end reads the terminating NUL, which ends the C string
            value := value + [esc];
          }
        } else {
          value := value + [input[pos]];
          pos := pos + 1;
        }
        assert value == before + c;
        Regroup(before, c, LiteralAt(input, pos, q).0);
      }
    }

    method HandleVariable() returns (r: Reference)
      requires Valid() && pos < |input| && input[pos] == '$'
      modifies this
      ensures Valid() && r == VariableAt(input, old(pos))
      ensures !r.Unmatched? ==> pos == r.next
    {
      pos := pos + 1;
      var curly := Peek(input, pos) == '{';
      if curly {
        pos := pos + 1;
      }
      var start := pos;
      if IsSpecialParameter(Peek(input, pos)) {
        pos := pos + 1;
        if curly {
          if Peek(input, pos) != '}' {
            return Unmatched;
          }
          pos := pos + 1;
        }
        return Name([input[start]], pos);
      }
      while IsNameChar(Peek(input, pos))
        invariant Valid() && start <= pos && NameEnd(input, pos) == NameEnd(input, start)
        decreases |input| - pos
      {
        pos := pos + 1;
      }
      var end := pos;
      if curly {
        if Peek(input, pos) != '}' {
          return Unmatched;
        }
        pos := pos + 1;
      }
      if end == start {
        return if curly then EmptyBraces(pos) else Dollar(pos);
      }
      return Name(input[start..end], pos);
    }

    method HandleTilde() returns (value: string)
      requires Valid() && pos < |input|
      modifies this
      ensures Valid() && pos == TildeEnd(input, old(pos) + 1) && value == input[old(pos)..pos]
    {
      var start := pos;
      pos := pos + 1;
      while IsTildeChar(Peek(input, pos))
        invariant Valid() && start < pos && TildeEnd(input, pos) == TildeEnd(input, start + 1)
        decreases |input| - pos
      {
        pos := pos + 1;
      }
      value := input[start..pos];
    }

    /** The pattern, or `ok == false` for an unmatched `[`. */
    method HandleGlob() returns (ok: bool, value: string)
      requires Valid() && pos < |input| && IsGlob(input[pos])
      modifies this
      ensures Valid() && ok == (input[old(pos)] != '[' || BracketEnd(input, old(pos)) < |input|)
      ensures ok ==> pos == (if input[old(pos)] != '[' then old(pos) else BracketEnd(input, old(pos))) + 1
      ensures ok ==> value == input[old(pos)..pos]
    {
      var start := pos;
      if input[pos] == '*' || input[pos] == '?' {
        pos := pos + 1;
        return true, input[start..pos];
      }
      while Peek(input, pos) != '\0' && Peek(input, pos) != ']'
        invariant Valid() && start <= pos && BracketEnd(input, pos) == BracketEnd(input, start)
        decreases |input| - pos
      {
        pos := pos + 1;
      }
      if pos == |input| {
        return false, "";
      }
      pos := pos + 1;
      return true, input[start..pos];
    }

    method NextPart(q: Quote) returns (r: PartStep)
      requires Valid() && InWord(input, pos, q)
      modifies this
      ensures Valid() && r == PartAt(input, old(pos), q) && (r.Step? ==> pos == r.next)
    {
      var c := Peek(input, pos);
      if c == '\'' || c == '\"' {
        pos := pos + 1;
        var q' := if q == NoQuote then (if c == '\'' then SingleQuote else DoubleQuote) else NoQuote;
        return Step(NOTHING, q', pos);
      }
      if c == '$' && (q == NoQuote || q == DoubleQuote) {
        var reference := HandleVariable();
        match reference
        case Unmatched => return StepAbort;
        case Dollar(_) => return Step(Part(Literal, q, "$"), q, pos);
        case EmptyBraces(_) => return Step(NOTHING, q, pos);
        case Name(name, _) => return Step(Part(Variable, q, name), q, pos);
      }
      if c == '~' && q == NoQuote && PeekPrev(input, pos) != '~' {
        var tilde := HandleTilde();
        return Step(Part(Tilde, q, tilde), q, pos);
      }
      if IsGlob(c) && q == NoQuote {
        ghost var start := pos;
        var ok, pattern := HandleGlob();
        if !ok {
          return StepAbort;
        }
        assert c != '[' ==> input[start..pos] == [c];
        return Step(Part(Glob, q, pattern), q, pos);
      }
      var value := HandleLiteral(q);
      return Step(Part(Literal, q, value), q, pos);
    }

    /** Collects the pieces of a word; pieces without text are dropped. */
    method HandleWord() returns (r: WordResult)
      requires Valid()
      modifies this
      ensures Valid() && r == WordAt(input, old(pos), NoQuote) && (r.WordEnd? ==> pos == r.next)
    {
      var parts := [];
      var q := NoQuote;
      while InWord(input, pos, q)
        invariant Valid()
        invariant WordAt(input, old(pos), NoQuote) == Prepend(parts, WordAt(input, pos, q))
        decreases |input| - pos
      {
        ghost var p0, ps0, q0 := pos, parts, q;
        var step := NextPart(q);
        if step.StepAbort? {
          return WordAbort;
        }
        q := step.quote;
        if step.part.value != "" {
          parts := parts + [step.part];
        }
        PrependStep(ps0, step.part, WordAt(input, pos, q));
      }
      assert parts + [] == parts;
      return WordEnd(parts, pos);
    }

    method NextToken() returns (tok: Token)
      requires Valid()
      modifies this
      ensures Valid() && tok == TokenAt(input, old(pos)).0
      ensures !tok.Abort? ==> pos == TokenAt(input, old(pos)).1
    {
      SkipWhitespace();
      var start := pos;
      var c := Peek(input, pos);
      match c
      case '|' =>
        pos := pos + 1;
        if Peek(input, pos) == '|' {
          pos := pos + 1;
          return Or;
        }
        return Pipe;
      case '&' =>
        pos := pos + 1;
        if Peek(input, pos) == '&' {
          pos := pos + 1;
          return And;
        }
        return Bg;
      case '>' =>
        pos := pos + 1;
        if Peek(input, pos) == '>' {
          pos := pos + 1;
          return RedirAppend;
        }
        return RedirOut;
      case '<' =>
        pos := pos + 1;
        return RedirIn;
      case ';' =>
        pos := pos + 1;
        return Semi;
      case '\0' =>
        return Eof;
      case _ =>
        var r := HandleWord();
        if r.WordAbort? {
          return Abort;
        }
        var raw := input[start..pos];
        if IsNumber(raw) && (Peek(input, pos) == '>' || Peek(input, pos) == '<') {
          return Fd(raw);
        }
        return Word(raw, r.parts);
    }
  }

  lemma PrependStep(ps: seq<Part>, part: Part, r: WordResult)
    ensures Prepend(ps, Prepend([part], r)) == Prepend(ps + [part], r)
  {
    if r.WordEnd? {
      assert ps + ([part] + r.parts) == ps + [part] + r.parts;
    }
  }
}
