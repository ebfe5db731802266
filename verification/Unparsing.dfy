/** From syntax trees back to token streams and text, with the round-trip theorems. */
module Unparsing {
  import opened Decimals
  import opened Lexing
  import opened Parsing
  import opened ParsingShape
  import opened Printing
  import opened PrintingTokens
  import opened Sequences

  // ---------------------------------------------------------------- decimal descriptors

  /** Reading a printed descriptor gives the same 32-bit number. */
  lemma DecimalRoundTrip(x: int)
    requires IsInt32(x)
    ensures IsNumber(Decimal(x)) && FdValue(Decimal(x)) == x
  {
    DecimalNatValue(if x < 0 then -x else x);
    var s := Decimal(x);
    if x < 0 {
      assert Unsigned(s) == DecimalNat(-x);
    } else {
      assert IsDigit(s[0]);
      assert Unsigned(s) == s;
    }
  }

  // ---------------------------------------------------------------- trees to tokens

  /** How words are spelled; the parser looks only at their pieces, so any spelling does here. */
  type Text = seq<Part> -> string

  function WordToks(f: Text, ps: seq<Part>): seq<Token> {
    [Word(f(ps), ps)]
  }

  function ArgumentToks(f: Text, argv: seq<seq<Part>>): seq<Token> {
    if argv == [] then [] else WordToks(f, argv[0]) + ArgumentToks(f, argv[1..])
  }

  function Operator(k: RedirKind): Token {
    match k
    case Input => RedirIn
    case Output => RedirOut
    case Appending => RedirAppend
  }

  function RedirToks(f: Text, r: Redir): seq<Token> {
    [Fd(Decimal(r.fd)), Operator(r.kind)] + WordToks(f, r.target)
  }

  function RedirsToks(f: Text, rs: seq<Redir>): seq<Token> {
    if rs == [] then [] else RedirToks(f, rs[0]) + RedirsToks(f, rs[1..])
  }

  function CommandToks(f: Text, a: Ast): seq<Token> {
    if a.Command? then ArgumentToks(f, a.argv) + RedirsToks(f, a.redirs) else []
  }

  function PipesToks(f: Text, cs: seq<Ast>): seq<Token> {
    if cs == [] then [] else [Pipe] + CommandToks(f, cs[0]) + PipesToks(f, cs[1..])
  }

  function PipelineToks(f: Text, a: Ast): seq<Token> {
    if a.Pipeline? && a.nodes != [] then CommandToks(f, a.nodes[0]) + PipesToks(f, a.nodes[1..]) else CommandToks(f, a)
  }

  /** The flat reading of a left-nested conditional: its first pipeline and the operators after it. */
  function First(a: Ast): Ast {
    if a.Conditional? then First(a.left) else a
  }

  function Others(a: Ast): seq<(CondOp, Ast)> {
    if a.Conditional? then Others(a.left) + [(a.op, a.right)] else []
  }

  function OperatorTok(op: CondOp): Token {
    if op == AndIf then And else Or
  }

  function OperatorsToks(f: Text, others: seq<(CondOp, Ast)>): seq<Token> {
    if others == [] then []
    else [OperatorTok(others[0].0)] + PipelineToks(f, others[0].1) + OperatorsToks(f, others[1..])
  }

  function ConditionalToks(f: Text, a: Ast): seq<Token> {
    PipelineToks(f, First(a)) + OperatorsToks(f, Others(a))
  }

  /** Whether the last command of an item is marked background. */
  predicate EndsBackground(a: Ast) {
    match a
    case Command(_, _, background) => background
    case Pipeline(nodes) => nodes != [] && EndsBackground(nodes[|nodes| - 1])
    case Conditional(_, right, _) => EndsBackground(right)
    case _ => false
  }

  function Separator(a: Ast): Token {
    if EndsBackground(a) then Bg else Semi
  }

  function ItemsToks(f: Text, items: seq<Ast>): seq<Token> {
    if items == [] then [Eof] else ConditionalToks(f, items[0]) + [Separator(items[0])] + ItemsToks(f, items[1..])
  }

  function ProgramToks(f: Text, a: Ast): seq<Token> {
    if !a.Sequence? then [Eof] else if a.nodes == [] then [Semi, Eof] else ItemsToks(f, a.nodes)
  }

  function ProgramText(a: Ast): string {
    TokensText(ProgramToks(WordText, a))
  }

  // ---------------------------------------------------------------- parsing the tokens back

  /** What may follow a finished command: no word, no redirection, no abort. */
  predicate AfterCommand(k: seq<Token>) {
    k != [] && !k[0].Word? && !k[0].Fd? && !IsRedirection(k[0]) && !k[0].Abort?
  }

  lemma Regroup3(a: seq<Token>, b: seq<Token>, c: seq<Token>, k: seq<Token>)
    ensures a + b + c + k == a + (b + (c + k))
  {}

  lemma NextCons(t: Token, k: seq<Token>)
    requires k != [] && !k[0].Abort?
    ensures Next([t] + k) == Ok((), k)
  {
    assert ([t] + k)[1..] == k;
  }

  lemma {:induction false} ArgumentsBack(f: Text, argv: seq<seq<Part>>, k: seq<Token>)
    requires k != [] && !k[0].Word? && !k[0].Abort?
    ensures ParseArguments(ArgumentToks(f, argv) + k) == Ok(argv, k)
    decreases |argv|
  {
    if argv == [] {
      Nothing(k);
    } else {
      var t, tail := Word(f(argv[0]), argv[0]), argv[1..];
      ArgumentsBack(f, tail, k);
      Regroup([t], ArgumentToks(f, tail), k);
      Cons(argv);
    }
  }

  lemma RedirectionBack(f: Text, r: Redir, k: seq<Token>)
    requires RedirOk(r) && k != [] && !k[0].Abort?
    ensures ParseRedirection(RedirToks(f, r) + k) == Ok(r, k)
  {
    DecimalRoundTrip(r.fd);
    var fd, op, word := Fd(Decimal(r.fd)), Operator(r.kind), Word(f(r.target), r.target);
    assert RedirToks(f, r) + k == [fd] + ([op] + ([word] + k));
    NextCons(fd, [op] + ([word] + k));
    NextCons(op, [word] + k);
    NextCons(word, k);
  }

  /** A redirection in front of what is read already. */
  lemma OneMoreRedirection(f: Text, r: Redir, rest: seq<Token>, tail: seq<Redir>, k: seq<Token>)
    requires RedirOk(r) && rest != [] && !rest[0].Abort? && ParseRedirections(rest) == Ok(tail, k)
    ensures ParseRedirections(RedirToks(f, r) + rest) == Ok([r] + tail, k)
  {
    RedirectionBack(f, r, rest);
  }

  lemma {:induction false} RedirectionsBack(f: Text, rs: seq<Redir>, k: seq<Token>)
    requires (forall i :: 0 <= i < |rs| ==> RedirOk(rs[i])) && AfterCommand(k)
    ensures ParseRedirections(RedirsToks(f, rs) + k) == Ok(rs, k)
    decreases |rs|
  {
    if rs == [] {
      Nothing(k);
    } else {
      var r, tail := rs[0], rs[1..];
      RedirectionsBack(f, tail, k);
      Regroup(RedirToks(f, r), RedirsToks(f, tail), k);
      OneMoreRedirection(f, r, RedirsToks(f, tail) + k, tail, k);
      Cons(rs);
    }
  }

  lemma CommandBack(f: Text, a: Ast, k: seq<Token>)
    requires CommandOk(a, true) && AfterCommand(k) && (a.background <==> k[0].Bg?)
    ensures ParseCommand(CommandToks(f, a) + k) == Ok(a, k)
  {
    var rest := RedirsToks(f, a.redirs) + k;
    Regroup(ArgumentToks(f, a.argv), RedirsToks(f, a.redirs), k);
    if a.redirs != [] {
      assert rest[0] == Fd(Decimal(a.redirs[0].fd));
    }
    ArgumentsBack(f, a.argv, rest);
    RedirectionsBack(f, a.redirs, k);
    assert (ArgumentToks(f, a.argv) + rest)[0] == WordToks(f, a.argv[0])[0];
  }

  lemma CommandsCons(cs: seq<Ast>, last: bool)
    requires CommandsOk(cs, last) && cs != []
    ensures cs == [cs[0]] + cs[1..] && CommandOk(cs[0], true) && CommandsOk(cs[1..], last)
    ensures |cs| > 1 ==> !cs[0].background && cs[1..][|cs| - 2] == cs[|cs| - 1]
  {
    assert forall i :: 0 <= i < |cs[1..]| ==> cs[1..][i] == cs[i + 1];
    assert CommandOk(cs[0], last && 0 == |cs| - 1);
  }

  /** A command behind a bar, in front of what is read already. */
  lemma OneMorePipe(f: Text, a: Ast, tail: seq<Ast>, rest: seq<Token>, k: seq<Token>)
    requires CommandOk(a, true) && AfterCommand(rest) && (a.background <==> rest[0].Bg?)
    requires ParsePipes(rest) == Ok(tail, k)
    ensures ParsePipes([Pipe] + (CommandToks(f, a) + rest)) == Ok([a] + tail, k)
  {
    CommandBack(f, a, rest);
  }

  lemma {:induction false} PipesBack(f: Text, cs: seq<Ast>, last: bool, k: seq<Token>)
    requires CommandsOk(cs, last) && AfterCommand(k) && !k[0].Pipe?
    requires cs != [] ==> (cs[|cs| - 1].background <==> k[0].Bg?)
    ensures ParsePipes(PipesToks(f, cs) + k) == Ok(cs, k)
    decreases |cs|
  {
    if cs == [] {
      Nothing(k);
    } else {
      var a, tail := cs[0], cs[1..];
      CommandsCons(cs, last);
      var rest := PipesToks(f, tail) + k;
      PipesBack(f, tail, last, k);
      OneMorePipe(f, a, tail, rest, k);
      Regroup3([Pipe], CommandToks(f, a), PipesToks(f, tail), k);
    }
  }

  /** A missing command takes no tokens. */
  lemma MaybeCommandBack(f: Text, a: Ast, k: seq<Token>)
    requires a.Null? || CommandOk(a, true)
    requires AfterCommand(k) && (a.Command? ==> (a.background <==> k[0].Bg?))
    ensures ParseCommand(CommandToks(f, a) + k) == Ok(a, k)
  {
    if a.Null? {
      Nothing(k);
    } else {
      CommandBack(f, a, k);
    }
  }

  lemma LastCommand(f: Text, a: Ast, last: bool) returns (others: seq<Ast>)
    requires PipelineOk(a, last) && a.Pipeline?
    ensures others != [] && a.nodes == [a.nodes[0]] + others && CommandsOk(others, last)
    ensures CommandOk(others[|others| - 1], last)
    ensures others[|others| - 1].background <==> EndsBackground(a)
    ensures a.nodes[0].Null? || (CommandOk(a.nodes[0], true) && !a.nodes[0].background)
    ensures PipelineToks(f, a) == CommandToks(f, a.nodes[0]) + PipesToks(f, others)
  {
    others := a.nodes[1..];
    assert CommandOk(others[|others| - 1], last && |others| - 1 == |others| - 1);
    assert others[|others| - 1] == a.nodes[|a.nodes| - 1];
  }

  lemma PipelineBack(f: Text, a: Ast, k: seq<Token>)
    requires PipelineOk(a, true) && AfterCommand(k) && !k[0].Pipe?
    requires !a.Null? ==> (EndsBackground(a) <==> k[0].Bg?)
    ensures ParsePipeline(PipelineToks(f, a) + k) == Ok(a, k)
  {
    if a.Pipeline? {
      var others := LastCommand(f, a, true);
      var first, rest := a.nodes[0], PipesToks(f, others) + k;
      assert rest[0] == Pipe;
      MaybeCommandBack(f, first, rest);
      PipesBack(f, others, true, k);
      Regroup(CommandToks(f, first), PipesToks(f, others), k);
    } else {
      MaybeCommandBack(f, a, k);
    }
  }

  lemma OperatorsStep(op: CondOp, a: Ast, right: seq<Token>, rest: seq<Token>, others: seq<(CondOp, Ast)>,
                      k: seq<Token>)
    requires right != [] && !right[0].Abort? && rest != []
    requires ParsePipeline(right) == Ok(a, rest) && ParseOperators(rest) == Ok(others, k)
    ensures ParseOperators([OperatorTok(op)] + right) == Ok([(op, a)] + others, k)
  {
    NextCons(OperatorTok(op), right);
  }

  /** An operator and its right operand in front of what is read already. */
  lemma OneMoreOperator(f: Text, op: CondOp, a: Ast, rest: seq<Token>, tail: seq<(CondOp, Ast)>, k: seq<Token>)
    requires PipelineOk(a, true) && AfterCommand(rest) && !rest[0].Pipe?
    requires !a.Null? ==> (EndsBackground(a) <==> rest[0].Bg?)
    requires ParseOperators(rest) == Ok(tail, k)
    ensures ParseOperators([OperatorTok(op)] + (PipelineToks(f, a) + rest)) == Ok([(op, a)] + tail, k)
  {
    PipelineBack(f, a, rest);
    OperatorsStep(op, a, PipelineToks(f, a) + rest, rest, tail, k);
  }

  lemma {:induction false} OperatorsBack(f: Text, others: seq<(CondOp, Ast)>, k: seq<Token>)
    requires OperandsOk(others, true)
    requires AfterCommand(k) && !k[0].Pipe? && !k[0].And? && !k[0].Or?
    requires others != [] && !others[|others| - 1].1.Null? ==> (EndsBackground(others[|others| - 1].1) <==> k[0].Bg?)
    ensures ParseOperators(OperatorsToks(f, others) + k) == Ok(others, k)
    decreases |others|
  {
    if others == [] {
      Nothing(k);
    } else {
      var op, a, tail := others[0].0, others[0].1, others[1..];
      OperatorsBack(f, tail, k);
      if tail != [] {
        ForegroundPipeline(a);
      }
      OneMoreOperator(f, op, a, OperatorsToks(f, tail) + k, tail, k);
      Regroup3([OperatorTok(op)], PipelineToks(f, a), OperatorsToks(f, tail), k);
      Cons(others);
    }
  }

  lemma ForegroundPipeline(a: Ast)
    requires PipelineOk(a, false)
    ensures PipelineOk(a, true) && !EndsBackground(a)
  {
    if a.Pipeline? {
      var cs := a.nodes[1..];
      assert CommandOk(cs[|cs| - 1], false);
      assert forall i :: 0 <= i < |cs| ==> CommandOk(cs[i], false && i == |cs| - 1);
    }
  }

  // ---------------------------------------------------------------- flat lists and left-nested trees

  lemma {:induction false} LeftNestSnoc(left: Ast, others: seq<(CondOp, Ast)>, x: (CondOp, Ast))
    ensures LeftNest(left, others + [x]) == Conditional(LeftNest(left, others), x.1, x.0)
    decreases |others|
  {
    if others == [] {
      assert (others + [x])[1..] == [];
    } else {
      assert (others + [x])[1..] == others[1..] + [x];
      LeftNestSnoc(Conditional(left, others[0].1, others[0].0), others[1..], x);
    }
  }

  /** Flattening a tree and nesting it again to the left gives the tree back. */
  lemma {:induction false} LeftNestOfFlat(a: Ast)
    ensures LeftNest(First(a), Others(a)) == a
  {
    if a.Conditional? {
      LeftNestOfFlat(a.left);
      LeftNestSnoc(First(a), Others(a.left), (a.op, a.right));
    }
  }

  /** And the other way around: the flat list of a nested list is that list. */
  lemma {:induction false} FlatOfLeftNest(left: Ast, others: seq<(CondOp, Ast)>)
    requires !left.Conditional?
    ensures First(LeftNest(left, others)) == left && Others(LeftNest(left, others)) == others
    decreases |others|
  {
    if others != [] {
      var init, x := others[..|others| - 1], others[|others| - 1];
      assert others == init + [x];
      LeftNestSnoc(left, init, x);
      FlatOfLeftNest(left, init);
    }
  }

  /** The flat list of a well-shaped conditional: pipelines only, background only at the end. */
  lemma {:induction false} FlatShape(a: Ast, last: bool)
    requires ConditionalOk(a, last)
    ensures OperandsOk(Others(a), last) && PipelineOk(First(a), last && Others(a) == [])
    ensures Others(a) == [] ==> First(a) == a
    ensures Others(a) != [] ==> a.Conditional? && Others(a)[|Others(a)| - 1].1 == a.right
  {
    if a.Conditional? {
      FlatShape(a.left, false);
      var ls := Others(a.left);
      forall i | 0 <= i < |Others(a)| ensures PipelineOk(Others(a)[i].1, last && i == |Others(a)| - 1) {
        if i < |ls| {
          assert PipelineOk(ls[i].1, false && i == |ls| - 1);
        }
      }
    }
  }

  lemma ConditionalBack(f: Text, a: Ast, k: seq<Token>)
    requires ItemOk(a) && AfterCommand(k) && !k[0].Pipe? && !k[0].And? && !k[0].Or?
    requires k[0] == Separator(a)
    ensures ParseConditional(ConditionalToks(f, a) + k) == Ok(a, k)
  {
    FlatShape(a, true);
    var first, others := First(a), Others(a);
    var rest := OperatorsToks(f, others) + k;
    Regroup(PipelineToks(f, first), OperatorsToks(f, others), k);
    OperatorsBack(f, others, k);
    if others != [] {
      assert rest[0].And? || rest[0].Or?;
      ForegroundPipeline(first);
    } else {
      assert rest == k;
    }
    PipelineBack(f, first, rest);
    LeftNestOfFlat(a);
  }

  /** An item starts with a word or an operator, never with a separator or the end. */
  lemma ItemsStep(item: Ast, toks: seq<Token>, afterItem: seq<Token>, tail: seq<Token>, items: seq<Ast>)
    requires toks != [] && afterItem != [] && tail != [] && !item.Null?
    requires ParseConditional(toks) == Ok(item, afterItem) && SkipSeparators(afterItem) == Ok((), tail)
    requires if tail[0].Eof? then items == [] else ParseItems(tail).Ok? && ParseItems(tail).value == items
    ensures ParseItems(toks).Ok? && ParseItems(toks).value == [item] + items
  {}

  /** What `ParseItems` makes of the tokens of some items. */
  predicate ItemsRead(toks: seq<Token>, items: seq<Ast>)
    requires toks != []
  {
    ParseItems(toks).Ok? && ParseItems(toks).value == items
  }

  /** An item in front of what is read already. */
  lemma OneMoreItem(f: Text, item: Ast, tail: seq<Token>, rest: seq<Ast>)
    requires ItemOk(item) && tail != [] && !tail[0].Abort? && !tail[0].Semi? && !tail[0].Bg?
    requires if tail[0].Eof? then rest == [] else ItemsRead(tail, rest)
    ensures var toks := ConditionalToks(f, item) + ([Separator(item)] + tail);
            toks != [] && ItemsRead(toks, [item] + rest)
  {
    var sep := Separator(item);
    ConditionalBack(f, item, [sep] + tail);
    ItemsStep(item, ConditionalToks(f, item) + ([sep] + tail), [sep] + tail, tail, rest);
  }

  lemma ItemsCons(f: Text, items: seq<Ast>)
    requires items != []
    ensures items == [items[0]] + items[1..]
    ensures ItemsToks(f, items) == ConditionalToks(f, items[0]) + ([Separator(items[0])] + ItemsToks(f, items[1..]))
  {}

  lemma {:induction false} ItemsBack(f: Text, items: seq<Ast>)
    requires items != [] && forall i :: 0 <= i < |items| ==> ItemOk(items[i])
    ensures ItemsToks(f, items) != [] && ItemsRead(ItemsToks(f, items), items)
    decreases |items|
  {
    var item, rest := items[0], items[1..];
    if rest != [] {
      ItemsBack(f, rest);
    }
    OneMoreItem(f, item, ItemsToks(f, rest), rest);
    ItemsCons(f, items);
  }

  /** Parsing the tokens of a well-shaped tree gives the tree back. */
  lemma ProgramBack(f: Text, a: Ast)
    requires ProgramOk(a)
    ensures ParseProgram(ProgramToks(f, a)) == Tree(a)
  {
    if a.Sequence? {
      if a.nodes == [] {
        assert ParseConditional([Semi, Eof]).value == Null;
      } else {
        ItemsBack(f, a.nodes);
      }
    }
  }

  // ---------------------------------------------------------------- the tokens are a stream the lexer hands out

  predicate Inner(toks: seq<Token>, i: nat)
    requires i < |toks|
  {
    && Printable(toks[i]) && !toks[i].Eof?
    && (toks[i].Fd? ==> i + 1 < |toks| && IsRedirection(toks[i + 1]))
  }

  /** Part of a stream: printable, no end marker, every descriptor directly before its operator. */
  ghost predicate InnerStream(toks: seq<Token>) {
    forall i: nat :: i < |toks| ==> Inner(toks, i)
  }

  lemma InnerConcat(a: seq<Token>, b: seq<Token>)
    requires InnerStream(a) && InnerStream(b)
    ensures InnerStream(a + b)
  {
    forall i: nat | i < |a + b| ensures Inner(a + b, i) {
      if i < |a| {
        assert Inner(a, i);
      } else {
        assert Inner(b, i - |a|);
      }
    }
  }

  lemma InnerSingle(t: Token)
    requires Printable(t) && !t.Eof? && !t.Fd?
    ensures InnerStream([t])
  {}

  lemma {:induction false} ArgumentsInner(argv: seq<seq<Part>>)
    requires forall i :: 0 <= i < |argv| ==> PartsOk(argv[i])
    ensures InnerStream(ArgumentToks(WordText, argv))
    decreases |argv|
  {
    if argv != [] {
      InnerSingle(Word(WordText(argv[0]), argv[0]));
      ArgumentsInner(argv[1..]);
      InnerConcat(WordToks(WordText, argv[0]), ArgumentToks(WordText, argv[1..]));
    }
  }

  lemma RedirInner(r: Redir)
    requires RedirOk(r)
    ensures InnerStream(RedirToks(WordText, r))
  {
    DecimalRoundTrip(r.fd);
    var toks := RedirToks(WordText, r);
    assert toks == [Fd(Decimal(r.fd)), Operator(r.kind), Word(WordText(r.target), r.target)];
    forall i: nat | i < |toks| ensures Inner(toks, i) {
      assert i == 0 || i == 1 || i == 2;
    }
  }

  lemma {:induction false} RedirsInner(rs: seq<Redir>)
    requires forall i :: 0 <= i < |rs| ==> RedirOk(rs[i])
    ensures InnerStream(RedirsToks(WordText, rs))
    decreases |rs|
  {
    if rs != [] {
      RedirInner(rs[0]);
      RedirsInner(rs[1..]);
      InnerConcat(RedirToks(WordText, rs[0]), RedirsToks(WordText, rs[1..]));
    }
  }

  lemma CommandInner(a: Ast)
    requires a.Null? || CommandOk(a, true)
    ensures InnerStream(CommandToks(WordText, a))
  {
    if a.Command? {
      ArgumentsInner(a.argv);
      RedirsInner(a.redirs);
      InnerConcat(ArgumentToks(WordText, a.argv), RedirsToks(WordText, a.redirs));
    }
  }

  lemma {:induction false} PipesInner(cs: seq<Ast>)
    requires forall i :: 0 <= i < |cs| ==> CommandOk(cs[i], true)
    ensures InnerStream(PipesToks(WordText, cs))
    decreases |cs|
  {
    if cs != [] {
      InnerSingle(Pipe);
      CommandInner(cs[0]);
      PipesInner(cs[1..]);
      InnerConcat([Pipe], CommandToks(WordText, cs[0]));
      InnerConcat([Pipe] + CommandToks(WordText, cs[0]), PipesToks(WordText, cs[1..]));
    }
  }

  lemma PipelineInner(a: Ast)
    requires PipelineOk(a, true)
    ensures InnerStream(PipelineToks(WordText, a))
  {
    if a.Pipeline? {
      var others := LastCommand(WordText, a, true);
      forall i | 0 <= i < |others| ensures CommandOk(others[i], true) {
        assert CommandOk(others[i], true && i == |others| - 1);
      }
      CommandInner(a.nodes[0]);
      PipesInner(others);
      InnerConcat(CommandToks(WordText, a.nodes[0]), PipesToks(WordText, others));
    } else {
      CommandInner(a);
    }
  }

  lemma {:induction false} OperatorsInner(others: seq<(CondOp, Ast)>)
    requires forall i :: 0 <= i < |others| ==> PipelineOk(others[i].1, true)
    ensures InnerStream(OperatorsToks(WordText, others))
    decreases |others|
  {
    if others != [] {
      var op := if others[0].0 == AndIf then And else Or;
      InnerSingle(op);
      PipelineInner(others[0].1);
      OperatorsInner(others[1..]);
      InnerConcat([op], PipelineToks(WordText, others[0].1));
      InnerConcat([op] + PipelineToks(WordText, others[0].1), OperatorsToks(WordText, others[1..]));
    }
  }

  lemma ItemInner(a: Ast)
    requires ItemOk(a)
    ensures InnerStream(ConditionalToks(WordText, a) + [Separator(a)])
  {
    FlatShape(a, true);
    var others := Others(a);
    PipelineInner(First(a));
    OperatorsInner(others);
    InnerConcat(PipelineToks(WordText, First(a)), OperatorsToks(WordText, others));
    InnerSingle(Separator(a));
    InnerConcat(ConditionalToks(WordText, a), [Separator(a)]);
  }

  lemma {:induction false} ItemsInner(items: seq<Ast>) returns (toks: seq<Token>)
    requires forall i :: 0 <= i < |items| ==> ItemOk(items[i])
    ensures InnerStream(toks) && ItemsToks(WordText, items) == toks + [Eof]
    decreases |items|
  {
    if items == [] {
      toks := [];
    } else {
      ItemInner(items[0]);
      var tail := ItemsInner(items[1..]);
      var first := ConditionalToks(WordText, items[0]) + [Separator(items[0])];
      InnerConcat(first, tail);
      toks := first + tail;
    }
  }

  lemma ClosedStream(toks: seq<Token>)
    requires InnerStream(toks)
    ensures PrintableStream(toks + [Eof])
  {
    var s := toks + [Eof];
    forall i | 0 <= i < |s|
      ensures Printable(s[i]) && ((s[i].Eof? || s[i].Abort?) <==> i == |s| - 1)
      ensures s[i].Fd? ==> i + 1 < |s| && IsRedirection(s[i + 1])
    {
      if i < |toks| {
        assert Inner(toks, i);
      }
    }
  }

  lemma ProgramStream(a: Ast)
    requires ProgramOk(a)
    ensures PrintableStream(ProgramToks(WordText, a))
  {
    if a.Null? {
      ClosedStream([]);
    } else if a.nodes == [] {
      InnerSingle(Semi);
      ClosedStream([Semi]);
    } else {
      var toks := ItemsInner(a.nodes);
      ClosedStream(toks);
    }
  }

  // ---------------------------------------------------------------- the theorems

  /** Print and parse: every tree of the fixed shape comes back unchanged, through lexer and parser. */
  lemma {:induction false} PrintParse(a: Ast)
    requires ProgramOk(a)
    ensures '\0' !in ProgramText(a) && ParseText(ProgramText(a)) == Tree(a)
  {
    var toks, w := ProgramToks(WordText, a), ProgramText(a);
    ProgramStream(a);
    TokensTextNoNul(toks);
    forall i: nat | i < |w| ensures SameChar(w, 0, w, i) {}
    TokensRoundTrip(w, 0, toks, w);
    ProgramBack(WordText, a);
  }

  /** The shape is exact: a tree has it if and only if some input parses to that tree. */
  lemma {:induction false} ParserImage(a: Ast)
    ensures ProgramOk(a) <==> exists w: CString :: ParseText(w) == Tree(a)
  {
    if ProgramOk(a) {
      PrintParse(a);
      var w: CString := ProgramText(a);
      assert ParseText(w) == Tree(a);
    }
    forall w: CString | ParseText(w) == Tree(a) ensures ProgramOk(a) {
      ParseShape(w);
    }
  }

  /** Printing what any input parsed to and parsing again changes nothing. */
  lemma {:induction false} ReparseIsStable(w: CString)
    requires ParseText(w).Tree?
    ensures '\0' !in ProgramText(ParseText(w).ast) && ParseText(ProgramText(ParseText(w).ast)) == ParseText(w)
  {
    ParseShape(w);
    PrintParse(ParseText(w).ast);
  }
}
