/** How much of a line the parser reads: its outer loop stops silently where no command starts. */
module ParsingEnd {
  import opened Lexing
  import opened Parsing
  import opened ParsingShape

  /** A token after which a new command is expected. */
  predicate Divides(t: Token) {
    t.Semi? || t.Bg? || t.And? || t.Or?
  }

  predicate Redirects(t: Token) {
    t.Fd? || IsRedirection(t)
  }

  /** A redirection where a command should start. */
  predicate Breaks(a: Token, b: Token) {
    Divides(a) && Redirects(b)
  }

  predicate BreakAt(toks: seq<Token>, i: nat) {
    i + 1 < |toks| && Breaks(toks[i], toks[i + 1])
  }

  /** The parser went from `toks` to `rest` within one pipeline: nothing it took divides. */
  ghost predicate Within(toks: seq<Token>, rest: seq<Token>) {
    && |rest| <= |toks| && rest == toks[|toks| - |rest|..]
    && forall i :: 0 <= i < |toks| - |rest| ==> !Divides(toks[i])
  }

  /** The parser went from `toks` to `rest` without passing a break. If it took anything, it stands at
      a redirection only directly behind a break. */
  ghost predicate Passed(toks: seq<Token>, rest: seq<Token>) {
    && |rest| <= |toks| && rest != [] && rest == toks[|toks| - |rest|..]
    && (forall i :: 0 <= i < |toks| - |rest| - 1 ==> !BreakAt(toks, i))
    && (|rest| < |toks| && Redirects(rest[0]) ==> BreakAt(toks, |toks| - |rest| - 1))
  }

  // ---------------------------------------------------------------- one pipeline

  lemma WithinNext(toks: seq<Token>)
    requires toks != [] && !Divides(toks[0])
    ensures Within(toks, toks[1..])
  {}

  lemma WithinAgain(a: seq<Token>, b: seq<Token>, c: seq<Token>)
    requires Within(a, b) && Within(b, c)
    ensures Within(a, c)
  {
    var n := |a| - |b|;
    forall i | 0 <= i < |a| - |c| ensures !Divides(a[i]) {
      if i >= n {
        assert a[i] == b[i - n];
      }
    }
  }

  lemma {:induction false} ArgumentsWithin(toks: seq<Token>)
    requires toks != [] && ParseArguments(toks).Ok?
    ensures Within(toks, ParseArguments(toks).rest)
    decreases |toks|
  {
    if toks[0].Word? {
      WithinNext(toks);
      ArgumentsWithin(toks[1..]);
      WithinAgain(toks, toks[1..], ParseArguments(toks).rest);
    }
  }

  lemma RedirectionWithin(toks: seq<Token>)
    requires toks != [] && ParseRedirection(toks).Ok?
    ensures Within(toks, ParseRedirection(toks).rest)
  {
    var ops := ParseFd(toks).rest;
    if toks[0].Fd? {
      WithinNext(toks);
    }
    WithinNext(ops);
    WithinNext(ops[1..]);
    WithinAgain(ops, ops[1..], ops[2..]);
    WithinAgain(toks, ops, ops[2..]);
  }

  lemma {:induction false} RedirectionsWithin(toks: seq<Token>)
    requires toks != [] && ParseRedirections(toks).Ok?
    ensures var rest := ParseRedirections(toks).rest; Within(toks, rest) && !Redirects(rest[0])
    decreases |toks|
  {
    if Redirects(toks[0]) {
      var rest := ParseRedirection(toks).rest;
      RedirectionWithin(toks);
      RedirectionsWithin(rest);
      WithinAgain(toks, rest, ParseRedirections(toks).rest);
    }
  }

  /** A command that is not missing ends behind all its redirections. */
  lemma CommandWithin(toks: seq<Token>)
    requires toks != [] && ParseCommand(toks).Ok?
    ensures var rest := ParseCommand(toks).rest; Within(toks, rest) && (Redirects(rest[0]) ==> rest == toks)
  {
    if toks[0].Word? {
      var rest := ParseArguments(toks).rest;
      ArgumentsWithin(toks);
      RedirectionsWithin(rest);
      WithinAgain(toks, rest, ParseCommand(toks).rest);
    }
  }

  lemma {:induction false} PipesWithin(toks: seq<Token>)
    requires toks != [] && ParsePipes(toks).Ok?
    ensures var rest := ParsePipes(toks).rest; Within(toks, rest) && (Redirects(rest[0]) ==> rest == toks)
    decreases |toks|
  {
    if toks[0].Pipe? {
      var next := toks[1..];
      var rest := ParseCommand(next).rest;
      WithinNext(toks);
      CommandWithin(next);
      WithinAgain(toks, next, rest);
      PipesWithin(rest);
      WithinAgain(toks, rest, ParsePipes(toks).rest);
    }
  }

  lemma PipelineWithin(toks: seq<Token>)
    requires toks != [] && ParsePipeline(toks).Ok?
    ensures var rest := ParsePipeline(toks).rest; Within(toks, rest) && (Redirects(rest[0]) ==> rest == toks)
  {
    var rest := ParseCommand(toks).rest;
    CommandWithin(toks);
    PipesWithin(rest);
    WithinAgain(toks, rest, ParsePipeline(toks).rest);
  }

  // ---------------------------------------------------------------- a whole line

  lemma PassedNext(toks: seq<Token>)
    requires |toks| >= 2 && Divides(toks[0])
    ensures Passed(toks, toks[1..])
  {}

  /** The parser goes on from a redirection only if it took nothing before. */
  lemma PassedAgain(a: seq<Token>, b: seq<Token>, c: seq<Token>)
    requires Passed(a, b) && Passed(b, c) && (Redirects(b[0]) ==> c == b)
    ensures Passed(a, c)
  {
    var n := |a| - |b|;
    forall i | 0 <= i < |a| - |c| ensures BreakAt(a, i) == if i < n then BreakAt(a, i) else BreakAt(b, i - n) {
      if i >= n {
        assert a[i] == b[i - n];
      }
    }
    assert n > 0 && |c| < |b| ==> !BreakAt(a, n - 1);
  }

  /** At a redirection there is no command, no operator and no separator to take. */
  lemma RedirectionStays(toks: seq<Token>)
    requires toks != [] && Redirects(toks[0])
    ensures ParsePipeline(toks) == Ok(Null, toks)
    ensures ParseOperators(toks) == Ok([], toks) && SkipSeparators(toks) == Ok((), toks)
  {}

  lemma OperatorPasses(toks: seq<Token>, next: seq<Token>, rest: seq<Token>, end: seq<Token>)
    requires |toks| >= 2 && Divides(toks[0]) && next == toks[1..]
    requires Within(next, rest) && rest != [] && (Redirects(next[0]) || Redirects(rest[0]) ==> rest == next)
    requires Passed(rest, end) && (Redirects(rest[0]) ==> end == rest)
    ensures Passed(toks, end)
  {
    PassedNext(toks);
    PassedAgain(toks, next, rest);
    PassedAgain(toks, rest, end);
  }

  lemma {:induction false} OperatorsPass(toks: seq<Token>)
    requires toks != [] && ParseOperators(toks).Ok?
    ensures Passed(toks, ParseOperators(toks).rest)
    decreases |toks|
  {
    if toks[0].And? || toks[0].Or? {
      var right, others := OperatorsUnfold(toks);
      PipelineWithin(toks[1..]);
      OperatorsPass(right.rest);
      if Redirects(toks[1]) {
        RedirectionStays(toks[1..]);
      }
      if Redirects(right.rest[0]) {
        RedirectionStays(right.rest);
      }
      OperatorPasses(toks, toks[1..], right.rest, others.rest);
    }
  }

  lemma ConditionalPasses(toks: seq<Token>)
    requires toks != [] && ParseConditional(toks).Ok?
    ensures Passed(toks, ParseConditional(toks).rest)
  {
    var rest := ParsePipeline(toks).rest;
    PipelineWithin(toks);
    OperatorsPass(rest);
    if Redirects(rest[0]) {
      RedirectionStays(rest);
    }
    PassedAgain(toks, rest, ParseConditional(toks).rest);
  }

  lemma {:induction false} SeparatorsPass(toks: seq<Token>)
    requires toks != [] && SkipSeparators(toks).Ok?
    ensures var rest := SkipSeparators(toks).rest;
            Passed(toks, rest) && !rest[0].Semi? && !rest[0].Bg?
    decreases |toks|
  {
    if toks[0].Semi? || toks[0].Bg? {
      PassedNext(toks);
      SeparatorsPass(toks[1..]);
      if Redirects(toks[1]) {
        RedirectionStays(toks[1..]);
      }
      PassedAgain(toks, toks[1..], SkipSeparators(toks).rest);
    }
  }

  /** A token at which the outer loop stops. */
  predicate Stops(t: Token) {
    t.Semi? || t.Bg? || Redirects(t)
  }

  lemma {:induction false} LeftNestNotNull(left: Ast, others: seq<(CondOp, Ast)>)
    ensures LeftNest(left, others).Null? <==> left.Null? && others == []
    decreases |others|
  {
    if others != [] {
      LeftNestNotNull(Conditional(left, others[0].1, others[0].0), others[1..]);
    }
  }

  lemma MissingItem(toks: seq<Token>)
    requires Good(toks) && !toks[0].Eof? && ParseConditional(toks).Ok?
    ensures ParseConditional(toks).value.Null? <==> Stops(toks[0])
    ensures Stops(toks[0]) ==> ParseConditional(toks).rest == toks
  {
    var first := ParsePipeline(toks);
    LeftNestNotNull(first.value, ParseOperators(first.rest).value);
  }

  ghost predicate NoBreak(toks: seq<Token>) {
    forall i: nat :: !BreakAt(toks, i)
  }

  lemma NoBreakBehind(toks: seq<Token>, rest: seq<Token>)
    requires Passed(toks, rest) && rest != toks
    ensures NoBreak(toks) <==> !Redirects(rest[0]) && NoBreak(rest)
  {
    var n := |toks| - |rest|;
    forall i: nat ensures BreakAt(rest, i) <==> BreakAt(toks, n + i) {}
    forall i: nat | i >= n ensures BreakAt(toks, i) <==> BreakAt(rest, i - n) {}
    assert BreakAt(toks, n - 1) <==> Redirects(rest[0]);
  }

  /** The parser took one item and the separators behind it. */
  lemma ItemPasses(toks: seq<Token>, item: Parsed<Ast>, rest: seq<Token>)
    requires Good(toks) && item == ParseConditional(toks) && item.Ok? && !item.value.Null?
    requires SkipSeparators(item.rest).Ok? && rest == SkipSeparators(item.rest).rest
    ensures Good(rest) && |rest| < |toks| && (Stops(rest[0]) <==> Redirects(rest[0]))
    ensures Passed(toks, rest) && (NoBreak(toks) <==> !Redirects(rest[0]) && NoBreak(rest))
  {
    ConditionalPasses(toks);
    ConditionalShape(toks);
    SeparatorsPass(item.rest);
    SeparatorsShape(item.rest);
    if Redirects(item.rest[0]) {
      RedirectionStays(item.rest);
    }
    PassedAgain(toks, item.rest, rest);
    NoBreakBehind(toks, rest);
  }

  /** The outer loop comes to the end of the line if and only if a command, a bar or an AND-OR
      operator stands at its start, and no redirection directly behind a separator or such an
      operator. Otherwise it drops the line from its start or from behind the first such place. */
  lemma {:induction false} EndReached(toks: seq<Token>)
    requires Good(toks) && !toks[0].Eof? && ParseItems(toks).Ok?
    ensures ParseItems(toks).rest[0].Eof? <==> !Stops(toks[0]) && NoBreak(toks)
    ensures var end := ParseItems(toks).rest;
            if Stops(toks[0]) then end == toks else Passed(toks, end) && (end[0].Eof? || Redirects(end[0]))
    decreases |toks|
  {
    MissingItem(toks);
    var item := ParseConditional(toks);
    if !item.value.Null? {
      var rest := SkipSeparators(item.rest).rest;
      ItemPasses(toks, item, rest);
      if !rest[0].Eof? {
        EndReached(rest);
        PassedAgain(toks, rest, ParseItems(rest).rest);
      }
    }
  }

  /** For every line that gives a tree and is not empty. */
  lemma LineReadToEnd(w: CString)
    requires ParseText(w).Tree? && !ParseText(w).ast.Null?
    ensures var toks := Tokens(w, 0);
            ParseItems(toks).Ok? && (ParseItems(toks).rest[0].Eof? <==> !Stops(toks[0]) && NoBreak(toks))
  {
    TokensStreamOk(w, 0);
    TokensOk(w, 0);
    EndReached(Tokens(w, 0));
  }

  // ---------------------------------------------------------------- lines that lose their end

  /** A line that starts with a separator is empty for the parser, whatever follows. */
  lemma SeparatorFirst(w: CString)
    requires w != "" && w[0] == ';'
    ensures ParseText(w) == Tree(Sequence([]))
  {
    assert TokenAt(w, 0) == (Semi, 1);
    assert Tokens(w, 0)[0] == Semi;
  }

  /** One letter, up to a space or the end. */
  predicate LetterAt(w: CString, p: nat) {
    p < |w| && 'a' <= w[p] <= 'z' && (p + 1 < |w| ==> w[p + 1] == ' ')
  }

  function Letter(c: char): seq<Part> {
    [Part(Literal, NoQuote, [c])]
  }

  lemma LetterPart(w: CString, p: nat)
    requires LetterAt(w, p)
    ensures InWord(w, p, NoQuote) && PartAt(w, p, NoQuote) == Step(Part(Literal, NoQuote, [w[p]]), NoQuote, p + 1)
  {
    assert LiteralAt(w, p + 1, NoQuote) == ("", p + 1);
    assert LiteralAt(w, p, NoQuote) == ([w[p]] + "", p + 1);
  }

  lemma LetterWord(w: CString, p: nat)
    requires LetterAt(w, p)
    ensures TokenAt(w, p) == (Word([w[p]], Letter(w[p])), p + 1)
  {
    LetterPart(w, p);
    assert WordAt(w, p + 1, NoQuote) == WordEnd([], p + 1);
    assert WordAt(w, p, NoQuote) == WordEnd(Letter(w[p]), p + 1);
    assert SkipSpaces(w, p) == p && w[p..p + 1] == [w[p]];
  }

  lemma OneWord(toks: seq<Token>, semi: seq<Token>, raw: string, word: seq<Part>)
    requires toks == [Word(raw, word)] + semi && semi != [] && semi[0] == Semi
    ensures ParseConditional(toks) == Ok(Command([word], [], false), semi)
  {
    assert toks[1..] == semi;
    assert ParseArguments(semi) == Ok([], semi);
    assert [word] + [] == [word];
    assert ParseArguments(toks) == Ok([word], semi);
    assert ParseRedirections(semi) == Ok([], semi);
    assert ParseCommand(toks) == Ok(Command([word], [], false), semi);
    assert ParsePipeline(toks) == Ok(Command([word], [], false), semi);
  }

  lemma OneSemicolon(semi: seq<Token>, rest: seq<Token>)
    requires semi == [Semi] + rest && rest != [] && IsRedirection(rest[0])
    ensures SkipSeparators(semi) == Ok((), rest) && ParseItems(rest) == Ok([], rest)
  {
    assert semi[1..] == rest;
    assert SkipSeparators(rest) == Ok((), rest);
    assert ParseConditional(rest) == Ok(Null, rest);
  }

  /** One word, a separator and a redirection: all from the redirection on is dropped. */
  lemma RedirectionDropped(toks: seq<Token>, semi: seq<Token>, rest: seq<Token>, raw: string, word: seq<Part>)
    requires toks == [Word(raw, word)] + semi && semi == [Semi] + rest && rest != [] && IsRedirection(rest[0])
    ensures ParseProgram(toks) == Tree(Sequence([Command([word], [], false)]))
  {
    OneWord(toks, semi, raw, word);
    OneSemicolon(semi, rest);
    assert [Command([word], [], false)] + [] == [Command([word], [], false)];
  }

  lemma LetterToken(w: CString, p: nat, c: char, q: nat)
    requires LetterAt(w, p) && c == w[p] && q == p + 1
    ensures Tokens(w, p) == [Word([c], Letter(c))] + Tokens(w, q)
  {
    LetterWord(w, p);
    TokensStep(w, p, Word([c], Letter(c)), q);
  }

  lemma SemicolonToken(w: CString, p: nat, q: nat)
    requires p + 1 < |w| && w[p] == ' ' && w[p + 1] == ';' && q == p + 2
    ensures Tokens(w, p) == [Semi] + Tokens(w, q)
  {
    SpaceBetween(w, p, p + 1);
    TokensStep(w, p + 1, Semi, q);
  }

  lemma RedirectionToken(w: CString, p: nat)
    requires p + 1 < |w| && w[p] == ' ' && (w[p + 1] == '<' || w[p + 1] == '>')
    ensures IsRedirection(Tokens(w, p)[0])
  {
    SpaceBetween(w, p, p + 1);
    RedirectionNext(w, p + 1);
  }

  /** A line of a one-letter command and then a redirection: whatever follows is dropped with it. */
  lemma RedirectionLost(w: CString)
    requires |w| > 4 && LetterAt(w, 0) && w[1] == w[3] == ' ' && w[2] == ';' && (w[4] == '<' || w[4] == '>')
    ensures ParseText(w) == Tree(Sequence([Command([Letter(w[0])], [], false)]))
  {
    var c := w[0];
    LetterToken(w, 0, c, 1);
    SemicolonToken(w, 1, 3);
    RedirectionToken(w, 3);
    RedirectionDropped(Tokens(w, 0), Tokens(w, 1), Tokens(w, 3), [c], Letter(c));
  }

  /** Two commands of which the parser drops the second. */
  lemma SecondCommandLost()
    ensures ParseText("a ; >f b") == Tree(Sequence([Command([Letter('a')], [], false)]))
  {
    var w := "a ; >f b";
    assert w[0] == 'a' && w[1] == w[3] == ' ' && w[2] == ';' && w[4] == '>';
    RedirectionLost(w);
  }
}
