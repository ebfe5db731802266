/** Where the parser divides a line into items: at separators, and behind a redirection that is
    followed by one more word. */
module ParsingItems {
  import opened Lexing
  import opened Parsing
  import opened ParsingShape
  import opened ParsingEnd

  /** A word directly behind the target of a redirection. */
  predicate ExtraAt(toks: seq<Token>, i: nat) {
    2 <= i < |toks| && IsRedirection(toks[i - 2]) && toks[i - 1].Word? && toks[i].Word?
  }

  /** The parser went from `toks` to `rest` without passing an extra word. */
  ghost predicate Clean(toks: seq<Token>, rest: seq<Token>) {
    && rest != [] && |rest| <= |toks| && rest == toks[|toks| - |rest|..]
    && (forall i: nat :: i < |toks| - |rest| ==> !ExtraAt(toks, i))
    && (|rest| < |toks| ==> !IsRedirection(toks[|toks| - |rest| - 1]))
  }

  /** If the parser took anything and stands at a word, that is an extra one. */
  predicate AtExtra(toks: seq<Token>, rest: seq<Token>) {
    |rest| < |toks| && rest != [] && rest[0].Word? ==> ExtraAt(toks, |toks| - |rest|)
  }

  lemma CleanNone(toks: seq<Token>)
    requires toks != []
    ensures Clean(toks, toks)
  {}

  lemma CleanNext(toks: seq<Token>)
    requires |toks| >= 2 && !IsRedirection(toks[0])
    ensures Clean(toks, toks[1..])
  {}

  lemma ExtraLater(a: seq<Token>, b: seq<Token>, n: nat, i: nat)
    requires n <= |a| && b == a[n..] && i >= 2
    ensures ExtraAt(a, n + i) <==> ExtraAt(b, i)
  {
    if i < |b| {
      assert b[i] == a[n + i] && b[i - 1] == a[n + i - 1] && b[i - 2] == a[n + i - 2];
    }
  }

  lemma CleanAgain(a: seq<Token>, b: seq<Token>, c: seq<Token>)
    requires Clean(a, b) && Clean(b, c)
    requires b[0].Word? && |c| < |b| ==> !ExtraAt(a, |a| - |b|)
    ensures Clean(a, c)
  {
    var n, m := |a| - |b|, |a| - |c|;
    forall i: nat | i < m ensures !ExtraAt(a, i) {
      if i >= n + 2 {
        ExtraLater(a, b, n, i - n);
      }
    }
    if |c| < |b| {
      assert a[m - 1] == b[m - 1 - n];
    }
  }

  lemma AtExtraAgain(a: seq<Token>, b: seq<Token>, c: seq<Token>)
    requires Clean(a, b) && Clean(b, c) && AtExtra(b, c) && (|c| == |b| ==> AtExtra(a, b))
    ensures AtExtra(a, c)
  {
    if |c| < |b| && c[0].Word? {
      ExtraLater(a, b, |a| - |b|, |b| - |c|);
    }
  }

  // ---------------------------------------------------------------- one command

  lemma {:induction false} ArgumentsAreWords(toks: seq<Token>)
    requires toks != [] && ParseArguments(toks).Ok?
    ensures var rest := ParseArguments(toks).rest;
            && rest != [] && |rest| <= |toks| && rest == toks[|toks| - |rest|..] && !rest[0].Word?
            && forall i :: 0 <= i < |toks| - |rest| ==> toks[i].Word?
    decreases |toks|
  {
    if toks[0].Word? {
      ArgumentsAreWords(toks[1..]);
    }
  }

  /** A redirection ends with its operator and its target. */
  lemma RedirectionTokens(toks: seq<Token>)
    requires toks != [] && ParseRedirection(toks).Ok?
    ensures var rest := ParseRedirection(toks).rest;
            var c := |toks| - |rest|;
            && 2 <= c <= 3 && rest != [] && rest == toks[c..]
            && IsRedirection(toks[c - 2]) && toks[c - 1].Word? && (c == 3 ==> toks[0].Fd?)
  {}

  lemma RedirectionClean(toks: seq<Token>)
    requires toks != [] && ParseRedirection(toks).Ok?
    ensures var rest := ParseRedirection(toks).rest; Clean(toks, rest) && AtExtra(toks, rest)
  {
    RedirectionTokens(toks);
  }

  /** The parser took redirections only, so nothing from a word. */
  ghost predicate Stays(toks: seq<Token>, rest: seq<Token>) {
    Clean(toks, rest) && AtExtra(toks, rest) && (toks[0].Word? ==> |rest| == |toks|)
  }

  lemma MoreClean(toks: seq<Token>, rest: seq<Token>, end: seq<Token>)
    requires toks != [] && !toks[0].Word? && Clean(toks, rest) && AtExtra(toks, rest) && Stays(rest, end)
    ensures Stays(toks, end)
  {
    CleanAgain(toks, rest, end);
    AtExtraAgain(toks, rest, end);
  }

  lemma NoRedirections(toks: seq<Token>)
    requires toks != [] && !Redirects(toks[0])
    ensures ParseRedirections(toks) == Ok([], toks)
  {}

  lemma {:induction false} RedirectionsClean(toks: seq<Token>)
    requires toks != [] && ParseRedirections(toks).Ok?
    ensures Stays(toks, ParseRedirections(toks).rest)
    decreases |toks|
  {
    if Redirects(toks[0]) {
      var rest := ParseRedirection(toks).rest;
      RedirectionClean(toks);
      RedirectionsClean(rest);
      MoreClean(toks, rest, ParseRedirections(rest).rest);
    } else {
      NoRedirections(toks);
      CleanNone(toks);
    }
  }

  lemma CommandClean(toks: seq<Token>)
    requires toks != [] && ParseCommand(toks).Ok?
    ensures Takes(toks, ParseCommand(toks).rest)
  {
    if toks[0].Word? {
      var rest := ParseArguments(toks).rest;
      ArgumentsAreWords(toks);
      assert Clean(toks, rest);
      RedirectionsClean(rest);
      CleanAgain(toks, rest, ParseCommand(toks).rest);
      AtExtraAgain(toks, rest, ParseCommand(toks).rest);
    } else {
      CleanNone(toks);
    }
  }

  // ---------------------------------------------------------------- one item

  /** The parser went from a bar or an operator, or from where neither stands, to the end of a pipeline. */
  ghost predicate Follows(toks: seq<Token>, rest: seq<Token>) {
    Clean(toks, rest) && AtExtra(toks, rest) && !rest[0].Pipe? && (toks[0].Word? ==> |rest| == |toks|)
  }

  /** The parser took something, unless nothing stands there to take. */
  ghost predicate Takes(toks: seq<Token>, rest: seq<Token>) {
    Clean(toks, rest) && AtExtra(toks, rest) && (toks[0].Word? ==> |rest| < |toks|)
  }

  lemma FollowsNone(toks: seq<Token>)
    requires toks != [] && !toks[0].Pipe?
    ensures Follows(toks, toks)
  {}

  /** A bar or an operator, what stands behind it, and the rest. */
  lemma LinkClean(toks: seq<Token>, next: seq<Token>, rest: seq<Token>, end: seq<Token>)
    requires |toks| >= 2 && !IsRedirection(toks[0]) && !toks[0].Word? && next == toks[1..]
    requires Takes(next, rest) && Follows(rest, end)
    ensures Follows(toks, end)
  {
    CleanNext(toks);
    CleanAgain(toks, next, rest);
    AtExtraAgain(toks, next, rest);
    CleanAgain(toks, rest, end);
    AtExtraAgain(toks, rest, end);
  }

  /** One bar, the command behind it, and the pipes behind that. */
  lemma PipesUnfold(toks: seq<Token>) returns (command: Parsed<Ast>, others: Parsed<seq<Ast>>)
    requires toks != [] && toks[0].Pipe? && ParsePipes(toks).Ok?
    ensures Next(toks).Ok? && command == ParseCommand(toks[1..]) && command.Ok? && !command.value.Null?
    ensures others == ParsePipes(command.rest) && others.Ok? && others.rest == ParsePipes(toks).rest
  {
    command := ParseCommand(toks[1..]);
    others := ParsePipes(command.rest);
  }

  lemma NoPipes(toks: seq<Token>)
    requires toks != [] && !toks[0].Pipe?
    ensures ParsePipes(toks) == Ok([], toks)
  {}

  lemma NoOperators(toks: seq<Token>)
    requires toks != [] && !toks[0].And? && !toks[0].Or?
    ensures ParseOperators(toks) == Ok([], toks)
  {}

  lemma NoSeparators(toks: seq<Token>)
    requires toks != [] && !toks[0].Semi? && !toks[0].Bg?
    ensures SkipSeparators(toks) == Ok((), toks)
  {}

  lemma {:induction false} PipesClean(toks: seq<Token>)
    requires toks != [] && ParsePipes(toks).Ok?
    ensures Follows(toks, ParsePipes(toks).rest)
    decreases |toks|
  {
    if toks[0].Pipe? {
      var command, others := PipesUnfold(toks);
      CommandClean(toks[1..]);
      PipesClean(command.rest);
      LinkClean(toks, toks[1..], command.rest, others.rest);
    } else {
      NoPipes(toks);
      FollowsNone(toks);
    }
  }

  lemma PipelineClean(toks: seq<Token>)
    requires toks != [] && ParsePipeline(toks).Ok?
    ensures Takes(toks, ParsePipeline(toks).rest) && !ParsePipeline(toks).rest[0].Pipe?
  {
    var rest := ParseCommand(toks).rest;
    CommandClean(toks);
    PipesClean(rest);
    CleanAgain(toks, rest, ParsePipes(rest).rest);
    AtExtraAgain(toks, rest, ParsePipes(rest).rest);
  }

  /** Nothing of an item can go on here. */
  predicate Closed(toks: seq<Token>) {
    toks != [] && !toks[0].Pipe? && !toks[0].And? && !toks[0].Or?
  }

  ghost predicate FollowsClosed(toks: seq<Token>, rest: seq<Token>) {
    Follows(toks, rest) && Closed(rest)
  }

  lemma LinkClosed(toks: seq<Token>, right: seq<Token>, end: seq<Token>)
    requires |toks| >= 2 && (toks[0].And? || toks[0].Or?)
    requires Takes(toks[1..], right) && FollowsClosed(right, end)
    ensures FollowsClosed(toks, end)
  {
    LinkClean(toks, toks[1..], right, end);
  }

  lemma {:induction false} OperatorsClean(toks: seq<Token>)
    requires toks != [] && ParseOperators(toks).Ok? && !toks[0].Pipe?
    ensures FollowsClosed(toks, ParseOperators(toks).rest)
    decreases |toks|
  {
    if toks[0].And? || toks[0].Or? {
      var right, others := OperatorsUnfold(toks);
      PipelineClean(toks[1..]);
      OperatorsClean(right.rest);
      LinkClosed(toks, right.rest, others.rest);
    } else {
      NoOperators(toks);
      FollowsNone(toks);
    }
  }

  lemma ConditionalClean(toks: seq<Token>)
    requires toks != [] && ParseConditional(toks).Ok?
    ensures var rest := ParseConditional(toks).rest; Clean(toks, rest) && AtExtra(toks, rest) && Closed(rest)
  {
    var rest := ParsePipeline(toks).rest;
    PipelineClean(toks);
    OperatorsClean(rest);
    CleanAgain(toks, rest, ParseOperators(rest).rest);
    AtExtraAgain(toks, rest, ParseOperators(rest).rest);
  }

  /** The parser took separators only. */
  ghost predicate Separated(toks: seq<Token>, rest: seq<Token>) {
    && Clean(toks, rest) && (toks[0].Word? ==> |rest| == |toks|)
    && (|rest| < |toks| ==> Divides(toks[|toks| - |rest| - 1]))
  }

  lemma SeparatorTaken(toks: seq<Token>, next: seq<Token>, rest: seq<Token>)
    requires |toks| >= 2 && (toks[0].Semi? || toks[0].Bg?) && next == toks[1..] && Separated(next, rest)
    ensures Separated(toks, rest)
  {
    CleanNext(toks);
    CleanAgain(toks, next, rest);
    if |rest| < |next| {
      assert next[|next| - |rest| - 1] == toks[|toks| - |rest| - 1];
    }
  }

  lemma {:induction false} SeparatorsClean(toks: seq<Token>)
    requires toks != [] && SkipSeparators(toks).Ok?
    ensures Separated(toks, SkipSeparators(toks).rest)
    decreases |toks|
  {
    if toks[0].Semi? || toks[0].Bg? {
      var next := toks[1..];
      SeparatorsClean(next);
      SeparatorTaken(toks, next, SkipSeparators(next).rest);
    } else {
      NoSeparators(toks);
      CleanNone(toks);
    }
  }

  // ---------------------------------------------------------------- whole lines

  /** Every item after the first starts behind a separator. */
  predicate Divided(toks: seq<Token>)
    requires toks != []
    decreases |toks|
  {
    var item := ParseConditional(toks);
    item.Ok? && !item.value.Null? ==>
      var sep := SkipSeparators(item.rest);
      sep.Ok? && !sep.rest[0].Eof? ==> (|sep.rest| < |item.rest| || Stops(sep.rest[0])) && Divided(sep.rest)
  }

  /** The parser found no extra word on its way from `toks` to `end`, where it stops. */
  ghost predicate NoExtra(toks: seq<Token>, end: seq<Token>) {
    forall i: nat :: i <= |toks| - |end| ==> !ExtraAt(toks, i)
  }

  lemma NoExtraBehind(toks: seq<Token>, rest: seq<Token>, end: seq<Token>)
    requires Clean(toks, rest) && |end| <= |rest| < |toks|
    ensures NoExtra(toks, end) <==> !ExtraAt(toks, |toks| - |rest|) && NoExtra(rest, end)
  {
    var n := |toks| - |rest|;
    forall i: nat | i >= 2 ensures ExtraAt(toks, n + i) <==> ExtraAt(rest, i) {
      ExtraLater(toks, rest, n, i);
    }
    if NoExtra(toks, end) {
      forall i: nat | i <= |rest| - |end| ensures !ExtraAt(rest, i) {
        assert !ExtraAt(toks, n + i);
      }
    }
    if !ExtraAt(toks, n) && NoExtra(rest, end) {
      forall i: nat | i <= |toks| - |end| ensures !ExtraAt(toks, i) {
        assert i >= n + 2 ==> !ExtraAt(rest, i - n) && i == n + (i - n);
      }
    }
  }

  /** Behind an item, where no separator stands, is either an extra word or a redirection. */
  lemma StartsAtExtra(toks: seq<Token>, rest: seq<Token>)
    requires Clean(toks, rest) && AtExtra(toks, rest) && Closed(rest) && |rest| < |toks|
    requires !rest[0].Semi? && !rest[0].Bg? && !rest[0].Eof? && !rest[0].Abort?
    ensures ExtraAt(toks, |toks| - |rest|) <==> !Redirects(rest[0])
  {
    assert rest[0] == toks[|toks| - |rest|];
  }

  lemma StartsBehindSeparator(toks: seq<Token>, mid: seq<Token>, rest: seq<Token>)
    requires |rest| < |mid| <= |toks| && mid == toks[|toks| - |mid|..] && Divides(mid[|mid| - |rest| - 1])
    ensures !ExtraAt(toks, |toks| - |rest|)
  {
    assert toks[|toks| - |rest| - 1] == mid[|mid| - |rest| - 1];
  }

  lemma CleanSeparated(toks: seq<Token>, mid: seq<Token>, rest: seq<Token>)
    requires Clean(toks, mid) && Separated(mid, rest)
    ensures Clean(toks, rest)
  {
    CleanAgain(toks, mid, rest);
  }

  lemma Junction(toks: seq<Token>, mid: seq<Token>, rest: seq<Token>)
    requires Clean(toks, mid) && AtExtra(toks, mid) && Closed(mid) && |mid| < |toks| && Separated(mid, rest)
    requires Good(rest) && !rest[0].Semi? && !rest[0].Bg? && !rest[0].Eof?
    ensures ExtraAt(toks, |toks| - |rest|) <==> |rest| == |mid| && !Stops(rest[0])
  {
    if |rest| < |mid| {
      StartsBehindSeparator(toks, mid, rest);
    } else {
      assert rest == mid;
      StartsAtExtra(toks, rest);
    }
  }

  /** Behind an item and its separators something starts at an extra word if and only if no separator
      was taken and something can start there. */
  lemma ItemDivides(toks: seq<Token>, item: Parsed<Ast>, rest: seq<Token>)
    requires Good(toks) && item == ParseConditional(toks) && item.Ok? && !item.value.Null?
    requires SkipSeparators(item.rest).Ok? && rest == SkipSeparators(item.rest).rest && !rest[0].Eof?
    ensures Clean(toks, rest) && |rest| < |toks|
    ensures ExtraAt(toks, |toks| - |rest|) <==> |rest| == |item.rest| && !Stops(rest[0])
  {
    ConditionalClean(toks);
    SeparatorsClean(item.rest);
    CleanSeparated(toks, item.rest, rest);
    ItemPasses(toks, item, rest);
    SeparatorsPass(item.rest);
    Junction(toks, item.rest, rest);
  }

  lemma NoExtraAtOnce(toks: seq<Token>, end: seq<Token>)
    requires |toks| == |end|
    ensures NoExtra(toks, end)
  {}

  /** Every item after the first starts behind a separator if and only if no word stands directly
      behind the target of a redirection, up to where the parser stops. */
  lemma {:induction false} ItemsDivided(toks: seq<Token>)
    requires Good(toks) && !toks[0].Eof? && ParseItems(toks).Ok?
    ensures Divided(toks) <==> NoExtra(toks, ParseItems(toks).rest)
    decreases |toks|
  {
    var item := ParseConditional(toks);
    if item.value.Null? {
      MissingItem(toks);
      NoExtraAtOnce(toks, toks);
    } else {
      var rest := SkipSeparators(item.rest).rest;
      ItemPasses(toks, item, rest);
      if rest[0].Eof? {
        LastItem(toks, item, rest);
      } else {
        ItemDivides(toks, item, rest);
        EndReached(rest);
        ItemsDivided(rest);
        NoExtraBehind(toks, rest, ParseItems(rest).rest);
      }
    }
  }

  lemma LastItem(toks: seq<Token>, item: Parsed<Ast>, rest: seq<Token>)
    requires toks != [] && item == ParseConditional(toks) && item.Ok?
    requires SkipSeparators(item.rest).Ok? && rest == SkipSeparators(item.rest).rest && rest[0].Eof?
    ensures NoExtra(toks, rest)
  {
    ConditionalClean(toks);
    SeparatorsClean(item.rest);
    CleanSeparated(toks, item.rest, rest);
  }

  /** For every line that gives a tree and is not empty. */
  lemma LineDivided(w: CString)
    requires ParseText(w).Tree? && !ParseText(w).ast.Null?
    ensures var toks := Tokens(w, 0);
            ParseItems(toks).Ok? && (Divided(toks) <==> NoExtra(toks, ParseItems(toks).rest))
  {
    TokensStreamOk(w, 0);
    TokensOk(w, 0);
    ItemsDivided(Tokens(w, 0));
  }

  // ---------------------------------------------------------------- a line divided by a redirection

  lemma LastWord(toks: seq<Token>, end: seq<Token>, raw: string, word: seq<Part>)
    requires end == [Eof] && toks == [Word(raw, word)] + end
    ensures ParseItems(toks) == Ok([Command([word], [], false)], end)
  {
    assert toks[1..] == end;
    assert ParseArguments(end) == Ok([], end) && [word] + [] == [word];
    assert ParseArguments(toks) == Ok([word], end);
    assert ParseRedirections(end) == Ok([], end);
    assert ParseCommand(toks) == Ok(Command([word], [], false), end);
    assert ParseConditional(toks) == Ok(Command([word], [], false), end);
    assert SkipSeparators(end) == Ok((), end);
  }

  lemma OneRedirection(toks: seq<Token>, target: seq<Token>, rest: seq<Token>, raw: string, word: seq<Part>)
    requires toks == [RedirOut] + target && target == [Word(raw, word)] + rest && rest != [] && rest[0].Word?
    ensures ParseRedirections(toks) == Ok([Redir(1, Output, word)], rest)
  {
    assert toks[1..] == target && target[1..] == rest;
    assert ParseFd(toks) == Ok(0, toks);
    assert ParseTarget(0, toks) == Ok(Redir(1, Output, word), rest);
    assert ParseRedirections(rest) == Ok([], rest);
    assert [Redir(1, Output, word)] + [] == [Redir(1, Output, word)];
  }

  lemma WordThenRedirection(toks: seq<Token>, redir: seq<Token>, rest: seq<Token>, raw: string, word: seq<Part>,
                            rs: seq<Redir>)
    requires toks == [Word(raw, word)] + redir && redir != [] && Redirects(redir[0])
    requires ParseRedirections(redir) == Ok(rs, rest) && rest != [] && rest[0].Word?
    ensures ParseConditional(toks) == Ok(Command([word], rs, false), rest)
  {
    assert toks[1..] == redir;
    assert ParseArguments(redir) == Ok([], redir) && [word] + [] == [word];
    assert ParseArguments(toks) == Ok([word], redir);
    assert ParseCommand(toks) == Ok(Command([word], rs, false), rest);
    assert ParsePipeline(toks) == Ok(Command([word], rs, false), rest);
  }

  lemma TwoItems(toks: seq<Token>, rest: seq<Token>, first: Ast, second: Ast, end: seq<Token>)
    requires toks != [] && rest != [] && rest[0].Word? && !first.Null?
    requires ParseConditional(toks) == Ok(first, rest) && ParseItems(rest) == Ok([second], end)
    ensures ParseItems(toks) == Ok([first, second], end)
  {
    assert SkipSeparators(rest) == Ok((), rest);
    assert [first] + [second] == [first, second];
  }

  lemma OutputToken(w: CString, p: nat, q: nat)
    requires p + 2 < |w| && w[p] == ' ' && w[p + 1] == '>' && w[p + 2] != '>' && q == p + 2
    ensures Tokens(w, p) == [RedirOut] + Tokens(w, q)
  {
    SpaceBetween(w, p, p + 1);
    TokensStep(w, p + 1, RedirOut, q);
  }

  lemma SpacedLetter(w: CString, p: nat, c: char, q: nat)
    requires p < |w| && w[p] == ' ' && LetterAt(w, p + 1) && c == w[p + 1] && q == p + 2
    ensures Tokens(w, p) == [Word([c], Letter(c))] + Tokens(w, q)
  {
    SpaceBetween(w, p, p + 1);
    LetterToken(w, p + 1, c, q);
  }

  /** Three one-letter words, the first with its output to the second: two items, and no separator. */
  lemma RedirectionDivides(w: CString)
    requires |w| == 6 && LetterAt(w, 0) && LetterAt(w, 3) && LetterAt(w, 5) && w[1] == w[4] == ' ' && w[2] == '>'
    ensures ParseText(w) == Tree(Sequence([Command([Letter(w[0])], [Redir(1, Output, Letter(w[3]))], false),
                                           Command([Letter(w[5])], [], false)]))
  {
    var a, f, b := w[0], w[3], w[5];
    var end := Tokens(w, 6);
    LetterToken(w, 0, a, 1);
    OutputToken(w, 1, 3);
    LetterToken(w, 3, f, 4);
    SpacedLetter(w, 4, b, 6);
    LastWord(Tokens(w, 4), end, [b], Letter(b));
    OneRedirection(Tokens(w, 1), Tokens(w, 3), Tokens(w, 4), [f], Letter(f));
    WordThenRedirection(Tokens(w, 0), Tokens(w, 1), Tokens(w, 4), [a], Letter(a), [Redir(1, Output, Letter(f))]);
    TwoItems(Tokens(w, 0), Tokens(w, 4), Command([Letter(a)], [Redir(1, Output, Letter(f))], false),
             Command([Letter(b)], [], false), end);
  }

  /** One line, two commands, no separator. */
  lemma WordBehindTarget()
    ensures ParseText("a >f b") == Tree(Sequence([Command([Letter('a')], [Redir(1, Output, Letter('f'))], false),
                                                  Command([Letter('b')], [], false)]))
  {
    var w := "a >f b";
    assert w[0] == 'a' && w[1] == w[4] == ' ' && w[2] == '>' && w[3] == 'f' && w[5] == 'b';
    RedirectionDivides(w);
  }
}
