/** Text of token streams: lexing the text gives back the stream. */
module PrintingTokens {
  import opened Lexing
  import opened Printing

  /** A descriptor stands directly before its operator; everything else is followed by a space. */
  function Spaced(t: Token): string {
    if t.Fd? then TokenText(t) else TokenText(t) + " "
  }

  function TokensText(toks: seq<Token>): string {
    if toks == [] || toks[0].Eof? then "" else Spaced(toks[0]) + TokensText(toks[1..])
  }

  predicate Printable(t: Token) {
    && !t.Abort?
    && (t.Word? ==> PartsOk(t.parts) && t.raw == WordText(t.parts))
    && (t.Fd? ==> IsNumber(t.raw))
  }

  predicate PrintableStream(toks: seq<Token>) {
    && StreamOk(toks)
    && forall i :: 0 <= i < |toks| ==> Printable(toks[i])
  }

  // ---------------------------------------------------------------- single tokens

  /** A token that starts with an ordinary character is the word there. */
  lemma TokenIsWord(w: CString, p: nat, raw: string, parts: seq<Part>, e: nat)
    requires p < |w| && !IsSpace(w[p]) && !IsMeta(w[p])
    requires p <= e <= |w| && w[p..e] == raw && WordAt(w, p, NoQuote) == WordEnd(parts, e)
    ensures var fd := IsNumber(raw) && (Peek(w, e) == '>' || Peek(w, e) == '<');
            TokenAt(w, p) == (if fd then Fd(raw) else Word(raw, parts), e)
  {
    assert w[p] in w;
  }

  lemma WordToken(w: CString, p: nat, ps: seq<Part>, e: nat)
    requires PartsOk(ps) && At(w, p, WordText(ps)) && e == p + |WordText(ps)| && e < |w| && w[e] == ' '
    ensures TokenAt(w, p) == (Word(WordText(ps), ps), e)
  {
    AtChar(w, p, WordText(ps), 0);
    WordRoundTrip(w, p, ps, e);
    AtSlice(w, p, WordText(ps));
    TokenIsWord(w, p, WordText(ps), ps, e);
  }

  predicate IsPlain(v: string) {
    forall i :: 0 <= i < |v| ==> IsDigit(v[i]) || v[i] == '-' || v[i] == '+'
  }

  lemma {:induction false} PlainLiteral(w: CString, p: nat, v: string)
    requires IsPlain(v) && At(w, p, v) && Stop(w, p + |v|)
    ensures LiteralAt(w, p, NoQuote) == (v, p + |v|)
    decreases |v|
  {
    if v != "" {
      AtChar(w, p, v, 0);
      assert v == v[..1] + v[1..];
      AtSplit(w, p, v[..1], v[1..]);
      PlainLiteral(w, p + 1, v[1..]);
      assert LiteralChar(w, p, NoQuote) == ([v[0]], p + 1);
      assert [v[0]] + v[1..] == v;
    }
  }

  lemma PlainWord(w: CString, p: nat, v: string, e: nat)
    requires v != "" && IsPlain(v) && At(w, p, v) && e == p + |v| && e < |w| && (w[e] == '<' || w[e] == '>')
    ensures WordAt(w, p, NoQuote) == WordEnd([Part(Literal, NoQuote, v)], e)
  {
    AtChar(w, p, v, 0);
    PlainLiteral(w, p, v);
    PieceStep(w, p, NoQuote, Part(Literal, NoQuote, v), e);
  }

  lemma FdToken(w: CString, p: nat, v: string, e: nat)
    requires IsNumber(v) && At(w, p, v) && e == p + |v| && e < |w| && (w[e] == '<' || w[e] == '>')
    ensures TokenAt(w, p) == (Fd(v), e)
  {
    AtChar(w, p, v, 0);
    PlainWord(w, p, v, e);
    AtSlice(w, p, v);
    TokenIsWord(w, p, v, [Part(Literal, NoQuote, v)], e);
  }

  lemma OperatorToken(w: CString, p: nat, t: Token)
    requires !t.Word? && !t.Fd? && !t.Eof? && !t.Abort?
    requires At(w, p, TokenText(t)) && p + |TokenText(t)| < |w| && w[p + |TokenText(t)|] == ' '
    ensures TokenAt(w, p) == (t, p + |TokenText(t)|)
  {
    AtChar(w, p, TokenText(t), 0);
    if |TokenText(t)| == 2 {
      AtChar(w, p, TokenText(t), 1);
    }
  }

  // ---------------------------------------------------------------- streams

  lemma TokenBeforeSpace(w: CString, p: nat, t: Token, text: string, e: nat)
    requires Printable(t) && !t.Eof? && !t.Fd? && text == TokenText(t)
    requires At(w, p, text) && e == p + |text| && e < |w| && w[e] == ' '
    ensures TokenAt(w, p) == (t, e)
  {
    if t.Word? {
      WordToken(w, p, t.parts, e);
    } else {
      OperatorToken(w, p, t);
    }
  }

  lemma TokenAndSpace(w: CString, p: nat, t: Token, e: nat, q: nat)
    requires p <= |w| && TokenAt(w, p) == (t, e) && !t.Eof? && !t.Abort?
    requires e < |w| && w[e] == ' ' && q == e + 1
    ensures Tokens(w, p) == [t] + Tokens(w, q)
  {
    TokensStep(w, p, t, e);
    SpaceBetween(w, e, q);
  }

  lemma SpacedToken(w: CString, p: nat, t: Token, text: string, q: nat)
    requires Printable(t) && !t.Eof? && !t.Fd? && text == TokenText(t)
    requires At(w, p, text + " ") && q == p + |text| + 1
    ensures q <= |w| && Tokens(w, p) == [t] + Tokens(w, q)
  {
    var e := p + |text|;
    AtSplit(w, p, text, " ");
    AtChar(w, e, " ", 0);
    TokenBeforeSpace(w, p, t, text, e);
    TokenAndSpace(w, p, t, e, q);
  }

  predicate AtRedirection(w: string, p: nat) {
    p < |w| && (w[p] == '<' || w[p] == '>')
  }

  lemma RedirectionText(w: CString, p: nat, t: Token)
    requires IsRedirection(t) && At(w, p, Spaced(t))
    ensures AtRedirection(w, p)
  {
    AtChar(w, p, Spaced(t), 0);
  }

  /** The first token of a stream that goes on. */
  lemma StreamCons(toks: seq<Token>) returns (t: Token, rest: seq<Token>, head: string, tail: string)
    requires PrintableStream(toks) && !toks[0].Eof?
    ensures toks == [t] + rest && |rest| < |toks| && PrintableStream(rest)
    ensures Printable(t) && !t.Eof? && (t.Fd? ==> IsRedirection(rest[0]))
    ensures head == Spaced(t) && tail == TokensText(rest) && TokensText(toks) == head + tail
  {
    t, rest := toks[0], toks[1..];
    head, tail := Spaced(t), TokensText(rest);
    assert Printable(t);
    assert forall i :: 0 <= i < |rest| ==> rest[i] == toks[i + 1];
    if t.Fd? {
      assert IsRedirection(toks[1]);
    }
  }

  /** A first token, and the rest read from where its text ends. */
  lemma TokenThenRest(w: CString, p: nat, t: Token, q: nat, rest: seq<Token>)
    requires Printable(t) && !t.Eof? && At(w, p, Spaced(t)) && q == p + |Spaced(t)|
    requires (t.Fd? ==> AtRedirection(w, q)) && q <= |w| && Tokens(w, q) == rest
    ensures Tokens(w, p) == [t] + rest && (IsRedirection(t) ==> AtRedirection(w, p))
  {
    if t.Fd? {
      FdToken(w, p, t.raw, q);
      TokensStep(w, p, t, q);
    } else {
      SpacedToken(w, p, t, TokenText(t), q);
    }
    if IsRedirection(t) {
      RedirectionText(w, p, t);
    }
  }

  /** Lexing the text of a stream gives back exactly the stream. */
  lemma {:induction false} TokensRoundTrip(w: CString, p: nat, toks: seq<Token>, text: string)
    requires PrintableStream(toks) && text == TokensText(toks) && At(w, p, text) && p + |text| == |w|
    ensures Tokens(w, p) == toks && (IsRedirection(toks[0]) ==> AtRedirection(w, p))
    decreases |toks|
  {
    if !toks[0].Eof? {
      var t, rest, head, tail := StreamCons(toks);
      var q := p + |head|;
      AtParts(w, p, text, head, tail, q);
      TokensRoundTrip(w, q, rest, tail);
      TokenThenRest(w, p, t, q, rest);
    }
  }

  // ---------------------------------------------------------------- no NUL in any text

  lemma PartTextNoNul(x: Part)
    requires PartOk(x)
    ensures '\0' !in PartText(x)
  {}

  lemma {:induction false} PartsTextNoNul(ps: seq<Part>)
    requires PartsOk(ps)
    ensures '\0' !in PartsText(ps)
    decreases |ps|
  {
    if ps != [] {
      PartTextNoNul(ps[0]);
      PartsTextNoNul(ps[1..]);
    }
  }

  lemma SpacedNoNul(t: Token)
    requires Printable(t)
    ensures '\0' !in Spaced(t)
  {
    if t.Word? {
      PartsTextNoNul(t.parts);
    }
  }

  lemma {:induction false} TokensTextNoNul(toks: seq<Token>)
    requires forall i :: 0 <= i < |toks| ==> Printable(toks[i])
    ensures '\0' !in TokensText(toks)
    decreases |toks|
  {
    if toks != [] && !toks[0].Eof? {
      SpacedNoNul(toks[0]);
      TokensTextNoNul(toks[1..]);
    }
  }
}
