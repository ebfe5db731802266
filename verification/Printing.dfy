/** A printer for syntax trees, and the proof that lexing its words gives back the same pieces. */
module Printing {
  import opened Lexing

  // ---------------------------------------------------------------- text of words

  /** A backslash makes any character literal, except the letters that name control characters;
      those need none. */
  function EscapeChar(c: char): string {
    if NamesControl(c) then [c] else ['\\', c]
  }

  predicate NamesControl(c: char) {
    c == 'n' || c == 't' || c == 'r' || c == 'a' || c == 'b' || c == 'f' || c == 'v'
  }

  function Escaped(v: string): (t: string)
    ensures '\0' !in v ==> '\0' !in t
  {
    if v == "" then "" else EscapeChar(v[0]) + Escaped(v[1..])
  }

  /** Every text starts and ends outside quotes. An unquoted literal or tilde is put behind an
      empty pair of quotes, so that it cannot run together with the piece before it. */
  function PartText(x: Part): string {
    match x.kind
    case Literal =>
      (match x.quote
       case NoQuote => "\"\"" + Escaped(x.value)
       case DoubleQuote => "\"" + Escaped(x.value) + "\""
       case SingleQuote => "'" + x.value + "'")
    case Variable => if x.quote == DoubleQuote then "\"${" + x.value + "}\"" else "${" + x.value + "}"
    case Tilde => "\"\"" + x.value
    case Glob => x.value
  }

  function PartsText(ps: seq<Part>): string {
    if ps == [] then "" else PartText(ps[0]) + PartsText(ps[1..])
  }

  function WordText(ps: seq<Part>): string {
    "\"\"" + PartsText(ps)
  }

  // ---------------------------------------------------------------- text at a position

  predicate SameChar(w: string, p: nat, t: string, i: nat)
    requires p + |t| <= |w| && i < |t|
  {
    w[p + i] == t[i]
  }

  /** Text `t` stands in `w` at position `p`. */
  ghost predicate At(w: string, p: nat, t: string) {
    p + |t| <= |w| && forall i: nat :: i < |t| ==> SameChar(w, p, t, i)
  }

  lemma AtSplit(w: string, p: nat, a: string, b: string)
    requires At(w, p, a + b)
    ensures At(w, p, a) && At(w, p + |a|, b)
  {
    var t, q := a + b, p + |a|;
    forall i: nat | i < |a| ensures SameChar(w, p, a, i) {
      assert SameChar(w, p, t, i);
    }
    forall i: nat | i < |b| ensures SameChar(w, q, b, i) {
      assert SameChar(w, p, t, |a| + i);
    }
  }

  lemma AtParts(w: string, p: nat, t: string, a: string, b: string, q: nat)
    requires At(w, p, t) && t == a + b && q == p + |a|
    ensures At(w, p, a) && At(w, q, b) && q + |b| == p + |t|
  {
    AtSplit(w, p, a, b);
  }

  lemma AtSlice(w: string, p: nat, t: string)
    requires At(w, p, t)
    ensures w[p..p + |t|] == t
  {
    forall i: nat | i < |t| ensures w[p..p + |t|][i] == t[i] {
      assert SameChar(w, p, t, i);
    }
  }

  lemma AtChar(w: string, p: nat, t: string, i: nat)
    requires At(w, p, t) && i < |t|
    ensures w[p + i] == t[i]
  {
    assert SameChar(w, p, t, i);
  }

  /** A place where an unquoted literal, name or tilde ends: the end, a space, an operator, a quote,
      a `$` or a pattern character. */
  predicate Stop(w: string, p: nat) {
    p <= |w| && (p < |w| ==> EndsLiteral(w[p], NoQuote))
  }

  // ---------------------------------------------------------------- literals

  lemma EscapedChar(w: CString, p: nat, c: char, q: Quote)
    requires At(w, p, EscapeChar(c)) && q != SingleQuote
    ensures p < |w| && !EndsLiteral(w[p], q)
    ensures LiteralChar(w, p, q) == ([c], p + |EscapeChar(c)|)
  {
    AtChar(w, p, EscapeChar(c), 0);
    if !NamesControl(c) {
      AtChar(w, p, EscapeChar(c), 1);
      assert Unescape(c) == c;
    }
  }

  lemma EscapedCons(v: string) returns (c: char, rest: string, t: string)
    requires v != ""
    ensures v == [c] + rest && |rest| < |v| && t == Escaped(rest) && Escaped(v) == EscapeChar(c) + t
  {
    c, rest, t := v[0], v[1..], Escaped(v[1..]);
  }

  lemma {:induction false} EscapedLiteral(w: CString, p: nat, v: string, q: Quote, e: nat)
    requires At(w, p, Escaped(v)) && q != SingleQuote && e == p + |Escaped(v)|
    requires e < |w| ==> EndsLiteral(w[e], q)
    ensures LiteralAt(w, p, q) == (v, e)
    decreases |v|
  {
    if v != "" {
      var c, rest, t := EscapedCons(v);
      var n := p + |EscapeChar(c)|;
      AtSplit(w, p, EscapeChar(c), t);
      EscapedChar(w, p, c, q);
      EscapedLiteral(w, n, rest, q, e);
    }
  }

  lemma {:induction false} SingleLiteral(w: CString, p: nat, v: string)
    requires At(w, p, v) && '\'' !in v && p + |v| < |w| && w[p + |v|] == '\''
    ensures LiteralAt(w, p, SingleQuote) == (v, p + |v|)
    decreases |v|
  {
    if v != "" {
      AtChar(w, p, v, 0);
      assert v == v[..1] + v[1..];
      AtSplit(w, p, v[..1], v[1..]);
      SingleLiteral(w, p + 1, v[1..]);
      assert [v[0]] + v[1..] == v;
    }
  }

  // ---------------------------------------------------------------- scans that stop where they should

  lemma {:induction false} NameScan(w: CString, p: nat, e: nat)
    requires p <= e <= |w| && (forall i :: p <= i < e ==> IsNameChar(w[i])) && (e < |w| ==> !IsNameChar(w[e]))
    ensures NameEnd(w, p) == e
    decreases e - p
  {
    if p < e {
      NameScan(w, p + 1, e);
    }
  }

  lemma {:induction false} TildeScan(w: CString, p: nat, e: nat)
    requires p <= e <= |w| && (forall i :: p <= i < e ==> IsTildeChar(w[i])) && (e < |w| ==> !IsTildeChar(w[e]))
    ensures TildeEnd(w, p) == e
    decreases e - p
  {
    if p < e {
      TildeScan(w, p + 1, e);
    }
  }

  lemma {:induction false} BracketScan(w: CString, p: nat, e: nat)
    requires p <= e < |w| && (forall i :: p <= i < e ==> w[i] != ']') && w[e] == ']'
    ensures BracketEnd(w, p) == e
    decreases e - p
  {
    if p < e {
      BracketScan(w, p + 1, e);
    }
  }

  // ---------------------------------------------------------------- steps of the word loop

  lemma QuoteStep(w: CString, p: nat, q: Quote)
    requires p < |w| && IsQuote(w[p])
    ensures WordAt(w, p, q) == WordAt(w, p + 1, if q != NoQuote then NoQuote
                                                else if w[p] == '\'' then SingleQuote else DoubleQuote)
  {}

  lemma EmptyQuotes(w: CString, p: nat)
    requires At(w, p, "\"\"")
    ensures WordAt(w, p, NoQuote) == WordAt(w, p + 2, NoQuote)
  {
    AtChar(w, p, "\"\"", 0);
    AtChar(w, p, "\"\"", 1);
    QuoteStep(w, p, NoQuote);
    QuoteStep(w, p + 1, DoubleQuote);
  }

  lemma PieceStep(w: CString, p: nat, q: Quote, x: Part, next: nat)
    requires InWord(w, p, q) && PartAt(w, p, q) == Step(x, q, next) && x.value != "" && next <= |w|
    ensures WordAt(w, p, q) == Prepend([x], WordAt(w, next, q))
  {}

  lemma LiteralStep(w: CString, p: nat, q: Quote, v: string, t: string, e: nat)
    requires v != "" && q != SingleQuote && t == Escaped(v) && At(w, p, t) && e == p + |t|
    requires e < |w| ==> EndsLiteral(w[e], q)
    ensures WordAt(w, p, q) == Prepend([Part(Literal, q, v)], WordAt(w, e, q))
  {
    EscapedLiteral(w, p, v, q, e);
    EscapedStart(w, p, v, q);
    PieceStep(w, p, q, Part(Literal, q, v), e);
  }

  lemma EscapedStart(w: CString, p: nat, v: string, q: Quote)
    requires v != "" && At(w, p, Escaped(v)) && q != SingleQuote
    ensures p < |w| && (w[p] == '\\' || NamesControl(w[p]))
  {
    AtChar(w, p, Escaped(v), 0);
  }

  lemma NameScanned(w: CString, p: nat, name: string)
    requires At(w, p, name) && name != "" && (p + |name| < |w| ==> w[p + |name|] == '}')
    requires forall i :: 0 <= i < |name| ==> IsNameChar(name[i])
    ensures NameEnd(w, p) == p + |name|
  {
    forall i | p <= i < p + |name| ensures IsNameChar(w[i]) {
      AtChar(w, p, name, i - p);
    }
    NameScan(w, p, p + |name|);
  }

  lemma BracedReference(w: CString, p: nat, name: string)
    requires IsParameter(name) && At(w, p, "${" + name + "}")
    ensures p < |w| && w[p] == '$' && VariableAt(w, p) == Name(name, p + |name| + 3)
  {
    AtSplit(w, p, "${" + name, "}");
    AtSplit(w, p, "${", name);
    AtChar(w, p, "${", 0);
    AtChar(w, p, "${", 1);
    AtChar(w, p + |name| + 2, "}", 0);
    AtChar(w, p + 2, name, 0);
    if IsSpecialParameter(name[0]) {
      assert |name| == 1 && name == [w[p + 2]];
    } else {
      NameScanned(w, p + 2, name);
      AtSlice(w, p + 2, name);
    }
  }

  lemma VariableStep(w: CString, p: nat, q: Quote, name: string, e: nat)
    requires q != SingleQuote && IsParameter(name) && At(w, p, "${" + name + "}") && e == p + |name| + 3
    ensures WordAt(w, p, q) == Prepend([Part(Variable, q, name)], WordAt(w, e, q))
  {
    BracedReference(w, p, name);
    PieceStep(w, p, q, Part(Variable, q, name), e);
  }

  lemma TildeStep(w: CString, p: nat, v: string)
    requires IsTilde(v) && At(w, p, v) && Stop(w, p + |v|) && p > 0 && w[p - 1] != '~'
    ensures WordAt(w, p, NoQuote) == Prepend([Part(Tilde, NoQuote, v)], WordAt(w, p + |v|, NoQuote))
  {
    forall i | 0 <= i < |v| ensures w[p + i] == v[i] {
      AtChar(w, p, v, i);
    }
    assert w[p + 0] == '~';
    forall i | p + 1 <= i < p + |v| ensures IsTildeChar(w[i]) {
      assert w[p + (i - p)] == v[i - p];
    }
    TildeScan(w, p + 1, p + |v|);
    AtSlice(w, p, v);
    PieceStep(w, p, NoQuote, Part(Tilde, NoQuote, v), p + |v|);
  }

  lemma BracketStep(w: CString, p: nat, v: string)
    requires IsGlobPattern(v) && v[0] == '[' && At(w, p, v)
    ensures p < |w| && w[p] == '[' && BracketEnd(w, p) == p + |v| - 1
  {
    forall i | 0 <= i < |v| ensures w[p + i] == v[i] {
      AtChar(w, p, v, i);
    }
    var e := p + |v| - 1;
    assert w[p + 0] == '[' && w[p + (|v| - 1)] == ']';
    forall i | p <= i < e ensures w[i] != ']' {
      assert w[p + (i - p)] == v[i - p];
    }
    BracketScan(w, p, e);
  }

  lemma GlobPart(w: CString, p: nat, v: string, e: nat)
    requires IsGlobPattern(v) && At(w, p, v) && e == p + |v|
    ensures InWord(w, p, NoQuote) && PartAt(w, p, NoQuote) == Step(Part(Glob, NoQuote, v), NoQuote, e)
  {
    AtChar(w, p, v, 0);
    if v[0] == '[' {
      BracketStep(w, p, v);
      AtSlice(w, p, v);
    } else {
      assert v == [w[p]];
    }
  }

  lemma GlobStep(w: CString, p: nat, v: string, e: nat)
    requires IsGlobPattern(v) && At(w, p, v) && e == p + |v|
    ensures WordAt(w, p, NoQuote) == Prepend([Part(Glob, NoQuote, v)], WordAt(w, e, NoQuote))
  {
    GlobPart(w, p, v, e);
    PieceStep(w, p, NoQuote, Part(Glob, NoQuote, v), e);
  }

  // ---------------------------------------------------------------- whole words

  /** The text from `p` to `e` reads as the piece `x`, from outside quotes to outside quotes. */
  ghost predicate ReadsBack(w: CString, p: nat, x: Part, e: nat) {
    p <= e <= |w| && WordAt(w, p, NoQuote) == Prepend([x], WordAt(w, e, NoQuote))
  }

  /** An empty pair of quotes is skipped. */
  lemma AfterEmptyQuotes(w: CString, p: nat, t: string, q: nat)
    requires At(w, p, "\"\"" + t) && q == p + 2
    ensures At(w, q, t) && q <= |w| && w[q - 1] == '\"'
    ensures WordAt(w, p, NoQuote) == WordAt(w, q, NoQuote)
  {
    AtSplit(w, p, "\"\"", t);
    EmptyQuotes(w, p);
    AtChar(w, p, "\"\"", 1);
  }

  lemma Unquoted(w: CString, p: nat, v: string, t: string, e: nat)
    requires v != "" && t == Escaped(v) && At(w, p, "\"\"" + t) && e == p + 2 + |t| && Stop(w, e)
    ensures ReadsBack(w, p, Part(Literal, NoQuote, v), e)
  {
    var q := p + 2;
    AfterEmptyQuotes(w, p, t, q);
    LiteralStep(w, q, NoQuote, v, t, e);
  }

  lemma TildeText(w: CString, p: nat, v: string, e: nat)
    requires IsTilde(v) && At(w, p, "\"\"" + v) && e == p + 2 + |v| && Stop(w, e)
    ensures ReadsBack(w, p, Part(Tilde, NoQuote, v), e)
  {
    var q := p + 2;
    AfterEmptyQuotes(w, p, v, q);
    TildeStep(w, q, v);
  }

  function QuoteOf(quote: char): Quote {
    if quote == '\'' then SingleQuote else DoubleQuote
  }

  /** A text between two quote characters, of which the second is at `e`. */
  lemma EnclosedAt(w: CString, p: nat, quote: char, inner: string, e: nat)
    requires At(w, p, [quote] + inner + [quote]) && e == p + 1 + |inner|
    ensures At(w, p + 1, inner) && e < |w| && w[p] == w[e] == quote
  {
    AtSplit(w, p, [quote] + inner, [quote]);
    AtSplit(w, p, [quote], inner);
    AtChar(w, p, [quote], 0);
    AtChar(w, e, [quote], 0);
  }

  /** One step into the quotes, a piece, one step out. */
  lemma EnclosedReads(w: CString, p: nat, quote: char, x: Part, e: nat, end: nat)
    requires IsQuote(quote) && p < e < |w| && w[p] == w[e] == quote && end == e + 1
    requires WordAt(w, p + 1, QuoteOf(quote)) == Prepend([x], WordAt(w, e, QuoteOf(quote)))
    ensures ReadsBack(w, p, x, end)
  {
    QuoteStep(w, p, NoQuote);
    QuoteStep(w, e, QuoteOf(quote));
  }

  lemma DoubleQuoted(w: CString, p: nat, v: string, t: string, end: nat)
    requires v != "" && t == Escaped(v) && At(w, p, "\"" + t + "\"") && end == p + 2 + |t|
    ensures ReadsBack(w, p, Part(Literal, DoubleQuote, v), end)
  {
    var e := p + 1 + |t|;
    EnclosedAt(w, p, '\"', t, e);
    LiteralStep(w, p + 1, DoubleQuote, v, t, e);
    EnclosedReads(w, p, '\"', Part(Literal, DoubleQuote, v), e, end);
  }

  lemma DoubleQuotedVariable(w: CString, p: nat, name: string, end: nat)
    requires IsParameter(name) && At(w, p, "\"${" + name + "}\"") && end == p + 5 + |name|
    ensures ReadsBack(w, p, Part(Variable, DoubleQuote, name), end)
  {
    var inner, e := "${" + name + "}", p + 4 + |name|;
    assert "\"${" + name + "}\"" == "\"" + inner + "\"";
    EnclosedAt(w, p, '\"', inner, e);
    VariableStep(w, p + 1, DoubleQuote, name, e);
    EnclosedReads(w, p, '\"', Part(Variable, DoubleQuote, name), e, end);
  }

  lemma SingleQuotedText(w: CString, p: nat, v: string, end: nat)
    requires PartOk(Part(Literal, SingleQuote, v)) && At(w, p, "'" + v + "'") && end == p + 2 + |v|
    ensures ReadsBack(w, p, Part(Literal, SingleQuote, v), end)
  {
    var e := p + 1 + |v|;
    EnclosedAt(w, p, '\'', v, e);
    AtChar(w, p + 1, v, 0);
    SingleLiteral(w, p + 1, v);
    PieceStep(w, p + 1, SingleQuote, Part(Literal, SingleQuote, v), e);
    EnclosedReads(w, p, '\'', Part(Literal, SingleQuote, v), e, end);
  }

  lemma LiteralRoundTrip(w: CString, p: nat, quote: Quote, v: string, t: string, e: nat)
    requires var x := Part(Literal, quote, v);
             PartOk(x) && t == PartText(x) && At(w, p, t) && e == p + |t| && Stop(w, e)
    ensures ReadsBack(w, p, Part(Literal, quote, v), e)
  {
    match quote
    case NoQuote =>
      Unquoted(w, p, v, Escaped(v), e);
    case DoubleQuote =>
      DoubleQuoted(w, p, v, Escaped(v), e);
    case SingleQuote =>
      SingleQuotedText(w, p, v, e);
  }

  lemma VariableRoundTrip(w: CString, p: nat, quote: Quote, v: string, t: string, e: nat)
    requires var x := Part(Variable, quote, v); PartOk(x) && t == PartText(x) && At(w, p, t) && e == p + |t|
    ensures ReadsBack(w, p, Part(Variable, quote, v), e)
  {
    if quote == DoubleQuote {
      DoubleQuotedVariable(w, p, v, e);
    } else {
      VariableStep(w, p, NoQuote, v, e);
    }
  }

  lemma BareRoundTrip(w: CString, p: nat, x: Part, t: string, e: nat)
    requires x.kind.Tilde? || x.kind.Glob?
    requires PartOk(x) && t == PartText(x) && At(w, p, t) && e == p + |t| && Stop(w, e)
    ensures ReadsBack(w, p, x, e)
  {
    if x.kind.Tilde? {
      assert t == "\"\"" + x.value;
      TildeText(w, p, x.value, e);
    } else {
      assert t == x.value;
      GlobStep(w, p, x.value, e);
    }
  }

  /** The word loop reads one printed piece back and is outside quotes again. */
  lemma PartRoundTrip(w: CString, p: nat, x: Part, t: string, e: nat)
    requires PartOk(x) && t == PartText(x) && At(w, p, t) && e == p + |t| && Stop(w, e)
    ensures ReadsBack(w, p, x, e)
  {
    match x.kind
    case Literal => LiteralRoundTrip(w, p, x.quote, x.value, t, e);
    case Variable => VariableRoundTrip(w, p, x.quote, x.value, t, e);
    case _ => BareRoundTrip(w, p, x, t, e);
  }

  predicate Boundary(w: string, p: nat) {
    p <= |w| && (p < |w| ==> IsSpace(w[p]) || IsMeta(w[p]))
  }

  lemma PartsCons(ps: seq<Part>) returns (x: Part, rest: seq<Part>, head: string, tail: string)
    requires PartsOk(ps) && ps != []
    ensures ps == [x] + rest && PartOk(x) && PartsOk(rest) && |rest| < |ps|
    ensures head == PartText(x) && tail == PartsText(rest) && PartsText(ps) == head + tail
  {
    x, rest := ps[0], ps[1..];
    head, tail := PartText(x), PartsText(rest);
  }

  /** The text of a piece starts where the piece before it must stop. */
  lemma PartTextStops(w: CString, p: nat, x: Part, t: string)
    requires PartOk(x) && t == PartText(x) && At(w, p, t)
    ensures Stop(w, p)
  {
    AtChar(w, p, t, 0);
  }

  /** A first piece, and the rest read from where its text ends. */
  lemma PartThenRest(w: CString, p: nat, x: Part, t: string, rest: seq<Part>, q: nat, e: nat)
    requires PartOk(x) && t == PartText(x) && At(w, p, t) && q == p + |t| && Stop(w, q)
    requires WordAt(w, q, NoQuote) == WordEnd(rest, e)
    ensures WordAt(w, p, NoQuote) == WordEnd([x] + rest, e) && Stop(w, p)
  {
    PartRoundTrip(w, p, x, t, q);
    PartTextStops(w, p, x, t);
  }

  lemma {:induction false} PartsRoundTrip(w: CString, p: nat, ps: seq<Part>, t: string, e: nat)
    requires PartsOk(ps) && t == PartsText(ps) && At(w, p, t) && e == p + |t| && Boundary(w, e)
    ensures WordAt(w, p, NoQuote) == WordEnd(ps, e) && Stop(w, p)
    decreases |ps|
  {
    if ps != [] {
      var x, rest, head, tail := PartsCons(ps);
      var q := p + |head|;
      AtParts(w, p, t, head, tail, q);
      PartsRoundTrip(w, q, rest, tail, e);
      PartThenRest(w, p, x, head, rest, q, e);
    }
  }

  lemma QuotesThenParts(w: CString, p: nat, ps: seq<Part>, t: string, e: nat)
    requires PartsOk(ps) && t == PartsText(ps) && At(w, p, "\"\"" + t) && e == p + 2 + |t| && Boundary(w, e)
    ensures WordAt(w, p, NoQuote) == WordEnd(ps, e)
  {
    var q := p + 2;
    AfterEmptyQuotes(w, p, t, q);
    PartsRoundTrip(w, q, ps, t, e);
  }

  /** Lexing the text of a word gives back exactly its pieces. */
  lemma WordRoundTrip(w: CString, p: nat, ps: seq<Part>, e: nat)
    requires PartsOk(ps) && At(w, p, WordText(ps)) && e == p + |WordText(ps)| && Boundary(w, e)
    ensures WordAt(w, p, NoQuote) == WordEnd(ps, e)
  {
    QuotesThenParts(w, p, ps, PartsText(ps), e);
  }
}
