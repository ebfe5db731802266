/** What the lexer computes, as functions of the input and a position. */
module Lexing {

  /** A C string: no NUL before its end. */
  type CString = s: string | '\0' !in s witness ""

  datatype Quote = NoQuote | SingleQuote | DoubleQuote

  datatype PartKind = Literal | Variable | Tilde | Glob

  /** One piece of a word; a piece with an empty value is dropped by the word loop. */
  datatype Part = Part(kind: PartKind, quote: Quote, value: string)

  /** `Abort` stands for the process exit on an unmatched `${` or `[`. */
  datatype Token =
    | Word(raw: string, parts: seq<Part>)
    | Fd(raw: string)
    | Semi | Pipe | Or | And | Bg
    | RedirIn | RedirOut | RedirAppend
    | Eof | Abort

  const NOTHING := Part(Literal, NoQuote, "")

  // ---------------------------------------------------------------- characters

  predicate IsSpace(c: char) {
    c == ' ' || c == '\t' || c == '\n' || c == '\U{B}' || c == '\U{C}' || c == '\r'
  }

  predicate IsMeta(c: char) {
    c == '|' || c == '&' || c == ';' || c == '<' || c == '>'
  }

  predicate IsGlob(c: char) {
    c == '*' || c == '?' || c == '['
  }

  predicate IsQuote(c: char) {
    c == '\'' || c == '\"'
  }

  predicate IsWordChar(c: char) {
    !IsSpace(c) && !IsMeta(c) && c != '$' && !IsGlob(c)
  }

  predicate IsDigit(c: char) {
    '0' <= c <= '9'
  }

  predicate IsNameChar(c: char) {
    IsDigit(c) || 'a' <= c <= 'z' || 'A' <= c <= 'Z' || c == '_'
  }

  predicate IsSpecialParameter(c: char) {
    c == '$' || c == '?' || c == '!' || c == '-'
  }

  /** What a backslash followed by `c` stands for. */
  function Unescape(c: char): char {
    match c
    case 'n' => '\n'
    case 't' => '\t'
    case 'r' => '\r'
    case 'a' => '\U{7}'
    case 'b' => '\U{8}'
    case 'f' => '\U{C}'
    case 'v' => '\U{B}'
    case _ => c
  }

  /** The end of input reads as NUL. */
  function Peek(w: CString, p: nat): char {
    if p < |w| then w[p] else '\0'
  }

  function PeekPrev(w: CString, p: nat): char {
    if 0 < p <= |w| then w[p - 1] else '\0'
  }

  // ---------------------------------------------------------------- pieces of words

  function SkipSpaces(w: CString, p: nat): (r: nat)
    requires p <= |w|
    ensures p <= r <= |w|
    ensures r < |w| ==> !IsSpace(w[r])
    decreases |w| - p
  {
    if p < |w| && IsSpace(w[p]) then SkipSpaces(w, p + 1) else p
  }

  /** Where a literal stops in a given quote context. */
  predicate EndsLiteral(c: char, q: Quote) {
    match q
    case NoQuote => !IsWordChar(c) || IsQuote(c)
    case SingleQuote => c == '\''
    case DoubleQuote => c == '\"' || c == '$'
  }

  /** The next character of a literal and the position after it. A backslash at the very end
      escapes the terminating NUL, which ends the value. */
  function LiteralChar(w: CString, p: nat, q: Quote): (r: (string, nat))
    requires p < |w|
    ensures p < r.1 <= |w| && '\0' !in r.0
  {
    if w[p] != '\\' || q == SingleQuote then ([w[p]], p + 1)
    else if p + 1 == |w| then ("", p + 1)
    else ([Unescape(w[p + 1])], p + 2)
  }

  /** Value and end of a literal. */
  function LiteralAt(w: CString, p: nat, q: Quote): (r: (string, nat))
    requires p <= |w|
    ensures p <= r.1 <= |w| && '\0' !in r.0
    ensures p < |w| && !EndsLiteral(w[p], q) ==> p < r.1
    decreases |w| - p
  {
    if p == |w| || EndsLiteral(w[p], q) then ("", p) else
    var (c, next) := LiteralChar(w, p, q);
    var (v, end) := LiteralAt(w, next, q);
    (c + v, end)
  }

  function NameEnd(w: CString, p: nat): (r: nat)
    requires p <= |w|
    ensures p <= r <= |w|
    decreases |w| - p
  {
    if p < |w| && IsNameChar(w[p]) then NameEnd(w, p + 1) else p
  }

  /** A parameter reference: its name, a bare `$`, an ignored `${}`, or the abort on a missing brace. */
  datatype Reference = Name(name: string, next: nat) | Dollar(next: nat) | EmptyBraces(next: nat) | Unmatched

  function VariableAt(w: CString, p: nat): (r: Reference)
    requires p < |w| && w[p] == '$'
    ensures !r.Unmatched? ==> p < r.next <= |w|
  {
    var curly := Peek(w, p + 1) == '{';
    var start := if curly then p + 2 else p + 1;
    if IsSpecialParameter(Peek(w, start)) then
      if !curly then Name([w[start]], start + 1)
      else if Peek(w, start + 1) == '}' then Name([w[start]], start + 2)
      else Unmatched
    else
      var end := NameEnd(w, start);
      if curly && Peek(w, end) != '}' then Unmatched
      else if end == start then if curly then EmptyBraces(end + 1) else Dollar(end)
      else Name(w[start..end], if curly then end + 1 else end)
  }

  function TildeEnd(w: CString, p: nat): (r: nat)
    requires p <= |w|
    ensures p <= r <= |w|
    decreases |w| - p
  {
    if p < |w| && IsTildeChar(w[p]) then TildeEnd(w, p + 1) else p
  }

  predicate IsTildeChar(c: char) {
    IsNameChar(c) || c == '-'
  }

  /** First `]` from `p` on, the length of the input when there is none. */
  function BracketEnd(w: CString, p: nat): (r: nat)
    requires p <= |w|
    ensures p <= r <= |w|
    ensures r < |w| ==> w[r] == ']'
    decreases |w| - p
  {
    if p < |w| && w[p] != ']' then BracketEnd(w, p + 1) else p
  }

  /** One step of the word loop: a piece, the quote context after it, the position after it. */
  datatype PartStep = Step(part: Part, quote: Quote, next: nat) | StepAbort

  /** Inside a word: not at its end. */
  predicate InWord(w: CString, p: nat, q: Quote) {
    p < |w| && (q == NoQuote ==> !IsSpace(w[p]) && !IsMeta(w[p]))
  }

  /** Every step inside a word consumes at least one character, in every quote context. */
  function PartAt(w: CString, p: nat, q: Quote): (r: PartStep)
    requires InWord(w, p, q)
    ensures r.Step? ==> p < r.next <= |w|
  {
    var c := w[p];
    if IsQuote(c) then
      Step(NOTHING, if q == NoQuote then (if c == '\'' then SingleQuote else DoubleQuote) else NoQuote, p + 1)
    else if c == '$' && q != SingleQuote then
      match VariableAt(w, p)
      case Name(name, next) => Step(Part(Variable, q, name), q, next)
      case Dollar(next) => Step(Part(Literal, q, "$"), q, next)
      case EmptyBraces(next) => Step(NOTHING, q, next)
      case Unmatched => StepAbort
    else if c == '~' && q == NoQuote && PeekPrev(w, p) != '~' then
      var end := TildeEnd(w, p + 1);
      Step(Part(Tilde, q, w[p..end]), q, end)
    else if IsGlob(c) && q == NoQuote then
      if c != '[' then Step(Part(Glob, q, [c]), q, p + 1)
      else
        var end := BracketEnd(w, p);
        if end == |w| then StepAbort else Step(Part(Glob, q, w[p..end + 1]), q, end + 1)
    else
      var (v, end) := LiteralAt(w, p, q);
      Step(Part(Literal, q, v), q, end)
  }

  // ---------------------------------------------------------------- the shape of pieces

  predicate IsParameter(name: string) {
    || (|name| == 1 && IsSpecialParameter(name[0]))
    || (name != "" && forall i :: 0 <= i < |name| ==> IsNameChar(name[i]))
  }

  predicate IsTilde(v: string) {
    v != "" && v[0] == '~' && forall i :: 1 <= i < |v| ==> IsTildeChar(v[i])
  }

  predicate IsGlobPattern(v: string) {
    || v == "*" || v == "?"
    || (|v| >= 2 && v[0] == '[' && v[|v| - 1] == ']' && forall i :: 0 <= i < |v| - 1 ==> v[i] != ']')
  }

  /** Exactly the pieces the lexer can produce. In single quotes a leading `"` is impossible:
      either quote character at the start of a segment closes the quote. */
  predicate PartOk(x: Part) {
    && x.value != "" && '\0' !in x.value
    && match x.kind
       case Literal => x.quote == SingleQuote ==> '\'' !in x.value && x.value[0] != '\"'
       case Variable => x.quote != SingleQuote && IsParameter(x.value)
       case Tilde => x.quote == NoQuote && IsTilde(x.value)
       case Glob => x.quote == NoQuote && IsGlobPattern(x.value)
  }

  predicate PartsOk(ps: seq<Part>) {
    forall i :: 0 <= i < |ps| ==> PartOk(ps[i])
  }

  lemma {:induction false} SkippedSpaces(w: CString, p: nat)
    requires p <= |w|
    ensures forall i :: p <= i < SkipSpaces(w, p) ==> IsSpace(w[i])
    decreases |w| - p
  {
    if p < |w| && IsSpace(w[p]) {
      SkippedSpaces(w, p + 1);
    }
  }

  lemma {:induction false} NameChars(w: CString, p: nat)
    requires p <= |w|
    ensures forall i :: p <= i < NameEnd(w, p) ==> IsNameChar(w[i])
    decreases |w| - p
  {
    if p < |w| && IsNameChar(w[p]) {
      NameChars(w, p + 1);
    }
  }

  lemma {:induction false} TildeChars(w: CString, p: nat)
    requires p <= |w|
    ensures forall i :: p <= i < TildeEnd(w, p) ==> IsTildeChar(w[i])
    decreases |w| - p
  {
    if p < |w| && IsTildeChar(w[p]) {
      TildeChars(w, p + 1);
    }
  }

  lemma {:induction false} NoBracketBefore(w: CString, p: nat)
    requires p <= |w|
    ensures forall i :: p <= i < BracketEnd(w, p) ==> w[i] != ']'
    decreases |w| - p
  {
    if p < |w| && w[p] != ']' {
      NoBracketBefore(w, p + 1);
    }
  }

  /** In single quotes nothing is escaped and the value is what stands there. */
  lemma {:induction false} SingleQuoted(w: CString, p: nat)
    requires p <= |w|
    ensures LiteralAt(w, p, SingleQuote).0 == w[p..LiteralAt(w, p, SingleQuote).1]
    ensures '\'' !in LiteralAt(w, p, SingleQuote).0
    decreases |w| - p
  {
    if p < |w| && w[p] != '\'' {
      SingleQuoted(w, p + 1);
    }
  }

  lemma NameOk(w: CString, p: nat)
    requires p < |w| && w[p] == '$'
    ensures VariableAt(w, p).Name? ==> IsParameter(VariableAt(w, p).name) && '\0' !in VariableAt(w, p).name
  {
    NameChars(w, if Peek(w, p + 1) == '{' then p + 2 else p + 1);
  }

  lemma TildeOk(w: CString, p: nat, end: nat)
    requires p < |w| && w[p] == '~' && end == TildeEnd(w, p + 1)
    ensures PartOk(Part(Tilde, NoQuote, w[p..end]))
  {
    TildeChars(w, p + 1);
    var v := w[p..end];
    assert v[0] == '~';
    forall i | 1 <= i < |v| ensures IsTildeChar(v[i]) {
      assert v[i] == w[p + i];
    }
  }

  lemma BracketOk(w: CString, p: nat, end: nat)
    requires p < |w| && w[p] == '[' && end == BracketEnd(w, p) < |w|
    ensures PartOk(Part(Glob, NoQuote, w[p..end + 1]))
  {
    NoBracketBefore(w, p);
    assert end != p;
    var v := w[p..end + 1];
    assert |v| == end + 1 - p && v[0] == '[' && v[|v| - 1] == w[end];
    forall i | 0 <= i < |v| - 1 ensures v[i] != ']' {
      assert v[i] == w[p + i];
    }
    assert '\0' !in v;
  }

  /** Whatever the lexer keeps as a piece has one of these shapes. */
  lemma PartAtOk(w: CString, p: nat, q: Quote)
    requires InWord(w, p, q)
    ensures var r := PartAt(w, p, q); r.Step? && r.part.value != "" ==> PartOk(r.part)
  {
    var c := w[p];
    if c == '$' && q != SingleQuote {
      NameOk(w, p);
    } else if q == SingleQuote {
      SingleQuoted(w, p);
    } else if q == NoQuote && c == '~' {
      TildeOk(w, p, TildeEnd(w, p + 1));
    } else if q == NoQuote && c == '[' {
      var end := BracketEnd(w, p);
      if end < |w| {
        BracketOk(w, p, end);
      }
    }
  }

  // ---------------------------------------------------------------- words and tokens

  datatype WordResult = WordEnd(parts: seq<Part>, next: nat) | WordAbort

  function WordAt(w: CString, p: nat, q: Quote): (r: WordResult)
    requires p <= |w|
    ensures r.WordEnd? ==> p <= r.next <= |w|
    ensures r.WordEnd? && InWord(w, p, q) ==> p < r.next
    ensures r.WordEnd? && r.next < |w| ==> IsSpace(w[r.next]) || IsMeta(w[r.next])
    decreases |w| - p
  {
    if !InWord(w, p, q) then WordEnd([], p) else
    match PartAt(w, p, q)
    case StepAbort => WordAbort
    case Step(part, q', next) =>
      match WordAt(w, next, q')
      case WordAbort => WordAbort
      case WordEnd(parts, end) => WordEnd(if part.value == "" then parts else [part] + parts, end)
  }

  /** The same word with more pieces in front. */
  ghost function Prepend(ps: seq<Part>, r: WordResult): WordResult {
    match r
    case WordEnd(parts, next) => WordEnd(ps + parts, next)
    case WordAbort => WordAbort
  }

  lemma {:induction false} WordAtOk(w: CString, p: nat, q: Quote)
    requires p <= |w|
    ensures var r := WordAt(w, p, q); r.WordEnd? ==> PartsOk(r.parts)
    decreases |w| - p
  {
    if InWord(w, p, q) {
      var r := PartAt(w, p, q);
      PartAtOk(w, p, q);
      if r.Step? {
        WordAtOk(w, r.next, r.quote);
      }
    }
  }

  predicate AllDigits(s: string) {
    forall i :: 0 <= i < |s| ==> IsDigit(s[i])
  }

  function Unsigned(s: string): string {
    if s != "" && (s[0] == '-' || s[0] == '+') then s[1..] else s
  }

  /** Optional sign and at least one digit, up to the end: the whole string converts. */
  predicate IsNumber(s: string) {
    Unsigned(s) != "" && AllDigits(Unsigned(s))
  }

  function TokenAt(w: CString, p: nat): (r: (Token, nat))
    requires p <= |w|
    ensures p <= r.1 <= |w|
  {
    var s := SkipSpaces(w, p);
    match Peek(w, s)
    case '|' => if Peek(w, s + 1) == '|' then (Or, s + 2) else (Pipe, s + 1)
    case '&' => if Peek(w, s + 1) == '&' then (And, s + 2) else (Bg, s + 1)
    case '>' => if Peek(w, s + 1) == '>' then (RedirAppend, s + 2) else (RedirOut, s + 1)
    case '<' => (RedirIn, s + 1)
    case ';' => (Semi, s + 1)
    case '\0' => (Eof, s)
    case _ =>
      match WordAt(w, s, NoQuote)
      case WordAbort => (Abort, s)
      case WordEnd(parts, next) =>
        var raw := w[s..next];
        if IsNumber(raw) && (Peek(w, next) == '>' || Peek(w, next) == '<') then (Fd(raw), next)
        else (Word(raw, parts), next)
  }

  /** All tokens from `p` on; the last one, and only it, is `Eof` or `Abort`. */
  function Tokens(w: CString, p: nat): (toks: seq<Token>)
    requires p <= |w|
    ensures toks != []
    decreases |w| - p
  {
    var (tok, next) := TokenAt(w, p);
    if tok.Eof? || tok.Abort? then [tok] else
    TokenAdvances(w, p);
    [tok] + Tokens(w, next)
  }

  /** A space between tokens changes nothing. */
  lemma SpaceBetween(w: CString, p: nat, q: nat)
    requires p < |w| && w[p] == ' ' && q == p + 1
    ensures Tokens(w, p) == Tokens(w, q)
  {
    assert SkipSpaces(w, p) == SkipSpaces(w, q);
    assert TokenAt(w, p) == TokenAt(w, q);
  }

  lemma TokensStep(w: CString, p: nat, t: Token, next: nat)
    requires p <= |w| && TokenAt(w, p) == (t, next) && !t.Eof? && !t.Abort?
    ensures next <= |w| && Tokens(w, p) == [t] + Tokens(w, next)
  {}

  // ---------------------------------------------------------------- totality and losslessness

  /** Every token but the last kinds strictly advances the position; the end of input is sticky. */
  lemma TokenAdvances(w: CString, p: nat)
    requires p <= |w|
    ensures !TokenAt(w, p).0.Eof? && !TokenAt(w, p).0.Abort? ==> SkipSpaces(w, p) < TokenAt(w, p).1
    ensures TokenAt(w, p).0.Eof? <==> SkipSpaces(w, p) == |w|
    ensures TokenAt(w, p).0.Eof? ==> TokenAt(w, p).1 == |w| && TokenAt(w, |w|) == (Eof, |w|)
  {
    var s := SkipSpaces(w, p);
    assert SkipSpaces(w, |w|) == |w|;
    if s < |w| {
      assert w[s] != '\0';
    }
  }

  /** The text of an operator token; a word or descriptor is its own text. */
  function TokenText(t: Token): string {
    match t
    case Word(raw, _) => raw
    case Fd(raw) => raw
    case Semi => ";"
    case Pipe => "|"
    case Or => "||"
    case And => "&&"
    case Bg => "&"
    case RedirIn => "<"
    case RedirOut => ">"
    case RedirAppend => ">>"
    case Eof => ""
    case Abort => ""
  }

  lemma TokenSpan(w: CString, p: nat)
    requires p <= |w|
    ensures var (t, next) := TokenAt(w, p);
            var s := SkipSpaces(w, p);
            s <= next && w[s..next] == TokenText(t)
  {}

  /** The white space before each token. */
  function Gaps(w: CString, p: nat): (gaps: seq<string>)
    requires p <= |w|
    ensures |gaps| == |Tokens(w, p)|
    decreases |w| - p
  {
    var (tok, next) := TokenAt(w, p);
    var gap := w[p..SkipSpaces(w, p)];
    if tok.Eof? || tok.Abort? then [gap] else
    TokenAdvances(w, p);
    [gap] + Gaps(w, next)
  }

  function Interleave(gaps: seq<string>, toks: seq<Token>): string
    requires |gaps| == |toks|
  {
    if toks == [] then "" else gaps[0] + TokenText(toks[0]) + Interleave(gaps[1..], toks[1..])
  }

  /** What the lexer has taken from `p` on when it stops. */
  function Taken(w: CString, p: nat): string
    requires p <= |w|
  {
    Interleave(Gaps(w, p), Tokens(w, p))
  }

  lemma LastPiece(gap: string, tok: Token)
    requires tok.Eof? || tok.Abort?
    ensures Interleave([gap], [tok]) == gap
  {
    assert [gap][1..] == [] && [tok][1..] == [];
    assert Interleave([], []) == "";
    assert gap + "" + "" == gap;
  }

  lemma TakenStep(w: CString, p: nat)
    requires p <= |w|
    ensures var (tok, next) := TokenAt(w, p);
            var gap := w[p..SkipSpaces(w, p)];
            Taken(w, p) == if tok.Eof? || tok.Abort? then gap else gap + TokenText(tok) + Taken(w, next)
  {
    var (tok, next) := TokenAt(w, p);
    var toks, gaps := Tokens(w, p), Gaps(w, p);
    if tok.Eof? || tok.Abort? {
      LastPiece(gaps[0], tok);
    } else {
      TokenAdvances(w, p);
      assert toks[1..] == Tokens(w, next) && gaps[1..] == Gaps(w, next);
    }
  }

  /** A text is what stands in the input at `p`; it goes to the end when the tokens end with the end
      marker, and to a word that aborts when they end with the abort. */
  predicate Covers(w: CString, p: nat, text: string, toks: seq<Token>) {
    var e := p + |text|;
    && e <= |w| && text == w[p..e] && toks != []
    && (toks[|toks| - 1].Eof? ==> e == |w|)
    && (toks[|toks| - 1].Abort? ==> e < |w| && WordAt(w, e, NoQuote).WordAbort?)
  }

  lemma CoversStep(w: CString, p: nat, s: nat, next: nat, tok: Token, text: string, toks: seq<Token>)
    requires p <= s <= next <= |w| && Covers(w, next, text, toks)
    ensures Covers(w, p, w[p..s] + w[s..next] + text, [tok] + toks)
  {
    assert w[p..s] + w[s..next] + text == w[p..next + |text|];
    assert ([tok] + toks)[|toks|] == toks[|toks| - 1];
  }

  lemma CoversLast(w: CString, p: nat)
    requires p <= |w| && (TokenAt(w, p).0.Eof? || TokenAt(w, p).0.Abort?)
    ensures Covers(w, p, w[p..SkipSpaces(w, p)], [TokenAt(w, p).0])
  {
    TokenAdvances(w, p);
  }

  /** Token texts and the white space between them tile the input, to its end or to the word on
      which the lexer aborts. */
  lemma {:induction false} Lossless(w: CString, p: nat)
    requires p <= |w|
    ensures Covers(w, p, Taken(w, p), Tokens(w, p))
    decreases |w| - p
  {
    var (tok, next) := TokenAt(w, p);
    TakenStep(w, p);
    if tok.Eof? || tok.Abort? {
      CoversLast(w, p);
    } else {
      TokenAdvances(w, p);
      TokenSpan(w, p);
      Lossless(w, next);
      CoversStep(w, p, SkipSpaces(w, p), next, tok, Taken(w, next), Tokens(w, next));
    }
  }

  /** What is not in a token is white space. */
  lemma {:induction false} GapsAreSpaces(w: CString, p: nat, i: nat, j: nat)
    requires p <= |w| && i < |Gaps(w, p)| && j < |Gaps(w, p)[i]|
    ensures IsSpace(Gaps(w, p)[i][j])
    decreases |w| - p
  {
    if i == 0 {
      SkippedSpaces(w, p);
    } else {
      var next := TokenAt(w, p).1;
      TokenAdvances(w, p);
      assert Gaps(w, p)[i] == Gaps(w, next)[i - 1];
      GapsAreSpaces(w, next, i - 1, j);
    }
  }

  // ---------------------------------------------------------------- the token stream

  predicate IsRedirection(t: Token) {
    t.RedirIn? || t.RedirOut? || t.RedirAppend?
  }

  /** One end marker, at the end; a descriptor stands only directly before a redirection. */
  predicate StreamOk(toks: seq<Token>) {
    && toks != []
    && (forall i :: 0 <= i < |toks| ==> ((toks[i].Eof? || toks[i].Abort?) <==> i == |toks| - 1))
    && (forall i :: 0 <= i < |toks| && toks[i].Fd? ==> i + 1 < |toks| && IsRedirection(toks[i + 1]))
  }

  lemma RedirectionNext(w: CString, p: nat)
    requires p < |w| && (w[p] == '<' || w[p] == '>')
    ensures IsRedirection(TokenAt(w, p).0)
  {
    assert SkipSpaces(w, p) == p;
  }

  lemma {:induction false} TokensStreamOk(w: CString, p: nat)
    requires p <= |w|
    ensures StreamOk(Tokens(w, p))
    decreases |w| - p
  {
    var (tok, next) := TokenAt(w, p);
    if !tok.Eof? && !tok.Abort? {
      TokenAdvances(w, p);
      TokensStreamOk(w, next);
      var toks, rest := Tokens(w, p), Tokens(w, next);
      assert toks == [tok] + rest;
      if tok.Fd? {
        RedirectionNext(w, next);
        assert rest[0] == TokenAt(w, next).0;
      }
    }
  }

  /** Words carry only pieces of the possible shapes, descriptors only numbers. */
  predicate TokenOk(t: Token) {
    && (t.Word? ==> PartsOk(t.parts))
    && (t.Fd? ==> IsNumber(t.raw))
  }

  lemma {:induction false} TokensOk(w: CString, p: nat)
    requires p <= |w|
    ensures forall i :: 0 <= i < |Tokens(w, p)| ==> TokenOk(Tokens(w, p)[i])
    decreases |w| - p
  {
    var (tok, next) := TokenAt(w, p);
    WordAtOk(w, SkipSpaces(w, p), NoQuote);
    if !tok.Eof? && !tok.Abort? {
      TokenAdvances(w, p);
      TokensOk(w, next);
    }
  }
}
