/** What the parser computes, as functions of the token stream: the head of the stream is the
    one lookahead token. */
module Parsing {
  import opened Lexing

  datatype RedirKind = Input | Output | Appending

  datatype Redir = Redir(fd: int, kind: RedirKind, target: seq<Part>)

  datatype CondOp = AndIf | OrIf

  /** `Null` is the NULL child pointer the parser stores where a command is missing. */
  datatype Ast =
    | Null
    | Command(argv: seq<seq<Part>>, redirs: seq<Redir>, background: bool)
    | Pipeline(nodes: seq<Ast>)
    | Conditional(left: Ast, right: Ast, op: CondOp)
    | Sequence(nodes: seq<Ast>)

  /** The reasons for which parsing ends the process. */
  datatype ParseError = LexerAbort | UnexpectedInRedirection | ExpectedFilename | ExpectedCommand

  datatype Parsed<+T> = Ok(value: T, rest: seq<Token>) | Fail(error: ParseError)

  // ---------------------------------------------------------------- numbers

  function DigitsValue(s: string): nat
    requires AllDigits(s)
  {
    if s == "" then 0 else 10 * DigitsValue(s[..|s| - 1]) + (s[|s| - 1] as int - '0' as int)
  }

  function SignedValue(s: string): int
    requires IsNumber(s)
  {
    var v: int := DigitsValue(Unsigned(s));
    if s[0] == '-' then -v else v
  }

  /** `(int) strtol(s)`: saturates to 64 bits, then keeps the low 32. */
  function FdValue(s: string): (fd: int)
    requires IsNumber(s)
    ensures IsInt32(fd)
  {
    var v := SignedValue(s);
    var long := if v > 0x7fff_ffff_ffff_ffff then 0x7fff_ffff_ffff_ffff
                else if v < -0x8000_0000_0000_0000 then -0x8000_0000_0000_0000 else v;
    (long + 0x8000_0000) % 0x1_0000_0000 - 0x8000_0000
  }

  predicate IsInt32(x: int) {
    -0x8000_0000 <= x < 0x8000_0000
  }

  // ---------------------------------------------------------------- the grammar

  /** Drops the lookahead and fetches the next token, which may abort. */
  function Next(toks: seq<Token>): (r: Parsed<()>)
    ensures r.Ok? ==> |toks| >= 2 && r.rest == toks[1..]
  {
    if |toks| < 2 || toks[1].Abort? then Fail(LexerAbort) else Ok((), toks[1..])
  }

  function ParseArguments(toks: seq<Token>): (r: Parsed<seq<seq<Part>>>)
    requires toks != []
    ensures r.Ok? ==> 0 < |r.rest| <= |toks| && |r.rest| + |r.value| == |toks|
    decreases |toks|
  {
    if !toks[0].Word? then Ok([], toks) else
    match Next(toks)
    case Fail(e) => Fail(e)
    case Ok(_, rest) =>
      match ParseArguments(rest)
      case Fail(e) => Fail(e)
      case Ok(args, end) => Ok([toks[0].parts] + args, end)
  }

  /** The optional descriptor of a redirection; 0 when there is none. */
  function ParseFd(toks: seq<Token>): (r: Parsed<int>)
    requires toks != []
    ensures r.Ok? ==> 0 < |r.rest| <= |toks|
  {
    if !toks[0].Fd? then Ok(0, toks) else
    match Next(toks)
    case Fail(e) => Fail(e)
    case Ok(_, rest) => Ok(if IsNumber(toks[0].raw) then FdValue(toks[0].raw) else 0, rest)
  }

  function KindOf(op: Token): RedirKind {
    if op.RedirIn? then Input else if op.RedirOut? then Output else Appending
  }

  /** Descriptor 0 on an output operator becomes 1. */
  function DefaultFd(fd: int, kind: RedirKind): int {
    if kind != Input && fd == 0 then 1 else fd
  }

  /** The operator and its target. */
  function ParseTarget(fd: int, toks: seq<Token>): (r: Parsed<Redir>)
    requires toks != []
    ensures r.Ok? ==> 0 < |r.rest| < |toks|
  {
    if !IsRedirection(toks[0]) then Fail(UnexpectedInRedirection) else
    match Next(toks)
    case Fail(e) => Fail(e)
    case Ok(_, words) =>
      if !words[0].Word? then Fail(ExpectedFilename) else
      match Next(words)
      case Fail(e) => Fail(e)
      case Ok(_, end) => Ok(Redir(DefaultFd(fd, KindOf(toks[0])), KindOf(toks[0]), words[0].parts), end)
  }

  function ParseRedirection(toks: seq<Token>): (r: Parsed<Redir>)
    requires toks != []
    ensures r.Ok? ==> 0 < |r.rest| < |toks|
  {
    match ParseFd(toks)
    case Fail(e) => Fail(e)
    case Ok(fd, ops) => ParseTarget(fd, ops)
  }

  function ParseRedirections(toks: seq<Token>): (r: Parsed<seq<Redir>>)
    requires toks != []
    ensures r.Ok? ==> 0 < |r.rest| <= |toks|
    decreases |toks|
  {
    if !toks[0].Fd? && !IsRedirection(toks[0]) then Ok([], toks) else
    match ParseRedirection(toks)
    case Fail(e) => Fail(e)
    case Ok(redir, rest) =>
      match ParseRedirections(rest)
      case Fail(e) => Fail(e)
      case Ok(redirs, end) => Ok([redir] + redirs, end)
  }

  function ParseCommand(toks: seq<Token>): (r: Parsed<Ast>)
    requires toks != []
    ensures r.Ok? ==> 0 < |r.rest| <= |toks|
    ensures r.Ok? ==> (r.value.Null? <==> !toks[0].Word?)
    ensures r.Ok? && r.value.Null? ==> r.rest == toks
    ensures r.Ok? && !r.value.Null? ==> |r.rest| < |toks|
  {
    if !toks[0].Word? then Ok(Null, toks) else
    match ParseArguments(toks)
    case Fail(e) => Fail(e)
    case Ok(argv, afterArgs) =>
      match ParseRedirections(afterArgs)
      case Fail(e) => Fail(e)
      case Ok(redirs, rest) => Ok(Command(argv, redirs, rest[0].Bg?), rest)
  }

  function ParsePipes(toks: seq<Token>): (r: Parsed<seq<Ast>>)
    requires toks != []
    ensures r.Ok? ==> 0 < |r.rest| <= |toks|
    ensures r.Ok? && r.value != [] ==> |r.rest| < |toks|
    decreases |toks|
  {
    if !toks[0].Pipe? then Ok([], toks) else
    match Next(toks)
    case Fail(e) => Fail(e)
    case Ok(_, rest) =>
      match ParseCommand(rest)
      case Fail(e) => Fail(e)
      case Ok(command, afterCommand) =>
        if command.Null? then Fail(ExpectedCommand) else
        match ParsePipes(afterCommand)
        case Fail(e) => Fail(e)
        case Ok(commands, end) => Ok([command] + commands, end)
  }

  /** A single command is not wrapped. */
  function Wrap(first: Ast, others: seq<Ast>): Ast {
    if others == [] then first else Pipeline([first] + others)
  }

  function ParsePipeline(toks: seq<Token>): (r: Parsed<Ast>)
    requires toks != []
    ensures r.Ok? ==> 0 < |r.rest| <= |toks|
    ensures r.Ok? && !r.value.Null? ==> |r.rest| < |toks|
  {
    match ParseCommand(toks)
    case Fail(e) => Fail(e)
    case Ok(first, afterFirst) =>
      match ParsePipes(afterFirst)
      case Fail(e) => Fail(e)
      case Ok(others, rest) => Ok(Wrap(first, others), rest)
  }

  function OperatorOf(t: Token): CondOp {
    if t.And? then AndIf else OrIf
  }

  /** The operators and pipelines after the first one. */
  function ParseOperators(toks: seq<Token>): (r: Parsed<seq<(CondOp, Ast)>>)
    requires toks != []
    ensures r.Ok? ==> 0 < |r.rest| <= |toks|
    ensures r.Ok? && r.value != [] ==> |r.rest| < |toks|
    decreases |toks|
  {
    if !toks[0].And? && !toks[0].Or? then Ok([], toks) else
    match Next(toks)
    case Fail(e) => Fail(e)
    case Ok(_, rest) =>
      match ParsePipeline(rest)
      case Fail(e) => Fail(e)
      case Ok(right, afterRight) =>
        match ParseOperators(afterRight)
        case Fail(e) => Fail(e)
        case Ok(others, end) => Ok([(OperatorOf(toks[0]), right)] + others, end)
  }

  /** The left-nested tree of a flat list: every operator takes all before it as its left operand. */
  function LeftNest(left: Ast, others: seq<(CondOp, Ast)>): Ast
    decreases |others|
  {
    if others == [] then left
    else LeftNest(Conditional(left, others[0].1, others[0].0), others[1..])
  }

  function ParseConditional(toks: seq<Token>): (r: Parsed<Ast>)
    requires toks != []
    ensures r.Ok? ==> 0 < |r.rest| <= |toks|
    ensures r.Ok? && !r.value.Null? ==> |r.rest| < |toks|
  {
    match ParsePipeline(toks)
    case Fail(e) => Fail(e)
    case Ok(first, afterFirst) =>
      match ParseOperators(afterFirst)
      case Fail(e) => Fail(e)
      case Ok(others, rest) => Ok(LeftNest(first, others), rest)
  }

  function SkipSeparators(toks: seq<Token>): (r: Parsed<()>)
    requires toks != []
    ensures r.Ok? ==> 0 < |r.rest| <= |toks|
    decreases |toks|
  {
    if !toks[0].Semi? && !toks[0].Bg? then Ok((), toks) else
    match Next(toks)
    case Fail(e) => Fail(e)
    case Ok(_, rest) => SkipSeparators(rest)
  }

  /** The outer loop; it stops silently where no command starts. */
  function ParseItems(toks: seq<Token>): (r: Parsed<seq<Ast>>)
    requires toks != []
    ensures r.Ok? ==> r.rest != []
    decreases |toks|
  {
    match ParseConditional(toks)
    case Fail(e) => Fail(e)
    case Ok(item, afterItem) =>
      if item.Null? then Ok([], afterItem) else
      match SkipSeparators(afterItem)
      case Fail(e) => Fail(e)
      case Ok(_, rest) =>
        if rest[0].Eof? then Ok([item], rest) else
        match ParseItems(rest)
        case Fail(e) => Fail(e)
        case Ok(items, end) => Ok([item] + items, end)
  }

  datatype Program = Tree(ast: Ast) | Exit(error: ParseError)

  function ParseProgram(toks: seq<Token>): Program
    requires toks != []
  {
    if toks[0].Abort? then Exit(LexerAbort)
    else if toks[0].Eof? then Tree(Null)
    else match ParseItems(toks)
         case Fail(error) => Exit(error)
         case Ok(items, _) => Tree(Sequence(items))
  }

  function ParseText(w: CString): Program {
    ParseProgram(Tokens(w, 0))
  }

  // ---------------------------------------------------------------- what the parser can produce

  predicate RedirOk(r: Redir) {
    PartsOk(r.target) && IsInt32(r.fd) && (r.kind != Input ==> r.fd != 0)
  }

  /** A command with at least one word; only the last one of an item may be marked background. */
  predicate CommandOk(a: Ast, last: bool) {
    && a.Command? && a.argv != []
    && (forall i :: 0 <= i < |a.argv| ==> PartsOk(a.argv[i]))
    && (forall i :: 0 <= i < |a.redirs| ==> RedirOk(a.redirs[i]))
    && (a.background ==> last)
  }

  /** Pipelines have at least two members, of which only the first may be missing. */
  predicate PipelineOk(a: Ast, last: bool) {
    || a.Null?
    || CommandOk(a, last)
    || (a.Pipeline? && |a.nodes| >= 2
        && (a.nodes[0].Null? || CommandOk(a.nodes[0], false))
        && CommandsOk(a.nodes[1..], last))
  }

  predicate CommandsOk(cs: seq<Ast>, last: bool) {
    forall i :: 0 <= i < |cs| ==> CommandOk(cs[i], last && i == |cs| - 1)
  }

  /** Conditionals nest to the left only. */
  predicate ConditionalOk(a: Ast, last: bool) {
    if a.Conditional? then ConditionalOk(a.left, false) && PipelineOk(a.right, last)
    else PipelineOk(a, last)
  }

  predicate ItemOk(a: Ast) {
    !a.Null? && ConditionalOk(a, true)
  }

  predicate ProgramOk(a: Ast) {
    a.Null? || (a.Sequence? && forall i :: 0 <= i < |a.nodes| ==> ItemOk(a.nodes[i]))
  }
}
