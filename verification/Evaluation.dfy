/** The tree-walking evaluator, and its agreement with one left-to-right pass over the flat list
    of pipelines and operators (AND-OR lists, section 2.9.3 of POSIX.1-2017 Shell Command Language).
    Running a job is an arbitrary function of the job and the shell state. */
module Evaluation {
  import opened Lexing
  import opened Parsing
  import opened ParsingShape
  import opened Unparsing

  type Runner<!S> = (Ast, S) -> (int, S)

  predicate Goes(op: CondOp, status: int) {
    (op == AndIf && status == 0) || (op == OrIf && status != 0)
  }

  /** Status and state after a node. A missing node has status -1. */
  function Eval<S>(run: Runner<S>, node: Ast, s: S): (int, S)
    decreases node
  {
    match node
    case Null => (-1, s)
    case Command(_, _, _) => run(node, s)
    case Pipeline(_) => run(node, s)
    case Conditional(left, right, op) =>
      var (status, t) := Eval(run, left, s);
      if Goes(op, status) then Eval(run, right, t) else (status, t)
    case Sequence(nodes) => EvalAll(run, nodes, s)
  }

  /** Nodes one after the other; the status is the last one's, 0 when there is none. */
  function EvalAll<S>(run: Runner<S>, nodes: seq<Ast>, s: S): (int, S)
    decreases nodes
  {
    if nodes == [] then (0, s) else
    var (_, t) := EvalAll(run, nodes[..|nodes| - 1], s);
    Eval(run, nodes[|nodes| - 1], t)
  }

  class Shell<S> {
    const run: Runner<S>
    var state: S

    constructor (run: Runner<S>, state: S)
      ensures this.run == run && this.state == state
    {
      this.run := run;
      this.state := state;
    }

    method ExecNode(node: Ast) returns (status: int)
      modifies this
      ensures (status, state) == Eval(run, node, old(state))
      decreases node
    {
      status := 0;
      match node
      case Null => status := -1;
      case Sequence(nodes) =>
        for i := 0 to |nodes|
          invariant (status, state) == EvalAll(run, nodes[..i], old(state))
        {
          status := ExecNode(nodes[i]);
          assert nodes[..i + 1][..i] == nodes[..i];
        }
        assert nodes[..|nodes|] == nodes;
      case Conditional(left, right, op) =>
        status := ExecNode(left);
        if (op == AndIf && status == 0) || (op == OrIf && status != 0) {
          status := ExecNode(right);
        }
      case _ =>
        var (exit, next) := run(node, state);
        status, state := exit, next;
    }
  }

  // ---------------------------------------------------------------- one pass with a status register

  function EvalJob<S>(run: Runner<S>, a: Ast, s: S): (int, S) {
    if a.Null? then (-1, s) else run(a, s)
  }

  /** The register holds the status of the last pipeline that ran; a skipped one leaves it alone. */
  function FlatRun<S>(run: Runner<S>, status: int, others: seq<(CondOp, Ast)>, s: S): (int, S)
    decreases |others|
  {
    if others == [] then (status, s)
    else if Goes(others[0].0, status) then
      var (status', t) := EvalJob(run, others[0].1, s);
      FlatRun(run, status', others[1..], t)
    else FlatRun(run, status, others[1..], s)
  }

  function FlatItem<S>(run: Runner<S>, first: Ast, others: seq<(CondOp, Ast)>, s: S): (int, S) {
    var (status, t) := EvalJob(run, first, s);
    FlatRun(run, status, others, t)
  }

  predicate IsJob(a: Ast) {
    a.Null? || a.Command? || a.Pipeline?
  }

  /** `&&` and `||` have equal precedence and associate to the left: the nested tree of any list
      of pipelines runs exactly like the single pass, for every outcome of every job. */
  lemma {:induction false} TreeIsFlat<S>(run: Runner<S>, left: Ast, others: seq<(CondOp, Ast)>, s: S)
    requires forall i :: 0 <= i < |others| ==> IsJob(others[i].1)
    ensures Eval(run, LeftNest(left, others), s) ==
            var (status, t) := Eval(run, left, s); FlatRun(run, status, others, t)
    decreases |others|
  {
    if others != [] {
      TreeIsFlat(run, Conditional(left, others[0].1, others[0].0), others[1..], s);
    }
  }

  /** What the parser nests is exactly the list it read: first pipeline, then operators in order. */
  lemma ParsedListIsFlat(toks: seq<Token>)
    requires toks != [] && ParseConditional(toks).Ok?
    ensures var first := ParsePipeline(toks);
            var a := ParseConditional(toks).value;
            && first.Ok? && ParseOperators(first.rest).Ok?
            && First(a) == first.value && Others(a) == ParseOperators(first.rest).value
  {
    var first := ParsePipeline(toks);
    FlatOfLeftNest(first.value, ParseOperators(first.rest).value);
  }

  /** An item of the parser's shape runs like its flat reading. */
  lemma ItemIsFlat<S>(run: Runner<S>, a: Ast, s: S)
    requires ItemOk(a)
    ensures Eval(run, a, s) == FlatItem(run, First(a), Others(a), s)
  {
    FlatShape(a, true);
    LeftNestOfFlat(a);
    TreeIsFlat(run, First(a), Others(a), s);
  }

  function FlatProgram<S>(run: Runner<S>, items: seq<Ast>, s: S): (int, S) {
    if items == [] then (0, s) else
    var (_, t) := FlatProgram(run, items[..|items| - 1], s);
    var a := items[|items| - 1];
    FlatItem(run, First(a), Others(a), t)
  }

  lemma {:induction false} ItemsAreFlat<S>(run: Runner<S>, items: seq<Ast>, s: S)
    requires forall i :: 0 <= i < |items| ==> ItemOk(items[i])
    ensures EvalAll(run, items, s) == FlatProgram(run, items, s)
    decreases |items|
  {
    if items != [] {
      var init := items[..|items| - 1];
      ItemsAreFlat(run, init, s);
      ItemIsFlat(run, items[|items| - 1], EvalAll(run, init, s).1);
    }
  }

  /** Whatever line is read, executing its tree is one left-to-right pass over its flat items. */
  lemma {:induction false} LineIsFlat<S>(run: Runner<S>, w: CString, s: S)
    requires ParseText(w).Tree? && ParseText(w).ast.Sequence?
    ensures Eval(run, ParseText(w).ast, s) == FlatProgram(run, ParseText(w).ast.nodes, s)
  {
    ParseShape(w);
    ItemsAreFlat(run, ParseText(w).ast.nodes, s);
  }
}
