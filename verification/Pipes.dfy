/** Descriptors of a pipeline: which process holds which end of which pipe while it is launched. */
module Pipelines {

  /** What a descriptor refers to: something the shell had before, or an end of data pipe `pipe`,
      which connects process `pipe` to process `pipe + 1`. */
  datatype End = Inherited(what: int) | Reader(pipe: nat) | Writer(pipe: nat)

  type Fds = map<nat, End>

  const NO_FD := -1

  /** A process as its descriptor table. */
  class Process {
    var fds: Fds

    constructor (fds: Fds)
      ensures this.fds == fds
    {
      this.fds := fds;
    }

    /** Opens a pipe on two descriptors that are not in use. */
    method Pipe(pipe: nat, alloc: Fds -> nat) returns (reader: nat, writer: nat)
      requires forall t :: alloc(t) !in t
      modifies this
      ensures reader !in old(fds) && writer !in old(fds) && reader != writer
      ensures fds == old(fds)[reader := Reader(pipe)][writer := Writer(pipe)]
    {
      reader := alloc(fds);
      fds := fds[reader := Reader(pipe)];
      writer := alloc(fds);
      fds := fds[writer := Writer(pipe)];
    }

    method Dup2(from: nat, to: nat)
      requires from in fds
      modifies this
      ensures fds == old(fds)[to := old(fds)[from]]
    {
      fds := fds[to := fds[from]];
    }

    method Close(fd: nat) returns (end: End)
      requires fd in fds
      modifies this
      ensures fds == old(fds) - {fd} && end == old(fds)[fd]
    {
      end := fds[fd];
      fds := fds - {fd};
    }
  }

  /** An input or output descriptor of the launch context. */
  predicate Usable(t: Fds, fd: int) {
    fd == NO_FD || (fd >= 0 && fd in t)
  }

  function Moved(t: Fds, fd: int, to: nat): Fds
    requires Usable(t, fd)
  {
    if fd == NO_FD then t else t[to := t[fd]] - {fd}
  }

  /** Descriptors of a child when it starts its program. */
  function ChildFds(t: Fds, inFd: int, outFd: int): Fds
    requires Usable(t, inFd) && Usable(t, outFd) && (inFd != NO_FD ==> inFd != outFd)
  {
    Moved(Moved(t, inFd, 0), outFd, 1)
  }

  /** The child reads from its input and writes to its output. */
  predicate Wired(t: Fds, inFd: int, outFd: int)
    requires Usable(t, inFd) && Usable(t, outFd) && (inFd != NO_FD ==> inFd != outFd)
  {
    var c := ChildFds(t, inFd, outFd);
    && (inFd != NO_FD ==> 0 in c && c[0] == t[inFd])
    && (outFd != NO_FD ==> 1 in c && c[1] == t[outFd])
  }

  /** A child gets both of its ends if and only if they do not already sit on descriptors 0 and 1
      in the way of the two moves; all ends are distinct objects. */
  lemma WiredExactly(t: Fds, inFd: int, outFd: int)
    requires Usable(t, inFd) && Usable(t, outFd)
    requires inFd != NO_FD && outFd != NO_FD ==> inFd != outFd && t[inFd] != t[outFd]
    ensures Wired(t, inFd, outFd) <==> inFd != 0 && outFd != 1 && (outFd == 0 ==> inFd == NO_FD)
  {}

  /** Forks a child with a copy of the parent's table and moves the pipe ends into place. */
  method ForkProcess(parent: Process, inFd: int, outFd: int) returns (child: Process)
    requires Usable(parent.fds, inFd) && Usable(parent.fds, outFd) && (inFd != NO_FD ==> inFd != outFd)
    ensures fresh(child) && child.fds == ChildFds(parent.fds, inFd, outFd)
  {
    child := new Process(parent.fds);
    if inFd != NO_FD {
      child.Dup2(inFd, 0);
      var _ := child.Close(inFd);
    }
    if outFd != NO_FD {
      child.Dup2(outFd, 1);
      var _ := child.Close(outFd);
    }
  }

  // ---------------------------------------------------------------- the launch loop

  /** An end of one of the `n - 1` pipes between `n` processes. */
  predicate OfPipeline(end: End, n: nat) {
    !end.Inherited? && end.pipe + 1 < n
  }

  /** A shell outside any pipeline, with its standard input and output open. */
  predicate Quiescent(t: Fds) {
    0 in t && 1 in t && forall fd :: fd in t ==> t[fd].Inherited?
  }

  /** Child `i` of `n`: standard input from the pipe before it, standard output to the pipe behind
      it, and on one further descriptor the reading end of the pipe it writes to. */
  function Expected(t: Fds, i: nat, n: nat, stray: nat): Fds {
    var a := if i > 0 then t[0 := Reader(i - 1)] else t;
    if i + 1 < n then a[1 := Writer(i)][stray := Reader(i)] else a
  }

  /** The parent's table while it holds the reading end of the pipe before process `i`. */
  function Holding(t: Fds, inFd: int, i: nat): Fds
    requires inFd == NO_FD || (inFd >= 0 && i > 0)
  {
    if inFd == NO_FD then t else t[inFd := Reader(i - 1)]
  }

  /** `inFd` is the descriptor of the reading end that process `i` is to get. */
  predicate NextInput(t: Fds, inFd: int, i: nat, n: nat) {
    if 0 < i < n then inFd >= 0 && inFd !in t else inFd == NO_FD
  }

  /** The ends the parent closes after forking process `i`. */
  function ClosedAt(i: nat, n: nat): seq<End> {
    (if i > 0 then [Reader(i - 1)] else []) + (if i + 1 < n then [Writer(i)] else [])
  }

  function ClosedBefore(i: nat, n: nat): seq<End> {
    if i == 0 then [] else ClosedBefore(i - 1, n) + ClosedAt(i - 1, n)
  }

  /** How often an end is in a list of closes. */
  function Times(ends: seq<End>, end: End): nat {
    if ends == [] then 0 else Times(ends[..|ends| - 1], end) + (if ends[|ends| - 1] == end then 1 else 0)
  }

  lemma {:induction false} TimesAppend(a: seq<End>, b: seq<End>, end: End)
    ensures Times(a + b, end) == Times(a, end) + Times(b, end)
    decreases |b|
  {
    if b == [] {
      assert a + b == a;
    } else {
      TimesAppend(a, b[..|b| - 1], end);
      assert (a + b)[..|a + b| - 1] == a + b[..|b| - 1];
    }
  }

  lemma ClosedAtOnce(i: nat, n: nat, end: End)
    ensures Times(ClosedAt(i, n), end) ==
            if (i > 0 && end == Reader(i - 1)) || (i + 1 < n && end == Writer(i)) then 1 else 0
  {
    TimesAppend(if i > 0 then [Reader(i - 1)] else [], if i + 1 < n then [Writer(i)] else [], end);
  }

  /** Before process `i` is launched, the writing ends of the pipes before it are closed, and the
      reading ends but for the one it is to get; nothing is closed twice. */
  lemma {:induction false} ClosedOnce(i: nat, n: nat, end: End)
    requires i <= n
    ensures Times(ClosedBefore(i, n), end) == match end
              case Inherited(_) => 0
              case Reader(pipe) => if pipe + 1 < i then 1 else 0
              case Writer(pipe) => if pipe < i && pipe + 1 < n then 1 else 0
  {
    if i > 0 {
      ClosedOnce(i - 1, n, end);
      TimesAppend(ClosedBefore(i - 1, n), ClosedAt(i - 1, n), end);
      ClosedAtOnce(i - 1, n, end);
    }
  }

  /** One round: a pipe for every process but the last, the fork, the closes. */
  method LaunchOne(shell: Process, i: nat, n: nat, inFd: int, alloc: Fds -> nat, ghost before: Fds)
    returns (child: Fds, nextIn: int, closed: seq<End>, ghost stray: nat)
    requires i < n && Quiescent(before) && NextInput(before, inFd, i, n)
    requires shell.fds == Holding(before, inFd, i) && forall t :: alloc(t) !in t
    modifies shell
    ensures NextInput(before, nextIn, i + 1, n) && shell.fds == Holding(before, nextIn, i + 1)
    ensures stray !in before && child == Expected(before, i, n, stray)
    ensures closed == ClosedAt(i, n)
  {
    var fds: (int, int) := (NO_FD, NO_FD);
    stray := alloc(before);
    if i + 1 < n {
      var reader, writer := shell.Pipe(i, alloc);
      fds := (reader, writer);
      stray := reader;
    }
    var outFd := fds.1;
    var process := ForkProcess(shell, inFd, outFd);
    child := process.fds;
    closed := [];
    if inFd != NO_FD {
      var end := shell.Close(inFd);
      closed := closed + [end];
    }
    if outFd != NO_FD {
      var end := shell.Close(outFd);
      closed := closed + [end];
    }
    nextIn := fds.0;
  }

  /** Launches `n` processes: the children's tables as they start, and the ends the parent closed. */
  method LaunchLoop(shell: Process, n: nat, alloc: Fds -> nat)
    returns (children: seq<Fds>, closed: seq<End>, ghost strays: seq<nat>)
    requires n > 0 && Quiescent(shell.fds) && forall t :: alloc(t) !in t
    modifies shell
    ensures shell.fds == old(shell.fds)
    ensures forall end :: Times(closed, end) == if OfPipeline(end, n) then 1 else 0
    ensures Launched(old(shell.fds), children, strays, n)
  {
    ghost var before := shell.fds;
    children, closed, strays := [], [], [];
    var inFd := NO_FD;
    for i := 0 to n
      invariant NextInput(before, inFd, i, n) && shell.fds == Holding(before, inFd, i)
      invariant closed == ClosedBefore(i, n)
      invariant |children| == |strays| == i
      invariant forall k :: 0 <= k < i ==> strays[k] !in before && children[k] == Expected(before, k, n, strays[k])
    {
      var child, nextIn, ends, stray := LaunchOne(shell, i, n, inFd, alloc, before);
      children, closed, strays := children + [child], closed + ends, strays + [stray];
      inFd := nextIn;
    }
    forall end {
      ClosedOnce(n, n, end);
    }
  }

  ghost predicate Launched(t: Fds, children: seq<Fds>, strays: seq<nat>, n: nat) {
    && |children| == |strays| == n
    && forall k :: 0 <= k < n ==> strays[k] !in t && children[k] == Expected(t, k, n, strays[k])
  }

  // ---------------------------------------------------------------- who holds what

  predicate Holds(t: Fds, end: End) {
    end in t.Values
  }

  /** After a launch, the writing end of a pipe is open in the process that writes to it and nowhere
      else, so its reader sees the end of the file when that process ends. The reading end is open
      in its reader, and stays open in its writer. */
  lemma HeldBy(t: Fds, children: seq<Fds>, strays: seq<nat>, n: nat, k: nat, pipe: nat)
    requires Quiescent(t) && Launched(t, children, strays, n) && k < n && pipe + 1 < n
    ensures Holds(children[k], Writer(pipe)) <==> k == pipe
    ensures Holds(children[k], Reader(pipe)) <==> k == pipe || k == pipe + 1
    ensures k == pipe ==> children[k][1] == Writer(pipe)
    ensures k == pipe + 1 ==> children[k][0] == Reader(pipe)
    ensures !Holds(t, Writer(pipe)) && !Holds(t, Reader(pipe))
  {
    var c := children[k];
    assert c == Expected(t, k, n, strays[k]);
    if k == pipe {
      assert c[1] == Writer(pipe) && c[strays[k]] == Reader(pipe);
    }
    if k == pipe + 1 {
      assert c[0] == Reader(pipe);
    }
  }

  /** Some process that has not ended, or the shell, has an end open. */
  ghost predicate StillOpen(shell: Fds, children: seq<Fds>, ended: set<nat>, end: End) {
    Holds(shell, end) || exists k: nat :: k < |children| && k !in ended && Holds(children[k], end)
  }

  /** A reader sees the end of the file exactly when the process that writes to it has ended,
      whichever others have; a writer is only told that its reader is gone when both have ended. */
  lemma EndOfFile(t: Fds, children: seq<Fds>, strays: seq<nat>, n: nat, ended: set<nat>, pipe: nat)
    requires Quiescent(t) && Launched(t, children, strays, n) && pipe + 1 < n
    ensures !StillOpen(t, children, ended, Writer(pipe)) <==> pipe in ended
    ensures !StillOpen(t, children, ended, Reader(pipe)) <==> pipe in ended && pipe + 1 in ended
  {
    HeldBy(t, children, strays, n, pipe, pipe);
    HeldBy(t, children, strays, n, pipe + 1, pipe);
    if k: nat :| k < |children| && k !in ended && Holds(children[k], Writer(pipe)) {
      HeldBy(t, children, strays, n, k, pipe);
    }
    if k: nat :| k < |children| && k !in ended && Holds(children[k], Reader(pipe)) {
      HeldBy(t, children, strays, n, k, pipe);
    }
  }
}
