/** Job control as a state machine over values: what each step does to the job list and its counters. */
module JobModel {

  datatype ProcState = Running | Done | Stopped | Killed

  datatype Proc = Proc(pid: int, state: ProcState, status: int)

  datatype JobState = JobRunning | JobDone | JobStopped | JobContinued

  const UINT_RANGE: nat := 0x1_0000_0000
  const SIZE_RANGE: nat := 0x1_0000_0000_0000_0000

  type UInt = x: nat | x < UINT_RANGE

  type Size = x: nat | x < SIZE_RANGE

  /** One listed job; `live` is a 32-bit unsigned counter. */
  datatype JobV = JobV(id: nat, pgid: int, procs: seq<Proc>, background: bool, state: JobState, live: UInt)

  /** The job list, oldest first, with its two 64-bit counters. */
  datatype TableV = TableV(jobs: seq<JobV>, count: Size, running: Size)

  /** Unsigned arithmetic wraps around. */
  function Inc(x: nat, range: nat): (r: nat)
    requires x < range
    ensures r < range
  {
    if x + 1 == range then 0 else x + 1
  }

  function Dec(x: nat, range: nat): (r: nat)
    requires x < range
    ensures r < range
  {
    if x == 0 then range - 1 else x - 1
  }

  /** A 32-bit counter incremented `n` times. */
  function IncBy(x: UInt, n: nat): UInt {
    if n == 0 then x else Inc(IncBy(x, n - 1), UINT_RANGE)
  }

  const EMPTY_TABLE := TableV([], 0, 0)

  // ---------------------------------------------------------------- list operations

  /** The id loop: counts up along the list and stops at the first gap it sees. */
  function IdFrom(ids: seq<nat>, next: nat): nat
    decreases |ids|
  {
    if ids == [] || ids[0] >= next + 1 then next else IdFrom(ids[1..], next + 1)
  }

  function Ids(jobs: seq<JobV>): seq<nat> {
    seq(|jobs|, i requires 0 <= i < |jobs| => jobs[i].id)
  }

  function NewId(jobs: seq<JobV>): nat {
    IdFrom(Ids(jobs), 1)
  }

  /** New jobs go to the tail. */
  function Add(t: TableV, j: JobV): TableV {
    TableV(t.jobs + [j.(id := NewId(t.jobs))], Inc(t.count, SIZE_RANGE), Inc(t.running, SIZE_RANGE))
  }

  /** Searches run from the tail: the last of the first `n` jobs that is of a process group. */
  function LastBefore(jobs: seq<JobV>, n: nat, pgid: int): (i: int)
    requires n <= |jobs|
    ensures -1 <= i < n
    ensures i >= 0 ==> jobs[i].pgid == pgid
  {
    if n == 0 then -1 else if jobs[n - 1].pgid == pgid then n - 1 else LastBefore(jobs, n - 1, pgid)
  }

  /** The last job of a process group, -1 when there is none. */
  function LastOf(jobs: seq<JobV>, pgid: int): int {
    LastBefore(jobs, |jobs|, pgid)
  }

  function RemoveAt<T>(xs: seq<T>, i: nat): seq<T>
    requires i < |xs|
  {
    xs[..i] + xs[i + 1..]
  }

  lemma RemoveAtInit<T>(xs: seq<T>, i: nat)
    requires i + 1 < |xs|
    ensures RemoveAt(xs, i) == RemoveAt(xs[..|xs| - 1], i) + [xs[|xs| - 1]]
  {}

  /** The list and the counters without job `i`; a stopped job is not counted as running. */
  function Without(t: TableV, i: nat): TableV
    requires i < |t.jobs|
  {
    TableV(RemoveAt(t.jobs, i), Dec(t.count, SIZE_RANGE),
           if t.jobs[i].state == JobStopped then t.running else Dec(t.running, SIZE_RANGE))
  }

  function Remove(t: TableV, pgid: int): TableV {
    var i := LastOf(t.jobs, pgid);
    if i < 0 then t else Without(t, i)
  }

  // ---------------------------------------------------------------- processes of a job

  function FirstFrom(procs: seq<Proc>, from: nat, pid: int): (i: int)
    requires from <= |procs|
    ensures i == -1 || from <= i < |procs|
    ensures i >= 0 ==> procs[i].pid == pid
    decreases |procs| - from
  {
    if from == |procs| then -1 else if procs[from].pid == pid then from else FirstFrom(procs, from + 1, pid)
  }

  /** The first process with a pid, -1 when there is none. */
  function FirstPid(procs: seq<Proc>, pid: int): int {
    FirstFrom(procs, 0, pid)
  }

  /** The last of the first `n` jobs that has a process with a pid. */
  function PidBefore(jobs: seq<JobV>, n: nat, pid: int): (k: int)
    requires n <= |jobs|
    ensures -1 <= k < n
    ensures k >= 0 ==> FirstPid(jobs[k].procs, pid) >= 0
  {
    if n == 0 then -1 else if FirstPid(jobs[n - 1].procs, pid) >= 0 then n - 1 else PidBefore(jobs, n - 1, pid)
  }

  /** The last job with a process of that pid. */
  function JobOfPid(jobs: seq<JobV>, pid: int): int {
    PidBefore(jobs, |jobs|, pid)
  }

  function StopOne(p: Proc): Proc {
    if p.state == Running then p.(state := Stopped) else p
  }

  function ContinueOne(p: Proc): Proc {
    if p.state == Stopped then p.(state := Running) else p
  }

  function StopRunning(procs: seq<Proc>): seq<Proc> {
    seq(|procs|, i requires 0 <= i < |procs| => StopOne(procs[i]))
  }

  function ContinueStopped(procs: seq<Proc>): seq<Proc> {
    seq(|procs|, i requires 0 <= i < |procs| => ContinueOne(procs[i]))
  }

  function CountRunning(procs: seq<Proc>): (n: nat)
    ensures n <= |procs|
  {
    if procs == [] then 0
    else CountRunning(procs[..|procs| - 1]) + (if procs[|procs| - 1].state == Running then 1 else 0)
  }

  function CountStopped(procs: seq<Proc>): (n: nat)
    ensures n <= |procs|
  {
    if procs == [] then 0
    else CountStopped(procs[..|procs| - 1]) + (if procs[|procs| - 1].state == Stopped then 1 else 0)
  }

  lemma CountStoppedStep(procs: seq<Proc>, i: nat)
    requires i < |procs|
    ensures CountStopped(procs[..i + 1]) == CountStopped(procs[..i]) + (if procs[i].state == Stopped then 1 else 0)
  {
    assert procs[..i + 1][..i] == procs[..i];
  }

  function MarkStopped(j: JobV): JobV {
    j.(procs := StopRunning(j.procs), state := JobStopped)
  }

  function MarkContinued(j: JobV): JobV {
    j.(procs := ContinueStopped(j.procs), state := JobContinued,
       live := IncBy(j.live, CountStopped(j.procs)))
  }

  // ---------------------------------------------------------------- reports

  /** What `waitpid` reports about a child. */
  datatype Change = Exited(status: int) | Signaled(signal: int) | StoppedBy(signal: int) | Resumed

  /** The record of a job after a report about its process `i`. */
  function Reported(j: JobV, i: nat, c: Change): JobV
    requires i < |j.procs|
  {
    var p := j.procs[i];
    match c
    case Exited(s) => j.(procs := j.procs[i := p.(state := Done, status := s)], live := Dec(j.live, UINT_RANGE))
    case Signaled(s) => j.(procs := j.procs[i := p.(state := Killed, status := s)], live := Dec(j.live, UINT_RANGE))
    case StoppedBy(_) => MarkStopped(j.(procs := j.procs[i := p.(state := Stopped)])).(live := 0)
    case Resumed => j.(procs := j.procs[i := p.(state := Running)])
  }

  /** A report reaches process `i` of job `k`: every stop report also lowers the running counter. */
  function Applied(t: TableV, k: nat, i: nat, c: Change): TableV
    requires k < |t.jobs| && i < |t.jobs[k].procs|
  {
    TableV(t.jobs[k := Reported(t.jobs[k], i, c)], t.count,
           if c.StoppedBy? then Dec(t.running, SIZE_RANGE) else t.running)
  }

  function WithState(t: TableV, k: nat, state: JobState): TableV
    requires k < |t.jobs|
  {
    t.(jobs := t.jobs[k := t.jobs[k].(state := state)])
  }

  /** A report about process `i` of job `k`. A background job without live processes is completed. */
  function ReportAt(t: TableV, k: nat, i: nat, c: Change): TableV
    requires k < |t.jobs| && i < |t.jobs[k].procs|
  {
    var u := Applied(t, k, i, c);
    if u.jobs[k].live == 0 && u.jobs[k].background then Remove(WithState(u, k, JobDone), u.jobs[k].pgid) else u
  }

  /** One pass of the reaper loop; a process that is not listed is ignored. */
  function Report(t: TableV, pid: int, c: Change): TableV {
    var k := JobOfPid(t.jobs, pid);
    if k < 0 then t else ReportAt(t, k, FirstPid(t.jobs[k].procs, pid), c)
  }

  /** Position of the job a report takes out of the list, -1 when all stay. */
  function GoneAt(t: TableV, k: nat, i: nat, c: Change): int
    requires k < |t.jobs| && i < |t.jobs[k].procs|
  {
    var u := Applied(t, k, i, c);
    if u.jobs[k].live == 0 && u.jobs[k].background
    then LastOf(WithState(u, k, JobDone).jobs, u.jobs[k].pgid) else -1
  }

  function Gone(t: TableV, pid: int, c: Change): int {
    var k := JobOfPid(t.jobs, pid);
    if k < 0 then -1 else GoneAt(t, k, FirstPid(t.jobs[k].procs, pid), c)
  }

  /** Where position `k` is after the removal of position `gone`. */
  function Shifted(k: nat, gone: int): nat {
    if 0 <= gone < k then k - 1 else k
  }

  // ---------------------------------------------------------------- fg and bg

  predicate FgMatch(j: JobV, id: nat) {
    (id == 0 || j.id == id) && (j.state == JobStopped || (j.background && j.state == JobRunning))
  }

  predicate BgMatch(j: JobV, id: nat) {
    (id == 0 || j.id == id) && j.state == JobStopped
  }

  function FgBefore(jobs: seq<JobV>, n: nat, id: nat): (k: int)
    requires n <= |jobs|
    ensures -1 <= k < n
    ensures k >= 0 ==> FgMatch(jobs[k], id)
  {
    if n == 0 then -1 else if FgMatch(jobs[n - 1], id) then n - 1 else FgBefore(jobs, n - 1, id)
  }

  function FgTarget(jobs: seq<JobV>, id: nat): int {
    FgBefore(jobs, |jobs|, id)
  }

  function BgBefore(jobs: seq<JobV>, n: nat, id: nat): (k: int)
    requires n <= |jobs|
    ensures -1 <= k < n
    ensures k >= 0 ==> BgMatch(jobs[k], id)
  {
    if n == 0 then -1 else if BgMatch(jobs[n - 1], id) then n - 1 else BgBefore(jobs, n - 1, id)
  }

  function BgTarget(jobs: seq<JobV>, id: nat): int {
    BgBefore(jobs, |jobs|, id)
  }

  /** Job `k` runs on; its stopped processes count as live again. */
  function Woken(t: TableV, k: nat, background: bool): TableV
    requires k < |t.jobs|
  {
    t.(jobs := t.jobs[k := MarkContinued(t.jobs[k]).(state := JobRunning, background := background)],
       running := Inc(t.running, SIZE_RANGE))
  }

  function Forward(t: TableV, k: nat): TableV
    requires k < |t.jobs|
  {
    t.(jobs := t.jobs[k := t.jobs[k].(background := false)])
  }

  /** A stopped foreground job is continued; a background one just comes to the front. */
  function Foreground(t: TableV, id: nat): TableV {
    var k := FgTarget(t.jobs, id);
    if k < 0 then t
    else if t.jobs[k].background then Forward(t, k)
    else Woken(t, k, false)
  }

  function Background(t: TableV, id: nat): TableV {
    var k := BgTarget(t.jobs, id);
    if k < 0 then t else Woken(t, k, true)
  }

  // ---------------------------------------------------------------- runs

  function Forked(pids: seq<int>): seq<Proc> {
    seq(|pids|, i requires 0 <= i < |pids| => Proc(pids[i], Running, 0))
  }

  /** Launches, builtins run in the shell process, reports, the end of a foreground wait, fg, bg. */
  datatype Event =
    | Launch(pids: seq<int>, background: bool)
    | BuiltinStart(background: bool)
    | BuiltinEnd
    | Child(pid: int, change: Change)
    | Reap(pgid: int)
    | Fg(id: nat)
    | Bg(id: nat)

  /** The processes of a job before they are forked. */
  function Blank(n: nat): seq<Proc> {
    seq(n, _ => Proc(0, Running, 0))
  }

  /** Job `k` after the launch loop. */
  function Started(t: TableV, k: nat, pids: seq<int>): TableV
    requires k < |t.jobs| && pids != []
  {
    t.(jobs := t.jobs[k := t.jobs[k].(pgid := pids[0], procs := Forked(pids), live := IncBy(0, |pids|))])
  }

  function Launched(pids: seq<int>, background: bool): JobV
    requires pids != []
  {
    JobV(0, pids[0], Forked(pids), background, JobRunning, IncBy(0, |pids|))
  }

  /** A builtin is listed without a process group and without live processes. */
  function BuiltinJob(background: bool): JobV {
    JobV(0, 0, [Proc(0, Running, 0)], background, JobRunning, 0)
  }

  function Step(t: TableV, e: Event): TableV {
    match e
    case Launch(pids, background) => if pids == [] then t else Add(t, Launched(pids, background))
    case BuiltinStart(background) => Add(t, BuiltinJob(background))
    case BuiltinEnd => Remove(t, 0)
    case Child(pid, change) => Report(t, pid, change)
    case Reap(pgid) => Remove(t, pgid)
    case Fg(id) => Foreground(t, id)
    case Bg(id) => Background(t, id)
  }

  function After(events: seq<Event>): TableV {
    if events == [] then EMPTY_TABLE else Step(After(events[..|events| - 1]), events[|events| - 1])
  }
}
