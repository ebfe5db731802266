/** How far the live count of a job is off, on every run: reports of processes that are not recorded
    as running are counted as stale, and the live count lags by their number. */
module JobDrifts {
  import opened JobModel
  import opened JobInvariants

  // ---------------------------------------------------------------- the difference

  /** Running processes less the live count, modulo the range of the counter. */
  function Drift(j: JobV): int {
    var d := CountRunning(j.procs) - j.live;
    if d < 0 then d + UINT_RANGE else d
  }

  /** The number of stale reports about a job since its launch or its last stop, after one more. */
  function StaleNext(s: nat, j: JobV, i: nat, c: Change): nat
    requires i < |j.procs|
  {
    if c.StoppedBy? then 0 else if j.procs[i].state == Running then s else s + 1
  }

  function StaleStep(s: nat, t: TableV, e: Event, pgid: int): nat {
    match e
    case Launch(pids, _) => if pids != [] && pids[0] == pgid then 0 else s
    case Child(pid, c) =>
      var k := JobOfPid(t.jobs, pid);
      if k >= 0 && t.jobs[k].pgid == pgid then StaleNext(s, t.jobs[k], FirstPid(t.jobs[k].procs, pid), c) else s
    case _ => s
  }

  /** Exits, kills and continuations reported of processes of a group that were not recorded as
      running, since the launch of its job or the last stop of one of its processes. */
  function Stale(events: seq<Event>, pgid: int): nat {
    if events == [] then 0 else
    var init := events[..|events| - 1];
    StaleStep(Stale(init, pgid), After(init), events[|events| - 1], pgid)
  }

  predicate DriftOk(j: JobV, s: nat) {
    Drift(j) == s % UINT_RANGE
  }

  /** The live count of a group's job is `s` short of its running processes. */
  predicate Drifts(jobs: seq<JobV>, pgid: int, s: nat) {
    forall k :: 0 <= k < |jobs| && jobs[k].pgid == pgid ==> DriftOk(jobs[k], s)
  }

  // ---------------------------------------------------------------- one record

  lemma StopDrift(j: JobV, i: nat, signal: int)
    requires i < |j.procs|
    ensures Drift(Reported(j, i, StoppedBy(signal))) == 0
  {
    NoneRunning(j.procs[i := j.procs[i].(state := Stopped)]);
  }

  lemma EndDrift(j: JobV, i: nat, c: Change)
    requires i < |j.procs| < UINT_RANGE && (c.Exited? || c.Signaled?)
    ensures Drift(Reported(j, i, c)) == if j.procs[i].state == Running then Drift(j) else Inc(Drift(j), UINT_RANGE)
  {
    CountRunningUpdate(j.procs, i, Reported(j, i, c).procs[i]);
  }

  lemma ResumeDrift(j: JobV, i: nat)
    requires i < |j.procs| < UINT_RANGE
    ensures Drift(Reported(j, i, Resumed)) ==
            if j.procs[i].state == Running then Drift(j) else Inc(Drift(j), UINT_RANGE)
  {
    CountRunningUpdate(j.procs, i, Reported(j, i, Resumed).procs[i]);
  }

  lemma NextWraps(s: nat)
    ensures (s + 1) % UINT_RANGE == Inc(s % UINT_RANGE, UINT_RANGE)
  {}

  /** One report about one process. */
  lemma ReportedDrift(j: JobV, i: nat, c: Change, s: nat)
    requires i < |j.procs| < UINT_RANGE && DriftOk(j, s)
    ensures DriftOk(Reported(j, i, c), StaleNext(s, j, i, c))
  {
    NextWraps(s);
    match c
    case StoppedBy(signal) => StopDrift(j, i, signal);
    case Resumed => ResumeDrift(j, i);
    case _ => EndDrift(j, i, c);
  }

  /** Waking a job counts exactly the processes that it records as running again. */
  lemma ContinueDrift(j: JobV)
    requires |j.procs| < UINT_RANGE
    ensures Drift(MarkContinued(j)) == Drift(j)
  {
    ContinuedRunning(j.procs);
    IncByAdds(j.live, CountStopped(j.procs));
  }

  lemma LaunchedDrift(pids: seq<int>, background: bool)
    requires 0 < |pids| < UINT_RANGE
    ensures Drift(Launched(pids, background)) == 0
  {
    ForkedRunning(pids);
    IncByAdds(0, |pids|);
  }

  // ---------------------------------------------------------------- one event

  lemma UpdateDrifts(jobs: seq<JobV>, k: nat, j: JobV, pgid: int, s: nat, s': nat)
    requires ShapeOk(jobs) && Drifts(jobs, pgid, s) && k < |jobs| && j.pgid == jobs[k].pgid
    requires if j.pgid == pgid then DriftOk(j, s') else s' == s
    ensures Drifts(jobs[k := j], pgid, s')
  {
    var r := jobs[k := j];
    forall l | 0 <= l < |r| && r[l].pgid == pgid ensures DriftOk(r[l], s') {
      assert l != k ==> r[l] == jobs[l] && Apart(jobs, k, l);
    }
  }

  lemma RemoveDrifts(jobs: seq<JobV>, k: nat, pgid: int, s: nat, s': nat)
    requires ShapeOk(jobs) && Drifts(jobs, pgid, s) && k < |jobs| && (jobs[k].pgid == pgid || s' == s)
    ensures Drifts(RemoveAt(jobs, k), pgid, s')
  {
    var r := RemoveAt(jobs, k);
    forall l | 0 <= l < |r| && r[l].pgid == pgid ensures DriftOk(r[l], s') {
      var o := if l < k then l else l + 1;
      assert r[l] == jobs[o] && Apart(jobs, k, o);
    }
  }

  lemma AppendDrifts(jobs: seq<JobV>, j: JobV, pgid: int, s: nat, s': nat)
    requires Drifts(jobs, pgid, s) && forall k :: 0 <= k < |jobs| ==> jobs[k].pgid != j.pgid
    requires if j.pgid == pgid then DriftOk(j, s') else s' == s
    ensures Drifts(jobs + [j], pgid, s')
  {
    var r := jobs + [j];
    forall l | 0 <= l < |r| && r[l].pgid == pgid ensures DriftOk(r[l], s') {
      assert r[l] == if l < |jobs| then jobs[l] else j;
    }
  }

  lemma ReportDrifts(t: TableV, pid: int, c: Change, pgid: int, s: nat)
    requires ShapeOk(t.jobs) && Drifts(t.jobs, pgid, s)
    ensures Drifts(Report(t, pid, c).jobs, pgid, StaleStep(s, t, Child(pid, c), pgid))
  {
    var k := JobOfPid(t.jobs, pid);
    if k >= 0 {
      var j, i, s' := t.jobs[k], FirstPid(t.jobs[k].procs, pid), StaleStep(s, t, Child(pid, c), pgid);
      ReportedList(t, pid, c);
      if Completes(j, c) {
        RemoveDrifts(t.jobs, k, pgid, s, s');
      } else {
        assert JobShape(j);
        if j.pgid == pgid {
          ReportedDrift(j, i, c, s);
        }
        UpdateDrifts(t.jobs, k, Reported(j, i, c), pgid, s, s');
      }
    }
  }

  lemma WakeDrifts(t: TableV, k: nat, j: JobV, pgid: int, s: nat)
    requires ShapeOk(t.jobs) && Drifts(t.jobs, pgid, s) && k < |t.jobs| && j.pgid == t.jobs[k].pgid
    requires Drift(j) == Drift(t.jobs[k]) || Drift(j) == Drift(MarkContinued(t.jobs[k]))
    ensures Drifts(t.jobs[k := j], pgid, s)
  {
    assert JobShape(t.jobs[k]);
    ContinueDrift(t.jobs[k]);
    UpdateDrifts(t.jobs, k, j, pgid, s, s);
  }

  lemma DropDrifts(t: TableV, group: int, pgid: int, s: nat)
    requires ShapeOk(t.jobs) && Drifts(t.jobs, pgid, s)
    ensures Drifts(Remove(t, group).jobs, pgid, s)
  {
    var k := LastOf(t.jobs, group);
    if k >= 0 {
      RemoveDrifts(t.jobs, k, pgid, s, s);
    }
  }

  lemma StepDrifts(t: TableV, e: Event, pgid: int, s: nat)
    requires ShapeOk(t.jobs) && Fresh(t, e) && pgid != 0 && Drifts(t.jobs, pgid, s)
    ensures Drifts(Step(t, e).jobs, pgid, StaleStep(s, t, e, pgid))
  {
    match e
    case Launch(pids, background) =>
      LaunchedDrift(pids, background);
      AppendDrifts(t.jobs, Launched(pids, background).(id := NewId(t.jobs)), pgid, s, StaleStep(s, t, e, pgid));
    case BuiltinStart(background) =>
      AppendDrifts(t.jobs, BuiltinJob(background).(id := NewId(t.jobs)), pgid, s, s);
    case BuiltinEnd => DropDrifts(t, 0, pgid, s);
    case Child(pid, c) => ReportDrifts(t, pid, c, pgid, s);
    case Reap(group) => DropDrifts(t, group, pgid, s);
    case Fg(id) =>
      var k := FgTarget(t.jobs, id);
      if k >= 0 {
        WakeDrifts(t, k, Foreground(t, id).jobs[k], pgid, s);
      }
    case Bg(id) =>
      var k := BgTarget(t.jobs, id);
      if k >= 0 {
        WakeDrifts(t, k, Background(t, id).jobs[k], pgid, s);
      }
  }

  // ---------------------------------------------------------------- whole runs

  lemma {:induction false} RunDrifts(events: seq<Event>, pgid: int)
    requires AllFresh(events) && pgid != 0
    ensures ShapeOk(After(events).jobs) && Drifts(After(events).jobs, pgid, Stale(events, pgid))
    decreases |events|
  {
    RunShape(events);
    if events != [] {
      var init := events[..|events| - 1];
      RunDrifts(init, pgid);
      StepDrifts(After(init), events[|events| - 1], pgid, Stale(init, pgid));
    }
  }

  /** The running processes are the live count and the stale reports, modulo 2^32. */
  predicate RunningIs(j: JobV, s: nat) {
    CountRunning(j.procs) == (j.live + s) % UINT_RANGE
  }

  lemma RunningFromLive(j: JobV, s: nat)
    requires |j.procs| < UINT_RANGE && DriftOk(j, s)
    ensures RunningIs(j, s)
  {
    var m, q := s % UINT_RANGE, s / UINT_RANGE;
    assert j.live + s == UINT_RANGE * q + (j.live + m);
    Remainder(j.live + m, q, CountRunning(j.procs));
  }

  lemma Remainder(x: nat, q: nat, r: nat)
    requires r < UINT_RANGE && (x == r || x == r + UINT_RANGE)
    ensures (UINT_RANGE * q + x) % UINT_RANGE == r
  {}

  lemma ListedRunning(jobs: seq<JobV>, k: nat, s: nat)
    requires ShapeOk(jobs) && k < |jobs| && Drifts(jobs, jobs[k].pgid, s)
    ensures RunningIs(jobs[k], s)
  {
    assert JobShape(jobs[k]);
    RunningFromLive(jobs[k], s);
  }

  /** Over every run, for every listed job: what its live count says, exactly. */
  lemma RunningOnRun(events: seq<Event>, k: nat)
    requires AllFresh(events) && k < |After(events).jobs| && After(events).jobs[k].pgid != 0
    ensures var j := After(events).jobs[k]; RunningIs(j, Stale(events, j.pgid))
  {
    var jobs, pgid := After(events).jobs, After(events).jobs[k].pgid;
    RunDrifts(events, pgid);
    ListedRunning(jobs, k, Stale(events, pgid));
  }

  /** When a report takes a job for completed, by its running processes and its stale reports. */
  predicate CompletesStale(j: JobV, c: Change, s: nat) {
    j.background && (c.StoppedBy? || CountRunning(j.procs) == (if c.Resumed? then s else s + 1) % UINT_RANGE)
  }

  lemma CompletesByRunning(j: JobV, c: Change, s: nat)
    requires |j.procs| < UINT_RANGE && DriftOk(j, s)
    ensures Completes(j, c) <==> CompletesStale(j, c, s)
  {
    NextWraps(s);
  }

  lemma ReportLeaves(t: TableV, pid: int, c: Change, k: nat, s: nat)
    requires ShapeOk(t.jobs) && k == JobOfPid(t.jobs, pid) && Drifts(t.jobs, t.jobs[k].pgid, s)
    ensures var j := t.jobs[k];
            Report(t, pid, c).jobs == if CompletesStale(j, c, s) then RemoveAt(t.jobs, k)
                                      else t.jobs[k := Reported(j, FirstPid(j.procs, pid), c)]
  {
    assert JobShape(t.jobs[k]);
    BackgroundLeaves(t, pid, c);
    CompletesByRunning(t.jobs[k], c, s);
  }

  lemma ListedGroup(t: TableV, pid: int, k: nat)
    requires ShapeOk(t.jobs) && pid > 0 && k == JobOfPid(t.jobs, pid)
    ensures t.jobs[k].pgid != 0
  {
    var j := t.jobs[k];
    assert JobShape(j) && j.procs[FirstPid(j.procs, pid)].pid == pid;
  }

  /** The job a report is about leaves the list, after any run, if and only if it is in the background
      and the report is a stop, or an exit or a kill when one process more runs than there are stale
      reports, or a continuation when as many run as there are stale reports, modulo 2^32. */
  lemma LeavesByRunning(events: seq<Event>, pid: int, c: Change, k: nat)
    requires AllFresh(events) && pid > 0 && k == JobOfPid(After(events).jobs, pid)
    ensures var t := After(events);
            var j := t.jobs[k];
            Report(t, pid, c).jobs == if CompletesStale(j, c, Stale(events, j.pgid)) then RemoveAt(t.jobs, k)
                                      else t.jobs[k := Reported(j, FirstPid(j.procs, pid), c)]
  {
    var t := After(events);
    var pgid := t.jobs[k].pgid;
    RunShape(events);
    ListedGroup(t, pid, k);
    RunDrifts(events, pgid);
    ReportLeaves(t, pid, c, k, Stale(events, pgid));
  }

  // ---------------------------------------------------------------- a stale report

  lemma OnlyJob(t: TableV, j: JobV, pid: int, i: nat)
    requires t.jobs == [j] && FirstPid(j.procs, pid) == i
    ensures JobOfPid(t.jobs, pid) == 0
  {}

  lemma ReportOnJob(t: TableV, j: JobV, pid: int, i: nat, c: Change)
    requires t.jobs == [j] && JobShape(j) && FirstPid(j.procs, pid) == i
    ensures Step(t, Child(pid, c)).jobs == if Completes(j, c) then [] else [Reported(j, i, c)]
  {
    OnlyJob(t, j, pid, i);
    assert ShapeOk(t.jobs);
    BackgroundLeaves(t, pid, c);
  }

  /** The job of a pipeline of two with given states. */
  function Pair(p: int, q: int, a: ProcState, b: ProcState, background: bool, state: JobState, live: UInt): JobV {
    JobV(1, p, [Proc(p, a, 0), Proc(q, b, 0)], background, state, live)
  }

  lemma PairFound(p: int, q: int, a: ProcState, b: ProcState, background: bool, state: JobState, live: UInt)
    requires 0 < p < q && (background ==> state != JobStopped)
    ensures var j := Pair(p, q, a, b, background, state, live);
            JobShape(j) && FirstPid(j.procs, p) == 0 && FirstPid(j.procs, q) == 1
  {
    assert FirstFrom(Pair(p, q, a, b, background, state, live).procs, 1, q) == 1;
  }

  /** A pipeline of two in the foreground: a stop of the first is recorded of both; when the second
      has ended instead, its end is stale and the live count wraps. */
  lemma StopThenExit(p: int, q: int) returns (t: TableV)
    requires 0 < p < q
    ensures t == Step(Step(Step(EMPTY_TABLE, Launch([p, q], false)), Child(p, StoppedBy(20))), Child(q, Exited(0)))
    ensures t.jobs == [Pair(p, q, Stopped, Done, false, JobStopped, UINT_RANGE - 1)]
  {
    var t1 := Step(EMPTY_TABLE, Launch([p, q], false));
    assert Ids([]) == [] && Forked([p, q]) == [Proc(p, Running, 0), Proc(q, Running, 0)];
    IncByAdds(0, 2);
    assert t1.jobs == [Pair(p, q, Running, Running, false, JobRunning, 2)];
    PairFound(p, q, Running, Running, false, JobRunning, 2);
    var t2 := Step(t1, Child(p, StoppedBy(20)));
    ReportOnJob(t1, t1.jobs[0], p, 0, StoppedBy(20));
    var stopped := [Proc(p, Stopped, 0), Proc(q, Stopped, 0)];
    assert t1.jobs[0].procs[0 := Proc(p, Stopped, 0)] == [Proc(p, Stopped, 0), Proc(q, Running, 0)];
    assert StopRunning([Proc(p, Stopped, 0), Proc(q, Running, 0)]) == stopped;
    assert t2.jobs == [Pair(p, q, Stopped, Stopped, false, JobStopped, 0)];
    PairFound(p, q, Stopped, Stopped, false, JobStopped, 0);
    t := Step(t2, Child(q, Exited(0)));
    ReportOnJob(t2, t2.jobs[0], q, 1, Exited(0));
    assert stopped[1 := Proc(q, Done, 0)] == [Proc(p, Stopped, 0), Proc(q, Done, 0)];
  }

  /** Waking that job counts one process and comes back to a live count of 0. */
  lemma WakesAtZero(t: TableV, p: int, q: int, e: Event) returns (u: TableV)
    requires 0 < p < q && t.jobs == [Pair(p, q, Stopped, Done, false, JobStopped, UINT_RANGE - 1)]
    requires e == Fg(0) || e == Bg(0)
    ensures u == Step(t, e) && u.jobs == [Pair(p, q, Running, Done, e.Bg?, JobRunning, 0)]
    ensures CountRunning(u.jobs[0].procs) == 1
  {
    var procs, woken := t.jobs[0].procs, [Proc(p, Running, 0), Proc(q, Done, 0)];
    assert procs[..1] == [Proc(p, Stopped, 0)] && [Proc(p, Stopped, 0)][..0] == [];
    assert CountStopped(procs) == 1 && ContinueStopped(procs) == woken;
    assert IncBy(UINT_RANGE - 1, 1) == Inc(IncBy(UINT_RANGE - 1, 0), UINT_RANGE) == 0;
    assert woken[..1] == [Proc(p, Running, 0)] && [Proc(p, Running, 0)][..0] == [];
    assert FgTarget(t.jobs, 0) == 0 && BgTarget(t.jobs, 0) == 0;
    u := Step(t, e);
  }

  /** Stopped, one member gone, and continued with `bg`: the report that the other one continues takes
      the job out of the list while that process runs. */
  lemma ContinueRemoves(p: int, q: int)
    requires 0 < p < q
    ensures var t := Step(Step(Step(EMPTY_TABLE, Launch([p, q], false)), Child(p, StoppedBy(20))), Child(q, Exited(0)));
            var u := Step(t, Bg(0));
            && |u.jobs| == 1 && CountRunning(u.jobs[0].procs) == 1
            && Step(u, Child(p, Resumed)).jobs == []
  {
    var t := StopThenExit(p, q);
    var u := WakesAtZero(t, p, q, Bg(0));
    PairFound(p, q, Running, Done, true, JobRunning, 0);
    ReportOnJob(u, u.jobs[0], p, 0, Resumed);
  }
}
