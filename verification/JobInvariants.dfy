/** What job control keeps over every run, and exactly which reports break its counters. */
module JobInvariants {
  import opened JobModel

  // ---------------------------------------------------------------- invariants

  /** `live` of a launched job is its number of running processes. */
  predicate LiveOk(j: JobV) {
    j.live == CountRunning(j.procs)
  }

  predicate JobShape(j: JobV) {
    && |j.procs| < UINT_RANGE
    && (j.background ==> j.state != JobStopped)
    && (j.pgid == 0 ==> forall i :: 0 <= i < |j.procs| ==> j.procs[i].pid == 0)
  }

  predicate Apart(jobs: seq<JobV>, k: nat, l: nat)
    requires k < |jobs| && l < |jobs|
  {
    k != l ==> jobs[k].pgid != jobs[l].pgid
  }

  /** Process groups are distinct; no background job is listed as stopped. */
  ghost predicate ShapeOk(jobs: seq<JobV>) {
    && (forall k: nat :: k < |jobs| ==> JobShape(jobs[k]))
    && (forall k: nat, l: nat :: k < |jobs| && l < |jobs| ==> Apart(jobs, k, l))
  }

  /** The live count of the job of a process group is right. */
  predicate LivesOk(jobs: seq<JobV>, pgid: int) {
    forall k :: 0 <= k < |jobs| && jobs[k].pgid == pgid ==> LiveOk(jobs[k])
  }

  function NotStopped(jobs: seq<JobV>): (n: nat)
    ensures n <= |jobs|
  {
    if jobs == [] then 0
    else NotStopped(jobs[..|jobs| - 1]) + (if jobs[|jobs| - 1].state == JobStopped then 0 else 1)
  }

  predicate CountsOk(t: TableV) {
    t.count == |t.jobs| < SIZE_RANGE && t.running == NotStopped(t.jobs)
  }

  // ---------------------------------------------------------------- the environment

  /** The kernel hands out process groups that are not listed, and reports only real pids. */
  ghost predicate Fresh(t: TableV, e: Event) {
    match e
    case Launch(pids, _) =>
      && 0 < |pids| < UINT_RANGE && |t.jobs| + 1 < SIZE_RANGE
      && pids[0] != 0 && forall k :: 0 <= k < |t.jobs| ==> t.jobs[k].pgid != pids[0]
    case BuiltinStart(_) =>
      |t.jobs| + 1 < SIZE_RANGE && forall k :: 0 <= k < |t.jobs| ==> t.jobs[k].pgid != 0
    case Child(pid, _) => pid > 0
    case _ => true
  }

  /** The process a report is about. */
  function Subject(t: TableV, pid: int): (p: Proc)
    requires JobOfPid(t.jobs, pid) >= 0
  {
    var j := t.jobs[JobOfPid(t.jobs, pid)];
    j.procs[FirstPid(j.procs, pid)]
  }

  /** A background job is taken to be completed by any stop of one of its processes, by an exit or a
      kill when one process is counted as live, and by a continuation when none is. */
  predicate Completes(j: JobV, c: Change) {
    j.background && (c.StoppedBy? || j.live == if c.Resumed? then 0 else 1)
  }

  /** What is reported of processes of the group is a stop, or is reported of a process recorded as
      running, or completes the job in the background. */
  predicate LiveReport(t: TableV, e: Event, pgid: int) {
    e.Child? && JobOfPid(t.jobs, e.pid) >= 0 ==>
      var j := t.jobs[JobOfPid(t.jobs, e.pid)];
      j.pgid == pgid ==> e.change.StoppedBy? || Subject(t, e.pid).state == Running || Completes(j, e.change)
  }

  /** Stops are reported of foreground jobs not yet marked stopped. */
  predicate FirstStop(t: TableV, e: Event) {
    e.Child? && e.change.StoppedBy? && JobOfPid(t.jobs, e.pid) >= 0 ==>
      var j := t.jobs[JobOfPid(t.jobs, e.pid)];
      !j.background && j.state != JobStopped
  }

  // ---------------------------------------------------------------- counting

  lemma {:induction false} CountRunningUpdate(procs: seq<Proc>, i: nat, p: Proc)
    requires i < |procs|
    ensures CountRunning(procs[i := p]) == CountRunning(procs)
                                           - (if procs[i].state == Running then 1 else 0)
                                           + (if p.state == Running then 1 else 0)
    decreases |procs|
  {
    var n := |procs| - 1;
    if i == n {
      assert procs[i := p][..n] == procs[..n];
    } else {
      assert procs[i := p][..n] == procs[..n][i := p];
      CountRunningUpdate(procs[..n], i, p);
    }
  }

  lemma {:induction false} NoneRunning(procs: seq<Proc>)
    ensures CountRunning(StopRunning(procs)) == 0
    decreases |procs|
  {
    if procs != [] {
      var init := procs[..|procs| - 1];
      NoneRunning(init);
      assert StopRunning(procs)[..|init|] == StopRunning(init);
    }
  }

  lemma {:induction false} ContinuedRunning(procs: seq<Proc>)
    ensures CountRunning(ContinueStopped(procs)) == CountRunning(procs) + CountStopped(procs) <= |procs|
    decreases |procs|
  {
    if procs != [] {
      var init := procs[..|procs| - 1];
      ContinuedRunning(init);
      assert ContinueStopped(procs)[..|init|] == ContinueStopped(init);
    }
  }

  lemma {:induction false} NotStoppedUpdate(jobs: seq<JobV>, k: nat, j: JobV)
    requires k < |jobs|
    ensures NotStopped(jobs[k := j]) == NotStopped(jobs)
                                        - (if jobs[k].state == JobStopped then 0 else 1)
                                        + (if j.state == JobStopped then 0 else 1)
    decreases |jobs|
  {
    var n := |jobs| - 1;
    if k == n {
      assert jobs[k := j][..n] == jobs[..n];
    } else {
      assert jobs[k := j][..n] == jobs[..n][k := j];
      NotStoppedUpdate(jobs[..n], k, j);
    }
  }

  lemma {:induction false} NotStoppedRemove(jobs: seq<JobV>, k: nat)
    requires k < |jobs|
    ensures NotStopped(RemoveAt(jobs, k)) == NotStopped(jobs) - (if jobs[k].state == JobStopped then 0 else 1)
    decreases |jobs|
  {
    var n, r := |jobs| - 1, RemoveAt(jobs, k);
    if k == n {
      assert r == jobs[..n];
    } else {
      assert r[..n - 1] == RemoveAt(jobs[..n], k) && r[n - 1] == jobs[n];
      NotStoppedRemove(jobs[..n], k);
    }
  }

  // ---------------------------------------------------------------- searches under distinct groups

  lemma {:induction false} LastBeforeUnique(jobs: seq<JobV>, n: nat, k: nat)
    requires k < n <= |jobs| && forall l :: k < l < n ==> jobs[l].pgid != jobs[k].pgid
    ensures LastBefore(jobs, n, jobs[k].pgid) == k
  {
    if k < n - 1 {
      LastBeforeUnique(jobs, n - 1, k);
    }
  }

  lemma LastOfUnique(jobs: seq<JobV>, k: nat)
    requires k < |jobs| && forall l :: k < l < |jobs| ==> jobs[l].pgid != jobs[k].pgid
    ensures LastOf(jobs, jobs[k].pgid) == k
  {
    LastBeforeUnique(jobs, |jobs|, k);
  }

  lemma OnlyOf(jobs: seq<JobV>, k: nat, j: JobV)
    requires ShapeOk(jobs) && k < |jobs| && j.pgid == jobs[k].pgid
    ensures LastOf(jobs[k := j], j.pgid) == k
  {
    var r := jobs[k := j];
    forall l | k < l < |r| ensures r[l].pgid != r[k].pgid {
      assert Apart(jobs, k, l);
    }
    LastOfUnique(r, k);
  }

  /** A report changes the record of one job, or takes that job out of the list. */
  lemma ReportedList(t: TableV, pid: int, c: Change)
    requires ShapeOk(t.jobs) && JobOfPid(t.jobs, pid) >= 0
    ensures var k := JobOfPid(t.jobs, pid);
            var j := Reported(t.jobs[k], FirstPid(t.jobs[k].procs, pid), c);
            Report(t, pid, c).jobs == if j.background && j.live == 0 then RemoveAt(t.jobs, k) else t.jobs[k := j]
  {
    var k := JobOfPid(t.jobs, pid);
    var j := Reported(t.jobs[k], FirstPid(t.jobs[k].procs, pid), c);
    var done := j.(state := JobDone);
    assert t.jobs[k := j][k := done] == t.jobs[k := done];
    OnlyOf(t.jobs, k, done);
    assert RemoveAt(t.jobs[k := done], k) == RemoveAt(t.jobs, k);
  }

  // ---------------------------------------------------------------- shape

  lemma ShapeUpdate(jobs: seq<JobV>, k: nat, j: JobV)
    requires ShapeOk(jobs) && k < |jobs| && JobShape(j) && j.pgid == jobs[k].pgid
    ensures ShapeOk(jobs[k := j])
  {
    var r := jobs[k := j];
    forall a: nat, b: nat | a < |r| && b < |r| ensures Apart(r, a, b) {
      assert Apart(jobs, a, b);
    }
  }

  lemma ShapeRemove(jobs: seq<JobV>, k: nat)
    requires ShapeOk(jobs) && k < |jobs|
    ensures ShapeOk(RemoveAt(jobs, k))
  {
    var r := RemoveAt(jobs, k);
    forall a: nat, b: nat | a < |r| && b < |r| ensures Apart(r, a, b) {
      assert Apart(jobs, if a < k then a else a + 1, if b < k then b else b + 1);
    }
  }

  lemma ShapeAppend(jobs: seq<JobV>, j: JobV)
    requires ShapeOk(jobs) && JobShape(j) && forall k :: 0 <= k < |jobs| ==> jobs[k].pgid != j.pgid
    ensures ShapeOk(jobs + [j])
  {
    var r := jobs + [j];
    forall a: nat, b: nat | a < |r| && b < |r| ensures Apart(r, a, b) {
      if a < |jobs| && b < |jobs| {
        assert Apart(jobs, a, b);
      }
    }
  }

  lemma ReportShape(t: TableV, pid: int, c: Change)
    requires ShapeOk(t.jobs)
    ensures ShapeOk(Report(t, pid, c).jobs)
  {
    var k := JobOfPid(t.jobs, pid);
    if k >= 0 {
      ReportedList(t, pid, c);
      var i := FirstPid(t.jobs[k].procs, pid);
      var j := Reported(t.jobs[k], i, c);
      if j.background && j.live == 0 {
        ShapeRemove(t.jobs, k);
      } else {
        ShapeUpdate(t.jobs, k, j);
      }
    }
  }

  /** Whatever is reported, process groups stay distinct and no background job is listed as stopped. */
  lemma StepShape(t: TableV, e: Event)
    requires ShapeOk(t.jobs) && Fresh(t, e)
    ensures ShapeOk(Step(t, e).jobs)
  {
    match e
    case Launch(pids, background) => ShapeAppend(t.jobs, Launched(pids, background).(id := NewId(t.jobs)));
    case BuiltinStart(background) => ShapeAppend(t.jobs, BuiltinJob(background).(id := NewId(t.jobs)));
    case BuiltinEnd =>
      if LastOf(t.jobs, 0) >= 0 {
        ShapeRemove(t.jobs, LastOf(t.jobs, 0));
      }
    case Child(pid, c) => ReportShape(t, pid, c);
    case Reap(pgid) =>
      if LastOf(t.jobs, pgid) >= 0 {
        ShapeRemove(t.jobs, LastOf(t.jobs, pgid));
      }
    case Fg(id) =>
      var k := FgTarget(t.jobs, id);
      if k >= 0 {
        ShapeUpdate(t.jobs, k, Foreground(t, id).jobs[k]);
      }
    case Bg(id) =>
      var k := BgTarget(t.jobs, id);
      if k >= 0 {
        ShapeUpdate(t.jobs, k, Background(t, id).jobs[k]);
      }
  }

  // ---------------------------------------------------------------- live processes

  /** A report keeps the live count right exactly when it is a stop or its process was running:
      then the counter is positive when it is decremented, and does not wrap. */
  lemma LiveExact(j: JobV, i: nat, c: Change)
    requires LiveOk(j) && i < |j.procs| < UINT_RANGE
    ensures LiveOk(Reported(j, i, c)) <==> c.StoppedBy? || j.procs[i].state == Running
    ensures j.procs[i].state == Running && (c.Exited? || c.Signaled?) ==>
              j.live > 0 && Reported(j, i, c).live == j.live - 1
  {
    var r := Reported(j, i, c);
    if c.StoppedBy? {
      NoneRunning(j.procs[i := j.procs[i].(state := Stopped)]);
    } else {
      CountRunningUpdate(j.procs, i, r.procs[i]);
    }
  }

  lemma {:induction false} IncByAdds(x: UInt, n: nat)
    requires n < UINT_RANGE
    ensures IncBy(x, n) == if x + n < UINT_RANGE then x + n else x + n - UINT_RANGE
  {
    if n > 0 {
      IncByAdds(x, n - 1);
    }
  }

  lemma ContinueLive(j: JobV)
    requires |j.procs| < UINT_RANGE && LiveOk(j)
    ensures LiveOk(MarkContinued(j))
  {
    ContinuedRunning(j.procs);
    IncByAdds(j.live, CountStopped(j.procs));
  }

  lemma {:induction false} ForkedRunning(pids: seq<int>)
    ensures CountRunning(Forked(pids)) == |pids|
    decreases |pids|
  {
    if pids != [] {
      var init := pids[..|pids| - 1];
      ForkedRunning(init);
      assert Forked(pids)[..|init|] == Forked(init);
    }
  }

  /** The job a report is about leaves the list if and only if it is in the background and the report
      is a stop, whatever else of it runs, or an exit or a kill while one process is counted as live,
      or a continuation while none is. */
  lemma BackgroundLeaves(t: TableV, pid: int, c: Change)
    requires ShapeOk(t.jobs) && JobOfPid(t.jobs, pid) >= 0
    ensures var k := JobOfPid(t.jobs, pid);
            var j := t.jobs[k];
            Report(t, pid, c).jobs == if Completes(j, c) then RemoveAt(t.jobs, k)
                                      else t.jobs[k := Reported(j, FirstPid(j.procs, pid), c)]
  {
    ReportedList(t, pid, c);
  }

  /** A job in the background, of any number of processes: when the first is stopped the job is taken
      for a finished one and removed, while the others run. */
  lemma StopRemoves(pids: seq<int>)
    requires pids != [] && pids[0] > 0 && |pids| < UINT_RANGE
    ensures var t := Step(EMPTY_TABLE, Launch(pids, true));
            && |t.jobs| == 1 && CountRunning(t.jobs[0].procs) == |pids|
            && Step(t, Child(pids[0], StoppedBy(20))).jobs == []
  {
    var t := Step(EMPTY_TABLE, Launch(pids, true));
    var j := t.jobs[0];
    assert t.jobs == [j] && j.procs == Forked(pids) && j.procs[0].pid == pids[0];
    ForkedRunning(pids);
    IncByAdds(0, |pids|);
    assert FirstPid(j.procs, pids[0]) == 0;
    assert JobOfPid(t.jobs, pids[0]) == 0;
    assert JobShape(j);
    BackgroundLeaves(t, pids[0], StoppedBy(20));
  }

  lemma LivesRemove(jobs: seq<JobV>, k: nat, pgid: int)
    requires LivesOk(jobs, pgid) && k < |jobs|
    ensures LivesOk(RemoveAt(jobs, k), pgid)
  {
    var r := RemoveAt(jobs, k);
    forall l | 0 <= l < |r| && r[l].pgid == pgid ensures LiveOk(r[l]) {
      assert r[l] == jobs[if l < k then l else l + 1];
    }
  }

  lemma LivesUpdate(jobs: seq<JobV>, k: nat, j: JobV, pgid: int)
    requires LivesOk(jobs, pgid) && k < |jobs| && j.pgid == jobs[k].pgid
    ensures LivesOk(jobs[k := j], pgid) <==> (j.pgid == pgid ==> LiveOk(j))
  {
    var r := jobs[k := j];
    assert r[k] == j;
    assert forall l :: 0 <= l < |r| && l != k ==> r[l] == jobs[l];
  }

  lemma ReportLives(t: TableV, pid: int, c: Change, pgid: int)
    requires ShapeOk(t.jobs) && LivesOk(t.jobs, pgid) && pid > 0
    ensures LivesOk(Report(t, pid, c).jobs, pgid) <==> LiveReport(t, Child(pid, c), pgid)
  {
    var k := JobOfPid(t.jobs, pid);
    if k >= 0 {
      BackgroundLeaves(t, pid, c);
      var j, i := t.jobs[k], FirstPid(t.jobs[k].procs, pid);
      assert JobShape(j);
      if Completes(j, c) {
        LivesRemove(t.jobs, k, pgid);
      } else {
        LivesUpdate(t.jobs, k, Reported(j, i, c), pgid);
        if j.pgid == pgid {
          LiveExact(j, i, c);
        }
      }
    }
  }

  lemma WakeLives(t: TableV, k: nat, j: JobV, pgid: int)
    requires ShapeOk(t.jobs) && LivesOk(t.jobs, pgid) && k < |t.jobs|
    requires j.pgid == t.jobs[k].pgid && j.procs == MarkContinued(t.jobs[k]).procs
    requires j.live == MarkContinued(t.jobs[k]).live
    ensures LivesOk(t.jobs[k := j], pgid)
  {
    assert JobShape(t.jobs[k]);
    if j.pgid == pgid {
      ContinueLive(t.jobs[k]);
    }
    LivesUpdate(t.jobs, k, j, pgid);
  }

  /** One event keeps the live count of the group's job right if and only if what it reports of its
      processes is a stop, or is reported of a running one, or completes the job. */
  lemma StepLives(t: TableV, e: Event, pgid: int)
    requires ShapeOk(t.jobs) && LivesOk(t.jobs, pgid) && Fresh(t, e) && pgid != 0
    ensures LivesOk(Step(t, e).jobs, pgid) <==> LiveReport(t, e, pgid)
  {
    match e
    case Launch(pids, background) =>
      ForkedRunning(pids);
      IncByAdds(0, |pids|);
    case Child(pid, c) => ReportLives(t, pid, c, pgid);
    case Fg(id) =>
      var k := FgTarget(t.jobs, id);
      if k >= 0 && t.jobs[k].background {
        LivesUpdate(t.jobs, k, Foreground(t, id).jobs[k], pgid);
      } else if k >= 0 {
        WakeLives(t, k, Foreground(t, id).jobs[k], pgid);
      }
    case Bg(id) =>
      var k := BgTarget(t.jobs, id);
      if k >= 0 {
        WakeLives(t, k, Background(t, id).jobs[k], pgid);
      }
    case _ =>
  }

  // ---------------------------------------------------------------- the counters

  lemma RemoveCounts(t: TableV, pgid: int)
    requires CountsOk(t)
    ensures CountsOk(Remove(t, pgid))
  {
    var k := LastOf(t.jobs, pgid);
    if k >= 0 {
      NotStoppedRemove(t.jobs, k);
    }
  }

  /** The counters after a report: the running counter drops once for a stop, and both drop once
      when the job is completed. */
  lemma ReportCounts(t: TableV, pid: int, c: Change)
    requires ShapeOk(t.jobs) && JobOfPid(t.jobs, pid) >= 0
    ensures var k := JobOfPid(t.jobs, pid);
            var j := Reported(t.jobs[k], FirstPid(t.jobs[k].procs, pid), c);
            var r := if c.StoppedBy? then Dec(t.running, SIZE_RANGE) else t.running;
            var u := Report(t, pid, c);
            if j.background && j.live == 0
            then u.count == Dec(t.count, SIZE_RANGE) && u.running == Dec(r, SIZE_RANGE)
            else u.count == t.count && u.running == r
  {
    var k := JobOfPid(t.jobs, pid);
    var j := Reported(t.jobs[k], FirstPid(t.jobs[k].procs, pid), c);
    var done := j.(state := JobDone);
    assert t.jobs[k := j][k := done] == t.jobs[k := done];
    OnlyOf(t.jobs, k, done);
  }

  /** A report keeps the running counter right if and only if it is not a stop of a job that is
      in the background or already marked stopped. */
  lemma CountsExact(t: TableV, pid: int, c: Change)
    requires ShapeOk(t.jobs) && CountsOk(t)
    ensures CountsOk(Report(t, pid, c)) <==> FirstStop(t, Child(pid, c))
  {
    var k := JobOfPid(t.jobs, pid);
    if k >= 0 {
      var j := Reported(t.jobs[k], FirstPid(t.jobs[k].procs, pid), c);
      assert JobShape(t.jobs[k]);
      ReportedList(t, pid, c);
      ReportCounts(t, pid, c);
      if j.background && j.live == 0 {
        NotStoppedRemove(t.jobs, k);
        CountsGone(t, k, c, Report(t, pid, c));
      } else {
        NotStoppedUpdate(t.jobs, k, j);
      }
    }
  }

  lemma CountsGone(t: TableV, k: nat, c: Change, u: TableV)
    requires CountsOk(t) && k < |t.jobs| && t.jobs[k].state != JobStopped
    requires u.jobs == RemoveAt(t.jobs, k) && NotStopped(u.jobs) == NotStopped(t.jobs) - 1
    requires u.count == Dec(t.count, SIZE_RANGE)
    requires u.running == Dec(if c.StoppedBy? then Dec(t.running, SIZE_RANGE) else t.running, SIZE_RANGE)
    ensures CountsOk(u) <==> !c.StoppedBy?
  {}

  lemma FgCounts(t: TableV, id: nat)
    requires ShapeOk(t.jobs) && CountsOk(t)
    ensures CountsOk(Foreground(t, id))
  {
    var k := FgTarget(t.jobs, id);
    if k >= 0 {
      assert JobShape(t.jobs[k]);
      NotStoppedUpdate(t.jobs, k, Foreground(t, id).jobs[k]);
    }
  }

  lemma BgCounts(t: TableV, id: nat)
    requires CountsOk(t)
    ensures CountsOk(Background(t, id))
  {
    var k := BgTarget(t.jobs, id);
    if k >= 0 {
      NotStoppedUpdate(t.jobs, k, Background(t, id).jobs[k]);
    }
  }

  /** One event keeps both counters right if and only if it is not a stop of a job that is in the
      background or already marked stopped. */
  lemma StepCounts(t: TableV, e: Event)
    requires ShapeOk(t.jobs) && CountsOk(t) && Fresh(t, e)
    ensures CountsOk(Step(t, e)) <==> FirstStop(t, e)
  {
    match e
    case Launch(_, _) =>
    case BuiltinStart(_) =>
    case BuiltinEnd => RemoveCounts(t, 0);
    case Child(pid, c) => CountsExact(t, pid, c);
    case Reap(pgid) => RemoveCounts(t, pgid);
    case Fg(id) => FgCounts(t, id);
    case Bg(id) => BgCounts(t, id);
  }

  // ---------------------------------------------------------------- whole runs

  /** Every event of a run meets a condition in the state it finds. */
  ghost predicate Throughout(events: seq<Event>, ok: (TableV, Event) -> bool) {
    events == [] || (Throughout(events[..|events| - 1], ok)
                     && ok(After(events[..|events| - 1]), events[|events| - 1]))
  }

  /** The state after every event of a run meets a condition. */
  ghost predicate Always(events: seq<Event>, ok: TableV -> bool) {
    ok(After(events)) && (events == [] || Always(events[..|events| - 1], ok))
  }

  ghost predicate AllFresh(events: seq<Event>) {
    events == [] || (AllFresh(events[..|events| - 1]) && Fresh(After(events[..|events| - 1]), events[|events| - 1]))
  }

  lemma {:induction false} RunShape(events: seq<Event>)
    requires AllFresh(events)
    ensures ShapeOk(After(events).jobs)
    decreases |events|
  {
    if events != [] {
      var init := events[..|events| - 1];
      RunShape(init);
      StepShape(After(init), events[|events| - 1]);
    }
  }

  function LiveReports(pgid: int): (TableV, Event) -> bool {
    (t: TableV, e: Event) => LiveReport(t, e, pgid)
  }

  function LivesRight(pgid: int): TableV -> bool {
    (t: TableV) => LivesOk(t.jobs, pgid)
  }

  /** Over every run, the live count of a group's job is its number of running processes after every
      event, if and only if the reports about its processes are as above. */
  lemma {:induction false} RunLives(events: seq<Event>, pgid: int)
    requires AllFresh(events) && pgid != 0
    ensures Always(events, LivesRight(pgid)) <==> Throughout(events, LiveReports(pgid))
    decreases |events|
  {
    if events != [] {
      var init := events[..|events| - 1];
      RunShape(init);
      RunLives(init, pgid);
      if LivesOk(After(init).jobs, pgid) {
        StepLives(After(init), events[|events| - 1], pgid);
      }
    }
  }

  /** Over every run, the counters are right after every event if and only if every stop is a first
      stop in the foreground. */
  lemma {:induction false} RunCounts(events: seq<Event>)
    requires AllFresh(events)
    ensures Always(events, CountsOk) <==> Throughout(events, FirstStop)
    decreases |events|
  {
    if events != [] {
      var init := events[..|events| - 1];
      RunShape(init);
      RunCounts(init);
      if CountsOk(After(init)) {
        StepCounts(After(init), events[|events| - 1]);
      }
    }
  }

  // ---------------------------------------------------------------- where the counters go wrong

  /** Stopping a pipeline of two processes: the second stop report takes the counter below zero. */
  lemma TwoStops(p: int, q: int)
    requires 0 < p < q
    ensures var t := Step(EMPTY_TABLE, Launch([p, q], false));
            var u := Step(Step(t, Child(p, StoppedBy(20))), Child(q, StoppedBy(20)));
            NotStopped(u.jobs) == 0 && u.running == SIZE_RANGE - 1
  {
    var t1 := Step(EMPTY_TABLE, Launch([p, q], false));
    var procs := [Proc(p, Running, 0), Proc(q, Running, 0)];
    assert Forked([p, q]) == procs;
    var j1 := t1.jobs[0];
    assert t1.jobs == [j1] && j1.procs == procs && t1.running == 1;
    assert FirstPid(procs, p) == 0;
    assert JobOfPid(t1.jobs, p) == 0;
    var t2 := Step(t1, Child(p, StoppedBy(20)));
    var stopped := [Proc(p, Stopped, 0), Proc(q, Stopped, 0)];
    assert StopRunning(procs[0 := Proc(p, Stopped, 0)]) == stopped;
    var j2 := t2.jobs[0];
    assert t2.jobs == [j2] && j2.procs == stopped && j2.state == JobStopped && t2.running == 0;
    assert FirstFrom(stopped, 1, q) == 1;
    assert FirstPid(stopped, q) == 1;
    assert JobOfPid(t2.jobs, q) == 0;
    var t3 := Step(t2, Child(q, StoppedBy(20)));
    assert t3.jobs == [t3.jobs[0]] && t3.jobs[0].state == JobStopped;
    assert t3.jobs[..0] == [];
  }

  /** Stopping a job and then killing it takes its live count below zero: the process is marked
      stopped and not counted any more when its end is reported. The job is in the foreground, so
      nothing else happens to it. */
  lemma ExitAfterStop(p: int)
    requires p > 0
    ensures var t := Step(Step(Step(EMPTY_TABLE, Launch([p], false)), Child(p, StoppedBy(20))), Child(p, Signaled(9)));
            |t.jobs| == 1 && CountRunning(t.jobs[0].procs) == 0 && t.jobs[0].live == UINT_RANGE - 1
  {
    var running, stopped, killed := [Proc(p, Running, 0)], [Proc(p, Stopped, 0)], [Proc(p, Killed, 9)];
    var t1 := Step(EMPTY_TABLE, Launch([p], false));
    assert Forked([p]) == running;
    assert |t1.jobs| == 1 && t1.jobs[0].procs == running;
    var t2 := ReportOnOnly(t1, p, StoppedBy(20), running);
    assert running[0 := Proc(p, Stopped, 0)] == stopped && StopRunning(stopped) == stopped;
    var t3 := ReportOnOnly(t2, p, Signaled(9), stopped);
    assert stopped[0 := Proc(p, Killed, 9)] == killed;
    assert killed[..0] == [];
  }

  /** A report about the only process of the only job, in the foreground. */
  lemma ReportOnOnly(t: TableV, p: int, c: Change, procs: seq<Proc>) returns (u: TableV)
    requires |t.jobs| == 1 && t.jobs[0].procs == procs && |procs| == 1 && procs[0].pid == p && !t.jobs[0].background
    ensures u == Step(t, Child(p, c)) && u.jobs == [Reported(t.jobs[0], 0, c)]
  {
    assert JobOfPid(t.jobs, p) == 0;
    u := Step(t, Child(p, c));
  }

  // ---------------------------------------------------------------- job ids

  ghost predicate Increasing(ids: seq<nat>) {
    forall i, j :: 0 <= i < j < |ids| ==> ids[i] < ids[j]
  }

  ghost predicate Ordered(ids: seq<nat>) {
    Increasing(ids) && forall i :: 0 <= i < |ids| ==> ids[i] >= 1
  }

  lemma {:induction false} IdFromLeast(ids: seq<nat>, next: nat)
    requires Increasing(ids) && forall i :: 0 <= i < |ids| ==> ids[i] >= next
    ensures IdFrom(ids, next) !in ids
    ensures next <= IdFrom(ids, next) <= next + |ids|
    ensures forall x: nat :: next <= x < IdFrom(ids, next) ==> x in ids
    ensures IdFrom(ids, next) == next + |ids| <==> ids == [] || ids[|ids| - 1] == next + |ids| - 1
    decreases |ids|
  {
    if ids != [] {
      Spread(ids, next);
      if ids[0] == next {
        IdFromLeast(ids[1..], next + 1);
        assert ids == [next] + ids[1..];
      }
    }
  }

  lemma {:induction false} Spread(ids: seq<nat>, next: nat)
    requires Increasing(ids) && ids != [] && ids[0] >= next
    ensures ids[|ids| - 1] >= ids[0] + |ids| - 1
    decreases |ids|
  {
    if |ids| > 1 {
      var init := ids[..|ids| - 1];
      Spread(init, next);
      assert ids[|init| - 1] < ids[|ids| - 1];
    }
  }

  /** While the listed ids are positive and increasing, a new job gets the least unused positive id.
      The list stays increasing exactly when its last id is its length, that is, when it has no gap. */
  lemma NewIdLeast(jobs: seq<JobV>)
    requires Ordered(Ids(jobs))
    ensures NewId(jobs) >= 1 && NewId(jobs) !in Ids(jobs)
    ensures forall x: nat :: 1 <= x < NewId(jobs) ==> x in Ids(jobs)
    ensures Increasing(Ids(jobs) + [NewId(jobs)]) <==> jobs == [] || jobs[|jobs| - 1].id == |jobs|
  {
    var ids, x := Ids(jobs), NewId(jobs);
    IdFromLeast(ids, 1);
    var r := ids + [x];
    if jobs != [] {
      Spread(ids, 1);
      assert r[|ids|] == x && r[|ids| - 1] == ids[|ids| - 1];
      if Increasing(r) {
        assert r[|ids| - 1] < r[|ids|];
      }
    }
  }

  /** The first place whose id, if there is one, leaves its own number and maybe more unused. */
  predicate FirstGap(ids: seq<nat>, g: nat) {
    && g <= |ids|
    && (g < |ids| ==> ids[g] > g + 1)
    && forall k :: 0 <= k < g ==> ids[k] <= k + 1
  }

  lemma {:induction false} IdFromStops(ids: seq<nat>, next: nat, g: nat)
    requires g <= |ids| && (g < |ids| ==> ids[g] > next + g)
    requires forall k :: 0 <= k < g ==> ids[k] <= next + k
    ensures IdFrom(ids, next) == next + g
    decreases |ids|
  {
    if g > 0 {
      assert ids[0] <= next;
      IdFromStops(ids[1..], next + 1, g - 1);
    }
  }

  lemma {:induction false} SomeGap(ids: seq<nat>) returns (g: nat)
    ensures FirstGap(ids, g)
  {
    g := 0;
    while g < |ids| && ids[g] <= g + 1
      invariant g <= |ids| && forall k :: 0 <= k < g ==> ids[k] <= k + 1
    {
      g := g + 1;
    }
  }

  /** On any list the new id is the number of the first gap, and it repeats a listed id if and only
      if a job behind the gap has that number. */
  lemma NewIdIsFirstGap(jobs: seq<JobV>, g: nat)
    requires FirstGap(Ids(jobs), g)
    ensures NewId(jobs) == g + 1
    ensures NewId(jobs) in Ids(jobs) <==> exists k :: g < k < |jobs| && jobs[k].id == g + 1
  {
    var ids := Ids(jobs);
    IdFromStops(ids, 1, g);
    if g + 1 in ids {
      var k :| 0 <= k < |ids| && ids[k] == g + 1;
      assert k > g && jobs[k].id == g + 1;
    }
    if k :| g < k < |jobs| && jobs[k].id == g + 1 {
      assert ids[k] == g + 1;
    }
  }

  /** Every list has exactly one first gap. */
  lemma OneFirstGap(jobs: seq<JobV>) returns (g: nat)
    ensures FirstGap(Ids(jobs), g) && forall h :: FirstGap(Ids(jobs), h) ==> h == g
  {
    g := SomeGap(Ids(jobs));
    NewIdIsFirstGap(jobs, g);
    forall h | FirstGap(Ids(jobs), h) ensures h == g {
      NewIdIsFirstGap(jobs, h);
    }
  }

  /** The listed ids are positive and increase from the head to the tail. */
  ghost predicate IdsOk(t: TableV) {
    Ordered(Ids(t.jobs))
  }

  /** No two listed jobs have the same id. */
  ghost predicate IdsDiffer(t: TableV) {
    DifferentIds(Ids(t.jobs))
  }

  ghost predicate DifferentIds(ids: seq<nat>) {
    forall i, j :: 0 <= i < j < |ids| ==> ids[i] != ids[j]
  }

  predicate Lists(e: Event) {
    (e.Launch? && e.pids != []) || e.BuiltinStart?
  }

  /** A job is listed only behind a list without a gap: its last id is its length. */
  predicate NoGap(t: TableV, e: Event) {
    Lists(e) ==> t.jobs == [] || t.jobs[|t.jobs| - 1].id == |t.jobs|
  }

  /** A job is listed only when no job behind the first gap has the number of the gap. */
  ghost predicate NoClash(t: TableV, e: Event) {
    Lists(e) ==> forall g: nat, k: nat :: FirstGap(Ids(t.jobs), g) && g < k < |t.jobs| ==> t.jobs[k].id != g + 1
  }

  lemma ListedIds(t: TableV, e: Event)
    requires Lists(e)
    ensures Ids(Step(t, e).jobs) == Ids(t.jobs) + [NewId(t.jobs)]
  {
    var u := Step(t, e);
    assert u.jobs[..|t.jobs|] == t.jobs && u.jobs[|t.jobs|].id == NewId(t.jobs);
  }

  lemma IdsSet(jobs: seq<JobV>, k: nat, j: JobV)
    requires k < |jobs| && j.id == jobs[k].id
    ensures Ids(jobs[k := j]) == Ids(jobs)
  {}

  lemma IdsRemove(jobs: seq<JobV>, k: nat)
    requires k < |jobs|
    ensures Ids(RemoveAt(jobs, k)) == RemoveAt(Ids(jobs), k)
  {}

  lemma ReportIds(t: TableV, pid: int, c: Change) returns (k: int)
    ensures -1 <= k < |t.jobs|
    ensures Ids(Report(t, pid, c).jobs) == if k < 0 then Ids(t.jobs) else RemoveAt(Ids(t.jobs), k)
  {
    var r := JobOfPid(t.jobs, pid);
    if r < 0 {
      return -1;
    }
    var u := Applied(t, r, FirstPid(t.jobs[r].procs, pid), c);
    IdsSet(t.jobs, r, u.jobs[r]);
    if u.jobs[r].live != 0 || !u.jobs[r].background {
      return -1;
    }
    var done := WithState(u, r, JobDone);
    IdsSet(u.jobs, r, done.jobs[r]);
    k := LastOf(done.jobs, u.jobs[r].pgid);
    if k >= 0 {
      IdsRemove(done.jobs, k);
    }
  }

  /** An event that lists no job takes at most one id out of the list. */
  lemma OtherIds(t: TableV, e: Event) returns (k: int)
    requires !Lists(e)
    ensures -1 <= k < |t.jobs|
    ensures Ids(Step(t, e).jobs) == if k < 0 then Ids(t.jobs) else RemoveAt(Ids(t.jobs), k)
  {
    k := -1;
    match e
    case Launch(_, _) =>
    case BuiltinEnd => k := RemoveIds(t, 0);
    case Child(pid, c) => k := ReportIds(t, pid, c);
    case Reap(pgid) => k := RemoveIds(t, pgid);
    case Fg(id) =>
      var l := FgTarget(t.jobs, id);
      if l >= 0 {
        IdsSet(t.jobs, l, Foreground(t, id).jobs[l]);
      }
    case Bg(id) =>
      var l := BgTarget(t.jobs, id);
      if l >= 0 {
        IdsSet(t.jobs, l, Background(t, id).jobs[l]);
      }
  }

  lemma RemoveIds(t: TableV, pgid: int) returns (k: int)
    ensures -1 <= k < |t.jobs|
    ensures Ids(Remove(t, pgid).jobs) == if k < 0 then Ids(t.jobs) else RemoveAt(Ids(t.jobs), k)
  {
    k := LastOf(t.jobs, pgid);
    if k >= 0 {
      IdsRemove(t.jobs, k);
    }
  }

  lemma RemoveKeepsIds(ids: seq<nat>, k: nat)
    requires k < |ids|
    ensures Ordered(ids) ==> Ordered(RemoveAt(ids, k))
    ensures DifferentIds(ids) ==> DifferentIds(RemoveAt(ids, k))
  {
    var r := RemoveAt(ids, k);
    assert forall i :: 0 <= i < |r| ==> r[i] == ids[if i < k then i else i + 1];
  }

  lemma AppendDifferent(ids: seq<nat>, x: nat)
    requires DifferentIds(ids)
    ensures DifferentIds(ids + [x]) <==> x !in ids
  {
    var r := ids + [x];
    if i :| 0 <= i < |ids| && ids[i] == x {
      assert r[i] == r[|ids|];
    }
  }

  /** One event keeps the ids positive and increasing if and only if it lists no job behind a gap. */
  lemma StepIds(t: TableV, e: Event)
    requires IdsOk(t)
    ensures IdsOk(Step(t, e)) <==> NoGap(t, e)
  {
    if Lists(e) {
      NewIdLeast(t.jobs);
      ListedIds(t, e);
    } else {
      var k := OtherIds(t, e);
      if k >= 0 {
        RemoveKeepsIds(Ids(t.jobs), k);
      }
    }
  }

  /** One event keeps the ids different if and only if it lists no job while a job behind the first
      gap has the number of the gap. */
  lemma StepIdsDiffer(t: TableV, e: Event)
    requires IdsDiffer(t)
    ensures IdsDiffer(Step(t, e)) <==> NoClash(t, e)
  {
    if Lists(e) {
      var g := OneFirstGap(t.jobs);
      NewIdIsFirstGap(t.jobs, g);
      ListedIds(t, e);
      AppendDifferent(Ids(t.jobs), g + 1);
    } else {
      var k := OtherIds(t, e);
      if k >= 0 {
        RemoveKeepsIds(Ids(t.jobs), k);
      }
    }
  }

  /** Over a whole run the ids stay positive and increasing if and only if every job is listed behind
      a list without a gap. */
  lemma {:induction false} RunIds(events: seq<Event>)
    ensures Always(events, IdsOk) <==> Throughout(events, NoGap)
    decreases |events|
  {
    if events != [] {
      var init := events[..|events| - 1];
      RunIds(init);
      if IdsOk(After(init)) {
        StepIds(After(init), events[|events| - 1]);
      }
    }
  }

  /** Over a whole run the ids stay different if and only if no job is listed while a job behind the
      first gap has the number of the gap. */
  lemma {:induction false} RunIdsDiffer(events: seq<Event>)
    ensures Always(events, IdsDiffer) <==> Throughout(events, NoClash)
    decreases |events|
  {
    if events != [] {
      var init := events[..|events| - 1];
      RunIdsDiffer(init);
      if IdsDiffer(After(init)) {
        StepIdsDiffer(After(init), events[|events| - 1]);
      }
    }
  }

  /** The ids can repeat: launch three jobs in the background, let the first end and launch two more.
      After the gap at the front the list is no longer increasing, and the loop stops at the gap again. */
  lemma IdsCanRepeat(p: int, q: int, r: int, s: int, u: int)
    requires 0 < p < q < r < s < u
    ensures var t3 := Step(Step(Step(EMPTY_TABLE, Launch([p], true)), Launch([q], true)), Launch([r], true));
            var t := Step(Step(Step(t3, Child(p, Exited(0))), Launch([s], true)), Launch([u], true));
            Ids(t.jobs) == [2, 3, 1, 1]
  {
    var a, b, c := Launched([p], true), Launched([q], true), Launched([r], true);
    var t3 := ThreeAdded(a, b, c);
    var t4 := FirstEnds(t3, p, q, r);
    assert Ids(t4.jobs) == [2, 3];
    var t5 := Step(t4, Launch([s], true));
    ListedIds(t4, Launch([s], true));
    assert IdFrom([2, 3], 1) == 1;
    assert Ids(t5.jobs) == [2, 3, 1];
    ListedIds(t5, Launch([u], true));
    assert IdFrom([2, 3, 1], 1) == 1;
  }

  lemma FirstEnds(t: TableV, p: int, q: int, r: int) returns (u: TableV)
    requires 0 < p < q < r
    requires t.jobs == [Launched([p], true).(id := 1), Launched([q], true).(id := 2), Launched([r], true).(id := 3)]
    ensures u == Step(t, Child(p, Exited(0))) && u.jobs == t.jobs[1..]
  {
    var j := t.jobs[0];
    assert Forked([p]) == [Proc(p, Running, 0)] && Forked([q]) == [Proc(q, Running, 0)];
    assert Forked([r]) == [Proc(r, Running, 0)];
    assert FirstPid(t.jobs[2].procs, p) == FirstPid(t.jobs[1].procs, p) == -1 && FirstPid(j.procs, p) == 0;
    assert PidBefore(t.jobs, 3, p) == PidBefore(t.jobs, 2, p) == PidBefore(t.jobs, 1, p) == 0;
    var done := Reported(j, 0, Exited(0)).(state := JobDone);
    assert j.live == 1 && t.jobs[0 := Reported(j, 0, Exited(0))][0 := done] == t.jobs[0 := done];
    LastOfUnique(t.jobs[0 := done], 0);
    u := Step(t, Child(p, Exited(0)));
  }

  lemma ThreeAdded(a: JobV, b: JobV, c: JobV) returns (t: TableV)
    ensures t == Add(Add(Add(EMPTY_TABLE, a), b), c)
    ensures t.jobs == [a.(id := 1), b.(id := 2), c.(id := 3)]
  {
    var t1 := Add(EMPTY_TABLE, a);
    assert Ids([]) == [];
    assert t1.jobs == [a.(id := 1)];
    var t2 := Add(t1, b);
    assert Ids(t1.jobs) == [1] && [1 as nat][1..] == [];
    assert t2.jobs == [a.(id := 1), b.(id := 2)];
    t := Add(t2, c);
    assert Ids(t2.jobs) == [1, 2] && [1 as nat, 2][1..] == [2] && [2 as nat][1..] == [];
    assert IdFrom([1, 2], 1) == IdFrom([2], 2) == IdFrom([], 3) == 3;
  }
}
