/** The foreground wait: what the shell has in hand when it takes the terminal back. */
module JobWaits {
  import opened JobModel
  import opened JobInvariants
  import opened JobDrifts

  /** What `poll` returns with: an interrupt, an error, or a batch of child reports. */
  datatype Wake = Interrupted | PollFailed | Awake(reports: seq<(int, Change)>)

  /** The wait ends because no process is counted as live, or because `poll` failed; both drop the
      job. Or it is suspended because the job stopped, or goes on. */
  datatype Waited =
    | Ended(before: TableV, table: TableV)
    | Abandoned(before: TableV, table: TableV)
    | Suspended(table: TableV)
    | Waiting(table: TableV)

  function Reports(t: TableV, rs: seq<(int, Change)>): TableV {
    if rs == [] then t
    else Report(Reports(t, rs[..|rs| - 1]), rs[|rs| - 1].0, rs[|rs| - 1].1)
  }

  predicate StoppedIn(t: TableV, pgid: int) {
    var k := LastOf(t.jobs, pgid);
    k >= 0 && t.jobs[k].state == JobStopped
  }

  function Await(t: TableV, pgid: int, wakes: seq<Wake>): Waited
    decreases |wakes|
  {
    var k := LastOf(t.jobs, pgid);
    if k < 0 || t.jobs[k].live == 0 then Ended(t, Remove(t, pgid))
    else if wakes == [] then Waiting(t)
    else match wakes[0]
      case Interrupted => Await(t, pgid, wakes[1..])
      case PollFailed => Abandoned(t, Remove(t, pgid))
      case Awake(rs) =>
        var u := Reports(t, rs);
        if StoppedIn(u, pgid) then Suspended(u) else Await(u, pgid, wakes[1..])
  }

  /** The table a wait has come to, before it drops its job. */
  function Before(w: Waited): TableV {
    match w
    case Ended(v, _) => v
    case Abandoned(v, _) => v
    case Suspended(u) => u
    case Waiting(u) => u
  }

  /** The stale reports about the job of a group after a batch, and after a wait. */
  function StaleReports(s: nat, t: TableV, rs: seq<(int, Change)>, pgid: int): nat {
    if rs == [] then s else
    var init, r := rs[..|rs| - 1], rs[|rs| - 1];
    StaleStep(StaleReports(s, t, init, pgid), Reports(t, init), Child(r.0, r.1), pgid)
  }

  function StaleAwait(s: nat, t: TableV, pgid: int, wakes: seq<Wake>): nat
    decreases |wakes|
  {
    var k := LastOf(t.jobs, pgid);
    if k < 0 || t.jobs[k].live == 0 || wakes == [] then s
    else match wakes[0]
      case Interrupted => StaleAwait(s, t, pgid, wakes[1..])
      case PollFailed => s
      case Awake(rs) =>
        var u, s' := Reports(t, rs), StaleReports(s, t, rs, pgid);
        if StoppedIn(u, pgid) then s' else StaleAwait(s', u, pgid, wakes[1..])
  }

  // ---------------------------------------------------------------- stopped jobs

  predicate NoStopped(procs: seq<Proc>) {
    forall i :: 0 <= i < |procs| ==> procs[i].state != Stopped
  }

  /** A job listed as stopped, without a stale report since, has no running process; any other has no
      stopped one. */
  predicate IdleOk(j: JobV, s: nat) {
    if j.state == JobStopped then s == 0 ==> CountRunning(j.procs) == 0 else NoStopped(j.procs)
  }

  predicate StoppedIdle(jobs: seq<JobV>, pgid: int, s: nat) {
    forall k :: 0 <= k < |jobs| && jobs[k].pgid == pgid ==> IdleOk(jobs[k], s)
  }

  lemma ReportedIdle(j: JobV, i: nat, c: Change, s: nat)
    requires i < |j.procs| && IdleOk(j, s)
    ensures IdleOk(Reported(j, i, c), StaleNext(s, j, i, c))
  {
    var p := j.procs[i];
    if c.StoppedBy? {
      NoneRunning(j.procs[i := p.(state := Stopped)]);
    } else if p.state == Running {
      CountRunningUpdate(j.procs, i, p.(state := Done));
    }
  }

  lemma IdleUpdate(jobs: seq<JobV>, k: nat, j: JobV, pgid: int, s: nat, s': nat)
    requires ShapeOk(jobs) && StoppedIdle(jobs, pgid, s) && k < |jobs| && j.pgid == jobs[k].pgid
    requires if j.pgid == pgid then IdleOk(j, s') else s' == s
    ensures StoppedIdle(jobs[k := j], pgid, s')
  {
    var r := jobs[k := j];
    forall l | 0 <= l < |r| && r[l].pgid == pgid ensures IdleOk(r[l], s') {
      assert l != k ==> r[l] == jobs[l] && Apart(jobs, k, l);
    }
  }

  lemma IdleRemove(jobs: seq<JobV>, k: nat, pgid: int, s: nat, s': nat)
    requires ShapeOk(jobs) && StoppedIdle(jobs, pgid, s) && k < |jobs| && (jobs[k].pgid == pgid || s' == s)
    ensures StoppedIdle(RemoveAt(jobs, k), pgid, s')
  {
    var r := RemoveAt(jobs, k);
    forall l | 0 <= l < |r| && r[l].pgid == pgid ensures IdleOk(r[l], s') {
      var o := if l < k then l else l + 1;
      assert r[l] == jobs[o] && Apart(jobs, k, o);
    }
  }

  lemma ReportIdle(t: TableV, pid: int, c: Change, pgid: int, s: nat)
    requires ShapeOk(t.jobs) && StoppedIdle(t.jobs, pgid, s)
    ensures StoppedIdle(Report(t, pid, c).jobs, pgid, StaleStep(s, t, Child(pid, c), pgid))
  {
    var k := JobOfPid(t.jobs, pid);
    if k >= 0 {
      var j, i, s' := t.jobs[k], FirstPid(t.jobs[k].procs, pid), StaleStep(s, t, Child(pid, c), pgid);
      if j.pgid == pgid {
        ReportedIdle(j, i, c, s);
      }
      BackgroundLeaves(t, pid, c);
      if Completes(j, c) {
        IdleRemove(t.jobs, k, pgid, s, s');
      } else {
        IdleUpdate(t.jobs, k, Reported(j, i, c), pgid, s, s');
      }
    }
  }

  lemma StepIdle(t: TableV, e: Event, pgid: int, s: nat)
    requires ShapeOk(t.jobs) && StoppedIdle(t.jobs, pgid, s) && Fresh(t, e)
    ensures StoppedIdle(Step(t, e).jobs, pgid, StaleStep(s, t, e, pgid))
  {
    match e
    case Child(pid, c) => ReportIdle(t, pid, c, pgid, s);
    case _ =>
  }

  /** What every run keeps of the table and of the job of one group, of which `s` reports are stale. */
  ghost predicate GoodTable(t: TableV, pgid: int, s: nat) {
    ShapeOk(t.jobs) && Drifts(t.jobs, pgid, s) && StoppedIdle(t.jobs, pgid, s)
  }

  /** Every run ends in such a table, whatever is reported. */
  lemma {:induction false} RunGood(events: seq<Event>, pgid: int)
    requires AllFresh(events) && pgid != 0
    ensures GoodTable(After(events), pgid, Stale(events, pgid))
    decreases |events|
  {
    RunDrifts(events, pgid);
    if events != [] {
      var init := events[..|events| - 1];
      RunGood(init, pgid);
      StepIdle(After(init), events[|events| - 1], pgid, Stale(init, pgid));
    }
  }

  // ---------------------------------------------------------------- the job that is waited for

  lemma StaysAfterRemoval(jobs: seq<JobV>, g: nat, k: nat)
    requires g < |jobs| && k < |jobs| && g != k
    ensures var l := Shifted(k, g); l < |RemoveAt(jobs, g)| && RemoveAt(jobs, g)[l] == jobs[k]
  {}

  /** A foreground job of a group is at a position. */
  predicate FrontAt(jobs: seq<JobV>, k: nat, pgid: int) {
    k < |jobs| && !jobs[k].background && jobs[k].pgid == pgid
  }

  /** A foreground job stays listed, whatever is reported. */
  lemma ForegroundStays(t: TableV, pid: int, c: Change, k: nat)
    requires ShapeOk(t.jobs) && k < |t.jobs| && !t.jobs[k].background
    ensures Gone(t, pid, c) != k
    ensures FrontAt(Report(t, pid, c).jobs, Shifted(k, Gone(t, pid, c)), t.jobs[k].pgid)
  {
    var r := JobOfPid(t.jobs, pid);
    if r >= 0 {
      var i := FirstPid(t.jobs[r].procs, pid);
      var j := Reported(t.jobs[r], i, c);
      ReportedList(t, pid, c);
      GoneIs(t, pid, c);
      if j.background && j.live == 0 {
        StaysAfterRemoval(t.jobs, r, k);
      } else {
        assert Report(t, pid, c).jobs[k] == if k == r then j else t.jobs[k];
      }
    }
  }

  /** Only the job that is reported on can leave the list. */
  lemma GoneIs(t: TableV, pid: int, c: Change)
    requires ShapeOk(t.jobs) && JobOfPid(t.jobs, pid) >= 0
    ensures var k := JobOfPid(t.jobs, pid);
            var j := Reported(t.jobs[k], FirstPid(t.jobs[k].procs, pid), c);
            Gone(t, pid, c) == if j.background && j.live == 0 then k else -1
  {
    var k := JobOfPid(t.jobs, pid);
    var j := Reported(t.jobs[k], FirstPid(t.jobs[k].procs, pid), c);
    var done := j.(state := JobDone);
    assert t.jobs[k := j][k := done] == t.jobs[k := done];
    OnlyOf(t.jobs, k, done);
  }

  lemma FoundByGroup(jobs: seq<JobV>, k: nat)
    requires ShapeOk(jobs) && k < |jobs|
    ensures LastOf(jobs, jobs[k].pgid) == k
  {
    OnlyOf(jobs, k, jobs[k]);
    assert jobs[k := jobs[k]] == jobs;
  }

  /** The job of a group is listed and in the foreground. */
  predicate InFront(t: TableV, pgid: int) {
    var k := LastOf(t.jobs, pgid);
    k >= 0 && !t.jobs[k].background
  }

  /** One report keeps the job of the group in front. */
  lemma ReportKeeps(t: TableV, pid: int, c: Change, pgid: int, s: nat)
    requires ShapeOk(t.jobs) && Drifts(t.jobs, pgid, s) && InFront(t, pgid)
    ensures var u, s' := Report(t, pid, c), StaleStep(s, t, Child(pid, c), pgid);
            && ShapeOk(u.jobs) && Drifts(u.jobs, pgid, s') && InFront(u, pgid)
            && (StoppedIdle(t.jobs, pgid, s) ==> StoppedIdle(u.jobs, pgid, s'))
  {
    ReportShape(t, pid, c);
    ReportDrifts(t, pid, c, pgid, s);
    if StoppedIdle(t.jobs, pgid, s) {
      ReportIdle(t, pid, c, pgid, s);
    }
    var k := LastOf(t.jobs, pgid);
    ForegroundStays(t, pid, c, k);
    FoundByGroup(Report(t, pid, c).jobs, Shifted(k, Gone(t, pid, c)));
  }

  lemma {:induction false} BatchKeeps(t: TableV, rs: seq<(int, Change)>, pgid: int, s: nat)
    requires ShapeOk(t.jobs) && Drifts(t.jobs, pgid, s) && InFront(t, pgid)
    ensures var u, s' := Reports(t, rs), StaleReports(s, t, rs, pgid);
            && ShapeOk(u.jobs) && Drifts(u.jobs, pgid, s') && InFront(u, pgid)
            && (StoppedIdle(t.jobs, pgid, s) ==> StoppedIdle(u.jobs, pgid, s'))
    decreases |rs|
  {
    if rs != [] {
      var init, r := rs[..|rs| - 1], rs[|rs| - 1];
      BatchKeeps(t, init, pgid, s);
      ReportKeeps(Reports(t, init), r.0, r.1, pgid, StaleReports(s, t, init, pgid));
    }
  }

  /** Until it drops its job, a wait keeps it in front, with the drift of the reports it handled. */
  lemma {:induction false} WaitKeeps(t: TableV, pgid: int, wakes: seq<Wake>, s: nat)
    requires ShapeOk(t.jobs) && Drifts(t.jobs, pgid, s) && InFront(t, pgid)
    ensures var v, s' := Before(Await(t, pgid, wakes)), StaleAwait(s, t, pgid, wakes);
            && ShapeOk(v.jobs) && Drifts(v.jobs, pgid, s') && InFront(v, pgid)
            && (StoppedIdle(t.jobs, pgid, s) ==> StoppedIdle(v.jobs, pgid, s'))
    decreases |wakes|
  {
    if Counted(t, pgid) && wakes != [] {
      match wakes[0]
      case Interrupted => WaitKeeps(t, pgid, wakes[1..], s);
      case PollFailed =>
      case Awake(rs) =>
        BatchKeeps(t, rs, pgid, s);
        if !StoppedIn(Reports(t, rs), pgid) {
          WaitKeeps(Reports(t, rs), pgid, wakes[1..], StaleReports(s, t, rs, pgid));
        }
    }
  }

  /** In which table a wait comes to which end. */
  lemma {:induction false} WaitCases(t: TableV, pgid: int, wakes: seq<Wake>)
    ensures match Await(t, pgid, wakes)
            case Ended(v, u) =>
              !Counted(v, pgid) && u == Remove(v, pgid) && (StoppedIn(v, pgid) ==> StoppedIn(t, pgid))
            case Abandoned(v, u) => Counted(v, pgid) && u == Remove(v, pgid)
            case Suspended(u) => StoppedIn(u, pgid)
            case Waiting(u) => Counted(u, pgid)
    decreases |wakes|
  {
    if Counted(t, pgid) && wakes != [] {
      match wakes[0]
      case Interrupted => WaitCases(t, pgid, wakes[1..]);
      case PollFailed =>
      case Awake(rs) => WaitCases(Reports(t, rs), pgid, wakes[1..]);
    }
  }

  /** Job `pgid` has no running process. */
  predicate Quiet(t: TableV, pgid: int) {
    var k := LastOf(t.jobs, pgid);
    k >= 0 && CountRunning(t.jobs[k].procs) == 0
  }

  /** What the job of a group is counted with. */
  function LiveOf(t: TableV, pgid: int): nat {
    var k := LastOf(t.jobs, pgid);
    if k < 0 then 0 else t.jobs[k].live
  }

  lemma QuietExactly(t: TableV, pgid: int, s: nat)
    requires ShapeOk(t.jobs) && Drifts(t.jobs, pgid, s) && InFront(t, pgid)
    ensures Quiet(t, pgid) <==> (LiveOf(t, pgid) + s) % UINT_RANGE == 0
    ensures !Counted(t, pgid) ==> LiveOf(t, pgid) == 0 && (Quiet(t, pgid) <==> s % UINT_RANGE == 0)
  {
    ListedRunning(t.jobs, LastOf(t.jobs, pgid), s);
  }

  lemma FrontGone(t: TableV, pgid: int)
    requires ShapeOk(t.jobs) && InFront(t, pgid)
    ensures LastOf(Remove(t, pgid).jobs, pgid) < 0
  {
    GroupGone(t.jobs, LastOf(t.jobs, pgid));
  }

  /** How many processes of the job are recorded as running at the end of a wait, by the number of
      stale reports: none when the wait ended, if and only if that number is 0 modulo 2^32; in every
      other case, if and only if the live count and that number together are. */
  predicate QuietBy(w: Waited, pgid: int, s: nat) {
    && (Quiet(Before(w), pgid) <==> (LiveOf(Before(w), pgid) + s) % UINT_RANGE == 0)
    && (w.Ended? ==> LiveOf(Before(w), pgid) == 0 && (Quiet(Before(w), pgid) <==> s % UINT_RANGE == 0))
  }

  lemma QuietWait(w: Waited, pgid: int, s: nat)
    requires var v := Before(w);
             ShapeOk(v.jobs) && Drifts(v.jobs, pgid, s) && InFront(v, pgid) && (w.Ended? ==> !Counted(v, pgid))
    ensures QuietBy(w, pgid, s)
  {
    QuietExactly(Before(w), pgid, s);
  }

  /** Whatever is reported, from any table: a job that is dropped is no longer listed, and its running
      processes are as above. */
  lemma TerminalExactly(t: TableV, pgid: int, wakes: seq<Wake>, s: nat)
    requires ShapeOk(t.jobs) && Drifts(t.jobs, pgid, s) && InFront(t, pgid)
    ensures var w := Await(t, pgid, wakes);
            && InFront(Before(w), pgid) && QuietBy(w, pgid, StaleAwait(s, t, pgid, wakes))
            && (w.Ended? || w.Abandoned? ==> w.table == Remove(Before(w), pgid) && LastOf(w.table.jobs, pgid) < 0)
  {
    var w := Await(t, pgid, wakes);
    WaitKeeps(t, pgid, wakes, s);
    WaitCases(t, pgid, wakes);
    QuietWait(w, pgid, StaleAwait(s, t, pgid, wakes));
    FrontGone(Before(w), pgid);
  }

  lemma {:induction false} NoneRunningExactly(procs: seq<Proc>)
    ensures CountRunning(procs) == 0 <==> forall i :: 0 <= i < |procs| ==> procs[i].state != Running
    decreases |procs|
  {
    if procs != [] {
      NoneRunningExactly(procs[..|procs| - 1]);
    }
  }

  predicate HasEnded(p: Proc) {
    p.state == Done || p.state == Killed
  }

  /** The exit or the kill of every process of the job was reported. */
  predicate AllEnded(t: TableV, pgid: int) {
    var k := LastOf(t.jobs, pgid);
    k >= 0 && forall i :: 0 <= i < |t.jobs[k].procs| ==> HasEnded(t.jobs[k].procs[i])
  }

  lemma QuietAllEnded(t: TableV, pgid: int, s: nat)
    requires InFront(t, pgid) && StoppedIdle(t.jobs, pgid, s) && !StoppedIn(t, pgid)
    ensures Quiet(t, pgid) <==> AllEnded(t, pgid)
  {
    var j := t.jobs[LastOf(t.jobs, pgid)];
    assert IdleOk(j, s);
    NoneRunningExactly(j.procs);
  }

  /** A wait for a job that is not stopped, when it ends: the end of every process of the job was
      reported if and only if the number of stale reports is 0 modulo 2^32. */
  lemma EndedExactly(t: TableV, pgid: int, wakes: seq<Wake>, s: nat)
    requires GoodTable(t, pgid, s) && InFront(t, pgid) && !StoppedIn(t, pgid) && Await(t, pgid, wakes).Ended?
    ensures AllEnded(Before(Await(t, pgid, wakes)), pgid) <==> StaleAwait(s, t, pgid, wakes) % UINT_RANGE == 0
  {
    WaitCases(t, pgid, wakes);
    WaitKeeps(t, pgid, wakes, s);
    TerminalExactly(t, pgid, wakes, s);
    QuietAllEnded(Before(Await(t, pgid, wakes)), pgid, StaleAwait(s, t, pgid, wakes));
  }

  /** How the wait for the job of a group ends, by the number of stale reports. */
  predicate EndsBy(w: Waited, pgid: int, s: nat) {
    w.Ended? ==> (AllEnded(Before(w), pgid) <==> s % UINT_RANGE == 0)
  }

  /** After any run, whatever is reported before and during the wait. */
  lemma RunThenWait(events: seq<Event>, pgid: int, wakes: seq<Wake>)
    requires AllFresh(events) && pgid != 0 && InFront(After(events), pgid)
    ensures var w, s := Await(After(events), pgid, wakes), StaleAwait(Stale(events, pgid), After(events), pgid, wakes);
            QuietBy(w, pgid, s) && (!StoppedIn(After(events), pgid) ==> EndsBy(w, pgid, s))
  {
    RunGood(events, pgid);
    WaitFromGood(After(events), pgid, wakes, Stale(events, pgid));
  }

  lemma WaitFromGood(t: TableV, pgid: int, wakes: seq<Wake>, s: nat)
    requires GoodTable(t, pgid, s) && InFront(t, pgid)
    ensures QuietBy(Await(t, pgid, wakes), pgid, StaleAwait(s, t, pgid, wakes))
    ensures !StoppedIn(t, pgid) ==> EndsBy(Await(t, pgid, wakes), pgid, StaleAwait(s, t, pgid, wakes))
  {
    TerminalExactly(t, pgid, wakes, s);
    if !StoppedIn(t, pgid) && Await(t, pgid, wakes).Ended? {
      EndedExactly(t, pgid, wakes, s);
    }
  }

  /** Without a stale report since the launch or the last stop: when the wait ends or is suspended, no
      process of the job is recorded as running. Either the job was quiet when it was dropped and is no
      longer listed, or it is listed as stopped and quiet. When the wait is abandoned, the job is dropped
      while some process of it runs; and while the wait goes on, some process runs. */
  lemma TerminalComesBack(t: TableV, pgid: int, wakes: seq<Wake>, s: nat)
    requires GoodTable(t, pgid, s) && InFront(t, pgid) && StaleAwait(s, t, pgid, wakes) == 0
    ensures match Await(t, pgid, wakes)
            case Ended(v, u) => Quiet(v, pgid) && u == Remove(v, pgid) && LastOf(u.jobs, pgid) < 0
            case Abandoned(v, u) =>
              InFront(v, pgid) && !Quiet(v, pgid) && u == Remove(v, pgid) && LastOf(u.jobs, pgid) < 0
            case Suspended(u) => InFront(u, pgid) && StoppedIn(u, pgid) && Quiet(u, pgid)
            case Waiting(u) => InFront(u, pgid) && !Quiet(u, pgid)
  {
    WaitCases(t, pgid, wakes);
    WaitKeeps(t, pgid, wakes, s);
    TerminalExactly(t, pgid, wakes, s);
    var v := Before(Await(t, pgid, wakes));
    assert IdleOk(v.jobs[LastOf(v.jobs, pgid)], 0);
  }

  // ---------------------------------------------------------------- waits that go wrong

  lemma AloneInFront(t: TableV, pgid: int)
    requires |t.jobs| == 1 && t.jobs[0].pgid == pgid && !t.jobs[0].background
    ensures LastOf(t.jobs, pgid) == 0 && InFront(t, pgid) && Remove(t, pgid).jobs == []
  {
    LastOfUnique(t.jobs, 0);
  }

  lemma OneReport(t: TableV, r: (int, Change))
    ensures Reports(t, [r]) == Step(t, Child(r.0, r.1))
  {
    assert [r][..0] == [];
  }

  lemma TwoReports(t: TableV, r: (int, Change), r': (int, Change))
    ensures Reports(t, [r, r']) == Step(Step(t, Child(r.0, r.1)), Child(r'.0, r'.1))
  {
    assert [r, r'][..1] == [r];
    OneReport(t, r);
  }

  /** No `poll` fails, and the wait ends while a process runs: a pipeline of two is launched, the first
      process is stopped, the second one exits, and `fg` brings the job back. It is dropped at once. */
  lemma StaleExitEndsWait(p: int, q: int)
    requires 0 < p < q
    ensures var t := Step(Step(Step(EMPTY_TABLE, Launch([p, q], false)), Child(p, StoppedBy(20))), Child(q, Exited(0)));
            var u := Step(t, Fg(0));
            && InFront(u, p) && !Quiet(u, p)
            && Await(u, p, []) == Ended(u, Remove(u, p)) && Remove(u, p).jobs == []
  {
    var t := StopThenExit(p, q);
    var u := WakesAtZero(t, p, q, Fg(0));
    AloneInFront(u, p);
  }

  lemma AwaitBatch(t: TableV, pgid: int, rs: seq<(int, Change)>)
    requires Counted(t, pgid) && StoppedIn(Reports(t, rs), pgid)
    ensures Await(t, pgid, [Awake(rs)]) == Suspended(Reports(t, rs))
  {}

  lemma StopThenResume(p: int) returns (t: TableV, v: TableV)
    requires p > 0
    ensures t == Step(EMPTY_TABLE, Launch([p], false)) && Counted(t, p)
    ensures v == Step(Step(t, Child(p, StoppedBy(20))), Child(p, Resumed))
    ensures InFront(t, p) && InFront(v, p) && StoppedIn(v, p) && !Quiet(v, p)
  {
    var running, stopped := [Proc(p, Running, 0)], [Proc(p, Stopped, 0)];
    t := Step(EMPTY_TABLE, Launch([p], false));
    assert Forked([p]) == running;
    IncByAdds(0, 1);
    AloneInFront(t, p);
    var u := ReportOnOnly(t, p, StoppedBy(20), running);
    assert running[0 := Proc(p, Stopped, 0)] == stopped && StopRunning(stopped) == stopped;
    v := ReportOnOnly(u, p, Resumed, stopped);
    assert stopped[0 := Proc(p, Running, 0)] == running && running[..0] == [];
    AloneInFront(v, p);
  }

  /** A stop and a continuation of the same process in one batch: the wait is suspended, with the
      process recorded as running. */
  lemma ResumedInBatch(p: int)
    requires p > 0
    ensures var t := Step(EMPTY_TABLE, Launch([p], false));
            var w := Await(t, p, [Awake([(p, StoppedBy(20)), (p, Resumed)])]);
            InFront(t, p) && w.Suspended? && !Quiet(w.table, p)
  {
    var rs := [(p, StoppedBy(20)), (p, Resumed)];
    var t, v := StopThenResume(p);
    TwoReports(t, (p, StoppedBy(20)), (p, Resumed));
    assert v == Reports(t, rs);
    AwaitBatch(t, p, rs);
  }

  /** One stop speaks for all: a job of any number of processes is recorded as quiet when the first
      of them is stopped, whatever the others do. */
  lemma OneStopQuiets(pids: seq<int>)
    requires pids != [] && pids[0] > 0 && |pids| < UINT_RANGE
    ensures var t := Step(EMPTY_TABLE, Launch(pids, false));
            var w := Await(t, pids[0], [Awake([(pids[0], StoppedBy(20))])]);
            CountRunning(t.jobs[0].procs) == |pids| && w.Suspended? && Quiet(w.table, pids[0])
  {
    var p := pids[0];
    var t := Step(EMPTY_TABLE, Launch(pids, false));
    var j := t.jobs[0];
    assert t.jobs == [j] && j.procs == Forked(pids) && j.procs[0].pid == p;
    ForkedRunning(pids);
    IncByAdds(0, |pids|);
    AloneInFront(t, p);
    ReportOnJob(t, j, p, 0, StoppedBy(20));
    StopDrift(j, 0, 20);
    OneReport(t, (p, StoppedBy(20)));
    AloneInFront(Step(t, Child(p, StoppedBy(20))), p);
  }

  /** The table a wake-up leaves the wait with. */
  function AfterWake(t: TableV, w: Wake): TableV {
    if w.Awake? then Reports(t, w.reports) else t
  }

  function AfterWakes(t: TableV, wakes: seq<Wake>): TableV
    decreases |wakes|
  {
    if wakes == [] then t else AfterWakes(AfterWake(t, wakes[0]), wakes[1..])
  }

  /** The job is listed and some process of it is counted as live. */
  predicate Counted(t: TableV, pgid: int) {
    var k := LastOf(t.jobs, pgid);
    k >= 0 && t.jobs[k].live != 0
  }

  /** Wake-up `m` is no failing `poll` and no batch that stops the job, which was counted before. */
  predicate GoesOn(t: TableV, pgid: int, wakes: seq<Wake>, m: nat)
    requires m < |wakes|
  {
    && Counted(AfterWakes(t, wakes[..m]), pgid) && !wakes[m].PollFailed?
    && (wakes[m].Awake? ==> !StoppedIn(AfterWakes(t, wakes[..m + 1]), pgid))
  }

  /** Wake-up `n` is a failing `poll`, the job is counted before it and all earlier ones, none of which
      failed or stopped the job. */
  predicate FailsAt(t: TableV, pgid: int, wakes: seq<Wake>, n: nat) {
    && n < |wakes| && wakes[n].PollFailed? && Counted(AfterWakes(t, wakes[..n]), pgid)
    && forall m: nat :: m < n ==> GoesOn(t, pgid, wakes, m)
  }

  lemma AfterFirst(t: TableV, wakes: seq<Wake>, m: nat)
    requires m < |wakes|
    ensures AfterWakes(t, wakes[..m + 1]) == AfterWakes(AfterWake(t, wakes[0]), wakes[1..][..m])
  {
    assert wakes[..m + 1][0] == wakes[0] && wakes[..m + 1][1..] == wakes[1..][..m];
  }

  lemma GoesOnLater(t: TableV, pgid: int, wakes: seq<Wake>, m: nat)
    requires m + 1 < |wakes|
    ensures GoesOn(t, pgid, wakes, m + 1) <==> GoesOn(AfterWake(t, wakes[0]), pgid, wakes[1..], m)
  {
    AfterFirst(t, wakes, m);
    AfterFirst(t, wakes, m + 1);
  }

  lemma GoesOnFirst(t: TableV, pgid: int, wakes: seq<Wake>)
    requires wakes != []
    ensures GoesOn(t, pgid, wakes, 0) <==>
              Counted(t, pgid) && !wakes[0].PollFailed?
              && (wakes[0].Awake? ==> !StoppedIn(AfterWake(t, wakes[0]), pgid))
  {
    AfterFirst(t, wakes, 0);
  }

  lemma FailsLater(t: TableV, pgid: int, wakes: seq<Wake>, n: nat)
    requires wakes != []
    ensures FailsAt(t, pgid, wakes, n + 1) <==>
              GoesOn(t, pgid, wakes, 0) && FailsAt(AfterWake(t, wakes[0]), pgid, wakes[1..], n)
  {
    if n + 1 < |wakes| {
      AfterFirst(t, wakes, n);
      forall m: nat | m < n
        ensures GoesOn(t, pgid, wakes, m + 1) <==> GoesOn(AfterWake(t, wakes[0]), pgid, wakes[1..], m)
      {
        GoesOnLater(t, pgid, wakes, m);
      }
      assert forall m: nat :: 0 < m < n + 1 ==>
          (GoesOn(t, pgid, wakes, m) <==> GoesOn(AfterWake(t, wakes[0]), pgid, wakes[1..], m - 1));
    }
  }

  /** A wait is abandoned if and only if some `poll` fails while the job is counted, and before that
      the job was always counted, never stopped, and no other `poll` failed. */
  lemma {:induction false} AbandonedByPoll(t: TableV, pgid: int, wakes: seq<Wake>)
    ensures Await(t, pgid, wakes).Abandoned? <==> exists n: nat :: FailsAt(t, pgid, wakes, n)
    decreases |wakes|
  {
    if wakes != [] {
      AbandonedByPoll(AfterWake(t, wakes[0]), pgid, wakes[1..]);
      GoesOnFirst(t, pgid, wakes);
      assert FailsAt(t, pgid, wakes, 0) <==> wakes[0].PollFailed? && Counted(t, pgid);
      if n: nat :| FailsAt(AfterWake(t, wakes[0]), pgid, wakes[1..], n) {
        FailsLater(t, pgid, wakes, n);
      }
      if n: nat :| FailsAt(t, pgid, wakes, n) && n > 0 {
        FailsLater(t, pgid, wakes, n - 1);
      }
    }
  }

  /** An abandoned wait: a job of one process is launched, `poll` fails, and the job is dropped
      from the list while its process runs. */
  lemma PollBreaks(p: int)
    requires p > 0
    ensures var t := Step(EMPTY_TABLE, Launch([p], false));
            && GoodTable(t, p, 0) && InFront(t, p) && !Quiet(t, p)
            && Await(t, p, [PollFailed]) == Abandoned(t, EMPTY_TABLE)
  {
    var t := Step(EMPTY_TABLE, Launch([p], false));
    var j := t.jobs[0];
    assert Forked([p]) == [Proc(p, Running, 0)];
    assert t.jobs == [j] && j.live == 1;
    LastOfUnique(t.jobs, 0);
    assert [Proc(p, Running, 0)][..0] == [];
    assert CountRunning(j.procs) == 1;
    assert Remove(t, p).jobs == [];
  }

  lemma GroupGone(jobs: seq<JobV>, k: nat)
    requires ShapeOk(jobs) && k < |jobs|
    ensures LastOf(RemoveAt(jobs, k), jobs[k].pgid) < 0
  {
    var r := RemoveAt(jobs, k);
    forall l | 0 <= l < |r| ensures r[l].pgid != jobs[k].pgid {
      assert Apart(jobs, k, if l < k then l else l + 1);
    }
  }
}
