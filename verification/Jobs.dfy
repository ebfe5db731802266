/** The job list as the shell keeps it: a doubly linked list of job objects, mutated in place and
    proved to do exactly what `JobModel` says. */
module Jobs {
  import opened JobModel
  import opened JobInvariants
  import opened JobWaits

  class Job {
    var id: nat
    var pgid: int
    var procs: seq<Proc>
    var background: bool
    var state: JobState
    var live: UInt
    var prev: Job?
    var next: Job?

    constructor (pgid: int, procs: seq<Proc>, background: bool, live: UInt)
      ensures View() == JobV(0, pgid, procs, background, JobRunning, live)
      ensures prev == null && next == null
    {
      this.id := 0;
      this.pgid := pgid;
      this.procs := procs;
      this.background := background;
      this.state := JobRunning;
      this.live := live;
      this.prev := null;
      this.next := null;
    }

    /** The record without the links. */
    function View(): JobV
      reads this`id, this`pgid, this`procs, this`background, this`state, this`live
    {
      JobV(id, pgid, procs, background, state, live)
    }

    /** Position of the first process with a pid, -1 when there is none. */
    method IndexOf(pid: int) returns (i: int)
      ensures i == FirstPid(procs, pid)
    {
      i := 0;
      while i < |procs|
        invariant 0 <= i <= |procs| && FirstPid(procs, pid) == FirstFrom(procs, i, pid)
      {
        if procs[i].pid == pid {
          return;
        }
        i := i + 1;
      }
      i := -1;
    }

    /** Marks the processes that run as stopped, and the job. */
    method MarkStopped()
      modifies this`procs, this`state
      ensures View() == JobModel.MarkStopped(old(View()))
    {
      ghost var start := procs;
      for i := 0 to |procs|
        invariant |procs| == |start|
        invariant forall q :: 0 <= q < |procs| ==> procs[q] == if q < i then StopOne(start[q]) else start[q]
        invariant View() == old(View()).(procs := procs)
      {
        if procs[i].state == Running {
          procs := procs[i := procs[i].(state := Stopped)];
        }
      }
      assert procs == StopRunning(start);
      state := JobStopped;
    }

    /** Marks the stopped processes as running again, counting them. */
    method MarkContinued()
      modifies this`procs, this`state, this`live
      ensures View() == JobModel.MarkContinued(old(View()))
    {
      ghost var start, before := procs, live;
      for i := 0 to |procs|
        invariant |procs| == |start|
        invariant forall q :: 0 <= q < |procs| ==> procs[q] == if q < i then ContinueOne(start[q]) else start[q]
        invariant live == IncBy(before, CountStopped(start[..i]))
        invariant View() == old(View()).(procs := procs, live := live)
      {
        CountStoppedStep(start, i);
        assert procs[i] == start[i];
        if procs[i].state == Stopped {
          procs := procs[i := procs[i].(state := Running)];
          live := Inc(live, UINT_RANGE);
        }
      }
      assert start[..|start|] == start;
      assert procs == ContinueStopped(start);
      state := JobContinued;
    }

    method RunOn(background: bool)
      modifies this`procs, this`state, this`live, this`background
      ensures View() == JobModel.MarkContinued(old(View())).(state := JobRunning, background := background)
    {
      MarkContinued();
      this.background := background;
      state := JobRunning;
    }

    /** The launch loop: the pid of every process, the process group, the live count. */
    method RecordForks(pids: seq<int>)
      requires pids != [] && procs == Blank(|pids|) && live == 0
      modifies this`procs, this`pgid, this`live
      ensures View() == old(View()).(pgid := pids[0], procs := Forked(pids), live := IncBy(0, |pids|))
    {
      ghost var start := procs;
      for i := 0 to |pids|
        invariant |procs| == |pids| && live == IncBy(0, i)
        invariant forall q :: 0 <= q < |procs| ==> procs[q] == if q < i then Proc(pids[q], Running, 0) else start[q]
        invariant i > 0 ==> pgid == pids[0]
        invariant View() == old(View()).(procs := procs, live := live, pgid := pgid)
      {
        procs := procs[i := procs[i].(pid := pids[i], state := Running)];
        if i == 0 {
          pgid := pids[0];
        }
        live := Inc(live, UINT_RANGE);
      }
      assert procs == Forked(pids);
    }

    /** The part of a report that concerns the record of the job. */
    method ApplyReport(i: nat, c: Change)
      requires i < |procs|
      modifies this`procs, this`state, this`live
      ensures View() == Reported(old(View()), i, c)
    {
      match c
      case Exited(s) =>
        procs := procs[i := procs[i].(state := Done, status := s)];
        live := Dec(live, UINT_RANGE);
      case Signaled(s) =>
        procs := procs[i := procs[i].(state := Killed, status := s)];
        live := Dec(live, UINT_RANGE);
      case StoppedBy(_) =>
        procs := procs[i := procs[i].(state := Stopped)];
        MarkStopped();
        live := 0;
      case Resumed =>
        procs := procs[i := procs[i].(state := Running)];
    }
  }

  const JOB_STOPPED_EXIT_CODE := 146

  /** Result of a foreground wait; `Blocked` when it has not come back yet. */
  datatype Status = Code(value: int) | Blocked

  /** What the wait does after a wake-up. */
  datatype Turn = GoOn | Stop | GiveUp

  /** What a turn says of a wait, given what the rest of it would be. */
  predicate TurnOf(turn: Turn, w: Waited, rest: Waited, t: TableV, pgid: int) {
    match turn
    case GoOn => w == rest
    case Stop => w == Suspended(t)
    case GiveUp => w == Abandoned(t, Remove(t, pgid))
  }

  /** The result of a wait and the state it leaves. */
  predicate Finished(w: Waited, status: Status, t: TableV) {
    match w
    case Ended(_, u) => status == Code(0) && t == u
    case Abandoned(_, u) => status == Code(0) && t == u
    case Suspended(u) => status == Code(JOB_STOPPED_EXIT_CODE) && t == u
    case Waiting(u) => status == Blocked && t == u
  }

  function Views(js: seq<Job>): (vs: seq<JobV>)
    reads js`id, js`pgid, js`procs, js`background, js`state, js`live
    ensures |vs| == |js|
  {
    if js == [] then [] else Views(js[..|js| - 1]) + [js[|js| - 1].View()]
  }

  lemma {:induction false} ViewsAt(js: seq<Job>, i: nat)
    requires i < |js|
    ensures Views(js)[i] == js[i].View()
    decreases |js|
  {
    if i < |js| - 1 {
      ViewsAt(js[..|js| - 1], i);
    }
  }

  lemma {:induction false} ViewsRemoveAt(js: seq<Job>, k: nat)
    requires k < |js|
    ensures Views(RemoveAt(js, k)) == RemoveAt(Views(js), k)
    decreases |js|
  {
    var n := |js| - 1;
    assert Views(js)[..n] == Views(js[..n]);
    if k == n {
      assert RemoveAt(js, k) == js[..n] && RemoveAt(Views(js), k) == Views(js)[..n];
    } else {
      ViewsRemoveAt(js[..n], k);
      RemoveAtInit(js, k);
      RemoveAtInit(Views(js), k);
    }
  }

  /** A list whose records are known one by one. */
  lemma ViewsAre(js: seq<Job>, vs: seq<JobV>)
    requires |vs| == |js| && forall i :: 0 <= i < |js| ==> js[i].View() == vs[i]
    ensures Views(js) == vs
  {
    forall i | 0 <= i < |js| ensures Views(js)[i] == vs[i] {
      ViewsAt(js, i);
    }
  }

  /** Node `i` of a list is linked to its neighbours in both directions. */
  ghost predicate Linked(js: seq<Job>, i: nat)
    requires i < |js|
    reads js`prev, js`next
  {
    && js[i].prev == (if i == 0 then null else js[i - 1])
    && js[i].next == (if i + 1 == |js| then null else js[i + 1])
  }

  ghost predicate Different(js: seq<Job>, i: nat, j: nat)
    requires i < |js| && j < |js|
  {
    i != j ==> js[i] != js[j]
  }

  ghost predicate Within(js: seq<Job>, all: seq<Job>) {
    forall i :: 0 <= i < |js| ==> js[i] in all
  }

  /** A list without its node `g`, or the whole list when there is none. */
  ghost function Dropped(js: seq<Job>, g: int): (r: seq<Job>)
    requires g < |js|
    ensures Within(r, js)
  {
    if g < 0 then js else RemoveAt(js, g)
  }

  class JobTable {
    var head: Job?
    var tail: Job?
    var count: Size
    var running: Size
    ghost var list: seq<Job>

    /** A well-formed doubly linked list: both ends, and every link in both directions. */
    ghost predicate Valid()
      reads this`head, this`tail, this`list, list`prev, list`next
    {
      && head == (if list == [] then null else list[0])
      && tail == (if list == [] then null else list[|list| - 1])
      && (forall i: nat :: i < |list| ==> Linked(list, i))
      && (forall i: nat, j: nat :: i < |list| && j < |list| ==> Different(list, i, j))
    }

    /** The state of the model this object stands for. */
    ghost function Abs(): TableV
      reads this`count, this`running, this`list
      reads list`id, list`pgid, list`procs, list`background, list`state, list`live
    {
      TableV(Views(list), count, running)
    }

    constructor ()
      ensures Valid() && Abs() == EMPTY_TABLE && list == []
    {
      head, tail := null, null;
      count, running := 0, 0;
      list := [];
    }

    /** The id loop of a launch. */
    method FreeId() returns (id: nat)
      requires Valid()
      ensures id == NewId(Views(list))
    {
      ghost var ids := Ids(Views(list));
      ghost var k: nat := 0;
      var j := head;
      id := 1;
      assert ids[0..] == ids;
      while j != null
        invariant k <= |list| && j == (if k == |list| then null else list[k])
        invariant NewId(Views(list)) == IdFrom(ids[k..], id)
        decreases |list| - k
      {
        ViewsAt(list, k);
        assert ids[k..][0] == j.id && ids[k..][1..] == ids[k + 1..];
        if j.id >= id + 1 {
          return;
        }
        id := id + 1;
        assert Linked(list, k);
        j := j.next;
        k := k + 1;
      }
    }

    /** Hooks a job in behind the tail. */
    method LinkAtTail(job: Job)
      requires Valid() && job !in list
      modifies this`head, this`tail, this`list, job`prev, job`next, list`next
      ensures Valid() && list == old(list) + [job]
    {
      ghost var before := list;
      job.next := null;
      job.prev := tail;
      if head == null {
        head := job;
      } else {
        tail.next := job;
      }
      tail := job;
      list := list + [job];
      forall i: nat | i < |list| ensures Linked(list, i) {
        if i < |before| {
          assert old(Linked(before, i)) && Different(before, i, |before| - 1);
          assert i > 0 ==> list[i - 1] == before[i - 1];
        }
      }
      forall i: nat, j: nat | i < |list| && j < |list| ensures Different(list, i, j) {
        if i < |before| && j < |before| {
          assert Different(before, i, j);
        }
      }
    }

    /** The same, seen as a list of records. */
    method LinkJob(job: Job)
      requires Valid() && job !in list
      modifies this`head, this`tail, this`list, job`prev, job`next, list`next
      ensures Valid() && list == old(list) + [job] && Views(list) == old(Views(list)) + [job.View()]
    {
      ghost var before, views := list, Views(list);
      LinkAtTail(job);
      assert list[..|list| - 1] == before && Views(before) == views;
    }

    /** Gives a job that is not listed yet its id, and counts it. */
    method Register(job: Job)
      requires Valid() && job !in list
      modifies this`count, this`running, job`id
      ensures Valid() && Views(list) == old(Views(list))
      ensures job.View() == old(job.View()).(id := NewId(old(Views(list))))
      ensures count == Inc(old(count), SIZE_RANGE) && running == Inc(old(running), SIZE_RANGE)
    {
      var id := FreeId();
      job.id := id;
      count := Inc(count, SIZE_RANGE);
      running := Inc(running, SIZE_RANGE);
    }

    /** Appends a job under a new id. */
    method AddJob(job: Job)
      requires Valid() && job !in list
      modifies this, job`id, job`prev, job`next, list`next
      ensures Valid() && list == old(list) + [job]
      ensures Abs() == Add(old(Abs()), old(job.View()))
    {
      ghost var t := Abs();
      Register(job);
      LinkJob(job);
      assert Abs() == TableV(t.jobs + [job.View()], count, running);
    }

    /** Takes a job out of the chain. */
    method Unlink(job: Job, ghost k: nat)
      requires Valid() && k < |list| && list[k] == job
      modifies this`head, this`tail, this`list, list`prev, list`next
      ensures Valid() && list == RemoveAt(old(list), k)
    {
      ghost var before := list;
      assert Linked(list, k);
      if job.prev != null {
        job.prev.next := job.next;
      } else {
        head := job.next;
      }
      if job.next != null {
        job.next.prev := job.prev;
      } else {
        tail := job.prev;
      }
      list := RemoveAt(list, k);
      forall i: nat | i < |list| ensures Linked(list, i) {
        var o := if i < k then i else i + 1;
        assert old(Linked(before, o)) && Different(before, k, o);
        assert k > 0 ==> Different(before, k - 1, o);
        assert k + 1 < |before| ==> Different(before, k + 1, o);
      }
      forall i: nat, j: nat | i < |list| && j < |list| ensures Different(list, i, j) {
        assert Different(before, if i < k then i else i + 1, if j < k then j else j + 1);
      }
    }

    /** The last listed job of a process group, searched from the tail. */
    method FindByPgid(pgid: int) returns (job: Job?, ghost k: int)
      requires Valid()
      ensures k == LastOf(Views(list), pgid)
      ensures job == if k < 0 then null else list[k]
    {
      ghost var views := Views(list);
      k := |list| - 1;
      job := tail;
      while job != null
        invariant -1 <= k < |list| && job == (if k < 0 then null else list[k])
        invariant LastOf(views, pgid) == LastBefore(views, k + 1, pgid)
        decreases k
      {
        ViewsAt(list, k);
        if job.pgid == pgid {
          return;
        }
        assert Linked(list, k);
        job := job.prev;
        k := k - 1;
      }
    }

    /** The same, seen as a list of records. */
    method UnlinkJob(job: Job, ghost k: nat)
      requires Valid() && k < |list| && list[k] == job
      modifies this`head, this`tail, this`list, list`prev, list`next
      ensures Valid() && list == RemoveAt(old(list), k)
      ensures Views(list) == RemoveAt(old(Views(list)), k)
    {
      ghost var before := list;
      ghost var views := Views(before);
      Unlink(job, k);
      assert Views(before) == views;
      ViewsRemoveAt(before, k);
    }

    /** Takes a job out of the list and out of the counters. */
    method Drop(job: Job, ghost k: nat)
      requires Valid() && k < |list| && list[k] == job
      modifies this, list`prev, list`next
      ensures Valid() && list == RemoveAt(old(list), k)
      ensures Abs() == Without(old(Abs()), k)
    {
      ghost var t := Abs();
      ViewsAt(list, k);
      UnlinkJob(job, k);
      count := Dec(count, SIZE_RANGE);
      if job.state != JobStopped {
        running := Dec(running, SIZE_RANGE);
      }
    }

    /** Removes the last job of a process group. */
    method RemoveJob(pgid: int) returns (found: bool, ghost k: int)
      requires Valid()
      modifies this, list`prev, list`next
      ensures Valid() && Abs() == Remove(old(Abs()), pgid)
      ensures k == LastOf(old(Views(list)), pgid) && found == (k >= 0)
      ensures list == Dropped(old(list), k)
    {
      ghost var t := Abs();
      var job;
      job, k := FindByPgid(pgid);
      found := job != null;
      if found {
        Drop(job, k);
      }
    }

    /** The job and the position of the process with a pid, searched from the tail. */
    method FindProcess(pid: int) returns (job: Job?, i: int, ghost k: int)
      requires Valid()
      ensures k == JobOfPid(Views(list), pid)
      ensures job == if k < 0 then null else list[k]
      ensures k >= 0 ==> job.View() == Views(list)[k] && i == FirstPid(job.procs, pid)
    {
      ghost var views := Views(list);
      k := |list| - 1;
      job := tail;
      i := -1;
      while job != null
        invariant Valid() && Views(list) == views
        invariant -1 <= k < |list| && job == (if k < 0 then null else list[k])
        invariant JobOfPid(views, pid) == PidBefore(views, k + 1, pid)
        decreases k
      {
        ViewsAt(list, k);
        assert Linked(list, k);
        i := job.IndexOf(pid);
        if i >= 0 {
          return;
        }
        job := job.prev;
        k := k - 1;
      }
    }

    /** A report changes one record. */
    method ApplyToRecord(job: Job, i: nat, c: Change, ghost k: nat)
      requires Valid() && k < |list| && list[k] == job && i < |job.procs|
      modifies job`procs, job`state, job`live
      ensures Valid() && job.View() == Reported(old(job.View()), i, c)
      ensures Views(list) == old(Views(list))[k := job.View()]
    {
      ghost var views := ViewsKnown(k);
      job.ApplyReport(i, c);
      ViewsAre(list, views[k := job.View()]);
    }

    /** A stop also lowers the running counter. */
    method ApplyTo(job: Job, i: nat, c: Change, ghost k: nat)
      requires Valid() && k < |list| && list[k] == job && i < |job.procs|
      modifies this`running, job`procs, job`state, job`live
      ensures Valid() && i < |old(Abs()).jobs[k].procs| && Abs() == Applied(old(Abs()), k, i, c)
      ensures job.View() == Abs().jobs[k]
    {
      ViewsAt(list, k);
      ApplyToRecord(job, i, c, k);
      if c.StoppedBy? {
        running := Dec(running, SIZE_RANGE);
      }
    }

    /** Changes the state of one job. */
    method SetState(job: Job, state: JobState, ghost k: nat)
      requires Valid() && k < |list| && list[k] == job
      modifies job`state
      ensures Valid() && Abs() == WithState(old(Abs()), k, state)
    {
      ghost var views := ViewsKnown(k);
      job.state := state;
      ViewsAre(list, views[k := job.View()]);
    }

    /** Marks a job done and removes it. */
    method Complete(job: Job, ghost k: nat)
      requires Valid() && k < |list| && list[k] == job
      modifies this, list
      ensures Valid() && Abs() == Remove(WithState(old(Abs()), k, JobDone), old(job.pgid))
      ensures list == Dropped(old(list), LastOf(WithState(old(Abs()), k, JobDone).jobs, old(job.pgid)))
    {
      SetState(job, JobDone, k);
      var found, _ := RemoveJob(job.pgid);
    }

    /** A report about process `i` of a listed job. */
    method HandleFound(job: Job, i: nat, c: Change, ghost k: nat)
      requires Valid() && k < |list| && list[k] == job && i < |job.procs|
      modifies this, list
      ensures i < |old(Abs()).jobs[k].procs|
      ensures Valid() && Abs() == ReportAt(old(Abs()), k, i, c)
      ensures list == Dropped(old(list), GoneAt(old(Abs()), k, i, c))
    {
      ApplyTo(job, i, c, k);
      if job.live == 0 && job.background {
        Complete(job, k);
      }
    }

    /** One report of the reaper loop. */
    method HandleReport(pid: int, c: Change)
      requires Valid()
      modifies this, list
      ensures Valid() && Abs() == Report(old(Abs()), pid, c)
      ensures list == Dropped(old(list), Gone(old(Abs()), pid, c))
    {
      var job, i, k := FindProcess(pid);
      if job != null {
        HandleFound(job, i, c, k);
      }
    }

    /** Forks the processes of a listed job. */
    method Start(job: Job, pids: seq<int>, ghost k: nat)
      requires Valid() && k < |list| && list[k] == job
      requires pids != [] && job.procs == Blank(|pids|) && job.live == 0
      modifies job`procs, job`pgid, job`live
      ensures Valid() && Abs() == Started(old(Abs()), k, pids)
    {
      ghost var views := ViewsKnown(k);
      job.RecordForks(pids);
      ViewsAre(list, views[k := job.View()]);
    }

    /** Lists a job and forks its processes. */
    method Launch(pids: seq<int>, background: bool)
      requires Valid() && pids != []
      modifies this, list`next
      ensures Valid() && Abs() == Step(old(Abs()), Event.Launch(pids, background))
      ensures |list| == |old(list)| + 1 && list[..|old(list)|] == old(list) && fresh(list[|old(list)|])
    {
      ghost var n := |list|;
      var job := new Job(0, Blank(|pids|), background, 0);
      AddJob(job);
      Start(job, pids, n);
    }

    /** The job `fg` acts on, searched from the tail. */
    method FindForFg(id: nat) returns (job: Job?, ghost k: int)
      requires Valid()
      ensures k == FgTarget(Views(list), id)
      ensures job == if k < 0 then null else list[k]
      ensures k >= 0 ==> job.View() == Views(list)[k]
    {
      ghost var views := Views(list);
      k := |list| - 1;
      job := tail;
      while job != null
        invariant -1 <= k < |list| && job == (if k < 0 then null else list[k])
        invariant FgTarget(views, id) == FgBefore(views, k + 1, id)
        decreases k
      {
        ViewsAt(list, k);
        if (id == 0 || job.id == id) && (job.state == JobStopped || (job.background && job.state == JobRunning)) {
          return;
        }
        assert Linked(list, k);
        job := job.prev;
        k := k - 1;
      }
    }

    /** The job `bg` acts on. */
    method FindForBg(id: nat) returns (job: Job?, ghost k: int)
      requires Valid()
      ensures k == BgTarget(Views(list), id)
      ensures job == if k < 0 then null else list[k]
      ensures k >= 0 ==> job.View() == Views(list)[k]
    {
      ghost var views := Views(list);
      k := |list| - 1;
      job := tail;
      while job != null
        invariant -1 <= k < |list| && job == (if k < 0 then null else list[k])
        invariant BgTarget(views, id) == BgBefore(views, k + 1, id)
        decreases k
      {
        ViewsAt(list, k);
        if (id == 0 && job.state == JobStopped) || (id != 0 && job.id == id && job.state == JobStopped) {
          return;
        }
        assert Linked(list, k);
        job := job.prev;
        k := k - 1;
      }
    }

    /** Lets a job run on, in the foreground or in the background. */
    method Resume(job: Job, background: bool, ghost k: nat)
      requires Valid() && k < |list| && list[k] == job
      modifies this`running, job`procs, job`state, job`live, job`background
      ensures Valid() && Abs() == Woken(old(Abs()), k, background)
    {
      ghost var views := ViewsKnown(k);
      job.RunOn(background);
      running := Inc(running, SIZE_RANGE);
      ViewsAre(list, views[k := job.View()]);
    }

    method BringForward(job: Job, ghost k: nat)
      requires Valid() && k < |list| && list[k] == job
      modifies job`background
      ensures Valid() && Abs() == Forward(old(Abs()), k)
    {
      ghost var views := ViewsKnown(k);
      job.background := false;
      ViewsAre(list, views[k := job.View()]);
    }

    /** `fg` up to the wait. */
    method Foreground(id: nat) returns (job: Job?)
      requires Valid()
      modifies this`running, list
      ensures Valid() && list == old(list) && Abs() == JobModel.Foreground(old(Abs()), id)
      ensures var k := FgTarget(old(Abs()).jobs, id); job == if k < 0 then null else list[k]
    {
      ghost var k;
      job, k := FindForFg(id);
      if job != null {
        if job.background {
          BringForward(job, k);
        } else {
          Resume(job, false, k);
        }
      }
    }

    method Background(id: nat) returns (found: bool)
      requires Valid()
      modifies this`running, list
      ensures Valid() && list == old(list) && Abs() == JobModel.Background(old(Abs()), id)
      ensures found <==> BgTarget(old(Abs()).jobs, id) >= 0
    {
      var job, k := FindForBg(id);
      found := job != null;
      if found {
        Resume(job, true, k);
      }
    }

    /** Lists a job for a builtin that runs in the shell process. */
    method ListBuiltin(background: bool)
      requires Valid()
      modifies this, list`next
      ensures Valid() && Abs() == Step(old(Abs()), BuiltinStart(background))
      ensures |list| == |old(list)| + 1 && list[..|old(list)|] == old(list) && fresh(list[|old(list)|])
    {
      var job := new Job(0, [Proc(0, Running, 0)], background, 0);
      AddJob(job);
    }

    /** One step of job control. */
    method Perform(e: Event)
      requires Valid()
      modifies this, list
      ensures Valid() && Abs() == Step(old(Abs()), e)
      ensures forall i :: 0 <= i < |list| ==> list[i] in old(list) || fresh(list[i])
    {
      if e.Launch? || e.BuiltinStart? {
        Begin(e);
      } else {
        Continue(e);
      }
    }

    /** A step that lists a new job. */
    method Begin(e: Event)
      requires Valid() && (e.Launch? || e.BuiltinStart?)
      modifies this, list
      ensures Valid() && Abs() == Step(old(Abs()), e)
      ensures forall i :: 0 <= i < |list| ==> list[i] in old(list) || fresh(list[i])
    {
      ghost var before := list;
      if e.BuiltinStart? {
        ListBuiltin(e.background);
      } else if e.pids != [] {
        Launch(e.pids, e.background);
      }
      assert list == before || list[..|before|] == before;
    }

    /** A step on the jobs that are listed. */
    method Continue(e: Event)
      requires Valid() && !e.Launch? && !e.BuiltinStart?
      modifies this, list
      ensures Valid() && Abs() == Step(old(Abs()), e) && Within(list, old(list))
    {
      match e
      case BuiltinEnd => var found, k := RemoveJob(0);
      case Child(pid, change) => HandleReport(pid, change);
      case Reap(pgid) => var found, k := RemoveJob(pgid);
      case Fg(id) => var job := Foreground(id);
      case Bg(id) => var found := Background(id);
    }

    /** Node `k` is a foreground job of a list whose process groups are distinct. */
    ghost predicate InFrontAt(job: Job, k: nat, pgid: int)
      reads this`list, list`id, list`pgid, list`procs, list`background, list`state, list`live
    {
      k < |list| && list[k] == job && ShapeOk(Views(list)) && FrontAt(Views(list), k, pgid)
    }

    /** Handles a report while waiting for a foreground job, which stays listed. */
    method HandleReportFor(pid: int, c: Change, job: Job, ghost k: nat, ghost pgid: int) returns (ghost l: nat)
      requires Valid() && InFrontAt(job, k, pgid)
      modifies this, list
      ensures Valid() && Abs() == Report(old(Abs()), pid, c) && Within(list, old(list))
      ensures InFrontAt(job, l, pgid)
    {
      ghost var g := Gone(Abs(), pid, c);
      ForegroundStays(Abs(), pid, c, k);
      ReportShape(Abs(), pid, c);
      HandleReport(pid, c);
      l := Shifted(k, g);
    }

    /** Handles a batch of reports. */
    method HandleReports(rs: seq<(int, Change)>, job: Job, ghost k: nat, ghost pgid: int) returns (ghost l: nat)
      requires Valid() && InFrontAt(job, k, pgid)
      modifies this, list
      ensures Valid() && Abs() == Reports(old(Abs()), rs) && Within(list, old(list))
      ensures InFrontAt(job, l, pgid)
    {
      l := k;
      for n := 0 to |rs|
        invariant Valid() && Abs() == Reports(old(Abs()), rs[..n]) && Within(list, old(list))
        invariant InFrontAt(job, l, pgid)
      {
        assert rs[..n + 1][..n] == rs[..n];
        l := HandleReportFor(rs[n].0, rs[n].1, job, l, pgid);
      }
      assert rs[..|rs|] == rs;
    }

    /** What the wait reads of its job is what the model reads of the last job of the group. */
    lemma FrontIs(job: Job, k: nat, pgid: int)
      requires Valid() && InFrontAt(job, k, pgid)
      ensures LastOf(Views(list), pgid) == k && job.View() == Views(list)[k] && job.pgid == pgid
    {
      ViewsAt(list, k);
      FoundByGroup(Views(list), k);
    }

    /** A wake-up with reports: the wait is over when they stopped the job. */
    method WakeUp(job: Job, wakes: seq<Wake>, ghost k: nat, ghost pgid: int) returns (stopped: bool, ghost l: nat)
      requires Valid() && InFrontAt(job, k, pgid) && job.live > 0
      requires wakes != [] && wakes[0].Awake?
      modifies this, list
      ensures Valid() && Within(list, old(list)) && InFrontAt(job, l, pgid)
      ensures Await(old(Abs()), pgid, wakes) == if stopped then Suspended(Abs()) else Await(Abs(), pgid, wakes[1..])
    {
      FrontIs(job, k, pgid);
      l := HandleReports(wakes[0].reports, job, k, pgid);
      FrontIs(job, l, pgid);
      stopped := job.state == JobStopped;
    }

    /** Any wake-up. */
    method TakeTurn(job: Job, wakes: seq<Wake>, ghost k: nat, ghost pgid: int) returns (turn: Turn, ghost l: nat)
      requires Valid() && InFrontAt(job, k, pgid) && job.live > 0 && wakes != []
      modifies this, list
      ensures Valid() && Within(list, old(list)) && InFrontAt(job, l, pgid)
      ensures TurnOf(turn, Await(old(Abs()), pgid, wakes), Await(Abs(), pgid, wakes[1..]), Abs(), pgid)
    {
      l := k;
      FrontIs(job, k, pgid);
      match wakes[0]
      case Interrupted => turn := GoOn;
      case PollFailed => turn := GiveUp;
      case Awake(_) =>
        var stopped;
        stopped, l := WakeUp(job, wakes, k, pgid);
        turn := if stopped then Stop else GoOn;
    }

    /** Ends a wait: removes the job. */
    method Finish(job: Job, ghost k: nat, ghost pgid: int)
      requires Valid() && InFrontAt(job, k, pgid)
      modifies this, list
      ensures Valid() && Abs() == Remove(old(Abs()), pgid)
    {
      FrontIs(job, k, pgid);
      var found, _ := RemoveJob(job.pgid);
    }

    /** Waits for a foreground job while the environment wakes the shell up. */
    method WaitForeground(job: Job, wakes: seq<Wake>, ghost k: nat) returns (status: Status)
      requires Valid() && InFrontAt(job, k, job.pgid)
      modifies this, list
      ensures Valid() && Finished(Await(old(Abs()), old(job.pgid), wakes), status, Abs())
    {
      ghost var l: nat, pgid := k, job.pgid;
      ghost var outcome := Await(Abs(), pgid, wakes);
      var n := 0;
      assert wakes[0..] == wakes;
      while job.live > 0
        invariant Valid() && InFrontAt(job, l, pgid) && Within(list, old(list)) && n <= |wakes|
        invariant Await(Abs(), pgid, wakes[n..]) == outcome
        decreases |wakes| - n
      {
        if n == |wakes| {
          FrontIs(job, l, pgid);
          return Blocked;
        }
        assert wakes[n..][1..] == wakes[n + 1..];
        var turn;
        turn, l := TakeTurn(job, wakes[n..], l, pgid);
        if turn == Stop {
          return Code(JOB_STOPPED_EXIT_CODE);
        }
        if turn == GiveUp {
          Finish(job, l, pgid);
          return Code(0);
        }
        n := n + 1;
      }
      FrontIs(job, l, pgid);
      Finish(job, l, pgid);
      return Code(0);
    }

    /** The records one by one, and that node `k` occurs once. */
    lemma ViewsKnown(k: nat) returns (views: seq<JobV>)
      requires Valid() && k < |list|
      ensures views == Views(list)
      ensures forall i :: 0 <= i < |list| ==> list[i].View() == views[i]
      ensures forall i :: 0 <= i < |list| && i != k ==> list[i] != list[k]
    {
      views := Views(list);
      forall i | 0 <= i < |list| ensures list[i].View() == views[i] && (i != k ==> list[i] != list[k]) {
        ViewsAt(list, i);
        assert Different(list, i, k);
      }
    }
  }
  /** Any run over the linked list does what the model says. */
  method Play(events: seq<Event>) returns (t: JobTable)
    ensures t.Valid() && t.Abs() == After(events)
  {
    t := new JobTable();
    for n := 0 to |events|
      invariant fresh(t) && t.Valid() && t.Abs() == After(events[..n])
      invariant forall i :: 0 <= i < |t.list| ==> fresh(t.list[i])
    {
      assert events[..n + 1][..n] == events[..n];
      t.Perform(events[n]);
    }
    assert events[..|events|] == events;
  }
}
