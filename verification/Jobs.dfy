/** Jobs and the job table, updated in place. */
module Jobs {
  import opened Decimal
  import opened Wrappers
  import opened SeqFacts
  import opened JobSpec
  import opened JobTableProofs

  class ShellJob {
    const id: int
    const cmdLine: string
    var processes: seq<Process>
    var status: JobStatus
    var notified: bool

    constructor (id: int, cmdLine: string)
      ensures Abs() == Job(id, cmdLine, [], Running, false)
    {
      this.id, this.cmdLine := id, cmdLine;
      processes, status, notified := [], Running, false;
    }

    function Abs(): Job
      reads this
    {
      Job(id, cmdLine, processes, status, notified)
    }

    method JobAddProcess(pid: int)
      modifies this
      ensures Abs() == old(Abs()).(processes := old(processes) + [Process(pid, Exited(0), false, false)])
    {
      processes := processes + [Process(pid, Exited(0), false, false)];
    }

    method JobApplyStatus(pid: int, w: Wait) returns (found: bool)
      modifies this
      ensures (Abs(), found) == ApplyStatus(old(Abs()), pid, w)
    {
      var i := 0;
      while i < |processes| && processes[i].pid != pid
        invariant 0 <= i <= |processes|
        invariant FindPid(processes, pid) == i + FindPid(processes[i..], pid)
      {
        i := i + 1;
      }
      if i == |processes| {
        return false;
      }
      var p := processes[i].(status := w);
      if w.Stopped? {
        p := p.(stopped := true);
      } else {
        p := p.(completed := true, stopped := false);
        if w.Killed? {
          status := Terminated;
        }
      }
      processes := processes[i := p];
      notified := false;
      found := true;
    }

    method JobRecomputeStatus()
      modifies this
      ensures Abs() == Recompute(old(Abs()))
    {
      hide AllDone, AnyStopped;
      NoFlags();
      var allDone, anyStopped := true, false;
      var i := 0;
      while i < |processes|
        invariant 0 <= i <= |processes|
        invariant allDone <==> AllDone(processes[..i])
        invariant anyStopped <==> AnyStopped(processes[..i])
        modifies {}
      {
        FlagsSnoc(processes, i);
        if !processes[i].completed {
          allDone := false;
        }
        if processes[i].stopped {
          anyStopped := true;
        }
        i := i + 1;
      }
      assert processes[..i] == processes;
      if allDone {
        if status != Terminated {
          status := Done;
        }
      } else if anyStopped {
        status := Suspended;
      } else {
        status := Running;
      }
    }

    method LastProcessExit() returns (code: int)
      ensures code == LastExit(Abs())
    {
      var last: Option<Process> := None;
      var i := 0;
      while i < |processes|
        invariant 0 <= i <= |processes|
        invariant last == if i == 0 then None else Some(processes[i - 1])
      {
        last := Some(processes[i]);
        i := i + 1;
      }
      code := if last.None? then 0 else ExitStatus(last.value.status);
    }

    /** Takes reports until the job stops or finishes, or there is none left. */
    method JobWait(reports: Reports) returns (code: int, used: nat)
      modifies this
      ensures (Abs(), code, used) == WaitFor(old(Abs()), reports)
    {
      hide ApplyStatus, Recompute;
      used := 0;
      ghost var start := Abs();
      assert reports[0..] == reports;
      while used < |reports|
        invariant 0 <= used <= |reports|
        invariant var (k, c, n) := WaitFor(Abs(), reports[used..]); WaitFor(start, reports) == (k, c, used + n)
      {
        var (pid, w) := reports[used];
        var _ := JobApplyStatus(pid, w);
        JobRecomputeStatus();
        assert reports[used..][1..] == reports[used + 1..];
        used := used + 1;
        if status == Suspended {
          return 128 + StopSig(w), used;
        }
        if status == Done || status == Terminated {
          break;
        }
      }
      code := LastProcessExit();
    }

    method JobMarkRunning()
      modifies this
      ensures Abs() == MarkRunning(old(Abs()))
    {
      var was := processes;
      var i := 0;
      while i < |was|
        invariant 0 <= i <= |was| == |processes|
        invariant processes[i..] == was[i..]
        invariant Resumed(was) == processes[..i] + Resumed(was[i..])
        invariant status == old(status) && notified == old(notified)
      {
        ghost var done := processes[..i];
        assert processes[i] == processes[i..][0] && was[i] == was[i..][0];
        assert was[i..][1..] == was[i + 1..];
        ghost var p := was[i].(stopped := false);
        Assoc(done, [p], Resumed(was[i + 1..]));
        processes := processes[i := processes[i].(stopped := false)];
        assert processes[..i + 1] == done + [p];
        i := i + 1;
      }
      assert processes[..i] + [] == processes;
      status := Running;
      notified := false;
    }
  }

  lemma NoFlags()
    ensures AllDone([]) && !AnyStopped([])
  {
  }

  lemma FlagsSnoc(ps: seq<Process>, i: nat)
    requires i < |ps|
    ensures AllDone(ps[..i + 1]) <==> (AllDone(ps[..i]) && ps[i].completed)
    ensures AnyStopped(ps[..i + 1]) <==> (AnyStopped(ps[..i]) || ps[i].stopped)
  {
    if AnyStopped(ps[..i]) {
      var k :| 0 <= k < i && ps[..i][k].stopped;
      assert ps[..i + 1][k].stopped;
    }
    if ps[i].stopped {
      assert ps[..i + 1][i].stopped;
    }
    if AllDone(ps[..i + 1]) {
      assert ps[..i + 1][i].completed;
      forall k | 0 <= k < i ensures ps[..i][k].completed {
        assert ps[..i + 1][k].completed;
      }
    }
  }

  // -------------------------------------------------------------- the table

  function IdOf(job: ShellJob?): Option<int> {
    if job == null then None else Some(job.id)
  }

  ghost function AbsOf(jobs: seq<ShellJob>): seq<Job>
    reads jobs
  {
    seq(|jobs|, i requires 0 <= i < |jobs| reads jobs => jobs[i].Abs())
  }

  class JobControl {
    var jobs: seq<ShellJob>
    var currentJob: ShellJob?

    constructor ()
      ensures Valid() && Abs() == Table([], None)
    {
      jobs, currentJob := [], null;
    }

    ghost function Abs(): Table
      reads this, jobs
    {
      Table(AbsOf(jobs), IdOf(currentJob))
    }

    ghost predicate Valid()
      reads this, jobs
    {
      && Ordered(AbsOf(jobs))
      && (currentJob != null ==> currentJob in jobs)
    }

    method NextJobId() returns (id: int)
      requires Valid()
      ensures id == MaxId(AbsOf(jobs)) + 1
    {
      var maxId := 0;
      var i := 0;
      while i < |jobs|
        invariant 0 <= i <= |jobs|
        invariant maxId == MaxId(AbsOf(jobs)[..i])
      {
        assert AbsOf(jobs)[..i + 1][..i] == AbsOf(jobs)[..i];
        if jobs[i].id > maxId {
          maxId := jobs[i].id;
        }
        i := i + 1;
      }
      assert AbsOf(jobs)[..i] == AbsOf(jobs);
      id := maxId + 1;
    }

    method JobCreate(cmdLine: string) returns (job: ShellJob)
      requires Valid()
      modifies this
      ensures Valid() && fresh(job) && jobs == old(jobs) + [job]
      ensures Abs() == Create(old(Abs()), cmdLine)
    {
      hide Ordered;
      var id := NextJobId();
      CreateOrdered(AbsOf(jobs), cmdLine);
      ghost var was := AbsOf(jobs);
      job := new ShellJob(id, cmdLine);
      jobs := jobs + [job];
      currentJob := job;
      assert AbsOf(jobs) == was + [job.Abs()];
    }

    /** Position of job `id`, the number of jobs if there is none. */
    method JobFindById(id: int) returns (i: nat)
      ensures i == FindId(AbsOf(jobs), id)
    {
      ghost var abs := AbsOf(jobs);
      i := 0;
      while i < |jobs| && jobs[i].id != id
        invariant 0 <= i <= |jobs|
        invariant FindId(abs, id) == i + FindId(abs[i..], id)
      {
        assert abs[i..][0] == abs[i] && abs[i..][1..] == abs[i + 1..];
        i := i + 1;
      }
      if i < |jobs| {
        assert abs[i..][0] == abs[i];
      }
    }

    method JobFindByPid(pid: int) returns (i: nat)
      ensures i == FindByPid(AbsOf(jobs), pid)
    {
      ghost var abs := AbsOf(jobs);
      i := 0;
      while i < |jobs|
        invariant 0 <= i <= |jobs|
        invariant FindByPid(abs, pid) == i + FindByPid(abs[i..], pid)
      {
        assert abs[i..][0] == jobs[i].Abs() && abs[i..][1..] == abs[i + 1..];
        var k := 0;
        while k < |jobs[i].processes| && jobs[i].processes[k].pid != pid
          invariant 0 <= k <= |jobs[i].processes|
          invariant FindPid(jobs[i].processes, pid) == k + FindPid(jobs[i].processes[k..], pid)
        {
          k := k + 1;
        }
        if k < |jobs[i].processes| {
          return;
        }
        i := i + 1;
      }
    }

    method FindByCommand(prefix: string) returns (i: nat)
      ensures i == FindByPrefix(AbsOf(jobs), prefix)
    {
      ghost var abs := AbsOf(jobs);
      i := 0;
      while i < |jobs| && !(prefix <= jobs[i].cmdLine)
        invariant 0 <= i <= |jobs|
        invariant FindByPrefix(abs, prefix) == i + FindByPrefix(abs[i..], prefix)
      {
        assert abs[i..][0] == abs[i] && abs[i..][1..] == abs[i + 1..];
        i := i + 1;
      }
      if i < |jobs| {
        assert abs[i..][0] == abs[i];
      }
    }

    /** The job a specification names. */
    method JobFindBySpec(spec: string) returns (job: ShellJob?)
      requires Valid()
      ensures IdOf(job) == FindBySpec(Abs(), spec)
      ensures job != null ==> job in jobs
    {
      hide Ordered;
      if spec == "" || spec == "%" || spec == "%+" || spec == "%%" {
        return currentJob;
      }
      if spec[0] != '%' {
        return null;
      }
      var i;
      if spec == "%-" {
        if currentJob == null {
          return null;
        }
        i := JobFindById(currentJob.id);
        return if 0 < i < |jobs| then jobs[i - 1] else null;
      }
      if AllDigits(spec[1..]) {
        i := JobFindById(Value(spec[1..], 0));
      } else {
        i := FindByCommand(spec[1..]);
      }
      job := if i < |jobs| then jobs[i] else null;
    }

    /** A report collected between commands. */
    method ApplyWaitResult(pid: int, w: Wait)
      requires Valid()
      modifies jobs
      ensures Valid() && jobs == old(jobs) && currentJob == old(currentJob)
      ensures Abs() == Collect(old(Abs()), pid, w)
    {
      hide ApplyStatus, Recompute, Ordered;
      ghost var was := AbsOf(jobs);
      var i := JobFindByPid(pid);
      if i == |jobs| {
        return;
      }
      assert FindPid(was[i].processes, pid) < |was[i].processes|;
      var found := jobs[i].JobApplyStatus(pid, w);
      Applied(was[i], pid, w);
      if found {
        jobs[i].JobRecomputeStatus();
      }
      IdsApart(was, jobs, i);
      assert AbsOf(jobs) == was[i := Take(was[i], (pid, w))];
      StillOrdered(was, i, Take(was[i], (pid, w)));
    }

    /** A job that is not in the table changes nothing. */
    method JobRemove(job: ShellJob?)
      requires Valid()
      modifies this
      ensures Valid()
      ensures Abs() == if job != null && job in old(jobs) then Remove(old(Abs()), job.id) else old(Abs())
    {
      if job == null {
        return;
      }
      hide Ordered, AbsOf, Remove, Forget;
      ghost var was, table := AbsOf(jobs), Abs();
      var i := Position(job);
      if i == |jobs| {
        return;
      }
      AbsOfRemoved(jobs, i);
      RemoveAt(table, i);
      RemovedOrdered(was, i);
      OneObject(was, jobs, i);
      if currentJob == job {
        currentJob := null;
      }
      jobs := jobs[..i] + jobs[i + 1..];
    }

    /** Announces one job if there is news of it, and drops it if finished. */
    method NotifyOne(job: ShellJob, ghost kept: seq<ShellJob>, ghost rest: seq<ShellJob>) returns (line: seq<Job>)
      requires jobs == kept + [job] + rest && IdsDistinct(jobs)
      requires currentJob != null ==> currentJob in jobs
      modifies this, job
      ensures var j := old(job.Abs());
              && line == (if IsNews(j) then [j] else [])
              && job.Abs() == (if IsNews(j) then j.(notified := true) else j)
              && jobs == kept + (if Finished(j) then [] else [job]) + rest
              && IdOf(currentJob)
                 == (if Finished(j) && IdOf(old(currentJob)) == Some(j.id) then None else IdOf(old(currentJob)))
      ensures IdsDistinct(jobs) && (currentJob != null ==> currentJob in jobs)
    {
      Apart(kept, job, rest);
      CurrentIs(currentJob, job, jobs);
      line := [];
      if !job.notified && job.status != Running {
        line := [job.Abs()];
        job.notified := true;
      }
      assert jobs[|kept|] == job;
      if job.status == Done || job.status == Terminated {
        if currentJob == job {
          currentJob := null;
        }
        var i := Position(job);
        jobs := jobs[..i] + jobs[i + 1..];
        assert jobs == kept + [] + rest;
      }
    }

    /** The walk over the jobs `all` has come to `i`, having kept `kept`, now in
        the states `left`, and printed `lines`. */
    ghost predicate Walking(table: Table, all: seq<ShellJob>, i: nat, kept: seq<ShellJob>, left: seq<Job>,
                            lines: seq<Job>)
      reads this, all, kept
    {
      && i <= |all| == |table.jobs|
      && jobs == kept + all[i..] && IdsDistinct(jobs)
      && Are(all[i..], table.jobs[i..]) && Are(kept, left)
      && (currentJob != null ==> currentJob in jobs)
      && Notified(table, left, Table(table.jobs[i..], IdOf(currentJob)), lines)
    }

    method NotifyNext(ghost table: Table, all: seq<ShellJob>, i: nat, ghost kept: seq<ShellJob>, ghost left: seq<Job>,
                      ghost lines: seq<Job>)
      returns (line: seq<Job>, ghost kept': seq<ShellJob>, ghost left': seq<Job>)
      requires i < |all| && Walking(table, all, i, kept, left, lines)
      modifies this, all[i]
      ensures Walking(table, all, i + 1, kept', left', lines + line)
      ensures forall o :: o in kept' ==> o in kept || o in all
    {
      hide Ordered, Finished, Notify, Notified, IsNews, IdsDistinct, IdOf, Are;
      ghost var job, rest, was := all[i], all[i + 1..], table.jobs;
      Split(all, i, kept);
      Apart(kept, job, rest);
      AreTail(all, was, i);
      NotifiedTurn(table, left, was, i, IdOf(currentJob), lines);
      line := NotifyOne(all[i], kept, rest);
      AreSnoc(kept, left, job);
      assert kept + [] == kept && left + [] == left;
      left' := left + if Finished(was[i]) then [] else [job.Abs()];
      kept' := kept + if Finished(was[i]) then [] else [job];
    }

    /** Announces news and drops finished jobs; the jobs announced, in order. */
    method JobNotify() returns (lines: seq<Job>)
      requires Valid()
      modifies this, jobs
      ensures Valid()
      ensures (Abs(), lines) == Notify(old(Abs()))
    {
      hide Walking, Notify, Ordered;
      ghost var table := Abs();
      ghost var kept: seq<ShellJob>, left: seq<Job> := [], [];
      var all := jobs;
      var i := 0;
      lines := [];
      WalkStart();
      while i < |all|
        invariant 0 <= i <= |all|
        invariant forall o :: o in kept ==> o in all
        invariant Walking(table, all, i, kept, left, lines)
      {
        var line;
        line, kept, left := NotifyNext(table, all, i, kept, left, lines);
        lines := lines + line;
        i := i + 1;
      }
      WalkEnd(table, all, kept, left, lines);
      NotifyExactly(table);
      UnfinishedOrdered(table.jobs);
    }

    lemma WalkStart()
      requires Valid()
      ensures Walking(Abs(), jobs, 0, [], [], [])
    {
      hide Ordered, Notify, Notified, IdsDistinct, AbsOf, Are;
      var was := AbsOf(jobs);
      AreAbs(jobs);
      AreNone();
      AreOrdered(jobs, was);
      NotifiedStart(Abs());
      assert jobs[0..] == jobs && was[0..] == was && [] + jobs == jobs;
    }

    lemma WalkEnd(table: Table, all: seq<ShellJob>, kept: seq<ShellJob>, left: seq<Job>, lines: seq<Job>)
      requires Walking(table, all, |all|, kept, left, lines)
      ensures (Abs(), lines) == Notify(table)
      ensures currentJob != null ==> currentJob in jobs
    {
      hide Notify, Notified, IdsDistinct, AbsOf, Are;
      assert table.jobs[|all|..] == [] && all[|all|..] == [] && kept + [] == kept;
      NotifiedEnd(table, left, IdOf(currentJob), lines);
      AreThese(jobs, left);
    }

    /** The `jobs` builtin: prints every job and counts it as announced. */
    method BuiltinJobs() returns (lines: seq<Job>)
      requires Valid()
      modifies jobs
      ensures Valid() && jobs == old(jobs) && currentJob == old(currentJob)
      ensures lines == old(Abs()).jobs && Abs() == Step(old(Abs()), List)
    {
      hide Ordered, Marked;
      ghost var was := AbsOf(jobs);
      AreAbs(jobs);
      AreOrdered(jobs, was);
      MarkedAre(was);
      MarkedOrdered(was);
      var i := 0;
      lines := [];
      while i < |jobs|
        invariant 0 <= i <= |jobs| && lines == was[..i]
        invariant forall k :: 0 <= k < i ==> jobs[k].Abs() == was[k].(notified := true)
        invariant forall k :: i <= k < |jobs| ==> jobs[k].Abs() == was[k]
      {
        assert jobs[i].Abs() == was[i];
        lines := lines + [jobs[i].Abs()];
        jobs[i].notified := true;
        i := i + 1;
      }
      assert AbsOf(jobs) == Marked(was);
    }

    /** Where a job is in the table, the number of jobs if it is not. */
    method Position(job: ShellJob) returns (i: nat)
      ensures i <= |jobs| && (i < |jobs| ==> jobs[i] == job)
      ensures i == |jobs| <==> job !in jobs
    {
      i := 0;
      while i < |jobs| && jobs[i] != job
        invariant 0 <= i <= |jobs| && job !in jobs[..i]
      {
        i := i + 1;
      }
    }
  }

  ghost predicate IdsDistinct(jobs: seq<ShellJob>) {
    forall a, b :: 0 <= a < b < |jobs| ==> jobs[a].id != jobs[b].id
  }

  lemma OrderedDistinct(was: seq<Job>, jobs: seq<ShellJob>)
    requires |was| == |jobs| && Ordered(was) && forall k :: 0 <= k < |jobs| ==> was[k].id == jobs[k].id
    ensures IdsDistinct(jobs)
  {
  }

  lemma Apart(kept: seq<ShellJob>, job: ShellJob, rest: seq<ShellJob>)
    requires IdsDistinct(kept + [job] + rest)
    ensures job !in kept && job !in rest
    ensures IdsDistinct(kept + [] + rest) && kept + [] + rest == kept + rest
  {
    var all := kept + [job] + rest;
    assert all[|kept|] == job;
    forall k | 0 <= k < |kept| ensures kept[k] != job {
      assert all[k] == kept[k];
    }
    forall k | 0 <= k < |rest| ensures rest[k] != job {
      assert all[|kept| + 1 + k] == rest[k];
    }
    forall a, b | 0 <= a < b < |kept + rest| ensures (kept + rest)[a].id != (kept + rest)[b].id {
      assert (kept + rest)[a] == all[if a < |kept| then a else a + 1];
      assert (kept + rest)[b] == all[if b < |kept| then b else b + 1];
    }
    assert kept + [] + rest == kept + rest;
  }

  lemma MarkedOrdered(was: seq<Job>)
    requires Ordered(was)
    ensures Ordered(Marked(was))
  {
    hide Marked;
    MarkedAre(was);
  }

  lemma CurrentIs(current: ShellJob?, job: ShellJob, jobs: seq<ShellJob>)
    requires IdsDistinct(jobs) && job in jobs && (current != null ==> current in jobs)
    ensures current != null && current.id == job.id ==> current == job
  {
  }

  // ----------------------------------------------------- notifying in a loop

  predicate IsNews(j: Job) {
    !j.notified && j.status != Running
  }

  /** The walk over the table has kept `kept`, printed `lines` and has `rest`
      to go. */
  ghost predicate Notified(t: Table, kept: seq<Job>, rest: Table, lines: seq<Job>) {
    var (u, more) := Notify(rest);
    Notify(t) == (u.(jobs := kept + u.jobs), lines + more)
  }

  lemma NotifiedStart(t: Table)
    ensures Notified(t, [], t, [])
  {
    hide Notify;
    var (u, more) := Notify(t);
    assert [] + u.jobs == u.jobs && [] + more == more;
  }

  lemma NotifiedStep(t: Table, kept: seq<Job>, rest: Table, lines: seq<Job>)
    requires rest.jobs != [] && Notified(t, kept, rest, lines)
    ensures var j := rest.jobs[0];
            var j' := if IsNews(j) then j.(notified := true) else j;
            var current := if Finished(j) then Forget(rest, j.id) else rest.current;
            Notified(t, kept + (if Finished(j) then [] else [j']), Table(rest.jobs[1..], current),
                     lines + (if IsNews(j) then [j] else []))
  {
    hide Finished;
    var j := rest.jobs[0];
    var j' := if IsNews(j) then j.(notified := true) else j;
    var current := if Finished(j) then Forget(rest, j.id) else rest.current;
    var (u, more) := Notify(Table(rest.jobs[1..], current));
    Assoc(kept, if Finished(j) then [] else [j'], u.jobs);
    Assoc(lines, if IsNews(j) then [j] else [], more);
  }

  ghost predicate Are(objects: seq<ShellJob>, jobs: seq<Job>)
    reads objects
  {
    |objects| == |jobs| && forall k :: 0 <= k < |jobs| ==> objects[k].Abs() == jobs[k]
  }

  lemma Split(all: seq<ShellJob>, i: nat, kept: seq<ShellJob>)
    requires i < |all|
    ensures kept + all[i..] == kept + [all[i]] + all[i + 1..]
  {
  }

  lemma AreAbs(objects: seq<ShellJob>)
    ensures Are(objects, AbsOf(objects))
  {
  }

  lemma AreNone()
    ensures Are([], [])
  {
  }

  lemma AreThese(objects: seq<ShellJob>, jobs: seq<Job>)
    requires Are(objects, jobs)
    ensures AbsOf(objects) == jobs
  {
  }

  lemma AreOrdered(objects: seq<ShellJob>, jobs: seq<Job>)
    requires Are(objects, jobs) && Ordered(jobs)
    ensures |objects| == |jobs| && IdsDistinct(objects)
  {
    forall k | 0 <= k < |jobs| ensures jobs[k].id == objects[k].id {
      assert objects[k].Abs() == jobs[k];
    }
    OrderedDistinct(jobs, objects);
  }

  lemma AreTail(all: seq<ShellJob>, was: seq<Job>, i: nat)
    requires i < |all| == |was| && Are(all[i..], was[i..])
    ensures all[i].Abs() == was[i] && Are(all[i + 1..], was[i + 1..])
  {
    assert all[i..][0] == all[i] && was[i..][0] == was[i];
    forall k | i <= k < |was| ensures all[k].Abs() == was[k] {
      assert all[i..][k - i] == all[k] && was[i..][k - i] == was[k];
    }
  }

  lemma AreSnoc(kept: seq<ShellJob>, left: seq<Job>, job: ShellJob)
    requires Are(kept, left)
    ensures Are(kept + [job], left + [job.Abs()])
  {
  }

  lemma NotifiedTurn(t: Table, kept: seq<Job>, was: seq<Job>, i: nat, current: Option<int>, lines: seq<Job>)
    requires i < |was| && Notified(t, kept, Table(was[i..], current), lines)
    ensures var j := was[i];
            var j' := if IsNews(j) then j.(notified := true) else j;
            var current' := if Finished(j) && current == Some(j.id) then None else current;
            Notified(t, kept + (if Finished(j) then [] else [j']), Table(was[i + 1..], current'),
                     lines + (if IsNews(j) then [j] else []))
  {
    hide Finished, Notified;
    assert was[i..][0] == was[i] && was[i..][1..] == was[i + 1..];
    NotifiedStep(t, kept, Table(was[i..], current), lines);
  }

  lemma NotifiedEnd(t: Table, kept: seq<Job>, current: Option<int>, lines: seq<Job>)
    requires Notified(t, kept, Table([], current), lines)
    ensures Notify(t) == (Table(kept, current), lines)
  {
    assert kept + [] == kept && lines + [] == lines;
  }

  /** The same, for the object at `i`: another object in the table has another
      id and stays when `i` is removed. */
  lemma OneObject(was: seq<Job>, jobs: seq<ShellJob>, i: nat)
    requires |was| == |jobs| && i < |jobs| && Ordered(was)
    requires forall k :: 0 <= k < |jobs| ==> was[k].id == jobs[k].id
    ensures forall o :: o in jobs && o != jobs[i] ==> o.id != jobs[i].id && o in jobs[..i] + jobs[i + 1..]
  {
    forall o | o in jobs && o != jobs[i] ensures o.id != jobs[i].id && o in jobs[..i] + jobs[i + 1..] {
      var k :| 0 <= k < |jobs| && jobs[k] == o;
      assert was[k].id != was[i].id;
      assert (jobs[..i] + jobs[i + 1..])[if k < i then k else k - 1] == o;
    }
  }

  lemma AbsOfRemoved(jobs: seq<ShellJob>, i: nat)
    requires i < |jobs|
    ensures |AbsOf(jobs)| == |jobs| && forall k :: 0 <= k < |jobs| ==> AbsOf(jobs)[k].id == jobs[k].id
    ensures AbsOf(jobs[..i] + jobs[i + 1..]) == AbsOf(jobs)[..i] + AbsOf(jobs)[i + 1..]
  {
  }

  lemma RemoveAt(t: Table, i: nat)
    requires Ordered(t.jobs) && i < |t.jobs|
    ensures Remove(t, t.jobs[i].id)
         == Table(t.jobs[..i] + t.jobs[i + 1..], if t.current == Some(t.jobs[i].id) then None else t.current)
  {
    hide Ordered;
    AtId(t.jobs, i);
  }

  lemma RemovedOrdered(jobs: seq<Job>, i: nat)
    requires Ordered(jobs) && i < |jobs|
    ensures Ordered(jobs[..i] + jobs[i + 1..])
  {
  }

  /** Jobs with different ids are different objects. */
  lemma IdsApart(was: seq<Job>, jobs: seq<ShellJob>, i: nat)
    requires |was| == |jobs| && i < |jobs| && Ordered(was)
    requires forall k :: 0 <= k < |jobs| ==> was[k].id == jobs[k].id
    ensures forall k :: 0 <= k < |jobs| && k != i ==> jobs[k] != jobs[i]
  {
  }

  lemma CreateOrdered(jobs: seq<Job>, cmdLine: string)
    requires Ordered(jobs)
    ensures Ordered(jobs + [Job(MaxId(jobs) + 1, cmdLine, [], Running, false)])
  {
    MaxIdIs(jobs);
  }

  lemma AtId(jobs: seq<Job>, i: nat)
    requires Ordered(jobs) && i < |jobs|
    ensures FindId(jobs, jobs[i].id) == i
  {
  }

  lemma StillOrdered(jobs: seq<Job>, i: nat, j: Job)
    requires Ordered(jobs) && i < |jobs| && j.id == jobs[i].id
    ensures Ordered(jobs[i := j])
  {
  }

  lemma Applied(j: Job, pid: int, w: Wait)
    requires FindPid(j.processes, pid) < |j.processes|
    ensures ApplyStatus(j, pid, w).1
    ensures Take(j, (pid, w)).id == j.id
  {
  }
}
