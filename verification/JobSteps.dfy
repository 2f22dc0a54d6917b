/** What one report, one wait and each operation on the job table do, whatever
    they start from. */
module JobSteps {
  import opened Decimal
  import opened Wrappers
  import opened JobSpec

  // ------------------------------------------------------------ one report

  /** `i` is the first process with the pid, the number of processes if there is
      none. */
  ghost predicate FirstWith(ps: seq<Process>, pid: int, i: int) {
    0 <= i <= |ps| && (i < |ps| ==> ps[i].pid == pid) && forall k :: 0 <= k < i ==> ps[k].pid != pid
  }

  /** A report goes to the first process with the pid, which is then complete
      unless it stopped; the news is to be announced, and a death is remembered. */
  lemma ReportTaken(j: Job, pid: int, w: Wait, i: int)
    requires FirstWith(j.processes, pid, i)
    ensures var (k, found) := ApplyStatus(j, pid, w);
            && (found <==> i < |j.processes|)
            && (!found ==> k == j)
            && (found ==>
                  var p := j.processes[i];
                  k == Job(j.id, j.cmdLine,
                           j.processes[i := Process(p.pid, w, p.completed || !w.Stopped?, w.Stopped?)],
                           match w case Killed(_) => Terminated case _ => j.status, false))
  {
    hide FindPid;
    var n := FindPid(j.processes, pid);
    assert n == i;
  }

  /** A job all of whose processes are complete is done, or terminated if a
      death was reported; else it is suspended if one is stopped. */
  lemma StatusRecomputed(j: Job)
    ensures var all := forall i :: 0 <= i < |j.processes| ==> j.processes[i].completed;
            var some := exists i :: 0 <= i < |j.processes| && j.processes[i].stopped;
            Recompute(j) == Job(j.id, j.cmdLine, j.processes,
                                if all && j.status == Terminated then Terminated
                                else if all then Done
                                else if some then Suspended
                                else Running,
                                j.notified)
  {
  }

  // ----------------------------------------------------------------- waiting

  function Taken(j: Job, reports: Reports): Job
    decreases |reports|
  {
    if reports == [] then j else Taken(Recompute(ApplyStatus(j, reports[0].0, reports[0].1).0), reports[1..])
  }

  /** The status shown for how a process ended. */
  function Shown(w: Wait): int {
    match w
    case Exited(code) => code
    case Killed(sig) => 128 + sig
    case Stopped(_) => 1
    case Continued => 1
  }

  /** The status shown when a job is found stopped after a report: 128 plus bits
      8 to 15 of the report, whichever process it was about. */
  function ShownStopped(w: Wait): int {
    match w
    case Exited(code) => 128 + code
    case Killed(_) => 128
    case Stopped(sig) => 128 + sig
    case Continued => 383
  }

  /** Main result, for every job and all reports: a wait takes reports while the
      job runs; it returns the status of the last process, 0 without one, or of
      the stop. */
  lemma {:induction false} WaitReturns(j: Job, reports: Reports)
    ensures var (k, code, n) := WaitFor(j, reports);
            && n <= |reports| && k == Taken(j, reports[..n])
            && (forall i {:trigger reports[..i]} :: 0 < i < n ==> Taken(j, reports[..i]).status == Running)
            && (n < |reports| ==> n > 0 && k.status != Running)
            && code == (if n > 0 && k.status == Suspended then ShownStopped(reports[n - 1].1)
                        else if k.processes == [] then 0
                        else Shown(k.processes[|k.processes| - 1].status))
    decreases |reports|
  {
    hide ApplyStatus, Recompute;
    if reports == [] {
      assert reports[..0] == [];
    } else {
      var j' := Recompute(ApplyStatus(j, reports[0].0, reports[0].1).0);
      var (k, code, n) := WaitFor(j, reports);
      if j'.status == Running {
        WaitReturns(j', reports[1..]);
        var m := WaitFor(j', reports[1..]).2;
        forall i | 0 < i <= n ensures Taken(j, reports[..i]) == Taken(j', reports[1..][..i - 1]) {
          assert reports[..i][1..] == reports[1..][..i - 1];
        }
        assert reports[1..][..0] == [];
        assert n == m + 1;
      } else {
        assert reports[..1] == [reports[0]] && [reports[0]][1..] == [];
      }
    }
  }

  // ------------------------------------------------------------- the table

  ghost predicate FirstId(jobs: seq<Job>, id: int, i: int) {
    0 <= i <= |jobs| && (i < |jobs| ==> jobs[i].id == id) && forall k :: 0 <= k < i ==> jobs[k].id != id
  }

  lemma FirstIdFound(jobs: seq<Job>, id: int, i: int)
    requires FirstId(jobs, id, i)
    ensures FindId(jobs, id) == i
  {
    hide FindId;
    var n := FindId(jobs, id);
  }

  lemma {:induction false} MaxIdAbove(jobs: seq<Job>)
    ensures MaxId(jobs) >= 0 && forall i :: 0 <= i < |jobs| ==> jobs[i].id <= MaxId(jobs)
    ensures MaxId(jobs) == 0 || exists i :: 0 <= i < |jobs| && jobs[i].id == MaxId(jobs)
  {
    if jobs != [] {
      var rest, last := jobs[..|jobs| - 1], jobs[|jobs| - 1];
      MaxIdAbove(rest);
      assert jobs == rest + [last];
      if last.id > MaxId(rest) {
        assert jobs[|jobs| - 1].id == MaxId(jobs);
      } else if MaxId(rest) != 0 {
        var i :| 0 <= i < |rest| && rest[i].id == MaxId(rest);
        assert jobs[i].id == MaxId(jobs);
      }
    }
  }

  /** A new job goes to the end with the next number above all others, running
      and not yet announced, and becomes current. */
  lemma CreateMeans(t: Table, cmdLine: string)
    ensures var u := Create(t, cmdLine);
            && |u.jobs| == |t.jobs| + 1 && u.jobs[..|t.jobs|] == t.jobs
            && var id := u.jobs[|t.jobs|].id;
               && u.jobs[|t.jobs|] == Job(id, cmdLine, [], Running, false) && u.current == Some(id)
               && id > 0 && (forall i :: 0 <= i < |t.jobs| ==> t.jobs[i].id < id)
               && (id == 1 || exists i :: 0 <= i < |t.jobs| && t.jobs[i].id == id - 1)
  {
    hide MaxId;
    MaxIdAbove(t.jobs);
  }

  /** A process is added at the end of its job, running. */
  lemma AddMeans(t: Table, id: int, pid: int, i: int)
    requires FirstId(t.jobs, id, i)
    ensures AddProcess(t, id, pid) ==
      if i == |t.jobs| then t
      else
        var j := t.jobs[i];
        var ps := j.processes + [Process(pid, Exited(0), false, false)];
        Table(t.jobs[i := Job(j.id, j.cmdLine, ps, j.status, j.notified)], t.current)
  {
    FirstIdFound(t.jobs, id, i);
  }

  lemma RemoveMeans(t: Table, id: int, i: int)
    requires FirstId(t.jobs, id, i)
    ensures Remove(t, id) ==
      if i == |t.jobs| then t
      else Table(t.jobs[..i] + t.jobs[i + 1..], if t.current == Some(id) then None else t.current)
  {
    FirstIdFound(t.jobs, id, i);
  }

  /** Continuing a job makes it current, running and to be announced again, with
      no process stopped. */
  lemma ContinueMeans(t: Table, id: int, i: int)
    requires FirstId(t.jobs, id, i)
    ensures var u := Continue(t, id);
            if i == |t.jobs| then u == t
            else
              && u.current == Some(id) && |u.jobs| == |t.jobs|
              && (forall k :: 0 <= k < |t.jobs| && k != i ==> u.jobs[k] == t.jobs[k])
              && var j, j' := t.jobs[i], u.jobs[i];
                 && j'.id == j.id && j'.cmdLine == j.cmdLine && j'.status == Running && !j'.notified
                 && |j'.processes| == |j.processes|
                 && forall k :: 0 <= k < |j.processes| ==>
                   var p := j.processes[k]; j'.processes[k] == Process(p.pid, p.status, p.completed, false)
  {
    FirstIdFound(t.jobs, id, i);
    if i < |t.jobs| {
      ResumedMeans(t.jobs[i].processes);
    }
  }

  lemma {:induction false} ResumedMeans(ps: seq<Process>)
    ensures |Resumed(ps)| == |ps|
    ensures forall k :: 0 <= k < |ps| ==> Resumed(ps)[k] == Process(ps[k].pid, ps[k].status, ps[k].completed, false)
  {
    if ps != [] {
      ResumedMeans(ps[1..]);
    }
  }

  // ------------------------------------------------------- specifications

  /** `%`, `%%`, `%+` and nothing at all name the current job. */
  lemma SpecCurrent(t: Table, spec: string)
    requires spec == "" || spec == "%" || spec == "%%" || spec == "%+"
    ensures FindBySpec(t, spec) == t.current
  {
  }

  /** `%-` names the job before the current one in the table. */
  lemma SpecPrevious(t: Table, i: int)
    requires t.current.Some? ==> FirstId(t.jobs, t.current.value, i)
    ensures FindBySpec(t, "%-")
         == if t.current.None? || i == 0 || i == |t.jobs| then None else Some(t.jobs[i - 1].id)
  {
    if t.current.Some? {
      FirstIdFound(t.jobs, t.current.value, i);
    }
  }

  /** `%n` names job `n`, if it is in the table. */
  lemma SpecNumber(t: Table, ds: string, i: int)
    requires ds != "" && AllDigits(ds) && FirstId(t.jobs, Value(ds, 0), i)
    ensures FindBySpec(t, "%" + ds) == if i < |t.jobs| then Some(Value(ds, 0)) else None
  {
    hide Value;
    var spec := "%" + ds;
    assert spec[1..] == ds && spec[1] == ds[0];
    FirstIdFound(t.jobs, Value(ds, 0), i);
  }

  /** `%text` names the first job whose command line starts with the text. */
  lemma SpecPrefix(t: Table, p: string, i: int)
    requires p != "" && p != "-" && p != "+" && p != "%" && !AllDigits(p)
    requires 0 <= i <= |t.jobs| && (i < |t.jobs| ==> p <= t.jobs[i].cmdLine)
    requires forall k :: 0 <= k < i ==> !(p <= t.jobs[k].cmdLine)
    ensures FindBySpec(t, "%" + p) == if i < |t.jobs| then Some(t.jobs[i].id) else None
  {
    hide FindByPrefix;
    var spec := "%" + p;
    assert spec[1..] == p;
    var n := FindByPrefix(t.jobs, p);
    assert n == i;
    assert spec != "%" && spec != "%%" && spec != "%+" && spec != "%-" by {
      assert "%"[1..] == "" && "%%"[1..] == "%" && "%+"[1..] == "+" && "%-"[1..] == "-";
    }
  }

  /** Anything else names no job. */
  lemma SpecOther(t: Table, spec: string)
    requires spec != "" && spec[0] != '%'
    ensures FindBySpec(t, spec) == None
  {
  }
}
