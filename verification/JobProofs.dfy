/** The status of a pipeline does not depend on the order its processes are
    reaped in, and the job table stays in order over every run. */
module JobProofs {
  import opened SeqFacts
  import opened JobSpec

  // ------------------------------------------------------ reaping one job

  ghost predicate Distinct(ps: seq<Process>) {
    forall i, j :: 0 <= i < j < |ps| ==> ps[i].pid != ps[j].pid
  }

  function Pending(ps: seq<Process>): set<int> {
    set i | 0 <= i < |ps| && !ps[i].completed :: ps[i].pid
  }

  /** Reports a running job can still give: one end for each process, stops
      before it, nothing after. */
  predicate Fits(pending: set<int>, reports: Reports)
    decreases |reports|
  {
    if reports == [] then pending == {}
    else
      && reports[0].0 in pending
      && !reports[0].1.Continued?
      && Fits(if reports[0].1.Stopped? then pending else pending - {reports[0].0}, reports[1..])
  }

  /** How process `p` ends. */
  function Ending(p: Process, reports: Reports): Wait
    decreases |reports|
  {
    if reports == [] then p.status
    else Ending(if reports[0].0 == p.pid && !p.completed then Report(p, reports[0].1) else p, reports[1..])
  }

  ghost predicate Ready(j: Job) {
    Distinct(j.processes) && j.processes != [] && !AnyStopped(j.processes)
  }

  /** One end of a process: it completes, no other changes, and the job is
      finished exactly when it was the last, terminated if it was a death. */
  lemma TakeEnd(j: Job, r: (int, Wait))
    requires Ready(j) && r.0 in Pending(j.processes) && !r.1.Stopped?
    ensures var k := Take(j, r);
            && Ready(k) && |k.processes| == |j.processes|
            && Pending(k.processes) == Pending(j.processes) - {r.0}
            && (forall i :: 0 <= i < |j.processes| ==>
                  k.processes[i] == if j.processes[i].pid == r.0 then Report(j.processes[i], r.1) else j.processes[i])
            && (Finished(k) <==> Pending(k.processes) == {})
            && (!Finished(k) ==> k.status == Running)
            && (Finished(k) && j.status != Terminated ==> (k.status == Terminated <==> r.1.Killed?))
  {
    TakeChanges(j, r);
    var k := Take(j, r);
    forall i | 0 <= i < |k.processes| ensures !k.processes[i].stopped {
      assert !j.processes[i].stopped;
    }
    forall x ensures x in Pending(k.processes) <==> x in Pending(j.processes) - {r.0} {
      if x in Pending(j.processes) - {r.0} {
        var i :| 0 <= i < |j.processes| && !j.processes[i].completed && j.processes[i].pid == x;
        assert !k.processes[i].completed && k.processes[i].pid == x;
      }
    }
    if Pending(k.processes) == {} {
      forall i | 0 <= i < |k.processes| ensures k.processes[i].completed {
        assert k.processes[i].pid !in Pending(k.processes);
      }
    }
  }

  lemma TakeChanges(j: Job, r: (int, Wait))
    requires Distinct(j.processes) && r.0 in Pending(j.processes)
    ensures var k := Take(j, r);
            && |k.processes| == |j.processes|
            && (forall i :: 0 <= i < |j.processes| ==>
                  k.processes[i] == if j.processes[i].pid == r.0 then Report(j.processes[i], r.1) else j.processes[i])
            && k.status
               == Recompute(j.(processes := k.processes, status := if r.1.Killed? then Terminated else j.status)).status
  {
    var n := FindPid(j.processes, r.0);
    var i :| 0 <= i < |j.processes| && !j.processes[i].completed && j.processes[i].pid == r.0;
    assert n == i;
  }

  /** A stop of a process still running suspends the job. */
  lemma TakeStop(j: Job, r: (int, Wait))
    requires Ready(j) && r.0 in Pending(j.processes) && r.1.Stopped?
    ensures var k := Take(j, r);
            && k.status == Suspended
            && |k.processes| == |j.processes|
            && (forall i :: 0 <= i < |j.processes| ==>
                  k.processes[i] == if j.processes[i].pid == r.0 then Report(j.processes[i], r.1) else j.processes[i])
  {
    TakeChanges(j, r);
    var k := Take(j, r);
    var i :| 0 <= i < |j.processes| && !j.processes[i].completed && j.processes[i].pid == r.0;
    assert k.processes[i].stopped && !k.processes[i].completed;
  }

  lemma {:induction false} ResumedIs(ps: seq<Process>)
    ensures |Resumed(ps)| == |ps|
    ensures forall i :: 0 <= i < |ps| ==> Resumed(ps)[i] == ps[i].(stopped := false)
  {
    if ps != [] {
      ResumedIs(ps[1..]);
    }
  }

  lemma MarkedIs(j: Job)
    ensures var k := MarkRunning(j);
            && k.status == Running && |k.processes| == |j.processes|
            && forall i :: 0 <= i < |j.processes| ==> k.processes[i] == j.processes[i].(stopped := false)
  {
    ResumedIs(j.processes);
  }

  // ------------------------------------------------- a job to its end

  function FirstStop(reports: Reports): (i: nat)
    ensures i <= |reports| && (i < |reports| ==> reports[i].1.Stopped?)
    ensures forall k :: 0 <= k < i ==> !reports[k].1.Stopped?
  {
    if reports == [] || reports[0].1.Stopped? then 0 else 1 + FirstStop(reports[1..])
  }

  /** Every process of `j` ended in `k` as the reports say; the job counts as
      terminated exactly when the last report is a death by signal. */
  ghost predicate Ended(j: Job, reports: Reports, k: Job)
    requires reports != []
  {
    && |k.processes| == |j.processes|
    && (forall i :: 0 <= i < |j.processes| ==>
          k.processes[i].pid == j.processes[i].pid && k.processes[i].completed
          && k.processes[i].status == Ending(j.processes[i], reports))
    && k.status == (if reports[|reports| - 1].1.Killed? then Terminated else Done)
  }

  lemma EndedStep(j: Job, reports: Reports, k': Job, k: Job)
    requires |reports| > 1 && |k'.processes| == |j.processes|
    requires forall i :: 0 <= i < |j.processes| ==>
               k'.processes[i].pid == j.processes[i].pid
               && Ending(k'.processes[i], reports[1..]) == Ending(j.processes[i], reports)
    requires Ended(k', reports[1..], k)
    ensures Ended(j, reports, k)
  {
    assert reports[1..][|reports[1..]| - 1] == reports[|reports| - 1];
  }

  lemma EndingStep(p: Process, q: Process, r: (int, Wait), reports: Reports)
    requires r.0 == p.pid ==> !p.completed
    requires q == if p.pid == r.0 then Report(p, r.1) else p
    ensures Ending(q, reports) == Ending(p, [r] + reports)
    ensures Ending(q.(stopped := false), reports) == Ending(p, [r] + reports)
  {
    EndingStopped(q, reports);
    Drop1(r, reports);
  }

  lemma {:induction false} EndingStopped(p: Process, reports: Reports)
    ensures Ending(p.(stopped := false), reports) == Ending(p, reports)
    decreases |reports|
  {
    if reports != [] {
      var p' := if reports[0].0 == p.pid && !p.completed then Report(p, reports[0].1) else p;
      EndingStopped(p', reports[1..]);
      var q := p.(stopped := false);
      EndingStopped(if reports[0].0 == p.pid && !p.completed then Report(q, reports[0].1) else q, reports[1..]);
    }
  }

  lemma LastReport(j: Job, r: (int, Wait))
    requires Ready(j) && j.status == Running && Pending(j.processes) == {r.0} && !r.1.Stopped?
    ensures Ended(j, [r], Take(j, r))
  {
    TakeEnd(j, r);
    var k := Take(j, r);
    forall i | 0 <= i < |j.processes|
      ensures k.processes[i].completed && k.processes[i].status == Ending(j.processes[i], [r])
    {
      assert k.processes[i].pid !in Pending(k.processes);
      if j.processes[i].pid == r.0 {
        OnlyOne(j.processes, r.0, i);
      }
      EndingStep(j.processes[i], k.processes[i], r, []);
      assert [r] + [] == [r];
    }
  }

  lemma OnlyOne(ps: seq<Process>, pid: int, i: nat)
    requires Distinct(ps) && i < |ps| && ps[i].pid == pid && pid in Pending(ps)
    ensures !ps[i].completed
  {
  }

  /** The next report of several, not a stop. */
  lemma NextReport(j: Job, reports: Reports)
    requires Ready(j) && j.status == Running && |reports| > 1 && Fits(Pending(j.processes), reports)
    requires !reports[0].1.Stopped?
    ensures var k := Take(j, reports[0]);
            && Ready(k) && k.status == Running && Fits(Pending(k.processes), reports[1..])
            && |k.processes| == |j.processes|
            && (forall i :: 0 <= i < |j.processes| ==>
                  && k.processes[i].pid == j.processes[i].pid
                  && Ending(k.processes[i], reports[1..]) == Ending(j.processes[i], reports))
  {
    hide Take;
    TakeEnd(j, reports[0]);
    var k := Take(j, reports[0]);
    forall i | 0 <= i < |j.processes| ensures Ending(k.processes[i], reports[1..]) == Ending(j.processes[i], reports) {
      if j.processes[i].pid == reports[0].0 {
        OnlyOne(j.processes, reports[0].0, i);
      }
      EndingStep(j.processes[i], k.processes[i], reports[0], reports[1..]);
      assert [reports[0]] + reports[1..] == reports;
    }
    assert reports[1..] != [];
  }

  /** Waiting, exactly: with reports that fit the job, it returns 128 plus the
      signal at the first stop, having used the reports up to it; without a
      stop it uses each report once and returns the exit status of the last
      stage, the job terminated or done by the last report. */
  lemma {:induction false} WaitExactly(j: Job, reports: Reports)
    requires Ready(j) && j.status == Running && reports != [] && Fits(Pending(j.processes), reports)
    ensures var (k, code, n) := WaitFor(j, reports);
            var s := FirstStop(reports);
            if s < |reports| then n == s + 1 && code == 128 + reports[s].1.sig && k.status == Suspended
            else n == |reports| && Ended(j, reports, k)
                 && code == ExitStatus(Ending(j.processes[|j.processes| - 1], reports))
    decreases |reports|
  {
    hide Take, Ended, Ready, Ending, Pending;
    WaitTurn(j, reports);
    if reports[0].1.Stopped? {
      TakeStop(j, reports[0]);
    } else if |reports| == 1 {
      assert reports == [reports[0]] && reports[1..] == [];
      TakeEnd(j, reports[0]);
      LastReport(j, reports[0]);
      EndedExit(j, reports, Take(j, reports[0]));
    } else {
      NextReport(j, reports);
      var k := Take(j, reports[0]);
      WaitExactly(k, reports[1..]);
      FirstStopTail(reports);
      if FirstStop(reports) == |reports| {
        NotEmpty(j);
        NotEmpty(k);
        EndedStep(j, reports, k, WaitFor(k, reports[1..]).0);
        EndedExit(j, reports, WaitFor(k, reports[1..]).0);
        EndedExit(k, reports[1..], WaitFor(k, reports[1..]).0);
      }
    }
  }

  lemma FirstStopTail(reports: Reports)
    requires reports != [] && !reports[0].1.Stopped?
    ensures FirstStop(reports) == 1 + FirstStop(reports[1..])
    ensures FirstStop(reports) < |reports| ==> reports[FirstStop(reports)] == reports[1..][FirstStop(reports[1..])]
  {
  }

  lemma WaitTurn(j: Job, reports: Reports)
    requires reports != []
    ensures var k := Take(j, reports[0]);
            WaitFor(j, reports) ==
              if k.status == Suspended then (k, 128 + StopSig(reports[0].1), 1)
              else if Finished(k) then (k, LastExit(k), 1)
              else (WaitFor(k, reports[1..]).0, WaitFor(k, reports[1..]).1, WaitFor(k, reports[1..]).2 + 1)
  {
    hide Take;
  }

  lemma EndedExit(j: Job, reports: Reports, k: Job)
    requires j.processes != [] && reports != [] && Ended(j, reports, k)
    ensures Finished(k) && k.processes != []
    ensures LastExit(k) == ExitStatus(Ending(j.processes[|j.processes| - 1], reports))
  {
    hide Ending;
  }

  // -------------------------------------------- stopping and continuing

  lemma ForegroundTurn(j: Job, reports: Reports)
    requires reports != []
    ensures var k := Take(j, reports[0]);
            Foreground(j, reports) ==
              if k.status == Suspended then Foreground(MarkRunning(k), reports[1..])
              else if Finished(k) then (k, LastExit(k))
              else Foreground(k, reports[1..])
  {
    hide Take;
    var k := Take(j, reports[0]);
    WaitTurn(j, reports);
    if !Finished(k) && k.status != Suspended {
      var n := WaitFor(k, reports[1..]).2;
      assert reports[1..][n..] == reports[n + 1..];
    }
  }

  lemma AfterStop(j: Job, reports: Reports)
    requires Ready(j) && j.status == Running && reports != [] && Fits(Pending(j.processes), reports)
    requires reports[0].1.Stopped?
    ensures var k := MarkRunning(Take(j, reports[0]));
            && Ready(k) && k.status == Running && |reports| > 1 && Fits(Pending(k.processes), reports[1..])
            && |k.processes| == |j.processes|
            && (forall i :: 0 <= i < |j.processes| ==>
                  && k.processes[i].pid == j.processes[i].pid
                  && Ending(k.processes[i], reports[1..]) == Ending(j.processes[i], reports))
  {
    hide Take, MarkRunning, Resumed;
    var r := reports[0];
    TakeStop(j, r);
    var k' := Take(j, r);
    var k := MarkRunning(k');
    MarkedIs(k');
    SamePending(j.processes, r, k.processes);
    forall i | 0 <= i < |j.processes| ensures Ending(k.processes[i], reports[1..]) == Ending(j.processes[i], reports) {
      if j.processes[i].pid == r.0 {
        OnlyOne(j.processes, r.0, i);
      }
      EndingStep(j.processes[i], k'.processes[i], r, reports[1..]);
      assert [r] + reports[1..] == reports;
    }
  }

  lemma SamePending(ps: seq<Process>, r: (int, Wait), qs: seq<Process>)
    requires |qs| == |ps| && forall i :: 0 <= i < |ps| ==> qs[i].pid == ps[i].pid && qs[i].completed == ps[i].completed
    ensures Pending(qs) == Pending(ps)
  {
    forall x ensures x in Pending(qs) <==> x in Pending(ps) {
      if x in Pending(ps) {
        var i :| 0 <= i < |ps| && !ps[i].completed && ps[i].pid == x;
        assert !qs[i].completed && qs[i].pid == x;
      }
    }
  }

  /** However often a job stops and is continued: in the end each process ended
      as reported and the status is the last stage's. */
  lemma {:induction false} ForegroundEnds(j: Job, reports: Reports)
    requires Ready(j) && j.status == Running && reports != [] && Fits(Pending(j.processes), reports)
    ensures var (k, code) := Foreground(j, reports);
            Ended(j, reports, k) && code == ExitStatus(Ending(j.processes[|j.processes| - 1], reports))
    decreases |reports|
  {
    hide Take, Ended, Ready, Ending, Pending, Foreground, MarkRunning;
    ForegroundTurn(j, reports);
    if |reports| == 1 && !reports[0].1.Stopped? {
      assert reports == [reports[0]] && reports[1..] == [];
      TakeEnd(j, reports[0]);
      LastReport(j, reports[0]);
      EndedExit(j, reports, Take(j, reports[0]));
    } else {
      var k;
      if reports[0].1.Stopped? {
        TakeStop(j, reports[0]);
        AfterStop(j, reports);
        k := MarkRunning(Take(j, reports[0]));
      } else {
        NextReport(j, reports);
        k := Take(j, reports[0]);
      }
      ForegroundEnds(k, reports[1..]);
      EndedStep(j, reports, k, Foreground(k, reports[1..]).0);
      NotEmpty(j);
      EndedExit(j, reports, Foreground(k, reports[1..]).0);
    }
  }

  lemma NotEmpty(j: Job)
    requires Ready(j)
    ensures j.processes != []
  {
  }

  // ----------------------------------------------------- order of reports

  /** What is reported last of a process is among the reports. */
  lemma {:induction false} EndingReported(p: Process, pending: set<int>, reports: Reports)
    requires Fits(pending, reports) && p.pid in pending && !p.completed
    ensures (p.pid, Ending(p, reports)) in reports && !Ending(p, reports).Stopped?
    decreases |reports|
  {
    var r := reports[0];
    var rest := if r.1.Stopped? then pending else pending - {r.0};
    if r.0 == p.pid && !r.1.Stopped? {
      EndingCompleted(Report(p, r.1), reports[1..]);
    } else {
      var p' := if r.0 == p.pid then Report(p, r.1) else p;
      EndingReported(p', rest, reports[1..]);
      assert (p.pid, Ending(p', reports[1..])) in reports[1..];
    }
  }

  lemma {:induction false} EndingCompleted(p: Process, reports: Reports)
    requires p.completed
    ensures Ending(p, reports) == p.status
    decreases |reports|
  {
    if reports != [] {
      EndingCompleted(p, reports[1..]);
    }
  }

  lemma {:induction false} NotReported(pending: set<int>, reports: Reports, pid: int, w: Wait)
    requires Fits(pending, reports) && pid !in pending
    ensures (pid, w) !in reports
    decreases |reports|
  {
    if reports != [] {
      NotReported(if reports[0].1.Stopped? then pending else pending - {reports[0].0}, reports[1..], pid, w);
      assert [reports[0]] + reports[1..] == reports;
    }
  }

  /** A process ends in one way only. */
  lemma {:induction false} EndsOnce(p: Process, pending: set<int>, reports: Reports, w: Wait)
    requires Fits(pending, reports) && p.pid in pending && !p.completed
    requires (p.pid, w) in reports && !w.Stopped?
    ensures Ending(p, reports) == w
    decreases |reports|
  {
    var r := reports[0];
    var rest := if r.1.Stopped? then pending else pending - {r.0};
    assert [r] + reports[1..] == reports;
    if r.0 == p.pid && !r.1.Stopped? {
      EndingCompleted(Report(p, r.1), reports[1..]);
      if r.1 != w {
        NotReported(rest, reports[1..], p.pid, w);
      }
    } else {
      EndsOnce(if r.0 == p.pid then Report(p, r.1) else p, rest, reports[1..], w);
    }
  }

  /** Main result: whatever order the processes are reaped in, each ends the
      same and the job returns the same status. */
  lemma OrderIrrelevant(j: Job, a: Reports, b: Reports)
    requires Ready(j) && j.status == Running && (forall i :: 0 <= i < |j.processes| ==> !j.processes[i].completed)
    requires a != [] && Fits(Pending(j.processes), a) && Fits(Pending(j.processes), b) && multiset(a) == multiset(b)
    ensures Foreground(j, a).1 == Foreground(j, b).1
    ensures |Foreground(j, a).0.processes| == |Foreground(j, b).0.processes|
    ensures forall i :: 0 <= i < |Foreground(j, a).0.processes| ==>
              Foreground(j, a).0.processes[i].status == Foreground(j, b).0.processes[i].status
  {
    hide Foreground, Ending, Fits, Pending;
    assert |a| == |multiset(a)| == |multiset(b)| == |b|;
    ForegroundEnds(j, a);
    ForegroundEnds(j, b);
    forall i | 0 <= i < |j.processes| ensures Ending(j.processes[i], a) == Ending(j.processes[i], b) {
      StillPending(j.processes, i);
      EndingReported(j.processes[i], Pending(j.processes), a);
      assert (j.processes[i].pid, Ending(j.processes[i], a)) in multiset(b);
      EndsOnce(j.processes[i], Pending(j.processes), b, Ending(j.processes[i], a));
    }
  }

  lemma StillPending(ps: seq<Process>, i: nat)
    requires i < |ps| && !ps[i].completed
    ensures ps[i].pid in Pending(ps)
  {
  }

  // ------------------------------------------------- what completion means

  /** The job after all the reports. */
  function TakeAll(j: Job, reports: Reports): Job
    decreases |reports|
  {
    if reports == [] then j else TakeAll(Take(j, reports[0]), reports[1..])
  }

  predicate Dead(w: Wait) {
    w.Exited? || w.Killed?
  }

  predicate Ends(reports: Reports, pid: int) {
    exists k :: 0 <= k < |reports| && reports[k].0 == pid && Dead(reports[k].1)
  }

  predicate Continues(reports: Reports, pid: int) {
    exists k :: 0 <= k < |reports| && reports[k].0 == pid && reports[k].1.Continued?
  }

  /** One report on any process of any job: it is recorded complete exactly when
      it was, or the report is no stop; for a process not complete before, that
      means it ended exactly when the report is not that it was continued. */
  lemma ReportCompletes(j: Job, i: nat, w: Wait)
    requires i < |j.processes| && FindPid(j.processes, j.processes[i].pid) == i
    ensures var p, ps := j.processes[i], Take(j, (j.processes[i].pid, w)).processes;
            && |ps| == |j.processes|
            && (ps[i].completed <==> p.completed || !w.Stopped?)
            && (!p.completed ==> ((ps[i].completed <==> Dead(w)) <==> !w.Continued?))
  {
  }

  lemma ReportElsewhere(j: Job, i: nat, r: (int, Wait))
    requires i < |j.processes| && r.0 != j.processes[i].pid
    ensures var ps := Take(j, r).processes;
            |ps| == |j.processes| && ps[i] == j.processes[i]
  {
  }

  lemma PidsStay(j: Job, r: (int, Wait), k: nat)
    requires k < |j.processes|
    ensures |Take(j, r).processes| == |j.processes| && Take(j, r).processes[k].pid == j.processes[k].pid
  {
  }

  lemma {:induction false} FirstStays(ps: seq<Process>, qs: seq<Process>, pid: int)
    requires |qs| == |ps| && forall k :: 0 <= k < |ps| ==> qs[k].pid == ps[k].pid
    ensures FindPid(qs, pid) == FindPid(ps, pid)
  {
    if ps != [] && ps[0].pid != pid {
      FirstStays(ps[1..], qs[1..], pid);
    }
  }

  lemma SaidFirst(reports: Reports, pid: int)
    requires reports != []
    ensures Ends(reports, pid) <==> (reports[0].0 == pid && Dead(reports[0].1)) || Ends(reports[1..], pid)
    ensures Continues(reports, pid) <==>
      ((reports[0].0 == pid && reports[0].1.Continued?) || Continues(reports[1..], pid))
  {
    hide Dead;
    var rest := reports[1..];
    forall k | 0 < k < |reports| ensures reports[k] == rest[k - 1] {
    }
    forall k | 0 <= k < |rest| ensures rest[k] == reports[k + 1] {
    }
  }

  /** Main result: after any reports, in any order, a process of any job is
      recorded complete exactly when it was, or a report said that it ended or
      that it was continued. */
  lemma {:induction false} CompletionExactly(j: Job, reports: Reports, i: nat)
    requires i < |j.processes| && FindPid(j.processes, j.processes[i].pid) == i
    ensures var pid, ps := j.processes[i].pid, TakeAll(j, reports).processes;
            && |ps| == |j.processes| && ps[i].pid == pid
            && (ps[i].completed <==> j.processes[i].completed || Ends(reports, pid) || Continues(reports, pid))
    decreases |reports|
  {
    hide Take, FindPid;
    if reports != [] {
      hide Ends, Continues;
      var pid, r := j.processes[i].pid, reports[0];
      var j' := Take(j, r);
      SaidFirst(reports, pid);
      forall k | 0 <= k < |j.processes|
        ensures |j'.processes| == |j.processes| && j'.processes[k].pid == j.processes[k].pid
      {
        PidsStay(j, r, k);
      }
      PidsStay(j, r, i);
      FirstStays(j.processes, j'.processes, pid);
      if r.0 == pid {
        ReportCompletes(j, i, r.1);
      } else {
        ReportElsewhere(j, i, r);
      }
      CompletionExactly(j', reports[1..], i);
    }
  }

  /** So after any reports a job counts as finished exactly when each of its
      processes was complete, has ended or has been continued. */
  lemma FinishedExactly(j: Job, reports: Reports)
    requires reports != [] && forall i :: 0 <= i < |j.processes| ==> FindPid(j.processes, j.processes[i].pid) == i
    ensures Finished(TakeAll(j, reports)) <==>
              forall i :: 0 <= i < |j.processes| ==> Counted(j.processes[i], reports)
  {
    hide Counted, Finished, FindPid, TakeAll;
    var ps := TakeAll(j, reports).processes;
    forall i | 0 <= i < |j.processes|
      ensures |ps| == |j.processes| && (ps[i].completed <==> Counted(j.processes[i], reports))
    {
      CompletedCounts(j, reports, i);
    }
    SameLength(j, reports);
    FinishedAll(j, reports);
  }

  predicate Counted(p: Process, reports: Reports) {
    p.completed || Ends(reports, p.pid) || Continues(reports, p.pid)
  }

  lemma CompletedCounts(j: Job, reports: Reports, i: nat)
    requires i < |j.processes| && FindPid(j.processes, j.processes[i].pid) == i
    ensures var ps := TakeAll(j, reports).processes;
            |ps| == |j.processes| && (ps[i].completed <==> Counted(j.processes[i], reports))
  {
    hide Ends, Continues, FindPid, TakeAll;
    CompletionExactly(j, reports, i);
  }

  lemma {:induction false} SameLength(j: Job, reports: Reports)
    ensures |TakeAll(j, reports).processes| == |j.processes|
    decreases |reports|
  {
    if reports != [] {
      SameLength(Take(j, reports[0]), reports[1..]);
    }
  }

  lemma {:induction false} FinishedAll(j: Job, reports: Reports)
    requires reports != []
    ensures Finished(TakeAll(j, reports)) <==> AllDone(TakeAll(j, reports).processes)
    decreases |reports|
  {
    hide AllDone, ApplyStatus;
    if |reports| > 1 {
      FinishedAll(Take(j, reports[0]), reports[1..]);
    } else {
      assert TakeAll(Take(j, reports[0]), reports[1..]) == Take(j, reports[0]);
    }
  }

  /** A job of one process that was only stopped and continued counts as done. */
  lemma ContinuedFinishes(pid: int)
    ensures var j := Job(1, "a", [Process(pid, Exited(0), false, false)], Running, false);
            var reports := [(pid, Stopped(20)), (pid, Continued)];
            Finished(TakeAll(j, reports)) && !Ends(reports, pid)
  {
    hide TakeAll, Finished;
    var j := Job(1, "a", [Process(pid, Exited(0), false, false)], Running, false);
    var reports := [(pid, Stopped(20)), (pid, Continued)];
    assert reports[1].1.Continued? && Continues(reports, pid);
    FinishedExactly(j, reports);
  }
}
