/** The job table over every run: order, lookup and notification. */
module JobTableProofs {
  import opened Ascii
  import opened Decimal
  import opened Wrappers
  import opened SeqFacts
  import opened JobSpec

  ghost predicate Ordered(jobs: seq<Job>) {
    && (forall i :: 0 <= i < |jobs| ==> jobs[i].id > 0)
    && (forall i, j :: 0 <= i < j < |jobs| ==> jobs[i].id < jobs[j].id)
  }

  predicate HasId(jobs: seq<Job>, id: int) {
    exists i :: 0 <= i < |jobs| && jobs[i].id == id
  }

  /** Ids positive and increasing, and the current job in the table. */
  ghost predicate Sound(t: Table) {
    && Ordered(t.jobs)
    && (t.current.Some? ==> HasId(t.jobs, t.current.value))
  }

  /** `j` was printed as the job and with the status it has. */
  ghost predicate Shown(j: Job, lines: seq<Job>) {
    exists k :: 0 <= k < |lines| && lines[k].id == j.id && lines[k].cmdLine == j.cmdLine && lines[k].status == j.status
  }

  /** A finished job counts as announced only if `jobs` printed it so. */
  ghost predicate Told(jobs: seq<Job>, lines: seq<Job>) {
    forall i :: 0 <= i < |jobs| && Finished(jobs[i]) && jobs[i].notified ==> Shown(jobs[i], lines)
  }

  lemma {:induction false} MaxIdIs(jobs: seq<Job>)
    requires Ordered(jobs)
    ensures MaxId(jobs) == if jobs == [] then 0 else jobs[|jobs| - 1].id
  {
    if |jobs| > 1 {
      MaxIdIs(jobs[..|jobs| - 1]);
      assert jobs[|jobs| - 2].id < jobs[|jobs| - 1].id;
    }
  }

  lemma CreateSound(t: Table, cmdLine: string)
    requires Sound(t)
    ensures Sound(Create(t, cmdLine))
  {
    MaxIdIs(t.jobs);
    var u := Create(t, cmdLine);
    assert u.jobs[|t.jobs|].id == u.current.value;
  }

  /** Replacing a job by one with its id. */
  lemma ReplaceSound(t: Table, i: nat, j: Job)
    requires Sound(t) && i < |t.jobs| && j.id == t.jobs[i].id
    ensures Sound(t.(jobs := t.jobs[i := j])) && Sound(Table(t.jobs[i := j], Some(j.id)))
  {
    var jobs := t.jobs[i := j];
    assert jobs[i].id == j.id;
    if t.current.Some? {
      var k :| 0 <= k < |t.jobs| && t.jobs[k].id == t.current.value;
      assert jobs[k].id == t.current.value;
    }
  }

  lemma DropOrdered(jobs: seq<Job>, i: nat)
    requires Ordered(jobs) && i < |jobs|
    ensures Ordered(jobs[..i] + jobs[i + 1..])
  {
    var rest := jobs[..i] + jobs[i + 1..];
    forall k | 0 <= k < |rest| ensures rest[k] == jobs[if k < i then k else k + 1] {
    }
  }

  lemma DropHasId(jobs: seq<Job>, i: nat, id: int)
    requires i < |jobs| && HasId(jobs, id) && jobs[i].id != id
    ensures HasId(jobs[..i] + jobs[i + 1..], id)
  {
    var k :| 0 <= k < |jobs| && jobs[k].id == id;
    assert (jobs[..i] + jobs[i + 1..])[if k < i then k else k - 1].id == id;
  }

  lemma RemoveSound(t: Table, id: int)
    requires Sound(t)
    ensures Sound(Remove(t, id))
  {
    hide Ordered, HasId, FindId;
    var i := FindId(t.jobs, id);
    if i < |t.jobs| {
      DropOrdered(t.jobs, i);
      if t.current.Some? && t.current.value != id {
        DropHasId(t.jobs, i, t.current.value);
      }
    }
  }

  // --------------------------------------------------------- notification

  function AfterNews(j: Job): Job {
    if j.status != Running then j.(notified := true) else j
  }

  /** The unfinished jobs, those not running marked announced. */
  function Unfinished(jobs: seq<Job>): seq<Job> {
    if jobs == [] then []
    else (if Finished(jobs[0]) then [] else [AfterNews(jobs[0])]) + Unfinished(jobs[1..])
  }

  function News(jobs: seq<Job>): seq<Job> {
    if jobs == [] then []
    else (if !jobs[0].notified && jobs[0].status != Running then [jobs[0]] else []) + News(jobs[1..])
  }

  predicate FinishedId(jobs: seq<Job>, id: int) {
    exists i :: 0 <= i < |jobs| && Finished(jobs[i]) && jobs[i].id == id
  }

  /** Notification drops exactly the finished jobs, keeps the others in order
      and announces exactly the unannounced ones that are not running. */
  lemma {:induction false} NotifyExactly(t: Table)
    ensures var (u, news) := Notify(t);
            && u.jobs == Unfinished(t.jobs) && news == News(t.jobs)
            && u.current == if t.current.Some? && FinishedId(t.jobs, t.current.value) then None else t.current
    decreases |t.jobs|
  {
    hide Finished;
    if t.jobs != [] {
      var j := t.jobs[0];
      var current := if Finished(j) then Forget(t, j.id) else t.current;
      NotifyExactly(Table(t.jobs[1..], current));
      assert t.current.Some? && FinishedId(t.jobs[1..], t.current.value) ==> FinishedId(t.jobs, t.current.value) by {
        if t.current.Some? && FinishedId(t.jobs[1..], t.current.value) {
          var i :| 0 <= i < |t.jobs[1..]| && Finished(t.jobs[1..][i]) && t.jobs[1..][i].id == t.current.value;
          assert t.jobs[i + 1] == t.jobs[1..][i];
        }
      }
      assert t.current.Some? && FinishedId(t.jobs, t.current.value) ==>
          (Finished(j) && j.id == t.current.value) || FinishedId(t.jobs[1..], t.current.value) by {
        if t.current.Some? && FinishedId(t.jobs, t.current.value) {
          var i :| 0 <= i < |t.jobs| && Finished(t.jobs[i]) && t.jobs[i].id == t.current.value;
          assert i > 0 ==> t.jobs[1..][i - 1] == t.jobs[i];
        }
      }
    }
  }

  /** What is left comes from the table. */
  lemma {:induction false} UnfinishedFrom(jobs: seq<Job>, i: nat)
    requires i < |Unfinished(jobs)|
    ensures HasId(jobs, Unfinished(jobs)[i].id) && !Finished(Unfinished(jobs)[i])
  {
    if Finished(jobs[0]) || i > 0 {
      var k := if Finished(jobs[0]) then i else i - 1;
      UnfinishedFrom(jobs[1..], k);
      var n :| 0 <= n < |jobs[1..]| && jobs[1..][n].id == Unfinished(jobs[1..])[k].id;
      assert jobs[n + 1].id == Unfinished(jobs)[i].id;
    } else {
      assert jobs[0].id == Unfinished(jobs)[0].id;
    }
  }

  /** Every unfinished job is left. */
  lemma {:induction false} UnfinishedKeeps(jobs: seq<Job>, i: nat)
    requires i < |jobs| && !Finished(jobs[i])
    ensures HasId(Unfinished(jobs), jobs[i].id)
  {
    if i > 0 {
      UnfinishedKeeps(jobs[1..], i - 1);
      var k :| 0 <= k < |Unfinished(jobs[1..])| && Unfinished(jobs[1..])[k].id == jobs[i].id;
      assert Unfinished(jobs)[if Finished(jobs[0]) then k else k + 1] == Unfinished(jobs[1..])[k];
    } else {
      assert Unfinished(jobs)[0].id == jobs[0].id;
    }
  }

  lemma {:induction false} UnfinishedOrdered(jobs: seq<Job>)
    requires Ordered(jobs)
    ensures Ordered(Unfinished(jobs))
  {
    if jobs != [] {
      var rest := Unfinished(jobs[1..]);
      UnfinishedOrdered(jobs[1..]);
      forall i | 0 <= i < |rest| ensures jobs[0].id < rest[i].id {
        UnfinishedFrom(jobs[1..], i);
      }
    }
  }

  lemma NotifySound(t: Table)
    requires Sound(t)
    ensures Sound(Notify(t).0)
  {
    hide Notify, Finished, Unfinished, Ordered;
    NotifyExactly(t);
    UnfinishedOrdered(t.jobs);
    if t.current.Some? && !FinishedId(t.jobs, t.current.value) {
      var i :| 0 <= i < |t.jobs| && t.jobs[i].id == t.current.value;
      UnfinishedKeeps(t.jobs, i);
    }
  }

  lemma {:induction false} NewsOf(jobs: seq<Job>, i: nat)
    requires i < |jobs| && !jobs[i].notified && jobs[i].status != Running
    ensures jobs[i] in News(jobs)
  {
    if i > 0 {
      NewsOf(jobs[1..], i - 1);
    }
  }

  // ------------------------------------------------------------------ runs

  lemma StepSound(t: Table, op: Op)
    requires Sound(t)
    ensures Sound(Step(t, op))
  {
    hide Sound, Create, Remove, Notify, Take, MarkRunning;
    match op {
      case Start(c) => CreateSound(t, c);
      case Add(id, pid) => AddSound(t, id, pid);
      case Reported(pid, w) => CollectSound(t, pid, w);
      case Resume(id) =>
        var i := FindId(t.jobs, id);
        if i < |t.jobs| {
          ResumedId(t.jobs[i]);
          ReplaceSound(t, i, MarkRunning(t.jobs[i]));
        }
      case Tell => NotifySound(t);
      case List => MarkedSound(t);
      case Drop(id) => RemoveSound(t, id);
      case Cleanup => EmptySound();
    }
  }

  lemma EmptySound()
    ensures Sound(Table([], None))
  {
  }

  lemma {:induction false} MarkedAre(jobs: seq<Job>)
    ensures |Marked(jobs)| == |jobs| && forall i :: 0 <= i < |jobs| ==> Marked(jobs)[i] == jobs[i].(notified := true)
  {
    if jobs != [] {
      MarkedAre(jobs[1..]);
    }
  }

  lemma MarkedSound(t: Table)
    requires Sound(t)
    ensures Sound(t.(jobs := Marked(t.jobs)))
  {
    hide Marked;
    MarkedAre(t.jobs);
    if t.current.Some? {
      var k :| 0 <= k < |t.jobs| && t.jobs[k].id == t.current.value;
      assert Marked(t.jobs)[k].id == t.current.value;
    }
  }

  lemma AddSound(t: Table, id: int, pid: int)
    requires Sound(t)
    ensures Sound(AddProcess(t, id, pid))
  {
    hide Ordered, HasId;
    var i := FindId(t.jobs, id);
    if i < |t.jobs| {
      ReplaceSound(t, i, t.jobs[i].(processes := t.jobs[i].processes + [Process(pid, Exited(0), false, false)]));
    }
  }

  lemma CollectSound(t: Table, pid: int, w: Wait)
    requires Sound(t)
    ensures Sound(Collect(t, pid, w))
  {
    hide Ordered, HasId;
    var i := FindByPid(t.jobs, pid);
    if i < |t.jobs| {
      ReplaceSound(t, i, Take(t.jobs[i], (pid, w)));
    }
  }

  lemma ResumedId(j: Job)
    ensures MarkRunning(j).id == j.id && !Finished(MarkRunning(j))
  {
  }

  lemma {:induction false} RunSound(t: Table, ops: seq<Op>)
    requires Sound(t)
    ensures Sound(Run(t, ops))
    decreases |ops|
  {
    hide Sound, Step;
    if ops != [] {
      StepSound(t, ops[0]);
      RunSound(Step(t, ops[0]), ops[1..]);
    }
  }

  // ------------------------------------------------- what has been announced

  lemma ToldReplace(jobs: seq<Job>, i: nat, j: Job, lines: seq<Job>)
    requires Told(jobs, lines) && i < |jobs|
    requires Finished(j) && j.notified ==>
      jobs[i].notified && (j.id, j.cmdLine, j.status) == (jobs[i].id, jobs[i].cmdLine, jobs[i].status)
    ensures Told(jobs[i := j], lines)
  {
  }

  lemma ToldDrop(jobs: seq<Job>, i: nat, lines: seq<Job>)
    requires Told(jobs, lines) && i < |jobs|
    ensures Told(jobs[..i] + jobs[i + 1..], lines)
  {
    hide Shown, Finished;
    var rest := jobs[..i] + jobs[i + 1..];
    forall k | 0 <= k < |rest| ensures rest[k] == jobs[if k < i then k else k + 1] {
    }
  }

  /** What `jobs` prints is announced. */
  lemma ToldMarked(jobs: seq<Job>, lines: seq<Job>)
    ensures Told(Marked(jobs), lines + jobs)
  {
    hide Marked, Finished;
    MarkedAre(jobs);
    forall i | 0 <= i < |jobs| ensures Shown(Marked(jobs)[i], lines + jobs) {
      assert (lines + jobs)[|lines| + i] == jobs[i];
    }
  }

  lemma TakenUntold(j: Job, r: (int, Wait))
    requires FindPid(j.processes, r.0) < |j.processes|
    ensures !Take(j, r).notified
  {
  }

  lemma ToldStep(t: Table, op: Op, lines: seq<Job>)
    requires Told(t.jobs, lines)
    ensures Told(Step(t, op).jobs, if op.List? then lines + t.jobs else lines)
  {
    hide Told, Finished, Take, MarkRunning, Notify, Marked, Unfinished, Create;
    match op {
      case Start(c) => ToldStart(t, c, lines);
      case Add(id, pid) =>
        var i := FindId(t.jobs, id);
        if i < |t.jobs| {
          var ps := t.jobs[i].processes + [Process(pid, Exited(0), false, false)];
          ToldReplace(t.jobs, i, t.jobs[i].(processes := ps), lines);
        }
      case Reported(pid, w) =>
        var i := FindByPid(t.jobs, pid);
        if i < |t.jobs| {
          TakenUntold(t.jobs[i], (pid, w));
          ToldReplace(t.jobs, i, Take(t.jobs[i], (pid, w)), lines);
        }
      case Resume(id) =>
        var i := FindId(t.jobs, id);
        if i < |t.jobs| {
          ResumedId(t.jobs[i]);
          ToldReplace(t.jobs, i, MarkRunning(t.jobs[i]), lines);
        }
      case Tell => ToldTell(t, lines);
      case List => ToldMarked(t.jobs, lines);
      case Drop(id) =>
        var i := FindId(t.jobs, id);
        if i < |t.jobs| {
          ToldDrop(t.jobs, i, lines);
        }
      case Cleanup => ToldNone(lines);
    }
  }

  lemma ToldNone(lines: seq<Job>)
    ensures Told([], lines)
  {
  }

  lemma ToldStart(t: Table, cmdLine: string, lines: seq<Job>)
    requires Told(t.jobs, lines)
    ensures Told(Create(t, cmdLine).jobs, lines)
  {
    hide Shown;
  }

  lemma ToldTell(t: Table, lines: seq<Job>)
    ensures Told(Notify(t).0.jobs, lines)
  {
    hide Shown, Finished, Notify, Unfinished;
    NotifyExactly(t);
    forall i | 0 <= i < |Unfinished(t.jobs)| ensures !Finished(Unfinished(t.jobs)[i]) {
      UnfinishedFrom(t.jobs, i);
    }
  }

  lemma {:induction false} ToldRun(t: Table, ops: seq<Op>, lines: seq<Job>)
    requires Told(t.jobs, lines)
    ensures Told(Run(t, ops).jobs, lines + Listed(t, ops))
    decreases |ops|
  {
    hide Told, Step;
    if ops == [] {
      assert lines + [] == lines;
    } else {
      var now := if ops[0].List? then t.jobs else [];
      ToldStep(t, ops[0], lines);
      assert lines + [] == lines;
      ToldRun(Step(t, ops[0]), ops[1..], lines + now);
      Assoc(lines, now, Listed(Step(t, ops[0]), ops[1..]));
    }
  }

  lemma {:induction false} NewsAre(jobs: seq<Job>, i: nat)
    requires i < |News(jobs)|
    ensures !News(jobs)[i].notified
  {
    if !jobs[0].notified && jobs[0].status != Running {
      if i > 0 {
        NewsAre(jobs[1..], i - 1);
      }
    } else {
      NewsAre(jobs[1..], i);
    }
  }

  lemma NewsUnless(jobs: seq<Job>, i: nat)
    requires i < |jobs| && Finished(jobs[i])
    ensures jobs[i] in News(jobs) <==> !jobs[i].notified
  {
    hide News;
    if !jobs[i].notified {
      NewsOf(jobs, i);
    } else {
      forall k | 0 <= k < |News(jobs)| ensures News(jobs)[k] != jobs[i] {
        NewsAre(jobs, k);
      }
    }
  }

  /** Main result, after any run from an empty table: ids are positive and
      increasing, the current job is in the table, and the next notification
      drops exactly the finished jobs; each of these it announces, unless the
      `jobs` builtin printed it, finished as it is, during the run. */
  lemma EveryRunIsSound(ops: seq<Op>)
    ensures var t := Run(Table([], None), ops);
            && Sound(t) && Notify(t).0.jobs == Unfinished(t.jobs)
            && forall i :: 0 <= i < |t.jobs| && Finished(t.jobs[i]) ==>
                 && (t.jobs[i] in Notify(t).1 <==> !t.jobs[i].notified)
                 && (t.jobs[i].notified ==> Shown(t.jobs[i], Listed(Table([], None), ops)))
  {
    hide Run, Notify, Unfinished, News, Ordered, HasId, Shown, Listed, Finished;
    EmptySound();
    RunSound(Table([], None), ops);
    ToldNone([]);
    ToldRun(Table([], None), ops, []);
    var t, lines := Run(Table([], None), ops), Listed(Table([], None), ops);
    assert [] + lines == lines;
    NotifyExactly(t);
    forall i | 0 <= i < |t.jobs| && Finished(t.jobs[i])
      ensures t.jobs[i] in News(t.jobs) <==> !t.jobs[i].notified
    {
      NewsUnless(t.jobs, i);
    }
  }

  /** After `jobs` the next notification prints nothing, whatever has finished,
      and drops the same jobs as without it. */
  lemma ListingSilences(t: Table)
    ensures var (u, news) := Notify(Step(t, List));
            news == [] && |u.jobs| == |Unfinished(t.jobs)|
  {
    hide Notify, Unfinished, News;
    NotifyExactly(t.(jobs := Marked(t.jobs)));
    MarkedQuiet(t.jobs);
  }

  lemma {:induction false} MarkedQuiet(jobs: seq<Job>)
    ensures News(Marked(jobs)) == [] && |Unfinished(Marked(jobs))| == |Unfinished(jobs)|
  {
    if jobs != [] {
      MarkedQuiet(jobs[1..]);
      Drop1(jobs[0].(notified := true), Marked(jobs[1..]));
    }
  }

  // ---------------------------------------------------------------- lookup

  lemma FindIdFinds(jobs: seq<Job>, id: int)
    ensures HasId(jobs, id) <==> FindId(jobs, id) < |jobs|
  {
  }

  /** `%N` names job N exactly when there is one. */
  lemma NumberFinds(t: Table, n: nat)
    ensures FindBySpec(t, "%" + Dec(n)) == if HasId(t.jobs, n) then Some(n) else None
  {
    var spec := "%" + Dec(n);
    Drop1('%', Dec(n));
    ValueOfDec(n);
    assert IsDigit(Dec(n)[0]) && spec[1] == Dec(n)[0];
    assert spec != "%" && spec != "%+" && spec != "%%" && spec != "%-";
    FindIdFinds(t.jobs, n);
  }

  /** `%-` names the job with the greatest id below the current one. */
  lemma PreviousFinds(t: Table)
    requires Sound(t)
    ensures match FindBySpec(t, "%-")
            case Some(p) => t.current.Some? && p < t.current.value && HasId(t.jobs, p)
                            && forall i :: 0 <= i < |t.jobs| && t.jobs[i].id < t.current.value ==> t.jobs[i].id <= p
            case None => t.current.Some? ==> forall i :: 0 <= i < |t.jobs| ==> t.jobs[i].id >= t.current.value
  {
    if t.current.Some? {
      FindIdFinds(t.jobs, t.current.value);
      var i := FindId(t.jobs, t.current.value);
      if i > 0 {
        assert t.jobs[i - 1].id == FindBySpec(t, "%-").value;
      }
    }
  }
}
