/** Jobs, wait reports and the job table as pure transitions. */
module JobSpec {
  import opened Decimal
  import opened Wrappers

  /** What `waitpid` reports about a child. */
  datatype Wait = Exited(code: int) | Killed(sig: int) | Stopped(sig: int) | Continued

  datatype JobStatus = Running | Suspended | Done | Terminated

  datatype Process = Process(pid: int, status: Wait, completed: bool, stopped: bool)

  datatype Job = Job(id: int, cmdLine: string, processes: seq<Process>, status: JobStatus, notified: bool)

  // ------------------------------------------------------------ one report

  /** The status the user sees as `$?`. */
  function ExitStatus(w: Wait): int {
    match w
    case Exited(code) => code
    case Killed(sig) => 128 + sig
    case _ => 1
  }

  /** Bits 8 to 15 of the raw status, read as a stop signal. */
  function StopSig(w: Wait): int {
    match w
    case Exited(code) => code
    case Killed(_) => 0
    case Stopped(sig) => sig
    case Continued => 255
  }

  function Report(p: Process, w: Wait): Process {
    if w.Stopped? then p.(status := w, stopped := true)
    else p.(status := w, completed := true, stopped := false)
  }

  /** Position of the process, the number of processes if there is none. */
  function FindPid(ps: seq<Process>, pid: int): (i: nat)
    ensures i <= |ps| && (i < |ps| ==> ps[i].pid == pid)
    ensures forall k :: 0 <= k < i ==> ps[k].pid != pid
  {
    if ps == [] || ps[0].pid == pid then 0 else 1 + FindPid(ps[1..], pid)
  }

  function ApplyStatus(j: Job, pid: int, w: Wait): (Job, bool) {
    var i := FindPid(j.processes, pid);
    if i == |j.processes| then (j, false)
    else
      (j.(processes := j.processes[i := Report(j.processes[i], w)], notified := false,
          status := if w.Killed? then Terminated else j.status), true)
  }

  predicate AllDone(ps: seq<Process>) {
    forall i :: 0 <= i < |ps| ==> ps[i].completed
  }

  predicate AnyStopped(ps: seq<Process>) {
    exists i :: 0 <= i < |ps| && ps[i].stopped
  }

  function Recompute(j: Job): Job {
    j.(status := if AllDone(j.processes) then (if j.status == Terminated then Terminated else Done)
                 else if AnyStopped(j.processes) then Suspended
                 else Running)
  }

  predicate Finished(j: Job) {
    j.status == Done || j.status == Terminated
  }

  // ----------------------------------------------------- waiting for a job

  type Reports = seq<(int, Wait)>

  function LastExit(j: Job): int {
    if j.processes == [] then 0 else ExitStatus(j.processes[|j.processes| - 1].status)
  }

  function Take(j: Job, r: (int, Wait)): Job {
    Recompute(ApplyStatus(j, r.0, r.1).0)
  }

  /** Waits until the job stops, finishes or has no child left to report: the
      job, the status returned and the number of reports used. */
  function WaitFor(j: Job, reports: Reports): (r: (Job, int, nat))
    ensures r.2 <= |reports|
    decreases |reports|
  {
    if reports == [] then (j, LastExit(j), 0)
    else
      var j' := Take(j, reports[0]);
      if j'.status == Suspended then (j', 128 + StopSig(reports[0].1), 1)
      else if Finished(j') then (j', LastExit(j'), 1)
      else
        var (k, code, n) := WaitFor(j', reports[1..]);
        (k, code, n + 1)
  }

  /** Before continuing a job: no process counts as stopped. */
  function MarkRunning(j: Job): Job {
    j.(processes := Resumed(j.processes), status := Running, notified := false)
  }

  function Resumed(ps: seq<Process>): seq<Process> {
    if ps == [] then [] else [ps[0].(stopped := false)] + Resumed(ps[1..])
  }

  /** A job waited for and, each time it stops, continued in the foreground. */
  function Foreground(j: Job, reports: Reports): (Job, int)
    decreases |reports|
  {
    var (k, code, n) := WaitFor(j, reports);
    if k.status == Suspended && n > 0 then Foreground(MarkRunning(k), reports[n..]) else (k, code)
  }

  // ---------------------------------------------------------- the job table

  /** The table; `current` is the id of the current job. */
  datatype Table = Table(jobs: seq<Job>, current: Option<int>)

  function MaxId(jobs: seq<Job>): int {
    if jobs == [] then 0
    else
      var m := MaxId(jobs[..|jobs| - 1]);
      if jobs[|jobs| - 1].id > m then jobs[|jobs| - 1].id else m
  }

  function Create(t: Table, cmdLine: string): Table {
    var id := MaxId(t.jobs) + 1;
    Table(t.jobs + [Job(id, cmdLine, [], Running, false)], Some(id))
  }

  /** Position of job `id`, the number of jobs if there is none. */
  function FindId(jobs: seq<Job>, id: int): (i: nat)
    ensures i <= |jobs| && (i < |jobs| ==> jobs[i].id == id)
    ensures forall k :: 0 <= k < i ==> jobs[k].id != id
  {
    if jobs == [] || jobs[0].id == id then 0 else 1 + FindId(jobs[1..], id)
  }

  /** Position of the first job with process `pid`. */
  function FindByPid(jobs: seq<Job>, pid: int): (i: nat)
    ensures i <= |jobs|
    ensures i < |jobs| ==> FindPid(jobs[i].processes, pid) < |jobs[i].processes|
    ensures forall k :: 0 <= k < i ==> FindPid(jobs[k].processes, pid) == |jobs[k].processes|
  {
    if jobs == [] || FindPid(jobs[0].processes, pid) < |jobs[0].processes| then 0 else 1 + FindByPid(jobs[1..], pid)
  }

  function FindByPrefix(jobs: seq<Job>, prefix: string): (i: nat)
    ensures i <= |jobs| && (i < |jobs| ==> prefix <= jobs[i].cmdLine)
    ensures forall k :: 0 <= k < i ==> !(prefix <= jobs[k].cmdLine)
  {
    if jobs == [] || prefix <= jobs[0].cmdLine then 0 else 1 + FindByPrefix(jobs[1..], prefix)
  }

  function IdAt(jobs: seq<Job>, i: nat): Option<int> {
    if i < |jobs| then Some(jobs[i].id) else None
  }

  /** The id of the job a specification names. */
  function FindBySpec(t: Table, spec: string): Option<int> {
    if spec == "" || spec in {"%", "%+", "%%"} then t.current
    else if spec[0] != '%' then None
    else if spec == "%-" then
      if t.current.None? then None
      else
        var i := FindId(t.jobs, t.current.value);
        if 0 < i < |t.jobs| then Some(t.jobs[i - 1].id) else None
    else if AllDigits(spec[1..]) then IdAt(t.jobs, FindId(t.jobs, Value(spec[1..], 0)))
    else IdAt(t.jobs, FindByPrefix(t.jobs, spec[1..]))
  }

  function Forget(t: Table, id: int): Option<int> {
    if t.current == Some(id) then None else t.current
  }

  function Remove(t: Table, id: int): Table {
    var i := FindId(t.jobs, id);
    if i == |t.jobs| then t else Table(t.jobs[..i] + t.jobs[i + 1..], Forget(t, id))
  }

  function AddProcess(t: Table, id: int, pid: int): Table {
    var i := FindId(t.jobs, id);
    if i == |t.jobs| then t
    else t.(jobs := t.jobs[i := t.jobs[i].(processes := t.jobs[i].processes + [Process(pid, Exited(0), false, false)])])
  }

  /** A report collected between commands. */
  function Collect(t: Table, pid: int, w: Wait): Table {
    var i := FindByPid(t.jobs, pid);
    if i == |t.jobs| then t else t.(jobs := t.jobs[i := Take(t.jobs[i], (pid, w))])
  }

  /** Continuing job `id` makes it current. */
  function Continue(t: Table, id: int): Table {
    var i := FindId(t.jobs, id);
    if i == |t.jobs| then t else Table(t.jobs[i := MarkRunning(t.jobs[i])], Some(id))
  }

  /** Announces news and drops finished jobs: the table and the jobs announced. */
  function Notify(t: Table): (Table, seq<Job>)
    decreases |t.jobs|
  {
    if t.jobs == [] then (t, [])
    else
      var j := t.jobs[0];
      var news := if !j.notified && j.status != Running then [j] else [];
      var j' := if news != [] then j.(notified := true) else j;
      var current := if Finished(j) then Forget(t, j.id) else t.current;
      var (rest, more) := Notify(Table(t.jobs[1..], current));
      (rest.(jobs := (if Finished(j) then [] else [j']) + rest.jobs), news + more)
  }

  /** The `jobs` builtin counts every job it prints as announced. */
  function Marked(jobs: seq<Job>): seq<Job> {
    if jobs == [] then [] else [jobs[0].(notified := true)] + Marked(jobs[1..])
  }

  datatype Op =
    | Start(cmdLine: string)
    | Add(id: int, pid: int)
    | Reported(pid: int, w: Wait)
    | Resume(id: int)
    | Tell
    | List
    | Drop(id: int)
    | Cleanup

  function Step(t: Table, op: Op): Table {
    match op
    case Start(c) => Create(t, c)
    case Add(id, pid) => AddProcess(t, id, pid)
    case Reported(pid, w) => Collect(t, pid, w)
    case Resume(id) => Continue(t, id)
    case Tell => Notify(t).0
    case List => t.(jobs := Marked(t.jobs))
    case Drop(id) => Remove(t, id)
    case Cleanup => Table([], None)
  }

  function Run(t: Table, ops: seq<Op>): Table
    decreases |ops|
  {
    if ops == [] then t else Run(Step(t, ops[0]), ops[1..])
  }

  /** The jobs that `jobs` printed in a run, as they were then. */
  function Listed(t: Table, ops: seq<Op>): seq<Job>
    decreases |ops|
  {
    if ops == [] then []
    else (if ops[0].List? then t.jobs else []) + Listed(Step(t, ops[0]), ops[1..])
  }
}
