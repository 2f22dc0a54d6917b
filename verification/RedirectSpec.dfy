/** Redirections on a descriptor table that always hands out the lowest free
    descriptor, and what a redirection scope leaves behind. */
module RedirectSpec {
  import opened Ascii
  import opened Decimal
  import opened Tokens
  import opened Syntax
  import opened Wrappers

  /** Open descriptors, each naming an open file. */
  type Table = map<int, int>

  /** The system: descriptors are below `limit`; `opens` says which open file
      a redirection's target gives, if any; `null_` is `/dev/null`. */
  datatype System = System(limit: nat, opens: (TokenKind, string) -> Option<int>, null_: Option<int>)

  // ------------------------------------------------------- system calls

  function FreeFrom(t: Table, n: nat, limit: nat): (k: nat)
    requires n <= limit
    ensures n <= k <= limit && k !in t.Keys - {limit}
    ensures forall i :: n <= i < k ==> i in t
    decreases limit - n
  {
    if n == limit || n !in t then n else FreeFrom(t, n + 1, limit)
  }

  function Open(t: Table, file: Option<int>, sys: System): (Table, int) {
    var n: int := FreeFrom(t, 0, sys.limit);
    if file.None? || n == sys.limit then (t, -1) else (t[n := file.value], n)
  }

  function Dup(t: Table, fd: int, sys: System): (Table, int) {
    Open(t, if fd in t then Some(t[fd]) else None, sys)
  }

  function Dup2(t: Table, from: int, to: int, sys: System): (Table, int) {
    if from in t && 0 <= to < sys.limit then (t[to := t[from]], to) else (t, -1)
  }

  function Close(t: Table, fd: int): Table {
    t - {fd}
  }

  // ------------------------------------------------------ one redirection

  /** The descriptor redirected: the one written, or the operator's own. */
  function SourceFd(r: Redir): int {
    if r.fd >= 0 then r.fd
    else if r.kind in {RedirIn, Heredoc, HeredocStrip, RedirDupIn} then 0
    else 1
  }

  /** Opens the target, after giving a closed standard input `/dev/null`;
      -2 for a kind that names no file. */
  function OpenTarget(t: Table, r: Redir, sys: System): (Table, int) {
    var (t1, fdIn) := if 0 in t then (t, -1) else Open(t, sys.null_, sys);
    var t2 := if 0 !in t && fdIn != 0 then Dup2(t1, fdIn, 0, sys).0 else t1;
    var (t3, fd) := if r.kind in {RedirIn, RedirOut, RedirAppend} then Open(t2, sys.opens(r.kind, r.target), sys)
                    else (t2, -2);
    (if fdIn > 0 then Close(t3, fdIn) else t3, fd)
  }

  function Duplicate(t: Table, r: Redir, sys: System): (Table, int) {
    if r.target == "-" then (Close(t, SourceFd(r)), 0)
    else if !IsDigit(At(r.target, 0)) then (t, -1)
    else
      var (t', fd) := Dup2(t, Value(r.target[..DigitRun(r.target)], 0), SourceFd(r), sys);
      (t', if fd == -1 then -1 else 0)
  }

  /** One redirection; `h` is the here-document's descriptor, -1 when it has
      none. The new table, the new `h` and the status. */
  function Apply(t: Table, r: Redir, h: int, sys: System): (Table, int, int) {
    if r.kind in {RedirDupIn, RedirDupOut} then
      var (t', status) := Duplicate(t, r, sys);
      (t', h, status)
    else if IsHeredoc(r.kind) && h != -1 then
      var (t', fd) := Dup2(t, h, SourceFd(r), sys);
      (Close(t', h), -1, if fd < 0 then -1 else 0)
    else
      var (t1, file) := OpenTarget(t, r, sys);
      if file == -1 then (t1, h, -1)
      else
        var (t2, fd) := Dup2(t1, file, SourceFd(r), sys);
        (if file >= 0 then Close(t2, file) else t2, h, if fd < 0 then -1 else 0)
  }

  // ------------------------------------------------------------- a scope

  /** Redirections in order, up to the first that fails. */
  function ApplyAll(t: Table, rs: seq<Redir>, hs: seq<int>, sys: System): (r: (Table, seq<int>, int))
    requires |rs| == |hs|
    ensures |r.1| == |hs|
    decreases |rs|
  {
    if rs == [] then (t, hs, 0)
    else
      var (t1, h, status) := Apply(t, rs[0], hs[0], sys);
      if status == -1 then (t1, [h] + hs[1..], -1)
      else
        var (t2, rest, status') := ApplyAll(t1, rs[1..], hs[1..], sys);
        (t2, [h] + rest, status')
  }

  /** Copies of the three standard descriptors. */
  function Save(t: Table, sys: System): (Table, int, int, int) {
    var (t0, s0) := Dup(t, 0, sys);
    var (t1, s1) := Dup(t0, 1, sys);
    var (t2, s2) := Dup(t1, 2, sys);
    (t2, s0, s1, s2)
  }

  function Restore(t: Table, s0: int, s1: int, s2: int, sys: System): Table {
    var u := Dup2(Dup2(Dup2(t, s0, 0, sys).0, s1, 1, sys).0, s2, 2, sys).0;
    Close(Close(Close(u, s0), s1), s2)
  }

  /** Saves, applies; on failure restores. The table, the here-document
      descriptors, the saved descriptors and the status. */
  function Setup(t: Table, rs: seq<Redir>, hs: seq<int>, sys: System): (Table, seq<int>, (int, int, int), int)
    requires |rs| == |hs|
  {
    var (u, s0, s1, s2) := Save(t, sys);
    var (v, hs', status) := ApplyAll(u, rs, hs, sys);
    (if status == -1 then Restore(v, s0, s1, s2, sys) else v, hs', (s0, s1, s2), status)
  }

  /** The table after a scope in which the command changes no descriptor. */
  function Scope(t: Table, rs: seq<Redir>, hs: seq<int>, sys: System): (Table, seq<int>, int)
    requires |rs| == |hs|
  {
    var (v, hs', (s0, s1, s2), status) := Setup(t, rs, hs, sys);
    (if status == -1 then v else Restore(v, s0, s1, s2, sys), hs', status)
  }
}
