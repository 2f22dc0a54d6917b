/** What each redirection does to the descriptor table, and what a command in a
    scope of one redirection finds. */
module RedirectSteps {
  import opened Ascii
  import opened Decimal
  import opened Tokens
  import opened Syntax
  import opened Wrappers
  import opened RedirectSpec
  import opened RedirectProofs

  /** `n` is the descriptor `r` redirects: the one written, else 0 for the
      operators that read and 1 for those that write. */
  predicate Redirects(r: Redir, n: int) {
    if r.fd >= 0 then n == r.fd
    else match r.kind
         case RedirIn => n == 0
         case RedirDupIn => n == 0
         case Heredoc => n == 0
         case HeredocStrip => n == 0
         case _ => n == 1
  }

  /** `low` is the lowest free descriptor; `sys.limit` when there is none. */
  ghost predicate Lowest(t: Table, low: int, sys: System) {
    0 <= low <= sys.limit && (low < sys.limit ==> low !in t) && forall i :: 0 <= i < low ==> i in t
  }

  lemma {:induction false} LowestIsFree(t: Table, n: nat, low: int, sys: System)
    requires n <= low && Lowest(t, low, sys)
    ensures FreeFrom(t, n, sys.limit) == low
    decreases low - n
  {
    if n < low {
      LowestIsFree(t, n + 1, low, sys);
    }
  }

  /** Before a file is opened, a closed standard input is given `/dev/null`. */
  function WithInput(t: Table, sys: System): Table {
    if 0 in t || sys.null_.None? || sys.limit == 0 then t else t[0 := sys.null_.value]
  }

  lemma OpensNull(t: Table, r: Redir, sys: System)
    requires InRange(t, sys)
    ensures OpenTarget(t, r, sys)
         == if r.kind in {RedirIn, RedirOut, RedirAppend}
            then Open(WithInput(t, sys), sys.opens(r.kind, r.target), sys)
            else (WithInput(t, sys), -2)
  {
    if 0 !in t {
      LowestIsFree(t, 0, 0, sys);
    }
  }

  /** `n<file`, `n>file` and `n>>file`: the file opens on the lowest free
      descriptor, is moved to `n`, and the other is closed again; a file that
      opens on `n` itself is lost with it. */
  lemma FileApplied(t: Table, r: Redir, n: int, low: int, h: int, sys: System)
    requires InRange(t, sys) && r.kind in {RedirIn, RedirOut, RedirAppend} && Redirects(r, n)
    requires Lowest(WithInput(t, sys), low, sys)
    ensures var u := WithInput(t, sys);
            var file := sys.opens(r.kind, r.target);
            Apply(t, r, h, sys)
              == if file.None? || low == sys.limit || n >= sys.limit then (u, h, -1)
                 else if n == low then (u, h, 0)
                 else (u[n := file.value], h, 0)
  {
    hide FreeFrom, OpenTarget;
    var u, file := WithInput(t, sys), sys.opens(r.kind, r.target);
    OpensNull(t, r, sys);
    LowestIsFree(u, 0, low, sys);
    if file.Some? && low < sys.limit {
      assert u[low := file.value] - {low} == u;
      if n != low {
        assert u[low := file.value][n := file.value] - {low} == u[n := file.value];
      } else {
        assert u[low := file.value][low := file.value] == u[low := file.value];
      }
    }
  }

  /** `n<<word`: the body's descriptor is moved to `n` and closed, whether that
      succeeds or not; without one the redirection fails. */
  lemma HeredocApplied(t: Table, r: Redir, n: int, h: int, sys: System)
    requires InRange(t, sys) && r.kind in {Heredoc, HeredocStrip} && Redirects(r, n)
    ensures Apply(t, r, h, sys)
         == if h == -1 then (WithInput(t, sys), -1, -1)
            else if h in t && n < sys.limit then (t[n := t[h]] - {h}, -1, 0)
            else (t - {h}, -1, -1)
  {
    hide FreeFrom, OpenTarget;
    OpensNull(t, r, sys);
  }

  /** `n<&m` and `n>&m` copy, `n<&-` and `n>&-` close. */
  lemma DuplicateApplied(t: Table, r: Redir, n: int, h: int, sys: System)
    requires r.kind in {RedirDupIn, RedirDupOut} && Redirects(r, n)
    ensures Apply(t, r, h, sys)
         == if r.target == "-" then (t - {n}, h, 0)
            else if r.target == "" || !IsDigit(r.target[0]) then (t, h, -1)
            else
              var m := Value(r.target[..DigitRun(r.target)], 0);
              if m in t && n < sys.limit then (t[n := t[m]], h, 0) else (t, h, -1)
  {
    hide Value, DigitRun;
  }

  // ------------------------------------------------- a scope with one of them

  /** `f` is what `n` names after the redirection: the file it opens, the body
      of a here-document, or what descriptor `m` names. */
  ghost predicate Source(t: Table, r: Redir, h: int, f: int, sys: System) {
    match r.kind
    case RedirDupIn => DigitsOf(r.target) && Value(r.target, 0) in t && t[Value(r.target, 0)] == f
    case RedirDupOut => DigitsOf(r.target) && Value(r.target, 0) in t && t[Value(r.target, 0)] == f
    case Heredoc => h > 2 && h in t && t[h] == f
    case HeredocStrip => h > 2 && h in t && t[h] == f
    case RedirIn => h == -1 && sys.opens(r.kind, r.target) == Some(f)
    case RedirOut => h == -1 && sys.opens(r.kind, r.target) == Some(f)
    case RedirAppend => h == -1 && sys.opens(r.kind, r.target) == Some(f)
    case _ => false
  }

  predicate DigitsOf(s: string) {
    s != "" && AllDigits(s)
  }

  lemma AllRead(s: string)
    requires DigitsOf(s)
    ensures DigitRun(s) == |s| && s[..DigitRun(s)] == s && s != "-" && IsDigit(s[0])
  {
    DigitRunAppend(s, "");
    assert s + "" == s;
  }

  /** Main result: from a table with 0, 1 and 2 open, a command after one
      redirection finds its source on the descriptor redirected, and all else
      as it was but for the saved copies; a here-document's own descriptor is
      closed. */
  lemma SetupOne(t: Table, r: Redir, h: int, n: int, f: int, sys: System)
    requires Standard(t, sys) && |t.Keys| + 4 <= sys.limit && r.fd <= 2 && Redirects(r, n) && Source(t, r, h, f, sys)
    ensures var (u, s0, s1, s2) := Save(t, sys);
            && Copies(t, u, s0, s1, s2)
            && Setup(t, [r], [h], sys)
               == (if IsHeredoc(r.kind) then u[n := f] - {h} else u[n := f],
                   [if IsHeredoc(r.kind) then -1 else h], (s0, s1, s2), 0)
  {
    hide Save, Apply, Value, FreeFrom, InRange;
    SaveCopies(t, sys);
    var (u, s0, s1, s2) := Save(t, sys);
    ApplyOne(u, r, h, sys);
    if IsHeredoc(r.kind) {
      HeredocApplied(u, r, n, h, sys);
    } else if r.kind == RedirDupIn || r.kind == RedirDupOut {
      AllRead(r.target);
      DuplicateApplied(u, r, n, h, sys);
    } else {
      var low := Free(t, u, s0, s1, s2, sys);
      FileApplied(u, r, n, low, h, sys);
    }
  }

  lemma ApplyOne(t: Table, r: Redir, h: int, sys: System)
    ensures var (u, h', status) := Apply(t, r, h, sys);
            ApplyAll(t, [r], [h], sys) == (u, [h'], if status == -1 then -1 else 0)
  {
    hide Apply;
    var (u, h', status) := Apply(t, r, h, sys);
    assert [h'] + [h][1..] == [h'];
  }

  /** There is still a free descriptor, above 2. */
  lemma Free(t: Table, u: Table, s0: int, s1: int, s2: int, sys: System) returns (low: int)
    requires Copies(t, u, s0, s1, s2) && InRange(u, sys) && |t.Keys| + 4 <= sys.limit
    ensures Lowest(u, low, sys) && 2 < low < sys.limit && 0 in u
  {
    assert u.Keys == t.Keys + {s0, s1, s2};
    low := FreeFrom(u, 0, sys.limit);
    if low == sys.limit {
      AllTaken(u, low);
    }
  }
}
