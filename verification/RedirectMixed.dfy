/** Exactly when a scope of redirections of any kind leaves the descriptor table
    as it found it. */
module RedirectMixed {
  import opened Ascii
  import opened Decimal
  import opened Tokens
  import opened Syntax
  import opened Wrappers
  import opened RedirectSpec
  import opened RedirectProofs
  import opened RedirectExactly

  // ------------------------------------------------------- what they can do

  lemma TargetInRange(t: Table, r: Redir, sys: System)
    requires InRange(t, sys)
    ensures InRange(OpenTarget(t, r, sys).0, sys)
  {
    hide FreeFrom;
  }

  lemma ApplyInRange(t: Table, r: Redir, h: int, sys: System)
    requires InRange(t, sys)
    ensures InRange(Apply(t, r, h, sys).0, sys)
  {
    hide OpenTarget;
    TargetInRange(t, r, sys);
  }

  lemma {:induction false} AllInRange(t: Table, rs: seq<Redir>, hs: seq<int>, sys: System)
    requires InRange(t, sys) && |rs| == |hs|
    ensures InRange(ApplyAll(t, rs, hs, sys).0, sys)
    decreases |rs|
  {
    hide Apply, InRange;
    if rs != [] {
      ApplyInRange(t, rs[0], hs[0], sys);
      AllInRange(Apply(t, rs[0], hs[0], sys).0, rs[1..], hs[1..], sys);
    }
  }

  /** `n>&m` copies, `n>&-` closes. */
  lemma DuplicateStep(t: Table, r: Redir, h: int, sys: System)
    requires r.kind in {RedirDupIn, RedirDupOut}
    ensures r.target == "-" ==> Apply(t, r, h, sys) == (t - {SourceFd(r)}, h, 0)
    ensures r.target != "-" && IsDigit(At(r.target, 0)) ==>
      var m := Value(r.target[..DigitRun(r.target)], 0);
      Apply(t, r, h, sys)
        == if m in t && SourceFd(r) < sys.limit then (t[SourceFd(r) := t[m]], h, 0) else (t, h, -1)
    ensures r.target != "-" && !IsDigit(At(r.target, 0)) ==> Apply(t, r, h, sys) == (t, h, -1)
  {
    hide Value, DigitRun;
  }

  // ---------------------------------------------------- what restoring needs

  /** Restoring gives descriptor `x` back: from its copy while that is open,
      else only if `x` itself was left alone; one that was closed must be closed
      still, or hold another's copy. */
  ghost predicate BackAt(t: Table, v: Table, x: int, s: int, copies: set<int>) {
    if x in t then
      if s in v then v[s] == t[x] else x in v && v[x] == t[x]
    else x !in v || x in copies
  }

  /** The table `v` that the redirections leave goes back to `t`. */
  ghost predicate Intact(t: Table, v: Table, s0: int, s1: int, s2: int) {
    && BackAt(t, v, 0, s0, {s0, s1, s2}) && BackAt(t, v, 1, s1, {s0, s1, s2}) && BackAt(t, v, 2, s2, {s0, s1, s2})
    && forall n :: !(0 <= n <= 2) && n !in {s0, s1, s2} ==> (n in v <==> n in t) && (n in t ==> n in v && v[n] == t[n])
  }

  /** What is read from where, whatever has become of the copies. */
  lemma RestoreGives(t: Table, u: Table, s0: int, s1: int, s2: int, v: Table, sys: System)
    requires Copied(t, u, s0, s1, s2) && sys.limit > 2 && -1 !in v
    ensures var w := Restore(v, s0, s1, s2, sys);
            && (forall n :: n in w <==>
                  (n !in {s0, s1, s2} && (n in v || (n == 0 && s0 in v) || (n == 1 && s1 in v) || (n == 2 && s2 in v))))
            && (forall n :: n in w ==>
                  w[n] == if n == 0 && s0 in v then v[s0] else if n == 1 && s1 in v then v[s1]
                          else if n == 2 && s2 in v then v[s2] else v[n])
  {
  }

  lemma RestoreExactly(t: Table, u: Table, s0: int, s1: int, s2: int, v: Table, sys: System)
    requires Copied(t, u, s0, s1, s2) && sys.limit > 2 && -1 !in v
    ensures Restore(v, s0, s1, s2, sys) == t <==> Intact(t, v, s0, s1, s2)
  {
    hide Restore;
    RestoreGives(t, u, s0, s1, s2, v, sys);
    var w := Restore(v, s0, s1, s2, sys);
    if Intact(t, v, s0, s1, s2) {
      forall n: int ensures n in w <==> n in t {
      }
      forall n | n in w ensures w[n] == t[n] {
      }
    }
  }

  /** Main result, for every list of redirections of any kind and any
      descriptors, here-documents included, some failing, whichever of 0, 1 and
      2 are open: the scope leaves the table as it was exactly when the table
      its redirections lead to is `Intact`. */
  lemma ListRestoredExactly(t: Table, rs: seq<Redir>, hs: seq<int>, sys: System)
    requires InRange(t, sys) && |t.Keys| + 3 <= sys.limit && |rs| == |hs|
    ensures var (u, s0, s1, s2) := Save(t, sys);
            Scope(t, rs, hs, sys).0 == t <==> Intact(t, ApplyAll(u, rs, hs, sys).0, s0, s1, s2)
  {
    hide Save, ApplyAll, Restore, Copied, Saved, InRange, Scope, Intact;
    var (u, s0, s1, s2) := Save(t, sys);
    SaveSaves(t, sys);
    RangeMeans(t, sys);
    SavedCopied(t, u, s0, s1, s2);
    AllInRange(u, rs, hs, sys);
    var v := ApplyAll(u, rs, hs, sys).0;
    RangeMeans(v, sys);
    ScopeForm(t, rs, hs, sys);
    RestoreExactly(t, u, s0, s1, s2, v, sys);
  }

  // ------------------------------------------------------------ witnesses

  lemma SavedPlainly(t: Table, sys: System)
    requires sys.limit == 16 && t == map[0 := 10, 1 := 11, 2 := 12]
    ensures Save(t, sys) == (t[3 := 10][4 := 11][5 := 12], 3, 4, 5)
  {
    hide FreeFrom;
    FreeIs(t, 3, 16);
    FreeIs(t[3 := 10], 4, 16);
    FreeIs(t[3 := 10][4 := 11], 5, 16);
  }

  lemma AppliedOne(t: Table, r: Redir, sys: System, v: Table)
    requires Apply(t, r, -1, sys) == (v, -1, 0)
    ensures ApplyAll(t, [r], [-1], sys).0 == v
  {
    hide Apply;
    ApplyAllOne(t, r, sys);
  }

  /** `3>&-` closes the saved copy of 0 and does no harm: 0 is still itself. */
  lemma ClosedCopyHarmless(sys: System)
    requires sys.limit == 16
    ensures var t: Table := map[0 := 10, 1 := 11, 2 := 12];
            Scope(t, [Redir(RedirDupOut, 3, "-", None, false)], [-1], sys).0 == t
  {
    hide Save, Apply, ApplyAll, Scope;
    var t: Table := map[0 := 10, 1 := 11, 2 := 12];
    var r := Redir(RedirDupOut, 3, "-", None, false);
    var u := t[3 := 10][4 := 11][5 := 12];
    SavedPlainly(t, sys);
    DuplicateStep(u, r, -1, sys);
    AppliedOne(u, r, sys, u - {3});
    assert t.Keys == {0, 1, 2};
    ListRestoredExactly(t, [r], [-1], sys);
  }

  /** `3>&1` overwrites it, and standard input stays connected to the output. */
  lemma OverwrittenCopyLoses(sys: System)
    requires sys.limit == 16
    ensures var t: Table := map[0 := 10, 1 := 11, 2 := 12];
            Scope(t, [Redir(RedirDupOut, 3, "1", None, false)], [-1], sys).0 != t
  {
    hide Save, Apply, ApplyAll, Scope;
    var t: Table := map[0 := 10, 1 := 11, 2 := 12];
    var r := Redir(RedirDupOut, 3, "1", None, false);
    var u := t[3 := 10][4 := 11][5 := 12];
    SavedPlainly(t, sys);
    OneDigit();
    DuplicateStep(u, r, -1, sys);
    AppliedOne(u, r, sys, u[3 := 11]);
    assert t.Keys == {0, 1, 2};
    ListRestoredExactly(t, [r], [-1], sys);
  }

  lemma OneDigit()
    ensures DigitRun("1") == 1 && Value("1"[..DigitRun("1")], 0) == 1
  {
    assert "1"[..1] == "1" && "1"[1..] == "";
  }
}
