/** Exactly when a scope of file redirections leaves the descriptor table as it
    found it, whichever of 0, 1 and 2 are open. */
module RedirectExactly {
  import opened Tokens
  import opened Syntax
  import opened Wrappers
  import opened RedirectSpec
  import opened RedirectProofs

  // ------------------------------------------------------------- saving

  /** `s` is a new copy of descriptor `x` of `t`, or -1 when `x` is closed. */
  ghost predicate CopyOf(t: Table, x: int, u: Table, s: int) {
    if x in t then s >= 0 && s !in t && u == t[s := t[x]]
    else s == -1 && u == t
  }

  /** The three copies, each made in the table the one before leaves: a copy may
      take the place of a closed descriptor, and be copied in turn. */
  ghost predicate Saved(t: Table, u: Table, s0: int, s1: int, s2: int) {
    exists t0, t1 :: SavedBy(t, t0, t1, u, s0, s1, s2)
  }

  ghost predicate SavedBy(t: Table, t0: Table, t1: Table, u: Table, s0: int, s1: int, s2: int) {
    CopyOf(t, 0, t0, s0) && CopyOf(t0, 1, t1, s1) && CopyOf(t1, 2, u, s2)
  }

  lemma DupCopies(t: Table, x: int, sys: System)
    requires InRange(t, sys) && |t.Keys| < sys.limit
    ensures var (u, s) := Dup(t, x, sys); CopyOf(t, x, u, s) && InRange(u, sys) && |u.Keys| <= |t.Keys| + 1
  {
    if x in t {
      OpenSucceeds(t, t[x], sys);
    }
  }

  lemma SaveSaves(t: Table, sys: System)
    requires InRange(t, sys) && |t.Keys| + 3 <= sys.limit
    ensures var (u, s0, s1, s2) := Save(t, sys); Saved(t, u, s0, s1, s2) && InRange(u, sys)
  {
    hide Dup, CopyOf;
    DupCopies(t, 0, sys);
    var (t0, s0) := Dup(t, 0, sys);
    DupCopies(t0, 1, sys);
    var (t1, s1) := Dup(t0, 1, sys);
    DupCopies(t1, 2, sys);
    var (u, s2) := Dup(t1, 2, sys);
    assert SavedBy(t, t0, t1, u, s0, s1, s2);
  }

  ghost predicate Kept(t: Table, u: Table) {
    forall n :: n in t ==> n in u && u[n] == t[n]
  }

  ghost predicate Holds(t: Table, x: int, u: Table, s: int) {
    x in t ==> s in u && u[s] == t[x]
  }

  /** What the three copies are: new descriptors, or -1 for one closed at the
      time. */
  ghost predicate Copied(t: Table, u: Table, s0: int, s1: int, s2: int) {
    && (forall n :: n in u <==> n in t || (n >= 0 && n in {s0, s1, s2}))
    && Kept(t, u)
    && s0 !in t && s1 !in t && s2 !in t
    && (s0 != -1 ==> s0 != s1 && s0 != s2) && (s1 != -1 ==> s1 != s2)
    && s0 >= -1 && s1 >= -1 && s2 >= -1
    && (s0 >= 0 <==> 0 in t) && (s1 >= 0 <==> 1 in t || s0 == 1) && (s2 >= 0 <==> 2 in t || s0 == 2 || s1 == 2)
    && Holds(t, 0, u, s0) && Holds(t, 1, u, s1) && Holds(t, 2, u, s2)
    && s1 != 1 && s2 != 2 && (s1 == 0 || s2 == 0 ==> s0 == -1) && (s2 == 1 ==> s1 == -1)
  }

  lemma SavedCopied(t: Table, u: Table, s0: int, s1: int, s2: int)
    requires Saved(t, u, s0, s1, s2) && forall n :: n in t ==> n >= 0
    ensures Copied(t, u, s0, s1, s2)
  {
    var t0, t1 :| SavedBy(t, t0, t1, u, s0, s1, s2);
  }

  // ----------------------------------------------------------- restoring

  /** A redirection of `n` is undone: `n` was open and is 0, 1 or 2, or it holds
      the copy of a descriptor that was closed. */
  predicate Undone(t: Table, n: int, s0: int, s1: int, s2: int) {
    (n <= 2 && n in t) || (n == s1 && 1 !in t) || (n == s2 && 2 !in t)
  }

  /** `v` is `u` but for new files on the descriptors `over`. */
  ghost predicate Overwritten(t: Table, u: Table, v: Table, over: set<int>) {
    && (forall n :: n in over ==> n >= 0 && n in v && forall m :: m in t ==> t[m] != v[n])
    && (forall n :: n !in over ==> (n in v <==> n in u) && (n in u ==> v[n] == u[n]))
  }

  /** Restoring reads every copy as the redirections left it. */
  lemma RestoreReads(t: Table, u: Table, s0: int, s1: int, s2: int, v: Table, sys: System)
    requires Copied(t, u, s0, s1, s2) && sys.limit > 2
    requires -1 !in v && forall n :: n in u ==> n in v
    ensures var w := Restore(v, s0, s1, s2, sys);
            && (forall n :: n in w <==> (n !in {s0, s1, s2}
                    && (n in v || (n == 0 && s0 >= 0) || (n == 1 && s1 >= 0) || (n == 2 && s2 >= 0))))
            && (forall n :: n in w ==> w[n] == if n == 0 && s0 >= 0 then v[s0] else if n == 1 && s1 >= 0 then v[s1]
                                               else if n == 2 && s2 >= 0 then v[s2] else v[n])
  {
  }

  lemma RestoreKeeps(t: Table, u: Table, s0: int, s1: int, s2: int, v: Table, over: set<int>, sys: System)
    requires Copied(t, u, s0, s1, s2) && -1 !in v && sys.limit > 2
    requires Overwritten(t, u, v, over) && forall n :: n in over ==> Undone(t, n, s0, s1, s2)
    ensures Restore(v, s0, s1, s2, sys) == t
  {
    hide Restore;
    RestoreReads(t, u, s0, s1, s2, v, sys);
    var w := Restore(v, s0, s1, s2, sys);
    forall n: int ensures n in w <==> n in t {
    }
    forall n | n in w ensures w[n] == t[n] {
    }
  }

  lemma RestoreLoses(t: Table, u: Table, s0: int, s1: int, s2: int, v: Table, over: set<int>, n: int, sys: System)
    requires Copied(t, u, s0, s1, s2) && -1 !in v && sys.limit > 2
    requires Overwritten(t, u, v, over) && n in over && !Undone(t, n, s0, s1, s2)
    ensures Restore(v, s0, s1, s2, sys) != t
  {
    hide Restore;
    RestoreReads(t, u, s0, s1, s2, v, sys);
    var at := if n == s0 then 0 else if n == s1 then 1 else if n == s2 then 2 else n;
    var w := Restore(v, s0, s1, s2, sys);
    assert at in w && w[at] == v[n];
  }

  // ------------------------------------------- lists of file redirections

  ghost predicate FileKinds(rs: seq<Redir>) {
    forall i :: 0 <= i < |rs| ==> rs[i].kind in {RedirIn, RedirOut, RedirAppend}
  }

  /** Redirections that open files, none of them open already. */
  ghost predicate NewFiles(t: Table, rs: seq<Redir>, sys: System) {
    FileKinds(rs) && forall i :: 0 <= i < |rs| ==> NewFile(t, rs[i], sys)
  }

  /** `n>file` fails: the file does not open, no descriptor is free or `n` is
      past the limit. */
  predicate Stops(t: Table, r: Redir, sys: System) {
    sys.opens(r.kind, r.target).None? || FreeFrom(t, 0, sys.limit) == sys.limit || SourceFd(r) >= sys.limit
  }

  function After(t: Table, r: Redir, sys: System): Table
    requires !Stops(t, r, sys)
  {
    if SourceFd(r) == FreeFrom(t, 0, sys.limit) then t else t[SourceFd(r) := sys.opens(r.kind, r.target).value]
  }

  /** The descriptors that file redirections overwrite, up to the first that
      fails: `n` for `n>file`, unless the file opens on `n` itself. */
  function Hits(t: Table, rs: seq<Redir>, sys: System): set<int>
    decreases |rs|
  {
    if rs == [] || Stops(t, rs[0], sys) then {}
    else (if SourceFd(rs[0]) == FreeFrom(t, 0, sys.limit) then {} else {SourceFd(rs[0])})
         + Hits(After(t, rs[0], sys), rs[1..], sys)
  }

  /** One file redirection, when standard input is open or `/dev/null` is not
      to be had. */
  lemma FileStep(t: Table, r: Redir, sys: System)
    requires InRange(t, sys) && (0 in t || sys.null_.None?) && r.kind in {RedirIn, RedirOut, RedirAppend}
    ensures Apply(t, r, -1, sys) == if Stops(t, r, sys) then (t, -1, -1) else (After(t, r, sys), -1, 0)
  {
    hide FreeFrom;
    var low := FreeFrom(t, 0, sys.limit);
    var file := sys.opens(r.kind, r.target);
    TargetOpens(t, r, sys);
    hide OpenTarget;
    if file.Some? && low < sys.limit {
      assert t[low := file.value] - {low} == t;
      if SourceFd(r) != low {
        assert t[low := file.value][SourceFd(r) := file.value] - {low} == t[SourceFd(r) := file.value];
      } else {
        assert t[low := file.value][low := file.value] == t[low := file.value];
      }
    }
  }

  lemma TargetOpens(t: Table, r: Redir, sys: System)
    requires InRange(t, sys) && (0 in t || sys.null_.None?) && r.kind in {RedirIn, RedirOut, RedirAppend}
    ensures OpenTarget(t, r, sys) == Open(t, sys.opens(r.kind, r.target), sys)
  {
  }

  lemma {:induction false} HitsOverwritten(t: Table, u: Table, v: Table, rs: seq<Redir>, hs: seq<int>, over: set<int>,
                                           sys: System)
    requires InRange(v, sys) && (0 in v || sys.null_.None?) && NewFiles(t, rs, sys)
    requires Overwritten(t, u, v, over) && |hs| == |rs| && forall i :: 0 <= i < |hs| ==> hs[i] == -1
    ensures var w := ApplyAll(v, rs, hs, sys).0;
            InRange(w, sys) && Overwritten(t, u, w, over + Hits(v, rs, sys))
    decreases |rs|
  {
    if rs == [] {
      assert over + {} == over;
    } else {
      hide Apply;
      FileStep(v, rs[0], sys);
      if Stops(v, rs[0], sys) {
        assert over + {} == over;
      } else {
        var n := SourceFd(rs[0]);
        var hit := if n == FreeFrom(v, 0, sys.limit) then {} else {n};
        var v' := After(v, rs[0], sys);
        AfterOverwritten(t, u, v, rs[0], over, sys);
        hide Overwritten, After, InRange;
        HitsOverwritten(t, u, v', rs[1..], hs[1..], over + hit, sys);
        assert over + (hit + Hits(v', rs[1..], sys)) == over + hit + Hits(v', rs[1..], sys);
      }
    }
  }

  lemma AfterOverwritten(t: Table, u: Table, v: Table, r: Redir, over: set<int>, sys: System)
    requires InRange(v, sys) && Overwritten(t, u, v, over) && NewFile(t, r, sys) && !Stops(v, r, sys)
    ensures var w := After(v, r, sys);
            && InRange(w, sys) && (0 in v ==> 0 in w)
            && Overwritten(t, u, w, over + if SourceFd(r) == FreeFrom(v, 0, sys.limit) then {} else {SourceFd(r)})
  {
    hide FreeFrom;
  }

  /** Main result: a scope of file redirections leaves the table as it was
      exactly when every descriptor they overwrite is undone. */
  lemma FilesRestoredExactly(t: Table, rs: seq<Redir>, hs: seq<int>, sys: System)
    requires InRange(t, sys) && |t.Keys| + 3 <= sys.limit && NewFiles(t, rs, sys)
    requires |hs| == |rs| && forall i :: 0 <= i < |hs| ==> hs[i] == -1
    requires 0 in t || 1 in t || 2 in t || sys.null_.None?
    ensures var (u, s0, s1, s2) := Save(t, sys);
            Scope(t, rs, hs, sys).0 == t <==> forall n :: n in Hits(u, rs, sys) ==> Undone(t, n, s0, s1, s2)
  {
    hide Save, ApplyAll, Restore, Copied, Undone, Hits, Saved, Overwritten, InRange, NewFiles, Scope;
    var (u, s0, s1, s2) := Save(t, sys);
    SaveSaves(t, sys);
    RangeMeans(t, sys);
    SavedCopied(t, u, s0, s1, s2);
    SavedInput(t, sys);
    var v := ApplyAll(u, rs, hs, sys).0;
    HitsAll(t, u, rs, hs, sys);
    ScopeForm(t, rs, hs, sys);
    RestoreDecides(t, u, s0, s1, s2, v, Hits(u, rs, sys), sys);
  }

  lemma HitsAll(t: Table, u: Table, rs: seq<Redir>, hs: seq<int>, sys: System)
    requires InRange(u, sys) && (0 in u || sys.null_.None?) && NewFiles(t, rs, sys)
    requires |hs| == |rs| && forall i :: 0 <= i < |hs| ==> hs[i] == -1
    ensures var v := ApplyAll(u, rs, hs, sys).0;
            -1 !in v && Overwritten(t, u, v, Hits(u, rs, sys))
  {
    hide Apply, ApplyAll, Hits, Overwritten, InRange;
    NoneOverwritten(t, u);
    HitsOverwritten(t, u, u, rs, hs, {}, sys);
    RangeMeans(ApplyAll(u, rs, hs, sys).0, sys);
    assert {} + Hits(u, rs, sys) == Hits(u, rs, sys);
  }

  lemma ScopeForm(t: Table, rs: seq<Redir>, hs: seq<int>, sys: System)
    requires |hs| == |rs|
    ensures var (u, s0, s1, s2) := Save(t, sys);
            Scope(t, rs, hs, sys).0 == Restore(ApplyAll(u, rs, hs, sys).0, s0, s1, s2, sys)
  {
    hide Save, ApplyAll, Restore;
  }

  lemma RestoreDecides(t: Table, u: Table, s0: int, s1: int, s2: int, v: Table, over: set<int>, sys: System)
    requires Copied(t, u, s0, s1, s2) && -1 !in v && sys.limit > 2 && Overwritten(t, u, v, over)
    ensures Restore(v, s0, s1, s2, sys) == t <==> forall n :: n in over ==> Undone(t, n, s0, s1, s2)
  {
    hide Copied, Overwritten, Restore, Undone;
    if n :| n in over && !Undone(t, n, s0, s1, s2) {
      RestoreLoses(t, u, s0, s1, s2, v, over, n, sys);
    } else {
      RestoreKeeps(t, u, s0, s1, s2, v, over, sys);
    }
  }

  lemma RangeMeans(t: Table, sys: System)
    requires InRange(t, sys)
    ensures -1 !in t && forall n :: n in t ==> n >= 0
  {
  }

  lemma NoneOverwritten(t: Table, u: Table)
    ensures Overwritten(t, u, u, {})
  {
  }

  /** Unless 0, 1 and 2 are all closed, saving leaves 0 open: the first copy of
      an open one lands on a closed 0. */
  lemma SavedInput(t: Table, sys: System)
    requires sys.limit > 0
    ensures 0 in t || 1 in t || 2 in t ==> 0 in Save(t, sys).0
  {
  }

  // ------------------------------------------------- 0, 1 and 2 all closed

  /** A file redirection that finds standard input closed leaves it open. */
  lemma InputOpened(t: Table, r: Redir, sys: System)
    requires InRange(t, sys) && sys.null_.Some? && sys.limit > 0 && r.kind in {RedirIn, RedirOut, RedirAppend}
    ensures var (u, h, _) := Apply(t, r, -1, sys);
            0 in u && InRange(u, sys) && h == -1
  {
    TargetKeepsInput(t, r, sys);
    hide OpenTarget;
    var (u, fd) := OpenTarget(t, r, sys);
  }

  lemma TargetKeepsInput(t: Table, r: Redir, sys: System)
    requires InRange(t, sys) && sys.null_.Some? && sys.limit > 0 && r.kind in {RedirIn, RedirOut, RedirAppend}
    ensures var (u, fd) := OpenTarget(t, r, sys);
            0 in u && InRange(u, sys) && fd != 0
  {
    var t1 := if 0 in t then t else t[0 := sys.null_.value];
    assert FreeFrom(t1, 0, sys.limit) != 0;
  }

  lemma {:induction false} InputStays(t: Table, rs: seq<Redir>, hs: seq<int>, sys: System)
    requires InRange(t, sys) && sys.null_.Some? && sys.limit > 0 && FileKinds(rs)
    requires |hs| == |rs| && forall i :: 0 <= i < |hs| ==> hs[i] == -1
    requires 0 in t || rs != []
    ensures 0 in ApplyAll(t, rs, hs, sys).0
    decreases |rs|
  {
    if rs != [] {
      hide Apply, InRange, FreeFrom;
      InputOpened(t, rs[0], sys);
      var (u, h, status) := Apply(t, rs[0], -1, sys);
      if status != -1 {
        InputStays(u, rs[1..], hs[1..], sys);
      }
    }
  }

  /** With 0, 1 and 2 all closed nothing is saved, and the first redirection
      leaves `/dev/null` or its file as standard input: only the empty list
      leaves the table as it was. */
  lemma AllClosedExactly(t: Table, rs: seq<Redir>, hs: seq<int>, sys: System)
    requires InRange(t, sys) && sys.limit > 0 && 0 !in t && 1 !in t && 2 !in t && sys.null_.Some? && FileKinds(rs)
    requires |hs| == |rs| && forall i :: 0 <= i < |hs| ==> hs[i] == -1
    ensures Scope(t, rs, hs, sys).0 == t <==> rs == []
  {
    hide ApplyAll, Restore, Save, Scope;
    ScopeForm(t, rs, hs, sys);
    NothingSaved(t, sys);
    var v := ApplyAll(t, rs, hs, sys).0;
    if rs == [] {
      NoneApplied(t, hs, sys);
      RestoresNothing(t, sys);
    } else {
      InputStays(t, rs, hs, sys);
      ClosedStays(v, sys);
    }
  }

  lemma NothingSaved(t: Table, sys: System)
    requires 0 !in t && 1 !in t && 2 !in t
    ensures Save(t, sys) == (t, -1, -1, -1)
  {
  }

  lemma NoneApplied(t: Table, hs: seq<int>, sys: System)
    requires hs == []
    ensures ApplyAll(t, [], hs, sys).0 == t
  {
  }

  lemma RestoresNothing(t: Table, sys: System)
    requires -1 !in t
    ensures Restore(t, -1, -1, -1, sys) == t
  {
    assert t - {-1} == t;
  }

  lemma ClosedStays(v: Table, sys: System)
    requires 0 in v
    ensures 0 in Restore(v, -1, -1, -1, sys)
  {
  }

  // ------------------------------------------------- one redirection

  /** The case of one file redirection: it has no effect, or is undone. */
  lemma OneFileExactly(t: Table, r: Redir, sys: System)
    requires InRange(t, sys) && |t.Keys| + 3 <= sys.limit && NewFiles(t, [r], sys)
    requires 0 in t || 1 in t || 2 in t || sys.null_.None?
    ensures var (u, s0, s1, s2) := Save(t, sys);
            var n := SourceFd(r);
            Scope(t, [r], [-1], sys).0 == t <==>
              (Stops(u, r, sys) || n == FreeFrom(u, 0, sys.limit) || Undone(t, n, s0, s1, s2))
  {
    hide Save, Scope, Undone, Stops, FreeFrom, SourceFd, After;
    FilesRestoredExactly(t, [r], [-1], sys);
    var (u, s0, s1, s2) := Save(t, sys);
    HitsOne(u, r, sys);
  }

  lemma HitsOne(u: Table, r: Redir, sys: System)
    ensures Hits(u, [r], sys)
         == if Stops(u, r, sys) || SourceFd(r) == FreeFrom(u, 0, sys.limit) then {} else {SourceFd(r)}
  {
    hide Stops, FreeFrom, SourceFd, After;
    if !Stops(u, r, sys) {
      assert Hits(After(u, r, sys), [r][1..], sys) == {};
    }
  }

  /** With standard input alone open, `2>file` in a scope is undone, although it
      overwrites a saved copy: the copy of the first copy, which ends closed. */
  lemma CopyOfCopyHarmless(file: int, sys: System)
    requires sys.limit == 16 && sys.opens(RedirOut, "f") == Some(file)
    ensures var t: Table := map[0 := 10];
            var (_, s0, s1, s2) := Save(t, sys);
            s1 == 2 && Scope(t, [Redir(RedirOut, 2, "f", None, false)], [-1], sys).0 == t
  {
    hide FreeFrom, Scope, Restore, Apply;
    var t: Table := map[0 := 10];
    FreeIs(t, 1, 16);
    FreeIs(t[1 := 10], 2, 16);
    FreeIs(t[1 := 10][2 := 10], 3, 16);
    var u := t[1 := 10][2 := 10][3 := 10];
    FreeIs(u, 4, 16);
    var r := Redir(RedirOut, 2, "f", None, false);
    ScopeForm(t, [r], [-1], sys);
    FileStep(u, r, sys);
    ApplyAllOne(u, r, sys);
    RestoresToInput(u[2 := file], file, sys);
  }

  lemma RestoresToInput(v: Table, file: int, sys: System)
    requires sys.limit == 16 && v == map[0 := 10, 1 := 10, 2 := file, 3 := 10]
    ensures Restore(v, 1, 2, 3, sys) == map[0 := 10]
  {
  }
}
