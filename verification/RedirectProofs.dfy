/** What a redirection does to its descriptor, and when a scope of
    redirections leaves the descriptor table as it found it. */
module RedirectProofs {
  import opened Tokens
  import opened Syntax
  import opened Wrappers
  import opened RedirectSpec

  /** The three standard descriptors are open and all are in range. */
  ghost predicate Standard(t: Table, sys: System) {
    0 in t && 1 in t && 2 in t && InRange(t, sys)
  }

  ghost predicate InRange(t: Table, sys: System) {
    forall n :: n in t ==> 0 <= n < sys.limit
  }

  /** Above 2, `u` is `t` without `gone`. */
  ghost predicate SameAbove(t: Table, u: Table, gone: set<int>) {
    forall n :: n > 2 ==> (n in u <==> (n in t && n !in gone)) && (n in u ==> u[n] == t[n])
  }

  /** Here-document descriptors: open, above 2, one for each redirection, and
      held by here-documents only. */
  ghost predicate Held(t: Table, rs: seq<Redir>, hs: seq<int>) {
    && |rs| == |hs|
    && (forall i :: 0 <= i < |rs| && hs[i] != -1 ==> hs[i] > 2 && hs[i] in t && IsHeredoc(rs[i].kind))
    && (forall i, j :: 0 <= i < j < |rs| && hs[i] != -1 ==> hs[i] != hs[j])
  }

  /** Descriptors of `before` no longer held in `after`. */
  function Consumed(before: seq<int>, after: seq<int>): set<int>
    requires |before| == |after|
  {
    set i | 0 <= i < |before| && before[i] != -1 && after[i] == -1 :: before[i]
  }

  ghost predicate LowSources(rs: seq<Redir>) {
    forall i :: 0 <= i < |rs| ==> SourceFd(rs[i]) <= 2
  }

  // -------------------------------------------------- above descriptor 2

  lemma OpenKeeps(t: Table, r: Redir, sys: System)
    requires InRange(t, sys)
    ensures var (u, fd) := OpenTarget(t, r, sys);
            && InRange(u, sys)
            && (fd >= 0 ==> fd in u && SameAbove(t, Close(u, fd), {}))
            && (fd < 0 ==> SameAbove(t, u, {}))
  {
  }

  /** A redirection of descriptor 0, 1 or 2 changes nothing above 2 but the
      here-document it uses up. */
  lemma ApplyKeeps(t: Table, r: Redir, h: int, sys: System)
    requires InRange(t, sys) && SourceFd(r) <= 2 && (h != -1 ==> h > 2 && IsHeredoc(r.kind))
    ensures var (u, h', status) := Apply(t, r, h, sys);
            InRange(u, sys) && h' == -1 && SameAbove(t, u, {h} - {-1})
  {
    hide OpenTarget;
    OpenKeeps(t, r, sys);
  }

  lemma SameTrans(t: Table, u: Table, v: Table, a: set<int>, b: set<int>)
    requires SameAbove(t, u, a) && SameAbove(u, v, b)
    ensures SameAbove(t, v, a + b)
  {
  }

  lemma ConsumedTail(before: seq<int>, h: int, after: seq<int>)
    requires before != [] && |before| == 1 + |after|
    ensures Consumed(before, [h] + after)
         == (if before[0] != -1 && h == -1 then {before[0]} else {}) + Consumed(before[1..], after)
  {
    var all := [h] + after;
    forall x | x in Consumed(before[1..], after) ensures x in Consumed(before, all) {
      var i :| 0 <= i < |after| && before[1..][i] == x && x != -1 && after[i] == -1;
      assert before[i + 1] == x && all[i + 1] == -1;
    }
    forall x | x in Consumed(before, all)
      ensures x in (if before[0] != -1 && h == -1 then {before[0]} else {}) + Consumed(before[1..], after)
    {
      var i :| 0 <= i < |before| && before[i] == x && x != -1 && all[i] == -1;
      if i > 0 {
        assert before[1..][i - 1] == x && after[i - 1] == -1;
      }
    }
  }

  lemma ConsumedSelf(hs: seq<int>)
    ensures Consumed(hs, hs) == {}
  {
  }

  lemma HeldTail(t: Table, u: Table, rs: seq<Redir>, hs: seq<int>)
    requires Held(t, rs, hs) && rs != [] && SameAbove(t, u, {hs[0]} - {-1})
    ensures Held(u, rs[1..], hs[1..])
  {
  }

  lemma {:induction false} ApplyAllKeeps(t: Table, rs: seq<Redir>, hs: seq<int>, sys: System)
    requires InRange(t, sys) && LowSources(rs) && Held(t, rs, hs)
    ensures var (u, hs', status) := ApplyAll(t, rs, hs, sys);
            && InRange(u, sys)
            && SameAbove(t, u, Consumed(hs, hs'))
            && (status != -1 ==> forall i :: 0 <= i < |hs'| ==> hs'[i] == -1)
    decreases |rs|
  {
    hide Apply, InRange, Consumed;
    if rs == [] {
      ConsumedSelf(hs);
    } else {
      hide SameAbove;
      var (t1, h, status) := Apply(t, rs[0], hs[0], sys);
      ApplyKeeps(t, rs[0], hs[0], sys);
      if status == -1 {
        ConsumedTail(hs, h, hs[1..]);
        ConsumedSelf(hs[1..]);
        assert Consumed(hs, [h] + hs[1..]) == {hs[0]} - {-1};
      } else {
        HeldTail(t, t1, rs, hs);
        ApplyAllKeeps(t1, rs[1..], hs[1..], sys);
        var (t2, rest, status') := ApplyAll(t1, rs[1..], hs[1..], sys);
        SameTrans(t, t1, t2, {hs[0]} - {-1}, Consumed(hs[1..], rest));
        ConsumedTail(hs, h, rest);
      }
    }
  }

  // ------------------------------------------------------ saving, restoring

  /** Three new copies, found above 2. */
  ghost predicate Copies(t: Table, u: Table, s0: int, s1: int, s2: int) {
    && s0 > 2 && s1 > 2 && s2 > 2 && s0 != s1 && s0 != s2 && s1 != s2
    && s0 !in t && s1 !in t && s2 !in t
    && 0 in t && 1 in t && 2 in t
    && u == t[s0 := t[0]][s1 := t[1]][s2 := t[2]]
  }

  lemma {:induction false} AllTaken(t: Table, n: nat)
    requires forall i :: 0 <= i < n ==> i in t
    ensures |t.Keys| >= n
  {
    if n > 0 {
      var rest := t - {n - 1};
      AllTaken(rest, n - 1);
      assert rest.Keys == t.Keys - {n - 1};
    }
  }

  lemma OpenSucceeds(t: Table, file: int, sys: System)
    requires |t.Keys| < sys.limit && InRange(t, sys)
    ensures var (u, fd) := Open(t, Some(file), sys);
            fd >= 0 && fd !in t && u == t[fd := file] && |u.Keys| == |t.Keys| + 1 && InRange(u, sys)
  {
    var n := FreeFrom(t, 0, sys.limit);
    if n == sys.limit {
      AllTaken(t, n);
    }
    assert t[n := file].Keys == t.Keys + {n};
  }

  lemma SaveCopies(t: Table, sys: System)
    requires Standard(t, sys) && |t.Keys| + 3 <= sys.limit
    ensures var (u, s0, s1, s2) := Save(t, sys);
            Copies(t, u, s0, s1, s2) && InRange(u, sys)
  {
    hide Open;
    OpenSucceeds(t, t[0], sys);
    var (t0, s0) := Dup(t, 0, sys);
    OpenSucceeds(t0, t0[1], sys);
    var (t1, s1) := Dup(t0, 1, sys);
    OpenSucceeds(t1, t1[2], sys);
  }

  /** Restoring undoes whatever changed descriptors 0, 1 and 2 only. */
  lemma RestoreUndoes(t: Table, u: Table, s0: int, s1: int, s2: int, v: Table, gone: set<int>, sys: System)
    requires Copies(t, u, s0, s1, s2) && SameAbove(u, v, gone) && InRange(u, sys) && InRange(v, sys) && InRange(t, sys)
    requires forall n :: n in gone ==> n > 2 && n in t
    ensures Restore(v, s0, s1, s2, sys) == t - gone
  {
    assert s0 in v && s1 in v && s2 in v;
    assert v[s0] == t[0] && v[s1] == t[1] && v[s2] == t[2];
    RestoreForm(v, s0, s1, s2, sys);
    var w := v[0 := t[0]][1 := t[1]][2 := t[2]] - {s0, s1, s2};
    forall n: int ensures n in w <==> n in t - gone {
      assert n in w ==> n >= 0;
      assert n > 2 ==> (n in v <==> n in u && n !in gone);
    }
    forall n | n in w ensures w[n] == (t - gone)[n] {
      assert n > 2 ==> v[n] == u[n];
    }
  }

  lemma RestoreForm(v: Table, s0: int, s1: int, s2: int, sys: System)
    requires s0 in v && s1 in v && s2 in v && sys.limit > 2 && s0 > 2 && s1 > 2 && s2 > 2
    ensures Restore(v, s0, s1, s2, sys) == v[0 := v[s0]][1 := v[s1]][2 := v[s2]] - {s0, s1, s2}
  {
  }

  /** Main result: from a table with descriptors 0, 1 and 2 open, any list of
      redirections of these, failing or not, leaves in the end every descriptor
      as it was, except that here-document descriptors used are closed; all of
      them when no redirection fails. */
  lemma ScopeRestores(t: Table, rs: seq<Redir>, hs: seq<int>, sys: System)
    requires Standard(t, sys) && |t.Keys| + 3 <= sys.limit
    requires LowSources(rs) && Held(t, rs, hs)
    ensures var (u, hs', status) := Scope(t, rs, hs, sys);
            && u == t - Consumed(hs, hs')
            && (status != -1 ==> forall i :: 0 <= i < |hs'| ==> hs'[i] == -1)
  {
    hide Save, Restore, ApplyAll;
    SaveCopies(t, sys);
    var (u, s0, s1, s2) := Save(t, sys);
    ApplyAllKeeps(u, rs, hs, sys);
    var (v, hs', status) := ApplyAll(u, rs, hs, sys);
    ConsumedHeld(t, rs, hs, hs');
    RestoreUndoes(t, u, s0, s1, s2, v, Consumed(hs, hs'), sys);
  }

  lemma ConsumedHeld(t: Table, rs: seq<Redir>, hs: seq<int>, hs': seq<int>)
    requires Held(t, rs, hs) && |hs'| == |hs|
    ensures forall n :: n in Consumed(hs, hs') ==> n > 2 && n in t
  {
  }

  // ------------------------------------------- one file redirection, exactly

  /** With descriptors 0, 1 and 2 open, `n>file` takes effect exactly when the
      file opens on a descriptor other than `n`, and `n` is within the limit;
      nothing else changes. */
  lemma FileRedirectExactly(t: Table, r: Redir, sys: System)
    requires Standard(t, sys) && r.kind in {RedirIn, RedirOut, RedirAppend}
    ensures var (u, h, status) := Apply(t, r, -1, sys);
            var file := sys.opens(r.kind, r.target);
            var n := SourceFd(r);
            var low := FreeFrom(t, 0, sys.limit);
            && h == -1
            && (status == 0 <==> (file.Some? && low < sys.limit && n < sys.limit))
            && u == (if status == 0 && n != low then t[n := file.value] else t)
  {
    var low := FreeFrom(t, 0, sys.limit);
    var file := sys.opens(r.kind, r.target);
    if file.Some? && low < sys.limit {
      assert t[low := file.value] - {low} == t;
      if SourceFd(r) != low {
        assert t[low := file.value][SourceFd(r) := file.value] - {low} == t[SourceFd(r) := file.value];
      }
    }
  }

  /** The file it opens is new: no descriptor of `t` names it. */
  ghost predicate NewFile(t: Table, r: Redir, sys: System) {
    sys.opens(r.kind, r.target).Some? ==> forall n :: n in t ==> t[n] != sys.opens(r.kind, r.target).value
  }

  lemma CopiesStandard(t: Table, u: Table, s0: int, s1: int, s2: int, sys: System)
    requires Copies(t, u, s0, s1, s2) && InRange(u, sys)
    ensures Standard(u, sys)
  {
  }

  lemma ApplyAllOne(t: Table, r: Redir, sys: System)
    ensures var (u, h, status) := Apply(t, r, -1, sys);
            ApplyAll(t, [r], [-1], sys) == (u, [h], if status == -1 then -1 else 0)
  {
    var (u, h, status) := Apply(t, r, -1, sys);
    assert [h] + [-1][1..] == [h];
  }

  // ----------------------------------------------------------- witnesses

  lemma FreeIs(t: Table, k: nat, limit: nat)
    requires k < limit && k !in t && forall i :: 0 <= i < k ==> i in t
    ensures FreeFrom(t, 0, limit) == k
  {
    hide FreeFrom;
    var n := FreeFrom(t, 0, limit);
  }

  /** `n>f` in a scope, when the saved copies are `s0`, `s1`, `s2` and the file
      opens on `low`. */
  lemma ScopeOfOne(t: Table, r: Redir, u: Table, s0: int, s1: int, s2: int, low: nat, file: int, sys: System)
    requires r.kind == RedirOut && sys.opens(r.kind, r.target) == Some(file)
    requires Save(t, sys) == (u, s0, s1, s2) && Standard(u, sys)
    requires low < sys.limit && low !in u && (forall i :: 0 <= i < low ==> i in u)
    requires SourceFd(r) < sys.limit && SourceFd(r) != low
    ensures Scope(t, [r], [-1], sys).0 == Restore(u[SourceFd(r) := file], s0, s1, s2, sys)
  {
    hide Save, Restore, Apply, ApplyAll;
    FreeIs(u, low, sys.limit);
    FileRedirectExactly(u, r, sys);
    ApplyAllOne(u, r, sys);
  }

  /** `3>file` in a scope leaves standard input connected to the file. */
  lemma ThirdOverwritesSaved(file: int, sys: System)
    requires sys.limit == 16 && sys.opens(RedirOut, "f") == Some(file)
    ensures Scope(map[0 := 10, 1 := 11, 2 := 12], [Redir(RedirOut, 3, "f", None, false)], [-1], sys).0
         == map[0 := file, 1 := 11, 2 := 12]
  {
    hide FreeFrom, Restore, Scope;
    var t: Table := map[0 := 10, 1 := 11, 2 := 12];
    FreeIs(t, 3, 16);
    FreeIs(t[3 := 10], 4, 16);
    FreeIs(t[3 := 10][4 := 11], 5, 16);
    var u := t[3 := 10][4 := 11][5 := 12];
    ScopeOfOne(t, Redir(RedirOut, 3, "f", None, false), u, 3, 4, 5, 6, file, sys);
    RestoreForm(u[3 := file], 3, 4, 5, sys);
    assert u[3 := file][0 := file][1 := 11][2 := 12] - {3, 4, 5} == map[0 := file, 1 := 11, 2 := 12];
  }

  /** With standard output closed, `>file` in a scope leaves standard input
      connected to the file: the saved copy of 0 sits at descriptor 1. */
  lemma ClosedOutputLosesInput(file: int, sys: System)
    requires sys.limit == 16 && sys.opens(RedirOut, "f") == Some(file)
    ensures Scope(map[0 := 10, 2 := 12], [Redir(RedirOut, -1, "f", None, false)], [-1], sys).0
         == map[0 := file, 2 := 12]
  {
    hide FreeFrom, Scope, Restore;
    var t: Table := map[0 := 10, 2 := 12];
    FreeIs(t, 1, 16);
    FreeIs(t[1 := 10], 3, 16);
    FreeIs(t[1 := 10][3 := 10], 4, 16);
    var u := t[1 := 10][3 := 10][4 := 12];
    ScopeOfOne(t, Redir(RedirOut, -1, "f", None, false), u, 1, 3, 4, 5, file, sys);
    RestoresFile(u[1 := file], file, sys);
  }

  lemma RestoresFile(v: Table, file: int, sys: System)
    requires sys.limit == 16 && v == map[0 := 10, 1 := file, 2 := 12, 3 := 10, 4 := 12]
    ensures Restore(v, 1, 3, 4, sys) == map[0 := file, 2 := 12]
  {
  }
}
