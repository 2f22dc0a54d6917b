/** Assignments in front of a builtin, to the variable list and back: values,
    exported flags and order. */
module AssignmentScope {
  import opened Ascii
  import opened Wrappers
  import opened SeqFacts
  import opened ShellState
  import opened EnvironProofs
  import opened ShellProofs

  datatype Assign = Assign(name: string, value: string)

  /** Remember each old value, then assign. */
  function ApplyAssigns(s: State, assigns: seq<Assign>): (State, seq<(string, Option<string>)>)
    decreases |assigns|
  {
    if assigns == [] then (s, [])
    else
      var a := assigns[0];
      var (t, saved) := ApplyAssigns(VarSet(s, a.name, Some(a.value)).0, assigns[1..]);
      (t, [(a.name, ValueOf(s.vars, a.name))] + saved)
  }

  /** Put old values back, first saved first. */
  function RestoreAssigns(s: State, saved: seq<(string, Option<string>)>): State
    decreases |saved|
  {
    if saved == [] then s
    else
      var (name, value) := saved[0];
      RestoreAssigns(if value.Some? then VarSet(s, name, value).0 else VarUnset(s, name).0, saved[1..])
  }

  /** The value `name` had just before its last assignment, given its value at
      the start; that value itself if it is not assigned. */
  function BeforeLast(assigns: seq<Assign>, name: string, value: Option<string>): Option<string> {
    if assigns == [] then value
    else if assigns[0].name == name && Assigned(assigns[1..], name) then
      BeforeLast(assigns[1..], name, Some(assigns[0].value))
    else BeforeLast(assigns[1..], name, value)
  }

  predicate Assigned(assigns: seq<Assign>, name: string) {
    exists i :: 0 <= i < |assigns| && assigns[i].name == name
  }

  ghost predicate ValidNames(assigns: seq<Assign>) {
    forall i :: 0 <= i < |assigns| ==> IsIdentifier(assigns[i].name)
  }

  lemma AssignedTail(assigns: seq<Assign>, m: string)
    requires assigns != []
    ensures Assigned(assigns, m) <==> (assigns[0].name == m || Assigned(assigns[1..], m))
  {
    if Assigned(assigns[1..], m) {
      var i :| 0 <= i < |assigns[1..]| && assigns[1..][i].name == m;
      assert assigns[i + 1].name == m;
    }
  }

  lemma {:induction false} BeforeLastUnassigned(assigns: seq<Assign>, m: string, v: Option<string>)
    requires !Assigned(assigns, m)
    ensures BeforeLast(assigns, m, v) == v
  {
    if assigns != [] {
      AssignedTail(assigns, m);
      BeforeLastUnassigned(assigns[1..], m, v);
    }
  }

  function EntryOf(vars: seq<Var>, m: string): Option<Var> {
    var i := IndexOf(vars, m);
    if i < |vars| then Some(vars[i]) else None
  }

  /** The entry of `m` once it has this value. */
  function Put(e: Option<Var>, m: string, value: Option<string>): Var {
    if e.Some? then e.value.(value := value) else Var(m, value, false, false)
  }

  function EntryValue(e: Option<Var>): Option<string> {
    if e.Some? then e.value.value else None
  }

  // ------------------------------------------------------- one variable

  lemma IndexIs(vars: seq<Var>, m: string, i: nat)
    requires i < |vars| && vars[i].name == m && forall k :: 0 <= k < i ==> vars[k].name != m
    ensures IndexOf(vars, m) == i
  {
    hide IndexOf;
    var j := IndexOf(vars, m);
  }

  lemma EntryUpdate(vars: seq<Var>, i: nat, v: Var, m: string)
    requires i < |vars| && v.name == vars[i].name && IndexOf(vars, v.name) == i
    ensures EntryOf(vars[i := v], m) == if m == v.name then Some(v) else EntryOf(vars, m)
  {
    IndexUpdate(vars, i, v, m);
    hide IndexOf;
  }

  lemma SetEntries(s: State, name: string, value: Option<string>, m: string)
    requires WellNamed(s.vars) && IsIdentifier(name)
    ensures EntryOf(VarSet(s, name, value).0.vars, m)
         == if m == name then Some(Put(EntryOf(s.vars, m), m, value)) else EntryOf(s.vars, m)
  {
    hide IsIdentifier;
    var i := IndexOf(s.vars, name);
    if i < |s.vars| {
      EntryUpdate(s.vars, i, s.vars[i].(value := value), m);
    } else {
      Drop1(Var(name, value, false, false), s.vars);
    }
  }

  lemma UnsetEntries(s: State, name: string, m: string)
    requires WellNamed(s.vars)
    ensures EntryOf(VarUnset(s, name).0.vars, m) == if m == name then None else EntryOf(s.vars, m)
  {
    hide IsIdentifier, IndexOf, EntryOf;
    var i := IndexOf(s.vars, name);
    if i < |s.vars| {
      RemovedEntry(s.vars, i, m);
    } else {
      AbsentEntry(s.vars, name);
    }
  }

  lemma AbsentEntry(vars: seq<Var>, m: string)
    ensures EntryOf(vars, m).None? <==> IndexOf(vars, m) == |vars|
  {
  }

  lemma RemovedEntry(vars: seq<Var>, i: nat, m: string)
    requires i < |vars| && forall k :: 0 <= k < |vars| && k != i ==> vars[k].name != vars[i].name
    ensures EntryOf(vars[..i] + vars[i + 1..], m) == if m == vars[i].name then None else EntryOf(vars, m)
  {
    hide IndexOf;
    var rest, k := vars[..i] + vars[i + 1..], IndexOf(vars, m);
    if m != vars[i].name && k < |vars| {
      IndexIs(rest, m, if k < i then k else k - 1);
    } else {
      Absent(rest, m);
    }
  }

  // -------------------------------------------- there and back, one variable

  /** The entry of `m` after restoring. */
  function RestoredEntry(saved: seq<(string, Option<string>)>, m: string, e: Option<Var>): Option<Var> {
    if saved == [] then e
    else
      var (name, value) := saved[0];
      RestoredEntry(saved[1..], m, if name != m then e else if value.Some? then Some(Put(e, m, value)) else None)
  }

  /** The entry of `m` after assigning from `cur`, and `e` after restoring. */
  function Last(assigns: seq<Assign>, m: string, cur: Option<Var>): Option<Var> {
    if assigns == [] then cur
    else Last(assigns[1..], m, if assigns[0].name == m then Some(Put(cur, m, Some(assigns[0].value))) else cur)
  }

  function Back(assigns: seq<Assign>, m: string, cur: Option<Var>, e: Option<Var>): Option<Var> {
    if assigns == [] then e
    else if assigns[0].name != m then Back(assigns[1..], m, cur, e)
    else Back(assigns[1..], m, Some(Put(cur, m, Some(assigns[0].value))),
              if EntryValue(cur).Some? then Some(Put(e, m, EntryValue(cur))) else None)
  }

  lemma {:induction false} RestoreEntries(s: State, saved: seq<(string, Option<string>)>, m: string)
    requires WellNamed(s.vars) && forall i :: 0 <= i < |saved| ==> IsIdentifier(saved[i].0)
    ensures WellNamed(RestoreAssigns(s, saved).vars)
    ensures EntryOf(RestoreAssigns(s, saved).vars, m) == RestoredEntry(saved, m, EntryOf(s.vars, m))
    decreases |saved|
  {
    hide IsIdentifier, WellNamed, VarSet, VarUnset, EntryOf, Put;
    if saved != [] {
      var (name, value) := saved[0];
      var t := if value.Some? then VarSet(s, name, value).0 else VarUnset(s, name).0;
      if value.Some? {
        SetEntries(s, name, value, m);
        SetNamed(s, name, value);
      } else {
        UnsetEntries(s, name, m);
        UnsetNamed(s, name);
      }
      RestoreEntries(t, saved[1..], m);
    }
  }

  lemma ValueIsEntry(vars: seq<Var>, m: string)
    ensures ValueOf(vars, m) == EntryValue(EntryOf(vars, m))
  {
  }

  lemma {:induction false} ApplyEntries(s: State, assigns: seq<Assign>, m: string, e: Option<Var>)
    requires WellNamed(s.vars) && ValidNames(assigns)
    ensures var (t, saved) := ApplyAssigns(s, assigns);
            && WellNamed(t.vars)
            && EntryOf(t.vars, m) == Last(assigns, m, EntryOf(s.vars, m))
            && RestoredEntry(saved, m, e) == Back(assigns, m, EntryOf(s.vars, m), e)
    decreases |assigns|
  {
    hide IsIdentifier, WellNamed, VarSet, EntryOf, Put, ValueOf, EntryValue;
    if assigns != [] {
      var a := assigns[0];
      var t := VarSet(s, a.name, Some(a.value)).0;
      SetEntries(s, a.name, Some(a.value), m);
      SetNamed(s, a.name, Some(a.value));
      ValueIsEntry(s.vars, a.name);
      var was := ValueOf(s.vars, a.name);
      ApplyEntries(t, assigns[1..], m, if a.name != m then e else if was.Some? then Some(Put(e, m, was)) else None);
    }
  }

  /** From a variable with a value every saved value is put back. */
  lemma {:induction false} BackWithValue(assigns: seq<Assign>, m: string, cur: Option<Var>, e: Option<Var>)
    requires EntryValue(cur).Some?
    ensures Back(assigns, m, cur, e)
         == if Assigned(assigns, m) then Some(Put(e, m, BeforeLast(assigns, m, EntryValue(cur)))) else e
  {
    hide Assigned;
    if assigns == [] {
      NoneAssigned(m);
    } else {
      AssignedTail(assigns, m);
      if assigns[0].name == m {
        var next := Some(Put(cur, m, Some(assigns[0].value)));
        BackWithValue(assigns[1..], m, next, Some(Put(e, m, EntryValue(cur))));
        if !Assigned(assigns[1..], m) {
          BeforeLastUnassigned(assigns[1..], m, EntryValue(cur));
        }
      } else {
        BackWithValue(assigns[1..], m, cur, e);
      }
    }
  }

  lemma NoneAssigned(m: string)
    ensures !Assigned([], m)
  {
  }

  /** What comes back: the variable as it was but for the value before the last
      assignment; one without a value is dropped first, its flag with it. */
  lemma {:induction false} BackExactly(assigns: seq<Assign>, m: string, cur: Option<Var>, e: Option<Var>)
    requires Assigned(assigns, m)
    ensures var value := BeforeLast(assigns, m, EntryValue(cur));
            Back(assigns, m, cur, e) == if EntryValue(cur).Some? then Some(Put(e, m, value))
                                        else if value.Some? then Some(Var(m, value, false, false))
                                        else None
  {
    hide Assigned;
    if assigns == [] {
      NoneAssigned(m);
    } else {
      AssignedTail(assigns, m);
      if assigns[0].name == m {
        var next := Some(Put(cur, m, Some(assigns[0].value)));
        BackWithValue(assigns[1..], m, next, if EntryValue(cur).Some? then Some(Put(e, m, EntryValue(cur))) else None);
        if !Assigned(assigns[1..], m) {
          BeforeLastUnassigned(assigns[1..], m, EntryValue(cur));
        } else {
          BeforeLastSome(assigns[1..], m, assigns[0].value);
        }
      } else {
        BackExactly(assigns[1..], m, cur, e);
      }
    }
  }

  lemma {:induction false} BeforeLastSome(assigns: seq<Assign>, m: string, v: string)
    ensures BeforeLast(assigns, m, Some(v)).Some?
  {
    hide Assigned;
    if assigns != [] {
      BeforeLastSome(assigns[1..], m,
                     if assigns[0].name == m && Assigned(assigns[1..], m) then assigns[0].value else v);
    }
  }

  /** The assignments leave the variable with entry `e` as it was. */
  predicate Undone(assigns: seq<Assign>, m: string, e: Option<Var>) {
    Assigned(assigns, m) ==> BeforeLast(assigns, m, EntryValue(e)) == EntryValue(e) && (e.Some? ==> e.value.value.Some?)
  }

  lemma {:induction false} LastKeepsFlags(assigns: seq<Assign>, m: string, cur: Var)
    ensures var e := Last(assigns, m, Some(cur)); e.Some? && e.value.(value := cur.value) == cur
  {
    if assigns != [] {
      LastKeepsFlags(assigns[1..], m, if assigns[0].name == m then cur.(value := Some(assigns[0].value)) else cur);
    }
  }

  /** Main result, for each variable: around a builtin that changes no variable,
      the assignments in front of it leave its value as it was if and only if
      the value just before its last assignment is its first; and its flags as
      well if and only if, besides, it was not declared without a value:
      `export X` and then `X=1 builtin` leaves X undeclared. */
  lemma EntryUndoneExactly(s: State, assigns: seq<Assign>, m: string)
    requires WellNamed(s.vars) && ValidNames(assigns)
    ensures var (t, saved) := ApplyAssigns(s, assigns);
            var (u, v) := (RestoreAssigns(t, saved), ValueOf(s.vars, m));
            && (ValueOf(u.vars, m) == v <==> BeforeLast(assigns, m, v) == v)
            && (EntryOf(u.vars, m) == EntryOf(s.vars, m) <==> Undone(assigns, m, EntryOf(s.vars, m)))
  {
    hide IsIdentifier, WellNamed, BeforeLast, ApplyAssigns, RestoreAssigns, EntryOf, ValueOf, Assigned, Last, Back,
        RestoredEntry;
    var (t, saved) := ApplyAssigns(s, assigns);
    var e := EntryOf(s.vars, m);
    SavedNames(s, assigns);
    ApplyEntries(s, assigns, m, EntryOf(t.vars, m));
    RestoreEntries(t, saved, m);
    ValueIsEntry(s.vars, m);
    ValueIsEntry(RestoreAssigns(t, saved).vars, m);
    if Assigned(assigns, m) {
      BackExactly(assigns, m, e, EntryOf(t.vars, m));
      if e.Some? {
        LastKeepsFlags(assigns, m, e.value);
      }
    } else {
      BackUnassigned(assigns, m, e, EntryOf(t.vars, m));
      BeforeLastUnassigned(assigns, m, EntryValue(e));
    }
  }

  lemma {:induction false} SavedNames(s: State, assigns: seq<Assign>)
    requires ValidNames(assigns)
    ensures var saved := ApplyAssigns(s, assigns).1;
            |saved| == |assigns| && forall i :: 0 <= i < |saved| ==>
                saved[i].0 == assigns[i].name && IsIdentifier(saved[i].0)
    decreases |assigns|
  {
    hide VarSet, IsIdentifier, ValueOf;
    if assigns != [] {
      SavedNames(VarSet(s, assigns[0].name, Some(assigns[0].value)).0, assigns[1..]);
    }
  }

  lemma {:induction false} BackUnassigned(assigns: seq<Assign>, m: string, cur: Option<Var>, e: Option<Var>)
    requires !Assigned(assigns, m)
    ensures Back(assigns, m, cur, e) == e && Last(assigns, m, cur) == cur
  {
    hide Assigned;
    if assigns != [] {
      AssignedTail(assigns, m);
      BackUnassigned(assigns[1..], m, cur, e);
    }
  }

  // --------------------------------------------- there and back, the list

  /** The last variables are those of `base`, by name. */
  ghost predicate Around(base: seq<Var>, vars: seq<Var>) {
    |vars| >= |base| && forall i :: 0 <= i < |base| ==> vars[|vars| - |base| + i].name == base[i].name
  }

  lemma SetAround(base: seq<Var>, s: State, name: string, value: Option<string>)
    requires Around(base, s.vars)
    ensures Around(base, VarSet(s, name, value).0.vars)
  {
    hide IsIdentifier;
  }

  lemma UnsetAround(base: seq<Var>, s: State, name: string)
    requires Around(base, s.vars) && EntryOf(base, name).None?
    ensures Around(base, VarUnset(s, name).0.vars)
  {
    hide Around, EntryOf, IndexOf;
    var i := IndexOf(s.vars, name);
    if i < |s.vars| {
      BaseHas(base, s.vars, i);
      RemovedAround(base, s.vars, i);
    }
  }

  lemma BaseHas(base: seq<Var>, vars: seq<Var>, i: nat)
    requires Around(base, vars) && i < |vars|
    ensures i >= |vars| - |base| ==> EntryOf(base, vars[i].name).Some?
  {
    hide IndexOf;
    AbsentEntry(base, vars[i].name);
    if i >= |vars| - |base| {
      assert base[i - (|vars| - |base|)].name == vars[i].name;
    }
  }

  lemma RemovedAround(base: seq<Var>, vars: seq<Var>, i: nat)
    requires Around(base, vars) && i < |vars| - |base|
    ensures Around(base, vars[..i] + vars[i + 1..])
  {
  }

  lemma {:induction false} ApplyAround(base: seq<Var>, s: State, assigns: seq<Assign>)
    requires Around(base, s.vars)
    ensures Around(base, ApplyAssigns(s, assigns).0.vars)
    decreases |assigns|
  {
    hide Around, VarSet, ValueOf;
    if assigns != [] {
      SetAround(base, s, assigns[0].name, Some(assigns[0].value));
      ApplyAround(base, VarSet(s, assigns[0].name, Some(assigns[0].value)).0, assigns[1..]);
    }
  }

  lemma {:induction false} RestoreAround(base: seq<Var>, s: State, saved: seq<(string, Option<string>)>)
    requires Around(base, s.vars)
    requires forall i :: 0 <= i < |saved| && saved[i].1.None? ==> EntryOf(base, saved[i].0).None?
    ensures Around(base, RestoreAssigns(s, saved).vars)
    decreases |saved|
  {
    hide Around, VarSet, VarUnset, EntryOf;
    if saved != [] {
      var (name, value) := saved[0];
      if value.Some? {
        SetAround(base, s, name, value);
      } else {
        UnsetAround(base, s, name);
      }
      RestoreAround(base, if value.Some? then VarSet(s, name, value).0 else VarUnset(s, name).0, saved[1..]);
    }
  }

  /** A name saved without a value had none at the start. */
  lemma {:induction false} SavedNone(s: State, assigns: seq<Assign>)
    requires WellNamed(s.vars) && ValidNames(assigns)
    ensures var saved := ApplyAssigns(s, assigns).1;
            && |saved| == |assigns|
            && forall i :: 0 <= i < |saved| && saved[i].1.None? ==> ValueOf(s.vars, assigns[i].name).None?
    decreases |assigns|
  {
    hide VarSet, IsIdentifier, ValueOf, WellNamed;
    if assigns != [] {
      var a := assigns[0];
      SetNamed(s, a.name, Some(a.value));
      SavedNone(VarSet(s, a.name, Some(a.value)).0, assigns[1..]);
      forall i | 0 < i < |assigns| && ApplyAssigns(s, assigns).1[i].1.None?
        ensures ValueOf(s.vars, assigns[i].name).None?
      {
        SetValues(s, a.name, Some(a.value), assigns[i].name);
      }
    }
  }

  lemma FirstEntry(vars: seq<Var>)
    requires vars != []
    ensures EntryOf(vars, vars[0].name) == Some(vars[0])
  {
  }

  lemma ExtraRepeats(base: seq<Var>, vars: seq<Var>)
    requires Around(base, vars) && |vars| > |base| && EntryOf(base, vars[0].name).Some?
    ensures exists j :: 0 < j < |vars| && vars[j].name == vars[0].name
  {
    hide IndexOf;
    var k := IndexOf(base, vars[0].name);
    assert vars[|vars| - |base| + k].name == vars[0].name;
  }

  /** Lists with the same entries, one around the other, are equal. */
  lemma SameList(base: seq<Var>, vars: seq<Var>)
    requires WellNamed(base) && WellNamed(vars) && Around(base, vars)
    requires forall m :: EntryOf(vars, m) == EntryOf(base, m)
    ensures vars == base
  {
    hide IsIdentifier, IndexOf;
    if |vars| > |base| {
      FirstEntry(vars);
      ExtraRepeats(base, vars);
    } else {
      forall i | 0 <= i < |base| ensures vars[i] == base[i] {
        IndexIs(vars, vars[i].name, i);
        IndexIs(base, vars[i].name, i);
        assert EntryOf(vars, vars[i].name) == EntryOf(base, vars[i].name);
      }
    }
  }

  /** Main result: the assignments leave the whole list of variables as it was,
      order included, if and only if they leave each variable they name so. */
  lemma ListUndoneExactly(s: State, assigns: seq<Assign>)
    requires WellNamed(s.vars) && ValidNames(assigns)
    ensures var (t, saved) := ApplyAssigns(s, assigns);
            RestoreAssigns(t, saved).vars == s.vars <==>
              forall i :: 0 <= i < |assigns| ==> Undone(assigns, assigns[i].name, EntryOf(s.vars, assigns[i].name))
  {
    hide IsIdentifier, WellNamed, BeforeLast, ApplyAssigns, RestoreAssigns, EntryOf, ValueOf, Assigned, Undone, Around;
    var (t, saved) := ApplyAssigns(s, assigns);
    var u := RestoreAssigns(t, saved);
    forall m: string
      ensures EntryOf(u.vars, m) == EntryOf(s.vars, m) <==> Undone(assigns, m, EntryOf(s.vars, m))
    {
      EntryUndoneExactly(s, assigns, m);
    }
    if forall i :: 0 <= i < |assigns| ==> Undone(assigns, assigns[i].name, EntryOf(s.vars, assigns[i].name)) {
      AllUndone(s, assigns);
      StaysAround(s, assigns);
      SameList(s.vars, u.vars);
    }
  }

  lemma AllUndone(s: State, assigns: seq<Assign>)
    requires forall i :: 0 <= i < |assigns| ==> Undone(assigns, assigns[i].name, EntryOf(s.vars, assigns[i].name))
    ensures forall m :: Undone(assigns, m, EntryOf(s.vars, m))
  {
    hide BeforeLast, EntryOf;
  }

  lemma StaysAround(s: State, assigns: seq<Assign>)
    requires WellNamed(s.vars) && ValidNames(assigns)
    requires forall i :: 0 <= i < |assigns| ==> Undone(assigns, assigns[i].name, EntryOf(s.vars, assigns[i].name))
    ensures var (t, saved) := ApplyAssigns(s, assigns);
            WellNamed(RestoreAssigns(t, saved).vars) && Around(s.vars, RestoreAssigns(t, saved).vars)
  {
    hide IsIdentifier, WellNamed, BeforeLast, ApplyAssigns, RestoreAssigns, EntryOf, ValueOf;
    var (t, saved) := ApplyAssigns(s, assigns);
    ApplyAround(s.vars, s, assigns);
    SavedNames(s, assigns);
    SavedNone(s, assigns);
    forall i | 0 <= i < |saved| && saved[i].1.None? ensures EntryOf(s.vars, saved[i].0).None? {
      ValueIsEntry(s.vars, saved[i].0);
      assert Assigned(assigns, assigns[i].name);
    }
    RestoreAround(s.vars, t, saved);
    ApplyEntries(s, assigns, "", None);
    RestoreEntries(t, saved, "");
  }

  /** `A=1 A=2 builtin` leaves A set to 1. */
  lemma RepeatedAssignmentLeaks()
    ensures var assigns := [Assign("A", "1"), Assign("A", "2")];
            var (t, saved) := ApplyAssigns(NEW_SHELL, assigns);
            ValueOf(NEW_SHELL.vars, "A") == None && ValueOf(RestoreAssigns(t, saved).vars, "A") == Some("1")
  {
    hide ApplyAssigns, RestoreAssigns, Back;
    var assigns := [Assign("A", "1"), Assign("A", "2")];
    var (t, saved) := ApplyAssigns(NEW_SHELL, assigns);
    SavedNames(NEW_SHELL, assigns);
    ApplyEntries(NEW_SHELL, assigns, "A", EntryOf(t.vars, "A"));
    RestoreEntries(t, saved, "A");
    ValueIsEntry(RestoreAssigns(t, saved).vars, "A");
    assert assigns[0].name == "A" && assigns[1..][0].name == "A";
    assert BeforeLast(assigns[1..][1..], "A", Some("1")) == Some("1");
    BackExactly(assigns, "A", None, EntryOf(t.vars, "A"));
  }
}
