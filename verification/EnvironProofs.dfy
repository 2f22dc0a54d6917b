/** The environment array over every run, what a shell inherits from it, and
    what temporary assignments before a builtin leave behind. */
module EnvironProofs {
  import opened Ascii
  import opened Wrappers
  import opened SeqFacts
  import opened ShellState
  import opened ShellProofs

  // ------------------------------------------------------------ coherence

  /** One variable a name, each a valid identifier; nothing is read-only, as
      no command sets that flag. */
  ghost predicate WellNamed(vars: seq<Var>) {
    && (forall i :: 0 <= i < |vars| ==> IsIdentifier(vars[i].name) && !vars[i].readonly)
    && (forall i, j :: 0 <= i < j < |vars| ==> vars[i].name != vars[j].name)
  }

  /** A cached environment not marked dirty is the current one. */
  ghost predicate Coherent(s: State) {
    WellNamed(s.vars) && (!s.dirty && s.env.Some? ==> s.env.value == Render(s.vars))
  }

  lemma SetCoherent(s: State, name: string, value: Option<string>)
    requires Coherent(s)
    ensures Coherent(VarSet(s, name, value).0)
  {
    hide IsIdentifier;
  }

  lemma UnsetCoherent(s: State, name: string)
    requires Coherent(s)
    ensures Coherent(VarUnset(s, name).0)
  {
    hide IsIdentifier, Render;
  }

  lemma ExportCoherent(s: State, name: string)
    requires Coherent(s)
    ensures Coherent(VarExport(s, name).0)
  {
    hide IsIdentifier, Render, VarSet;
    SetCoherent(s, name, None);
  }

  lemma CoherentStep(s: State, c: Call, exec: string -> bool)
    requires Coherent(s)
    ensures Coherent(Do(s, c, exec))
    ensures GetEnviron(s).1 == Render(s.vars)
  {
    hide IsIdentifier, SearchPath, Render, VarSet, VarUnset, VarExport;
    match c {
      case Set(n, v) => SetCoherent(s, n, v);
      case Unset(n) => UnsetCoherent(s, n);
      case Export(n) => ExportCoherent(s, n);
      case Environ =>
      case Find(n) =>
      case Delete(n) =>
      case Clear =>
    }
  }

  lemma {:induction false} CoherentRun(s: State, cs: seq<(Call, string -> bool)>)
    requires Coherent(s)
    ensures Coherent(RunChanging(s, cs))
    decreases |cs|
  {
    hide Coherent, Do, GetEnviron;
    if cs != [] {
      CoherentStep(s, cs[0].0, cs[0].1);
      CoherentRun(Do(s, cs[0].0, cs[0].1), cs[1..]);
    }
  }

  /** A shell started from any environment, after any calls: the array handed
      to a program renders exactly the current exported variables. */
  lemma EnvironIsCurrent(envp: seq<string>, cs: seq<(Call, string -> bool)>)
    ensures var s := RunChanging(InitFromEnviron(NEW_SHELL, envp), cs);
            WellNamed(s.vars) && GetEnviron(s).1 == Render(s.vars)
  {
    hide WellNamed, Do;
    var s0 := InitFromEnviron(NEW_SHELL, envp);
    EmptyIsCoherent();
    InitCoherent(NEW_SHELL, envp);
    CoherentRun(s0, cs);
  }

  lemma EmptyIsCoherent()
    ensures Coherent(NEW_SHELL)
  {
  }

  lemma {:induction false} InitCoherent(s: State, envp: seq<string>)
    requires Coherent(s)
    ensures Coherent(InitFromEnviron(s, envp))
    decreases |envp|
  {
    hide Coherent, VarSet, VarExport;
    if envp != [] {
      var e := envp[0];
      var n := IndexOfChar(e, '=');
      if n < |e| && n > 0 {
        SetCoherent(s, e[..n], Some(e[n + 1..]));
        ExportCoherent(VarSet(s, e[..n], Some(e[n + 1..])).0, e[..n]);
      }
      InitCoherent(InitEntry(s, e), envp[1..]);
    }
  }

  // ---------------------------------------------------- values after a call

  lemma {:induction false} ValueUpdate(vars: seq<Var>, i: nat, v: Var, name: string)
    requires i == IndexOf(vars, v.name) < |vars|
    ensures ValueOf(vars[i := v], name) == if name == v.name then v.value else ValueOf(vars, name)
  {
    IndexUpdate(vars, i, v, name);
  }

  /** A variable set has that value and no other variable changes. */
  lemma SetValues(s: State, name: string, value: Option<string>, m: string)
    requires WellNamed(s.vars) && IsIdentifier(name)
    ensures VarSet(s, name, value).1 == 0
    ensures ValueOf(VarSet(s, name, value).0.vars, m) == if m == name then value else ValueOf(s.vars, m)
  {
    hide IsIdentifier;
    var i := IndexOf(s.vars, name);
    if i < |s.vars| {
      ValueUpdate(s.vars, i, s.vars[i].(value := value), m);
    } else {
      Drop1(Var(name, value, false, false), s.vars);
    }
  }

  lemma UnsetValues(s: State, name: string, m: string)
    requires WellNamed(s.vars)
    ensures VarUnset(s, name).1 == 0
    ensures ValueOf(VarUnset(s, name).0.vars, m) == if m == name then None else ValueOf(s.vars, m)
  {
    hide IsIdentifier, IndexOf, ValueOf;
    var i := IndexOf(s.vars, name);
    NoValue(s.vars, name);
    if i < |s.vars| {
      if m == name {
        var rest := s.vars[..i] + s.vars[i + 1..];
        Absent(rest, name);
        NoValue(rest, name);
      } else {
        ValueRemove(s.vars, i, m);
      }
    }
  }

  lemma NoValue(vars: seq<Var>, m: string)
    ensures IndexOf(vars, m) == |vars| ==> ValueOf(vars, m).None?
  {
  }

  lemma SetNamed(s: State, name: string, value: Option<string>)
    requires WellNamed(s.vars)
    ensures WellNamed(VarSet(s, name, value).0.vars)
  {
    hide IsIdentifier, IndexOf;
  }

  lemma UnsetNamed(s: State, name: string)
    requires WellNamed(s.vars)
    ensures WellNamed(VarUnset(s, name).0.vars)
  {
    hide IsIdentifier, IndexOf;
  }

  lemma {:induction false} Absent(vars: seq<Var>, name: string)
    requires forall i :: 0 <= i < |vars| ==> vars[i].name != name
    ensures IndexOf(vars, name) == |vars|
  {
  }

  // ------------------------------------------------------------ inheritance

  /** What a shell started with the rendering of `vars` holds: the exported
      variables in reverse order, a missing value as the empty one. */
  function Inherited(vars: seq<Var>): seq<Var> {
    if vars == [] then []
    else Inherited(vars[1..]) + (if vars[0].exported then [Heir(vars[0])] else [])
  }

  function Heir(v: Var): Var {
    Var(v.name, Some(if v.value.Some? then v.value.value else ""), true, false)
  }

  lemma {:induction false} NoEq(name: string, rest: string)
    requires '=' !in name
    ensures IndexOfChar(name + "=" + rest, '=') == |name|
  {
    if name != "" {
      assert (name + "=" + rest)[1..] == name[1..] + "=" + rest;
      NoEq(name[1..], rest);
    }
  }

  lemma IdentifierHasNoEq(name: string)
    requires IsIdentifier(name)
    ensures '=' !in name
  {
  }

  /** Reading back one entry puts that variable first. */
  lemma InitRendered(s: State, v: Var)
    requires IsIdentifier(v.name) && IndexOf(s.vars, v.name) == |s.vars|
    ensures InitEntry(s, EnvEntry(v)).vars == [Heir(v)] + s.vars
  {
    hide IsIdentifier;
    var value := if v.value.Some? then v.value.value else "";
    IdentifierHasNoEq(v.name);
    NoEq(v.name, value);
    var e := EnvEntry(v);
    assert e[..|v.name|] == v.name && e[|v.name| + 1..] == value;
    NonEmptyName(v.name);
    var fresh_ := Var(v.name, Some(value), false, false);
    var vars := [fresh_] + s.vars;
    assert IndexOf(vars, v.name) == 0;
    assert vars[0 := fresh_.(exported := true)] == [Heir(v)] + s.vars;
  }

  lemma NonEmptyName(name: string)
    requires IsIdentifier(name)
    ensures name != ""
  {
  }

  lemma {:induction false} InitFromRendered(s: State, vars: seq<Var>)
    requires WellNamed(vars)
    requires forall i, j :: 0 <= i < |s.vars| && 0 <= j < |vars| ==> s.vars[i].name != vars[j].name
    ensures InitFromEnviron(s, Render(vars)).vars == Inherited(vars) + s.vars
    decreases |vars|
  {
    hide IsIdentifier, InitEntry, Heir, EnvEntry;
    if vars != [] {
      if vars[0].exported {
        Absent(s.vars, vars[0].name);
        InitRendered(s, vars[0]);
        HeirName(vars[0]);
        var t := InitEntry(s, EnvEntry(vars[0]));
        InitFromRendered(t, vars[1..]);
        Assoc(Inherited(vars[1..]), [Heir(vars[0])], s.vars);
        Drop1(EnvEntry(vars[0]), Render(vars[1..]));
      } else {
        InitFromRendered(s, vars[1..]);
        assert [] + Render(vars[1..]) == Render(vars[1..]);
      }
    }
  }

  lemma HeirName(v: Var)
    ensures Heir(v).name == v.name
  {
  }

  function Exported(vars: seq<Var>): map<string, string> {
    if vars == [] then map[]
    else if vars[0].exported then Exported(vars[1..])[vars[0].name := Heir(vars[0]).value.value]
    else Exported(vars[1..])
  }

  lemma {:induction false} ExportedAppend(vars: seq<Var>, v: Var)
    requires v.exported
    requires forall i :: 0 <= i < |vars| ==> vars[i].name != v.name
    ensures Exported(vars + [v]) == Exported(vars)[v.name := Heir(v).value.value]
  {
    if vars != [] {
      assert (vars + [v])[1..] == vars[1..] + [v];
      ExportedAppend(vars[1..], v);
    }
  }

  lemma {:induction false} InheritedNames(vars: seq<Var>, i: nat)
    requires i < |Inherited(vars)|
    ensures Inherited(vars)[i].exported
    ensures exists j :: 0 <= j < |vars| && vars[j].name == Inherited(vars)[i].name
  {
    if i < |Inherited(vars[1..])| {
      InheritedNames(vars[1..], i);
      var j :| 0 <= j < |vars[1..]| && vars[1..][j].name == Inherited(vars)[i].name;
      assert vars[j + 1].name == Inherited(vars)[i].name;
    }
  }

  lemma {:induction false} InheritedExports(vars: seq<Var>)
    requires WellNamed(vars)
    ensures Exported(Inherited(vars)) == Exported(vars)
  {
    hide IsIdentifier;
    if vars != [] {
      InheritedExports(vars[1..]);
      if vars[0].exported {
        forall i | 0 <= i < |Inherited(vars[1..])| ensures Inherited(vars[1..])[i].name != vars[0].name {
          InheritedNames(vars[1..], i);
        }
        ExportedAppend(Inherited(vars[1..]), Heir(vars[0]));
      } else {
        assert Inherited(vars[1..]) + [] == Inherited(vars[1..]);
      }
    }
  }

  /** A shell started with another's environment exports the same names with
      the same values, a declared but unset one as empty, and nothing else. */
  lemma EnvironRoundTrip(s: State)
    requires Coherent(s)
    ensures var child := InitFromEnviron(NEW_SHELL, GetEnviron(s).1);
            && Exported(child.vars) == Exported(s.vars)
            && child.vars == Inherited(s.vars)
            && forall i :: 0 <= i < |child.vars| ==> child.vars[i].exported
  {
    hide WellNamed, IsIdentifier;
    var child := InitFromEnviron(NEW_SHELL, GetEnviron(s).1);
    FreshInit(s);
    InheritedExports(s.vars);
    forall i | 0 <= i < |child.vars| ensures child.vars[i].exported {
      InheritedNames(s.vars, i);
    }
  }

  lemma FreshInit(s: State)
    requires Coherent(s)
    ensures InitFromEnviron(NEW_SHELL, GetEnviron(s).1).vars == Inherited(s.vars)
  {
    hide WellNamed, InitFromEnviron;
    InitFromRendered(NEW_SHELL, s.vars);
    assert Inherited(s.vars) + [] == Inherited(s.vars);
  }

  // -------------------------------------------- any environment, last wins

  function NamedBy(e: string): Option<string> {
    var n := IndexOfChar(e, '=');
    if n < |e| && n > 0 && IsIdentifier(e[..n]) then Some(e[..n]) else None
  }

  /** The value of the last entry for `name`. */
  function LastEntry(envp: seq<string>, name: string): Option<string> {
    if envp == [] then None
    else
      var later := LastEntry(envp[1..], name);
      if later.Some? then later
      else if NamedBy(envp[0]) == Some(name) then Some(envp[0][IndexOfChar(envp[0], '=') + 1..])
      else None
  }

  lemma ExportValues(s: State, name: string, m: string)
    requires WellNamed(s.vars) && ValueOf(s.vars, name).Some?
    ensures ValueOf(VarExport(s, name).0.vars, m) == ValueOf(s.vars, m)
  {
    hide IsIdentifier;
    var i := IndexOf(s.vars, name);
    ValueUpdate(s.vars, i, s.vars[i].(exported := true), m);
  }

  lemma InitEntryValue(s: State, e: string, m: string)
    requires WellNamed(s.vars)
    ensures ValueOf(InitEntry(s, e).vars, m)
         == if NamedBy(e) == Some(m) then Some(e[IndexOfChar(e, '=') + 1..]) else ValueOf(s.vars, m)
    ensures WellNamed(InitEntry(s, e).vars)
  {
    hide IsIdentifier, WellNamed, ValueOf;
    var n := IndexOfChar(e, '=');
    if n < |e| && n > 0 && IsIdentifier(e[..n]) {
      var t := VarSet(s, e[..n], Some(e[n + 1..])).0;
      SetValues(s, e[..n], Some(e[n + 1..]), m);
      SetValues(s, e[..n], Some(e[n + 1..]), e[..n]);
      SetCoherent(s.(dirty := true), e[..n], Some(e[n + 1..]));
      ExportCoherent(t.(dirty := true), e[..n]);
      ExportValues(t, e[..n], m);
    }
  }

  lemma {:induction false} InitValues(s: State, envp: seq<string>, m: string)
    requires WellNamed(s.vars)
    ensures ValueOf(InitFromEnviron(s, envp).vars, m)
         == if LastEntry(envp, m).Some? then LastEntry(envp, m) else ValueOf(s.vars, m)
    decreases |envp|
  {
    hide IsIdentifier, WellNamed, ValueOf, InitEntry, NamedBy;
    if envp != [] {
      InitEntryValue(s, envp[0], m);
      InitValues(InitEntry(s, envp[0]), envp[1..], m);
    }
  }

  /** From any environment: a variable has the value of the last entry with its
      name, and is unset when there is none. */
  lemma InitIsLastEntry(envp: seq<string>, m: string)
    ensures ValueOf(InitFromEnviron(NEW_SHELL, envp).vars, m) == LastEntry(envp, m)
  {
    InitValues(NEW_SHELL, envp, m);
  }
}
