/** Over every run: the command cache answers as an uncached search would, and
    the environment array is the rendering of the exported variables. */
module ShellProofs {
  import opened Ascii
  import opened Wrappers
  import opened ShellState

  // ------------------------------------------------------------- the cache

  /** Every remembered path is what searching the current PATH finds. */
  ghost predicate CacheTrue(s: State, exec: string -> bool) {
    s.cache.Some? ==> forall n :: n in s.cache.value ==>
      n != "" && '/' !in n && ValueOf(s.vars, "PATH").Some?
      && SearchPath(ValueOf(s.vars, "PATH").value, n, exec) == Some(s.cache.value[n].path)
  }

  /** Every remembered path is one the current PATH could give. */
  ghost predicate CacheOnPath(s: State) {
    s.cache.Some? ==> forall n :: n in s.cache.value ==>
      n != "" && '/' !in n && ValueOf(s.vars, "PATH").Some?
      && OnPath(ValueOf(s.vars, "PATH").value, n, s.cache.value[n].path)
  }

  ghost predicate OnPath(path: string, name: string, full: string) {
    exists i :: 0 <= i < |Split(path, ':')| && full == Split(path, ':')[i] + "/" + name
  }

  /** Directory `i` has the command and none before it does. */
  ghost predicate FirstAt(dirs: seq<string>, name: string, exec: string -> bool, i: int) {
    && 0 <= i < |dirs|
    && exec(dirs[i] + "/" + name)
    && forall j :: 0 <= j < i ==> !exec(dirs[j] + "/" + name)
  }

  lemma {:induction false} FirstInFinds(dirs: seq<string>, name: string, exec: string -> bool)
    ensures match FirstIn(dirs, name, exec)
            case Some(p) => exists i :: FirstAt(dirs, name, exec, i) && p == dirs[i] + "/" + name
            case None => forall j :: 0 <= j < |dirs| ==> !exec(dirs[j] + "/" + name)
  {
    if dirs != [] && !exec(dirs[0] + "/" + name) {
      FirstInFinds(dirs[1..], name, exec);
      match FirstIn(dirs[1..], name, exec) {
        case Some(p) =>
          var i :| FirstAt(dirs[1..], name, exec, i) && p == dirs[1..][i] + "/" + name;
          forall j | 0 <= j < i + 1 ensures !exec(dirs[j] + "/" + name) {
            assert j > 0 ==> dirs[j] == dirs[1..][j - 1];
          }
          assert FirstAt(dirs, name, exec, i + 1);
        case None =>
          forall j | 0 <= j < |dirs| ensures !exec(dirs[j] + "/" + name) {
            assert j > 0 ==> dirs[j] == dirs[1..][j - 1];
          }
      }
    } else if dirs != [] {
      assert FirstAt(dirs, name, exec, 0);
    }
  }

  /** What a call can do to PATH and to the cache. */
  ghost predicate KeepsPath(s: State, t: State) {
    ValueOf(t.vars, "PATH") == ValueOf(s.vars, "PATH") && t.cache == s.cache
  }

  ghost predicate ForgetsAll(t: State) {
    t.cache.None? || t.cache.value == map[]
  }

  lemma {:induction false} IndexUpdate(vars: seq<Var>, i: nat, v: Var, name: string)
    requires i < |vars| && v.name == vars[i].name
    ensures IndexOf(vars[i := v], name) == IndexOf(vars, name)
  {
    if vars[0].name != name {
      if i == 0 {
        assert vars[i := v][1..] == vars[1..];
      } else {
        assert vars[i := v][1..] == vars[1..][i - 1 := v];
        IndexUpdate(vars[1..], i - 1, v, name);
      }
    }
  }

  lemma {:induction false} ValueRemove(vars: seq<Var>, i: nat, name: string)
    requires i < |vars| && vars[i].name != name
    ensures ValueOf(vars[..i] + vars[i + 1..], name) == ValueOf(vars, name)
  {
    ValueTurn(vars, name);
    hide IndexOf, ValueOf;
    var rest := vars[..i] + vars[i + 1..];
    if i == 0 {
      assert rest == vars[1..];
    } else {
      ValueTurn(rest, name);
      assert rest[0] == vars[0] && rest[1..] == vars[1..][..i - 1] + vars[1..][i..];
      if vars[0].name != name {
        ValueRemove(vars[1..], i - 1, name);
      }
    }
  }

  lemma ValueTurn(vars: seq<Var>, name: string)
    requires vars != []
    ensures ValueOf(vars, name) == if vars[0].name == name then vars[0].value else ValueOf(vars[1..], name)
  {
  }

  lemma SetPath(s: State, name: string, value: Option<string>)
    ensures var t := VarSet(s, name, value).0;
            KeepsPath(s, t) || ForgetsAll(t) || (ValueOf(s.vars, "PATH").None? && t.cache == s.cache)
  {
    hide IsIdentifier, IndexOf;
    var i := IndexOf(s.vars, name);
    if IsIdentifier(name) {
      if i < |s.vars| {
        IndexUpdate(s.vars, i, s.vars[i].(value := value), "PATH");
      } else {
        IndexFront(Var(name, value, false, false), s.vars, "PATH");
      }
    }
  }

  lemma IndexFront(v: Var, vars: seq<Var>, name: string)
    ensures IndexOf([v] + vars, name) == if v.name == name then 0 else 1 + IndexOf(vars, name)
  {
    assert ([v] + vars)[1..] == vars;
  }

  lemma UnsetPath(s: State, name: string)
    ensures var t := VarUnset(s, name).0; KeepsPath(s, t) || ForgetsAll(t)
  {
    var i := IndexOf(s.vars, name);
    if i < |s.vars| && name != "PATH" {
      ValueRemove(s.vars, i, "PATH");
    }
  }

  lemma ExportPath(s: State, name: string)
    ensures var t := VarExport(s, name).0;
            KeepsPath(s, t) || ForgetsAll(t) || (ValueOf(s.vars, "PATH").None? && t.cache == s.cache)
  {
    if IsIdentifier(name) {
      var s' := if IndexOf(s.vars, name) < |s.vars| then s else VarSet(s, name, None).0;
      SetPath(s, name, None);
      var i := IndexOf(s'.vars, name);
      if i < |s'.vars| {
        IndexUpdate(s'.vars, i, s'.vars[i].(exported := true), "PATH");
      }
    }
  }

  /** One call keeps the cache true to the current PATH. */
  lemma CacheTrueStep(s: State, c: Call, exec: string -> bool)
    requires CacheTrue(s, exec)
    ensures CacheTrue(Do(s, c, exec), exec)
  {
    hide SearchPath, ValueOf;
    match c {
      case Set(n, v) => SetPath(s, n, v);
      case Unset(n) => UnsetPath(s, n);
      case Export(n) => ExportPath(s, n);
      case Environ =>
      case Find(n) =>
      case Delete(n) =>
      case Clear =>
    }
  }

  lemma {:induction false} CacheTrueRun(s: State, cs: seq<Call>, exec: string -> bool)
    requires CacheTrue(s, exec)
    ensures CacheTrue(Run(s, cs, exec), exec)
    decreases |cs|
  {
    hide CacheTrue, Do;
    if cs != [] {
      CacheTrueStep(s, cs[0], exec);
      CacheTrueRun(Do(s, cs[0], exec), cs[1..], exec);
    }
  }

  /** From a fresh shell, after any calls, a search through the cache answers
      exactly as a search of the current PATH. */
  lemma CachedSearchIsSearch(vars: seq<Var>, cs: seq<Call>, exec: string -> bool, name: string)
    ensures var s := Run(State(vars, None, true, None), cs, exec);
            FindCommand(s, name, exec).1 == Uncached(s, name, exec)
  {
    hide SearchPath, ValueOf;
    CacheTrueRun(State(vars, None, true, None), cs, exec);
  }

  // ---------------------------------------- when files appear and disappear

  lemma FoundOnPath(path: string, name: string, exec: string -> bool)
    requires SearchPath(path, name, exec).Some?
    ensures OnPath(path, name, SearchPath(path, name, exec).value)
  {
    FirstInFinds(Split(path, ':'), name, exec);
  }

  lemma CacheOnPathStep(s: State, c: Call, exec: string -> bool)
    requires CacheOnPath(s)
    ensures CacheOnPath(Do(s, c, exec))
  {
    hide SearchPath, ValueOf, OnPath;
    match c {
      case Set(n, v) => SetPath(s, n, v);
      case Unset(n) => UnsetPath(s, n);
      case Export(n) => ExportPath(s, n);
      case Environ =>
      case Find(n) =>
        var path := ValueOf(s.vars, "PATH");
        if path.Some? && SearchPath(path.value, n, exec).Some? {
          FoundOnPath(path.value, n, exec);
        }
      case Delete(n) =>
      case Clear =>
    }
  }

  lemma {:induction false} CacheOnPathRun(s: State, cs: seq<(Call, string -> bool)>)
    requires CacheOnPath(s)
    ensures CacheOnPath(RunChanging(s, cs))
    decreases |cs|
  {
    hide CacheOnPath, Do;
    if cs != [] {
      CacheOnPathStep(s, cs[0].0, cs[0].1);
      CacheOnPathRun(Do(s, cs[0].0, cs[0].1), cs[1..]);
    }
  }

  /** Whatever happened to files before the call: a path returned is executable
      at the call, it lies on the current PATH, nothing is found exactly when
      an uncached search finds nothing, and the answer differs from the uncached
      one exactly when it comes from the cache and an earlier directory of PATH
      now has the command. */
  lemma CachedSearchWhileChanging(vars: seq<Var>, cs: seq<(Call, string -> bool)>, exec: string -> bool, name: string)
    ensures var s := RunChanging(State(vars, None, true, None), cs);
            var got := FindCommand(s, name, exec).1;
            var want := Uncached(s, name, exec);
            && (got.Some? ==> exec(got.value))
            && (got.None? <==> want.None?)
            && (got != want <==> (CacheHit(s, name, exec) && name != "" && '/' !in name
                  && Earlier(ValueOf(s.vars, "PATH"), name, exec, s.cache.value[name].path)))
  {
    hide ValueOf, Split;
    var s := RunChanging(State(vars, None, true, None), cs);
    CacheOnPathRun(State(vars, None, true, None), cs);
    var path := ValueOf(s.vars, "PATH");
    if name != "" && '/' !in name && path.Some? {
      FirstInFinds(Split(path.value, ':'), name, exec);
      if CacheHit(s, name, exec) {
        EarlierExactly(path.value, name, exec, s.cache.value[name].path);
      }
    }
  }

  /** A directory of PATH before every one that gives `full` has the command. */
  ghost predicate Earlier(path: Option<string>, name: string, exec: string -> bool, full: string) {
    path.Some? && exists i :: EarlierAt(Split(path.value, ':'), name, exec, full, i)
  }

  ghost predicate EarlierAt(dirs: seq<string>, name: string, exec: string -> bool, full: string, i: int) {
    && 0 <= i < |dirs|
    && exec(dirs[i] + "/" + name)
    && forall j :: 0 <= j <= i ==> dirs[j] + "/" + name != full
  }

  lemma EarlierExactly(path: string, name: string, exec: string -> bool, full: string)
    requires OnPath(path, name, full) && exec(full)
    ensures SearchPath(path, name, exec).Some?
    ensures SearchPath(path, name, exec) != Some(full) <==> Earlier(Some(path), name, exec, full)
  {
    hide Split;
    var dirs := Split(path, ':');
    FirstInFinds(dirs, name, exec);
    var k :| 0 <= k < |dirs| && full == dirs[k] + "/" + name;
    assert exec(dirs[k] + "/" + name);
    var p := SearchPath(path, name, exec).value;
    var i :| FirstAt(dirs, name, exec, i) && p == dirs[i] + "/" + name;
    if p != full {
      assert EarlierAt(dirs, name, exec, full, i);
    }
  }

  // ------------------------------------------------------- PATH splitting

  /** Splitting distributes over a separator, drops empty pieces and keeps a
      piece without separators whole; this fixes it on every string. */
  lemma {:induction false} SplitJoin(a: string, c: char, b: string)
    ensures Split("", c) == []
    ensures a != "" && c !in a ==> Split(a, c) == [a]
    ensures Split(a + [c] + b, c) == Split(a, c) + Split(b, c)
    decreases |a|
  {
    RunOfJoin(a, c, b);
    if a == "" {
      assert a + [c] + b == [c] + b && ([c] + b)[1..] == b;
    } else if a[0] == c {
      assert (a + [c] + b)[1..] == a[1..] + [c] + b;
      SplitJoin(a[1..], c, b);
    } else {
      var n := IndexOfChar(a, c);
      assert (a + [c] + b)[..n] == a[..n];
      assert (a + [c] + b)[n..] == a[n..] + [c] + b;
      SplitJoin(a[n..], c, b);
      if c !in a {
        assert a[..n] == a && a[n..] == "";
      }
    }
  }

  lemma {:induction false} RunOfJoin(a: string, c: char, b: string)
    ensures IndexOfChar(a + [c] + b, c) == IndexOfChar(a, c)
    ensures c !in a ==> IndexOfChar(a, c) == |a|
  {
    if a != "" && a[0] != c {
      assert (a + [c] + b)[1..] == a[1..] + [c] + b;
      RunOfJoin(a[1..], c, b);
    }
  }

  /** With PATH `a:b`: `x` is found and remembered in `b`; once `a` has it too,
      the cache still answers with `b`. */
  lemma RememberedLater()
    ensures var exec: string -> bool := f => f == "b/x";
            var both: string -> bool := f => f == "a/x" || f == "b/x";
            var s := State([Var("PATH", Some("a:b"), true, false)], None, true, None);
            var t := RunChanging(s, [(Find("x"), exec)]);
            FindCommand(t, "x", both).1 == Some("b/x") && Uncached(t, "x", both) == Some("a/x")
  {
    hide Split;
    var exec: string -> bool := f => f == "b/x";
    var both: string -> bool := f => f == "a/x" || f == "b/x";
    var s := State([Var("PATH", Some("a:b"), true, false)], None, true, None);
    TwoDirs();
    assert "a" + "/" + "x" == "a/x" && "b" + "/" + "x" == "b/x";
    assert ["a", "b"][1..] == ["b"];
    assert FirstIn(["b"], "x", exec) == Some("b/x");
    assert SearchPath("a:b", "x", exec) == Some("b/x");
    assert SearchPath("a:b", "x", both) == Some("a/x");
    var calls := [(Find("x"), exec)];
    assert calls[1..] == [];
    var t := FindCommand(s, "x", exec).0;
    assert RunChanging(s, calls) == RunChanging(t, []) == t;
    assert t.cache.Some? && "x" in t.cache.value && t.cache.value["x"].path == "b/x";
  }

  lemma TwoDirs()
    ensures Split("a:b", ':') == ["a", "b"]
  {
    hide Split;
    SplitJoin("a", ':', "b");
    SplitJoin("b", ':', "");
    assert "a" + [':'] + "b" == "a:b";
    assert ["a"] + ["b"] == ["a", "b"];
  }
}
