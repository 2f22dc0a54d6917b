/** What each operation on the shell's variables, environment array and command
    cache does, from any state. */
module ShellSteps {
  import opened Ascii
  import opened Wrappers
  import opened ShellState

  /** `i` is the variable's place in the list, the length if it is not there. */
  ghost predicate Place(vars: seq<Var>, name: string, i: int) {
    0 <= i <= |vars| && (i < |vars| ==> vars[i].name == name) && forall k :: 0 <= k < i ==> vars[k].name != name
  }

  lemma PlaceFound(vars: seq<Var>, name: string, i: int)
    requires Place(vars, name, i)
    ensures IndexOf(vars, name) == i
  {
    hide IndexOf;
    var n := IndexOf(vars, name);
  }

  /** A change of `PATH` forgets every remembered command. */
  function Forgotten(s: State, name: string): Option<Cache> {
    if name == "PATH" && s.cache.Some? then Some(map[]) else s.cache
  }

  /** Setting a variable keeps its flags; a new one is not exported. An invalid
      name or a read-only variable changes nothing and gives status 1. */
  lemma SetMeans(s: State, name: string, value: Option<string>, i: int)
    requires Place(s.vars, name, i)
    ensures VarSet(s, name, value) ==
      if !IsIdentifier(name) || (i < |s.vars| && s.vars[i].readonly) then (s, 1)
      else if i < |s.vars| then
        (State(s.vars[i := Var(name, value, s.vars[i].exported, false)], s.env, true, Forgotten(s, name)), 0)
      else (State([Var(name, value, false, false)] + s.vars, s.env, true, s.cache), 0)
  {
    PlaceFound(s.vars, name, i);
  }

  lemma UnsetMeans(s: State, name: string, i: int)
    requires Place(s.vars, name, i)
    ensures VarUnset(s, name) ==
      if i == |s.vars| then (s, 0)
      else if s.vars[i].readonly then (s, 1)
      else (State(s.vars[..i] + s.vars[i + 1..], s.env, true, Forgotten(s, name)), 0)
  {
    PlaceFound(s.vars, name, i);
  }

  /** Exporting marks the variable; one that is not there is created without a
      value, so that it is in the environment as `name=`. */
  lemma ExportMeans(s: State, name: string, i: int)
    requires Place(s.vars, name, i)
    ensures VarExport(s, name) ==
      if !IsIdentifier(name) then (s, 1)
      else if i < |s.vars| then
        var v := s.vars[i];
        (State(s.vars[i := Var(name, v.value, true, v.readonly)], s.env, true, s.cache), 0)
      else (State([Var(name, None, true, false)] + s.vars, s.env, true, s.cache), 0)
  {
    hide IsIdentifier;
    PlaceFound(s.vars, name, i);
    if IsIdentifier(name) && i == |s.vars| {
      var vars := [Var(name, None, false, false)] + s.vars;
      SetMeans(s, name, None, i);
      PlaceFound(vars, name, 0);
      assert vars[0 := Var(name, None, true, false)] == [Var(name, None, true, false)] + s.vars;
    }
  }

  /** The array handed to programs is built again only after a change. */
  lemma EnvironMeans(s: State)
    ensures GetEnviron(s) ==
      if s.env.Some? && !s.dirty then (s, s.env.value)
      else (State(s.vars, Some(Render(s.vars)), false, s.cache), Render(s.vars))
  {
  }

  lemma ClearMeans(s: State)
    ensures ClearCache(s) == State(s.vars, s.env, s.dirty, if s.cache.Some? then Some(map[]) else None)
  {
  }

  lemma DeleteMeans(s: State, name: string)
    ensures CacheDelete(s, name) ==
      if s.cache.Some? && name in s.cache.value then
        (State(s.vars, s.env, s.dirty, Some(s.cache.value - {name})), 1)
      else (s, 0)
  {
  }

  // ------------------------------------------------------------- the search

  /** `k` is the first directory that holds the command as an executable, the
      number of directories if there is none. */
  ghost predicate FirstDir(dirs: seq<string>, name: string, exec: string -> bool, k: int) {
    && 0 <= k <= |dirs| && (k < |dirs| ==> exec(dirs[k] + "/" + name))
    && forall m :: 0 <= m < k ==> !exec(dirs[m] + "/" + name)
  }

  lemma {:induction false} FirstDirFound(dirs: seq<string>, name: string, exec: string -> bool, k: int)
    requires FirstDir(dirs, name, exec, k)
    ensures FirstIn(dirs, name, exec) == if k < |dirs| then Some(dirs[k] + "/" + name) else None
    decreases |dirs|
  {
    if dirs != [] && k > 0 {
      assert !exec(dirs[0] + "/" + name);
      forall m | 0 <= m < k - 1 ensures !exec(dirs[1..][m] + "/" + name) {
        assert dirs[1..][m] == dirs[m + 1];
      }
      FirstDirFound(dirs[1..], name, exec, k - 1);
    }
  }

  /** A name with a slash is a path; any other is answered from the cache while
      the remembered path can be executed, else it is the first executable of
      that name in the directories of `PATH`, which is then remembered. */
  lemma FindMeans(s: State, name: string, exec: string -> bool, k: int)
    requires var path := ValueOf(s.vars, "PATH"); path.Some? ==> FirstDir(Split(path.value, ':'), name, exec, k)
    ensures var (u, found) := FindCommand(s, name, exec);
            var path := ValueOf(s.vars, "PATH");
            if name == "" then u == s && found == None
            else if '/' in name then u == s && found == if exec(name) then Some(name) else None
            else if s.cache.Some? && name in s.cache.value && exec(s.cache.value[name].path) then
              var e := s.cache.value[name];
              && found == Some(e.path)
              && u == State(s.vars, s.env, s.dirty, Some(s.cache.value[name := Entry(e.path, e.hits + 1)]))
            else if path.None? || k == |Split(path.value, ':')| then u == s && found == None
            else
              var full := Split(path.value, ':')[k] + "/" + name;
              var known := if s.cache.Some? then s.cache.value else map[];
              found == Some(full) && u == State(s.vars, s.env, s.dirty, Some(known[name := Entry(full, 1)]))
  {
    hide Split, FirstIn, ValueOf;
    var path := ValueOf(s.vars, "PATH");
    if path.Some? {
      FirstDirFound(Split(path.value, ':'), name, exec, k);
      var known := if s.cache.Some? then s.cache.value else map[];
      if k < |Split(path.value, ':')| {
        var full := Split(path.value, ':')[k] + "/" + name;
        var hits := if name in known then known[name].hits else 0;
        assert known[name := Entry(full, hits)][name := Entry(full, 1)] == known[name := Entry(full, 1)];
      }
    }
  }

  /** A variable's value is that of its first entry. */
  lemma ValueMeans(vars: seq<Var>, name: string, i: int)
    requires Place(vars, name, i)
    ensures ValueOf(vars, name) == if i < |vars| then vars[i].value else None
  {
    PlaceFound(vars, name, i);
  }
}
