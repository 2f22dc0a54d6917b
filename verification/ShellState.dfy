/** Shell variables, the cached environment array and the command-path cache,
    as pure transitions of one state. */
module ShellState {
  import opened Ascii
  import opened Wrappers

  /** A variable; its value is None when it is declared but unset. */
  datatype Var = Var(name: string, value: Option<string>, exported: bool, readonly: bool)

  /** A remembered command: its path and how often it was used. */
  datatype Entry = Entry(path: string, hits: nat)

  type Cache = map<string, Entry>

  datatype State = State(vars: seq<Var>, env: Option<seq<string>>, dirty: bool, cache: Option<Cache>)

  // --------------------------------------------------------------- lookup

  function IndexOf(vars: seq<Var>, name: string): (i: nat)
    ensures i <= |vars|
    ensures i < |vars| ==> vars[i].name == name
    ensures forall k :: 0 <= k < i ==> vars[k].name != name
  {
    if vars == [] || vars[0].name == name then 0 else 1 + IndexOf(vars[1..], name)
  }

  function ValueOf(vars: seq<Var>, name: string): Option<string> {
    var i := IndexOf(vars, name);
    if i < |vars| then vars[i].value else None
  }

  // ------------------------------------------------------------ variables

  function ClearCache(s: State): State {
    if s.cache.Some? then s.(cache := Some(map[])) else s
  }

  function Touch(s: State, name: string): State {
    var t := s.(dirty := true);
    if name == "PATH" then ClearCache(t) else t
  }

  /** `var_set`: status 1 for an invalid name or a read-only variable. */
  function VarSet(s: State, name: string, value: Option<string>): (State, int) {
    var i := IndexOf(s.vars, name);
    if !IsIdentifier(name) then (s, 1)
    else if i < |s.vars| then
      if s.vars[i].readonly then (s, 1)
      else (Touch(s.(vars := s.vars[i := s.vars[i].(value := value)]), name), 0)
    else (s.(vars := [Var(name, value, false, false)] + s.vars, dirty := true), 0)
  }

  function VarUnset(s: State, name: string): (State, int) {
    var i := IndexOf(s.vars, name);
    if i == |s.vars| then (s, 0)
    else if s.vars[i].readonly then (s, 1)
    else (Touch(s.(vars := s.vars[..i] + s.vars[i + 1..]), name), 0)
  }

  function VarExport(s: State, name: string): (State, int) {
    if !IsIdentifier(name) then (s, 1)
    else
      var s' := if IndexOf(s.vars, name) < |s.vars| then s else VarSet(s, name, None).0;
      var i := IndexOf(s'.vars, name);
      if i == |s'.vars| then (s', 1)
      else (s'.(vars := s'.vars[i := s'.vars[i].(exported := true)], dirty := true), 0)
  }

  // ---------------------------------------------------------- environment

  function EnvEntry(v: Var): string {
    v.name + "=" + (if v.value.Some? then v.value.value else "")
  }

  /** The environment array: one entry for each exported variable, in order. */
  function Render(vars: seq<Var>): seq<string> {
    if vars == [] then []
    else (if vars[0].exported then [EnvEntry(vars[0])] else []) + Render(vars[1..])
  }

  function GetEnviron(s: State): (State, seq<string>) {
    if !s.dirty && s.env.Some? then (s, s.env.value)
    else (s.(env := Some(Render(s.vars)), dirty := false), Render(s.vars))
  }

  /** One inherited entry: set and exported when it has a name. */
  function InitEntry(s: State, e: string): State {
    var n := IndexOfChar(e, '=');
    if n == |e| || n == 0 then s
    else
      var (s', status) := VarSet(s, e[..n], Some(e[n + 1..]));
      if status == 0 then VarExport(s', e[..n]).0 else s'
  }

  function InitFromEnviron(s: State, envp: seq<string>): State
    decreases |envp|
  {
    if envp == [] then s else InitFromEnviron(InitEntry(s, envp[0]), envp[1..])
  }

  const NEW_SHELL := State([], None, true, None)

  // ------------------------------------------------------- command search

  /** The non-empty pieces of `s` between separators. */
  function Split(s: string, c: char): (ws: seq<string>)
    ensures forall i :: 0 <= i < |ws| ==> ws[i] != "" && c !in ws[i]
    decreases |s|
  {
    if s == "" then []
    else if s[0] == c then Split(s[1..], c)
    else [s[..IndexOfChar(s, c)]] + Split(s[IndexOfChar(s, c)..], c)
  }

  /** The first executable `dir/name`. */
  function FirstIn(dirs: seq<string>, name: string, exec: string -> bool): Option<string> {
    if dirs == [] then None
    else if exec(dirs[0] + "/" + name) then Some(dirs[0] + "/" + name)
    else FirstIn(dirs[1..], name, exec)
  }

  function SearchPath(path: string, name: string, exec: string -> bool): Option<string> {
    FirstIn(Split(path, ':'), name, exec)
  }

  /** Command search without any cache: the behaviour promised. */
  function Uncached(s: State, name: string, exec: string -> bool): Option<string> {
    if name == "" then None
    else if '/' in name then (if exec(name) then Some(name) else None)
    else
      var path := ValueOf(s.vars, "PATH");
      if path.None? then None else SearchPath(path.value, name, exec)
  }

  /** A remembered path that is still executable. */
  function CacheHit(s: State, name: string, exec: string -> bool): bool {
    s.cache.Some? && name in s.cache.value && exec(s.cache.value[name].path)
  }

  function CacheSet(s: State, name: string, path: string): State {
    var c := if s.cache.Some? then s.cache.value else map[];
    var hits := if name in c then c[name].hits else 0;
    s.(cache := Some(c[name := Entry(path, hits)]))
  }

  /** `find_command`, through the cache. */
  function FindCommand(s: State, name: string, exec: string -> bool): (State, Option<string>) {
    if name == "" then (s, None)
    else if '/' in name then (s, if exec(name) then Some(name) else None)
    else if CacheHit(s, name, exec) then
      var e := s.cache.value[name];
      (s.(cache := Some(s.cache.value[name := e.(hits := e.hits + 1)])), Some(e.path))
    else
      var path := ValueOf(s.vars, "PATH");
      if path.None? then (s, None)
      else
        var found := SearchPath(path.value, name, exec);
        if found.None? then (s, None)
        else
          var s' := CacheSet(s, name, found.value);
          (s'.(cache := Some(s'.cache.value[name := Entry(found.value, 1)])), found)
  }

  /** `hash -d`: status 0 when the name was not remembered. */
  function CacheDelete(s: State, name: string): (State, int) {
    if s.cache.None? || name !in s.cache.value then (s, 0)
    else (s.(cache := Some(s.cache.value - {name})), 1)
  }

  // ------------------------------------------------------------------ runs

  /** One call, with the executables of the file system at that moment. */
  datatype Call =
    | Set(name: string, value: Option<string>)
    | Unset(name: string)
    | Export(name: string)
    | Environ
    | Find(name: string)
    | Delete(name: string)
    | Clear

  function Do(s: State, c: Call, exec: string -> bool): State {
    match c
    case Set(n, v) => VarSet(s, n, v).0
    case Unset(n) => VarUnset(s, n).0
    case Export(n) => VarExport(s, n).0
    case Environ => GetEnviron(s).0
    case Find(n) => FindCommand(s, n, exec).0
    case Delete(n) => CacheDelete(s, n).0
    case Clear => ClearCache(s)
  }

  function Run(s: State, cs: seq<Call>, exec: string -> bool): State
    decreases |cs|
  {
    if cs == [] then s else Run(Do(s, cs[0], exec), cs[1..], exec)
  }

  /** A run during which the file system changes. */
  function RunChanging(s: State, cs: seq<(Call, string -> bool)>): State
    decreases |cs|
  {
    if cs == [] then s else RunChanging(Do(s, cs[0].0, cs[0].1), cs[1..])
  }
}
