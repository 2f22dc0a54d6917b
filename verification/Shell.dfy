/** The shell object: its variable list, its environment array and its command
    cache, updated in place; each method is tied to the transition it makes. */
module Shell {
  import opened Ascii
  import opened Wrappers
  import opened HashTable
  import opened ShellState

  const CMD_HASH_BUCKETS: nat := 61

  // ---------------------------------------------------- splitting a string

  /** After the run of bytes other than `c` that starts at `i`. */
  function PastRun(s: string, i: nat, c: char): string
    requires i <= |s|
  {
    s[i..][IndexOfChar(s[i..], c)..]
  }

  lemma PastNone(s: string, c: char)
    ensures Split("", c) == [] && PastRun(s, |s|, c) == ""
  {
  }

  lemma PastRunTurn(s: string, i: nat, c: char)
    requires i < |s|
    ensures s[i..][0] == s[i] && s[i..][1..] == s[i + 1..]
    ensures s[i] == c ==> PastRun(s, i, c) == s[i..] && Split(s[i..], c) == Split(s[i + 1..], c)
    ensures s[i] != c ==>
      PastRun(s, i, c) == PastRun(s, i + 1, c) && |Split(s[i..], c)| == 1 + |Split(PastRun(s, i, c), c)|
  {
    hide IndexOfChar;
    IndexTurn(s[i..], c);
    if s[i] != c {
      assert s[i..][1 + IndexOfChar(s[i + 1..], c)..] == s[i + 1..][IndexOfChar(s[i + 1..], c)..];
    }
  }

  method CountWords(s: string, c: char) returns (n: nat)
    ensures n == |Split(s, c)|
  {
    hide IndexOfChar, Split, PastRun;
    PastNone(s, c);
    var counted := false;
    n := 0;
    var i := 0;
    assert s[0..] == s;
    while i < |s|
      invariant 0 <= i <= |s|
      invariant |Split(s, c)| == n + |Split(if counted then PastRun(s, i, c) else s[i..], c)|
    {
      PastRunTurn(s, i, c);
      if s[i] != c && !counted {
        n := n + 1;
        counted := true;
      }
      if s[i] == c && counted {
        counted := false;
      }
      i := i + 1;
    }
  }

  /** The next word at or after `i`, and where it ends. */
  method NextWord(s: string, i: nat, c: char) returns (word: string, j: nat)
    requires i <= |s| && Split(s[i..], c) != []
    ensures i <= j <= |s|
    ensures Split(s[i..], c) == [word] + Split(s[j..], c)
  {
    hide IndexOfChar, Split;
    var b := i;
    while b < |s| && s[b] == c
      invariant i <= b <= |s|
      invariant Split(s[b..], c) == Split(s[i..], c)
    {
      PastRunTurn(s, b, c);
      b := b + 1;
    }
    j := b;
    while j < |s| && s[j] != c
      invariant b <= j <= |s|
      invariant IndexOfChar(s[b..], c) == j - b + IndexOfChar(s[j..], c)
    {
      IndexTurn(s[j..], c);
      PastRunTurn(s, j, c);
      j := j + 1;
    }
    word := s[b..j];
    IndexTurn(s[j..], c);
    assert s[b..][..j - b] == word && s[b..][j - b..] == s[j..];
    SplitWord(s[b..], c);
  }

  lemma SplitWord(s: string, c: char)
    requires Split(s, c) != []
    ensures s != "" && (s[0] != c ==> Split(s, c) == [s[..IndexOfChar(s, c)]] + Split(s[IndexOfChar(s, c)..], c))
  {
  }

  method StrSplit(s: string, c: char) returns (words: seq<string>)
    ensures words == Split(s, c)
  {
    hide Split;
    var count := CountWords(s, c);
    words := [];
    var i := 0;
    assert s[0..] == s;
    while count > 0
      invariant 0 <= i <= |s|
      invariant count == |Split(s[i..], c)|
      invariant words + Split(s[i..], c) == Split(s, c)
    {
      var word;
      word, i := NextWord(s, i, c);
      words := words + [word];
      count := count - 1;
    }
  }

  /** The first executable `dir/name` over the directories of PATH. */
  method FindInPath(path: string, name: string, exec: string -> bool) returns (found: Option<string>)
    ensures found == SearchPath(path, name, exec)
  {
    var dirs := StrSplit(path, ':');
    var i := 0;
    while i < |dirs|
      invariant 0 <= i <= |dirs|
      invariant FirstIn(dirs[i..], name, exec) == SearchPath(path, name, exec)
    {
      var full := dirs[i] + "/" + name;
      if exec(full) {
        return Some(full);
      }
      i := i + 1;
    }
    found := None;
  }

  // ------------------------------------------------------------- the shell

  class Shell {
    var variables: seq<Var>
    var env: Option<seq<string>>
    var envDirty: bool
    var cmdHash: Table?<Entry>

    constructor ()
      ensures Valid() && fresh(Objects()) && Abs() == NEW_SHELL
    {
      variables, env, envDirty, cmdHash := [], None, true, null;
    }

    /** The objects of the command cache. */
    ghost function Objects(): set<object>
      reads this, cmdHash
    {
      if cmdHash == null then {} else cmdHash.Repr
    }

    ghost predicate Valid()
      reads this, cmdHash, Objects(), if cmdHash == null then {} else {cmdHash.buckets}
    {
      this !in Objects() && (cmdHash != null ==> cmdHash.Valid())
    }

    /** The state this shell is in. */
    ghost function Abs(): State
      reads this, cmdHash
    {
      State(variables, env, envDirty, if cmdHash == null then None else Some(cmdHash.Contents))
    }

    // ------------------------------------------------------------ variables

    /** Position of a variable in the list, the length if it has none. */
    method VarFind(name: string) returns (i: nat)
      ensures i == IndexOf(variables, name)
    {
      i := 0;
      while i < |variables| && variables[i].name != name
        invariant 0 <= i <= |variables|
        invariant IndexOf(variables, name) == i + IndexOf(variables[i..], name)
      {
        i := i + 1;
      }
    }

    method VarGetValue(name: string) returns (value: Option<string>)
      ensures value == ValueOf(variables, name)
    {
      var i := VarFind(name);
      value := if i < |variables| then variables[i].value else None;
    }

    method VarSet(name: string, value: Option<string>) returns (status: int)
      requires Valid()
      modifies this, Objects()
      ensures Valid() && Objects() == old(Objects())
      ensures (Abs(), status) == ShellState.VarSet(old(Abs()), name, value)
    {
      hide IsIdentifier, HashTable.Table.Valid;
      if !IsIdentifier(name) {
        return 1;
      }
      var i := VarFind(name);
      if i < |variables| {
        if variables[i].readonly {
          return 1;
        }
        variables := variables[i := variables[i].(value := value)];
        envDirty := true;
        if name == "PATH" {
          CmdHashClear();
        }
        return 0;
      }
      variables := [Var(name, value, false, false)] + variables;
      envDirty := true;
      status := 0;
    }

    method VarUnset(name: string) returns (status: int)
      requires Valid()
      modifies this, Objects()
      ensures Valid() && Objects() == old(Objects())
      ensures (Abs(), status) == ShellState.VarUnset(old(Abs()), name)
    {
      hide HashTable.Table.Valid;
      var i := VarFind(name);
      if i == |variables| {
        return 0;
      }
      if variables[i].readonly {
        return 1;
      }
      variables := variables[..i] + variables[i + 1..];
      envDirty := true;
      if name == "PATH" {
        CmdHashClear();
      }
      status := 0;
    }

    method VarExport(name: string) returns (status: int)
      requires Valid()
      modifies this, Objects()
      ensures Valid() && Objects() == old(Objects())
      ensures (Abs(), status) == ShellState.VarExport(old(Abs()), name)
    {
      hide IsIdentifier, HashTable.Table.Valid, ClearCache;
      if !IsIdentifier(name) {
        return 1;
      }
      var i := VarFind(name);
      if i == |variables| {
        var created := VarSet(name, None);
        if created != 0 {
          return 1;
        }
        i := VarFind(name);
        if i == |variables| {
          return 1;
        }
      }
      variables := variables[i := variables[i].(exported := true)];
      envDirty := true;
      status := 0;
    }

    method CountExported() returns (count: nat)
      ensures count == |Render(variables)|
    {
      count := 0;
      var i := 0;
      while i < |variables|
        invariant 0 <= i <= |variables|
        invariant |Render(variables)| == count + |Render(variables[i..])|
      {
        if variables[i].exported {
          count := count + 1;
        }
        i := i + 1;
      }
    }

    /** The environment array, rebuilt only when it is out of date. */
    method VarGetEnviron() returns (environ: seq<string>)
      requires Valid()
      modifies this
      ensures Valid() && Objects() == old(Objects())
      ensures (Abs(), environ) == GetEnviron(old(Abs()))
    {
      if !envDirty && env.Some? {
        return env.value;
      }
      environ := BuildEnviron();
      env := Some(environ);
      envDirty := false;
    }

    method BuildEnviron() returns (environ: seq<string>)
      ensures environ == Render(variables)
    {
      hide Render, EnvEntry;
      var count := CountExported();
      environ := [];
      var i := 0;
      while i < |variables| && |environ| < count
        invariant 0 <= i <= |variables|
        invariant count == |Render(variables)|
        invariant environ + Render(variables[i..]) == Render(variables)
      {
        RenderTurn(variables[i..]);
        if variables[i].exported {
          environ := environ + [EnvEntry(variables[i])];
        }
        assert variables[i..][1..] == variables[i + 1..];
        i := i + 1;
      }
      RenderEmpty();
      assert |environ| == count ==> Render(variables[i..]) == [];
    }

    method VarInitFromEnviron(envp: seq<string>)
      requires Valid()
      modifies this, Objects()
      ensures Valid() && Objects() == old(Objects())
      ensures Abs() == InitFromEnviron(old(Abs()), envp)
    {
      var i := 0;
      while i < |envp|
        invariant 0 <= i <= |envp|
        invariant Valid() && Objects() == old(Objects())
        invariant InitFromEnviron(Abs(), envp[i..]) == InitFromEnviron(old(Abs()), envp)
      {
        var eq := IndexOfChar(envp[i], '=');
        InitTurn(Abs(), envp, i);
        if eq < |envp[i]| && eq != 0 {
          var name := envp[i][..eq];
          var status := VarSet(name, Some(envp[i][eq + 1..]));
          if status == 0 {
            var _ := VarExport(name);
          }
        }
        i := i + 1;
      }
    }

    // -------------------------------------------------------- command cache

    method CmdHashInit()
      requires Valid()
      modifies this`cmdHash
      ensures Valid() && cmdHash != null && fresh(Objects() - old(Objects()))
      ensures old(cmdHash) != null ==> cmdHash == old(cmdHash)
      ensures Abs() == if old(cmdHash) == null then old(Abs()).(cache := Some(map[])) else old(Abs())
    {
      if cmdHash == null {
        cmdHash := HashNew(CMD_HASH_BUCKETS);
      }
    }

    method CmdHashClear()
      requires Valid()
      modifies Objects()
      ensures Valid() && Objects() == old(Objects())
      ensures Abs() == ClearCache(old(Abs()))
      ensures unchanged(this)
    {
      if cmdHash != null {
        var _ := cmdHash.Clear();
      }
    }

    method CmdHashGet(name: string) returns (e: Option<Entry>)
      requires Valid()
      ensures e == if cmdHash != null && name in cmdHash.Contents then Some(cmdHash.Contents[name]) else None
    {
      if cmdHash == null {
        return None;
      }
      e := cmdHash.Get(name);
    }

    /** Keeps the use count of a name already remembered. */
    method CmdHashSet(name: string, path: string)
      requires Valid()
      modifies this`cmdHash, Objects()
      ensures Valid() && cmdHash != null && fresh(Objects() - old(Objects()))
      ensures Abs() == CacheSet(old(Abs()), name, path)
    {
      CmdHashInit();
      var existing := cmdHash.Get(name);
      var _ := cmdHash.Set(name, Entry(path, if existing.Some? then existing.value.hits else 0));
    }

    method CmdHashDelete(name: string) returns (status: int)
      requires Valid()
      modifies Objects()
      ensures Valid() && Objects() == old(Objects())
      ensures (Abs(), status) == CacheDelete(old(Abs()), name)
      ensures unchanged(this)
    {
      hide HashTable.Table.Valid;
      if cmdHash == null {
        return 0;
      }
      var removed := cmdHash.Delete(name);
      status := if removed.Some? then 1 else 0;
      assert removed.None? ==> cmdHash.Contents == old(cmdHash.Contents);
    }

    /** A remembered path that is still executable; counts the use. */
    method LookupCached(name: string, exec: string -> bool) returns (found: Option<string>)
      requires Valid()
      modifies Objects()
      ensures Valid() && fresh(Objects() - old(Objects()))
      ensures unchanged(this)
      ensures found.Some? <==> CacheHit(old(Abs()), name, exec)
      ensures found.None? ==> Abs() == old(Abs())
      ensures found.Some? ==>
        var e := old(Abs()).cache.value[name];
        && found.value == e.path
        && Abs() == old(Abs()).(cache := Some(old(Abs()).cache.value[name := e.(hits := e.hits + 1)]))
    {
      hide HashTable.Table.Valid;
      var e := CmdHashGet(name);
      if e.None? || !exec(e.value.path) {
        return None;
      }
      var _ := cmdHash.Set(name, e.value.(hits := e.value.hits + 1));
      found := Some(e.value.path);
    }

    method FindCommand(name: string, exec: string -> bool) returns (found: Option<string>)
      requires Valid()
      modifies this, Objects()
      ensures Valid() && fresh(Objects() - old(Objects()))
      ensures (Abs(), found) == ShellState.FindCommand(old(Abs()), name, exec)
    {
      hide SearchPath, ValueOf, HashTable.Table.Valid;
      if name == "" {
        return None;
      }
      if '/' in name {
        return if exec(name) then Some(name) else None;
      }
      found := LookupCached(name, exec);
      if found.Some? {
        return;
      }
      var path := VarGetValue("PATH");
      if path.None? {
        return None;
      }
      found := FindInPath(path.value, name, exec);
      if found.Some? {
        CmdHashSet(name, found.value);
        var _ := cmdHash.Set(name, Entry(found.value, 1));
      }
    }
  }

  lemma RenderEmpty()
    ensures Render([]) == []
  {
  }

  lemma RenderTurn(vars: seq<Var>)
    requires vars != []
    ensures Render(vars) == (if vars[0].exported then [EnvEntry(vars[0])] else []) + Render(vars[1..])
  {
  }

  lemma InitTurn(s: State, envp: seq<string>, i: nat)
    requires i < |envp|
    ensures InitFromEnviron(s, envp[i..]) == InitFromEnviron(InitEntry(s, envp[i]), envp[i + 1..])
  {
  }
}
