/** The logical `cd`: a path reduced to its normal form. */
module Cd {
  import opened Wrappers
  import opened SeqFacts
  import opened ShellState
  import opened ShellProofs
  import opened Shell

  const POSIX_PATH_MAX: nat := 256

  predicate TooLong(cs: seq<string>) {
    exists i :: 0 <= i < |cs| && |cs[i]| >= POSIX_PATH_MAX
  }

  /** Components after `acc`: `.` goes, `..` takes one back, if there is one. */
  function Reduce(acc: seq<string>, cs: seq<string>): seq<string>
    decreases |cs|
  {
    if cs == [] then acc
    else if cs[0] == ".." then Reduce(if acc == [] then acc else acc[..|acc| - 1], cs[1..])
    else if cs[0] == "." then Reduce(acc, cs[1..])
    else Reduce(acc + [cs[0]], cs[1..])
  }

  function Concatenate(base: string, add: string): string {
    (if |base| > 1 then base + "/" else base) + add
  }

  function Joined(cs: seq<string>): (p: string)
    ensures p != ""
  {
    if cs == [] then "/" else Concatenate(Joined(cs[..|cs| - 1]), cs[|cs| - 1])
  }

  /** `resolve_path`: None when a component is too long. */
  function Resolve(path: string): Option<string> {
    var cs := Split(path, '/');
    if TooLong(cs) then None else Some(Joined(Reduce([], cs)))
  }

  /** A relative path under a base. */
  function JoinPaths(base: string, relative: string): string
    requires base != ""
  {
    (if base[|base| - 1] == '/' then base else base + "/") + relative
  }

  // ------------------------------------------------------------ normal form

  predicate Clean(c: string) {
    c != "" && c != "." && c != ".." && '/' !in c && |c| < POSIX_PATH_MAX
  }

  ghost predicate AllClean(cs: seq<string>) {
    forall i :: 0 <= i < |cs| ==> Clean(cs[i])
  }

  /** Absolute, no empty, `.` or `..` component, no slash at the end but `/`. */
  ghost predicate Normal(path: string) {
    exists cs :: AllClean(cs) && path == Joined(cs)
  }

  lemma {:induction false} ReduceClean(acc: seq<string>, cs: seq<string>)
    requires AllClean(acc) && !TooLong(cs)
    requires forall i :: 0 <= i < |cs| ==> cs[i] != "" && '/' !in cs[i]
    ensures AllClean(Reduce(acc, cs))
    decreases |cs|
  {
    if cs != [] {
      assert !TooLong(cs[1..]) by {
        forall i | 0 <= i < |cs[1..]| ensures |cs[1..][i]| < POSIX_PATH_MAX {
          assert cs[1..][i] == cs[i + 1];
        }
      }
      if cs[0] == ".." {
        ReduceClean(if acc == [] then acc else acc[..|acc| - 1], cs[1..]);
      } else if cs[0] == "." {
        ReduceClean(acc, cs[1..]);
      } else {
        ReduceClean(acc + [cs[0]], cs[1..]);
      }
    }
  }

  lemma {:induction false} ReduceKeeps(acc: seq<string>, cs: seq<string>)
    requires AllClean(cs)
    ensures Reduce(acc, cs) == acc + cs
    decreases |cs|
  {
    if cs == [] {
      assert acc + [] == acc;
    } else {
      ReduceKeeps(acc + [cs[0]], cs[1..]);
      assert acc + [cs[0]] + cs[1..] == acc + cs;
    }
  }

  lemma {:induction false} ReduceAppend(acc: seq<string>, a: seq<string>, b: seq<string>)
    ensures Reduce(acc, a + b) == Reduce(Reduce(acc, a), b)
    decreases |a|
  {
    if a == [] {
      assert a + b == b;
    } else {
      assert (a + b)[1..] == a[1..] + b;
      ReduceAppend(if a[0] == ".." then (if acc == [] then acc else acc[..|acc| - 1])
                   else if a[0] == "." then acc else acc + [a[0]], a[1..], b);
    }
  }

  lemma {:induction false} SplitJoined(cs: seq<string>)
    requires AllClean(cs)
    ensures Split(Joined(cs), '/') == cs
    ensures cs == [] <==> Joined(cs) == "/"
    ensures |Joined(cs)| > 1 ==> Joined(cs)[|Joined(cs)| - 1] != '/'
    decreases |cs|
  {
    if cs == [] {
      SplitJoin("", '/', "");
      assert "" + ['/'] + "" == "/";
    } else {
      var c, rest := cs[|cs| - 1], cs[..|cs| - 1];
      SplitJoined(rest);
      JoinedEnd(cs);
      hide Split, Joined;
      SplitJoin(c, '/', "");
      SplitJoin(if rest == [] then "" else Joined(rest), '/', c);
      assert rest + [c] == cs;
    }
  }

  /** The last component of a joined path. */
  lemma JoinedEnd(cs: seq<string>)
    requires cs != [] && AllClean(cs)
    ensures var c, rest := cs[|cs| - 1], cs[..|cs| - 1];
            var front := if rest == [] then "" else Joined(rest);
            && Joined(cs) == front + ['/'] + c && Joined(cs) != "/"
            && Joined(cs)[|Joined(cs)| - 1] != '/'
  {
    var c := cs[|cs| - 1];
    assert c != "" && c[|c| - 1] != '/';
  }

  /** A path resolves to one in normal form. */
  lemma ResolveIsNormal(path: string)
    ensures match Resolve(path)
            case Some(p) => Normal(p) && Split(p, '/') == Reduce([], Split(path, '/'))
            case None => TooLong(Split(path, '/'))
  {
    var cs := Split(path, '/');
    if !TooLong(cs) {
      ReduceClean([], cs);
      SplitJoined(Reduce([], cs));
    }
  }

  /** A path resolves to itself exactly when it is in normal form; so resolving
      twice is resolving once. */
  lemma FixedExactly(path: string)
    ensures Resolve(path) == Some(path) <==> Normal(path)
  {
    if Normal(path) {
      var cs :| AllClean(cs) && path == Joined(cs);
      SplitJoined(cs);
      ReduceKeeps([], cs);
      assert [] + cs == cs;
    }
    ResolveIsNormal(path);
  }

  lemma ResolveTwice(path: string)
    ensures Resolve(path).Some? ==> Resolve(Resolve(path).value) == Resolve(path)
  {
    ResolveIsNormal(path);
    if Resolve(path).Some? {
      FixedExactly(Resolve(path).value);
    }
  }

  /** Going to `q` from the resolved `p` is resolving `p/q`. */
  lemma ResolveStepwise(p: string, q: string)
    requires Resolve(p).Some?
    ensures Resolve(p).value != ""
    ensures JoinPaths(Resolve(p).value, q) == (if Resolve(p).value == "/" then "/" else Resolve(p).value + "/") + q
    ensures Resolve(JoinPaths(Resolve(p).value, q)) == Resolve(p + "/" + q)
  {
    hide Resolve, Split, TooLong;
    var r := Resolve(p).value;
    ResolvedEnd(p);
    ResolvedSplit(p, q);
    SplitJoin(p, '/', q);
    assert p + ['/'] + q == p + "/" + q;
    ReduceAppend([], Split(p, '/'), Split(q, '/'));
    ReduceAppend([], Split(r, '/'), Split(q, '/'));
    ResolvedClean(p);
    ReduceKeeps([], Split(r, '/'));
    assert [] + Split(r, '/') == Split(r, '/');
    TooLongAppend(Split(p, '/'), Split(q, '/'));
    TooLongAppend(Split(r, '/'), Split(q, '/'));
    ResolveIs(p + "/" + q);
    ResolveIs(JoinPaths(r, q));
  }

  lemma ResolveIs(path: string)
    ensures Resolve(path) == if TooLong(Split(path, '/')) then None else Some(Joined(Reduce([], Split(path, '/'))))
  {
  }

  /** Only the root ends with a slash. */
  lemma ResolvedEnd(p: string)
    requires Resolve(p).Some?
    ensures var r := Resolve(p).value; r != "" && (r[|r| - 1] == '/' <==> r == "/")
  {
    hide Split, Reduce, Joined;
    var acc := Reduce([], Split(p, '/'));
    ReduceClean([], Split(p, '/'));
    SplitJoined(acc);
    RootAlone(acc);
  }

  lemma ResolvedClean(p: string)
    requires Resolve(p).Some?
    ensures var cs := Split(Resolve(p).value, '/');
            AllClean(cs) && !TooLong(cs) && !TooLong(Split(p, '/')) && cs == Reduce([], Split(p, '/'))
  {
    ReduceClean([], Split(p, '/'));
    SplitJoined(Reduce([], Split(p, '/')));
  }

  lemma ResolvedSplit(p: string, q: string)
    requires Resolve(p).Some?
    ensures var r := Resolve(p).value;
            r != "" && Split(JoinPaths(r, q), '/') == Split(r, '/') + Split(q, '/')
  {
    var r := Resolve(p).value;
    var cs := Reduce([], Split(p, '/'));
    ReduceClean([], Split(p, '/'));
    SplitJoined(cs);
    if cs == [] {
      SplitJoin("", '/', q);
      SplitJoin("", '/', "");
      assert "" + ['/'] + "" == "/" && "" + ['/'] + q == "/" + q;
      assert [] + Split(q, '/') == Split(q, '/');
    } else {
      SplitJoin(r, '/', q);
      assert r + ['/'] + q == r + "/" + q;
    }
  }

  lemma TooLongAppend(a: seq<string>, b: seq<string>)
    ensures TooLong(a + b) <==> (TooLong(a) || TooLong(b))
  {
    if TooLong(a) {
      var i :| 0 <= i < |a| && |a[i]| >= POSIX_PATH_MAX;
      assert (a + b)[i] == a[i];
    }
    if TooLong(b) {
      var i :| 0 <= i < |b| && |b[i]| >= POSIX_PATH_MAX;
      assert (a + b)[|a| + i] == b[i];
    }
  }

  /** `..` at the root stays at the root. */
  lemma ParentOfRoot(q: string)
    ensures Resolve("/../" + q) == Resolve("/" + q)
  {
    var s := "/../" + q;
    assert s == ("" + ['/'] + "..") + ['/'] + q && "/" + q == "" + ['/'] + q;
    SplitJoin("" + ['/'] + "..", '/', q);
    SplitJoin("", '/', "..");
    SplitJoin("..", '/', "");
    SplitJoin("", '/', q);
    var cs := Split(q, '/');
    TooLongAppend([".."], cs);
    assert [] + [".."] + cs == [".."] + cs && ([".."] + cs)[1..] == cs && [] + cs == cs;
  }

  // ------------------------------------------------ component by component

  /** The components of `p/c` for a single `c`. */
  lemma OneComponent(p: string, c: string)
    requires '/' !in c
    ensures Split(p + "/" + c, '/') == Split(p, '/') + if c == "" then [] else [c]
  {
    hide Split;
    assert p + "/" + c == p + ['/'] + c;
    SplitJoin(p, '/', c);
    SplitJoin(c, '/', "");
    NoSlash(c);
  }

  lemma NoSlash(c: string)
    requires '/' !in c
    ensures Split(c, '/') == if c == "" then [] else [c]
  {
    if c != "" {
      assert c[..|c|] == c && c[|c|..] == "";
    }
  }

  lemma OneLong(cs: seq<string>, c: string)
    ensures TooLong(cs + [c]) <==> TooLong(cs) || |c| >= 256
  {
    hide TooLong;
    TooLongAppend(cs, [c]);
    assert TooLong([c]) <==> |c| >= 256 by { LongAlone(c); }
  }

  lemma LongAlone(c: string)
    ensures TooLong([c]) <==> |c| >= 256
  {
    if |c| >= 256 {
      assert [c][0] == c;
    }
  }

  /** One more component: an empty one and `.` change nothing, any other but
      `..` is appended, and one of 256 bytes or more is an error, as is any
      after an error. */
  lemma ResolveStep(p: string, c: string)
    requires '/' !in c && c != ".."
    ensures Resolve(p + "/" + c) ==
      match Resolve(p)
      case None => None
      case Some(r) =>
        if c == "" || c == "." then Some(r)
        else if |c| >= 256 then None
        else Some((if r == "/" then r else r + "/") + c)
  {
    hide Split, Reduce, TooLong, Joined;
    OneComponent(p, c);
    ResolveIs(p);
    ResolveIs(p + "/" + c);
    if c == "" {
      assert Split(p, '/') + [] == Split(p, '/');
    } else {
      OneLong(Split(p, '/'), c);
      OneMore(Split(p, '/'), c);
      if !TooLong(Split(p, '/')) {
        JoinedMore(Split(p, '/'), c);
      }
    }
  }

  lemma JoinedMore(cs: seq<string>, c: string)
    requires !TooLong(cs) && (forall i :: 0 <= i < |cs| ==> cs[i] != "" && '/' !in cs[i])
    ensures var acc := Reduce([], cs);
            Joined(acc + [c]) == (if Joined(acc) == "/" then "/" else Joined(acc) + "/") + c
  {
    hide Split, Reduce, TooLong;
    var acc := Reduce([], cs);
    ReduceClean([], cs);
    SplitJoined(acc);
    assert (acc + [c])[..|acc|] == acc;
    RootAlone(acc);
  }

  lemma RootAlone(cs: seq<string>)
    requires AllClean(cs)
    ensures |Joined(cs)| > 1 <==> Joined(cs) != "/"
  {
    if cs != [] {
      JoinedEnd(cs);
    }
  }

  /** `..` goes to the parent, and stays at the root. */
  lemma ResolveParent(p: string, d: string, e: string)
    requires Resolve(p) == Some("/") || (Resolve(p) == Some(d + "/" + e) && '/' !in e)
    ensures Resolve(p + "/" + "..") == if Resolve(p) == Some("/") || d == "" then Some("/") else Some(d)
  {
    hide Split, Reduce, TooLong, Joined;
    OneComponent(p, "..");
    ResolveIs(p);
    ResolveIs(p + "/" + "..");
    var cs := Split(p, '/');
    OneLong(cs, "..");
    OneMore(cs, "..");
    var acc := Reduce([], cs);
    ReduceClean([], cs);
    SplitJoined(acc);
    if acc != [] {
      JoinedEnd(acc);
      var c, rest := acc[|acc| - 1], acc[..|acc| - 1];
      var front := if rest == [] then "" else Joined(rest);
      LastSlash(front, c, d, e);
      SplitJoined(rest);
      RootIs();
    }
  }

  lemma RootIs()
    ensures Joined([]) == "/"
  {
  }

  lemma LastSlash(a: string, b: string, d: string, e: string)
    requires a + ['/'] + b == d + "/" + e && '/' !in b && '/' !in e
    ensures a == d && b == e
  {
    var s := a + ['/'] + b;
    assert s[|a|] == '/' && s[|d|] == '/';
    assert forall i :: |a| < i < |s| ==> s[i] == b[i - |a| - 1];
    assert forall i :: |d| < i < |s| ==> s[i] == e[i - |d| - 1];
    assert s[..|a|] == a && s[..|d|] == d && s[|a| + 1..] == b && s[|d| + 1..] == e;
  }

  /** Where a path starts. */
  lemma ResolveNothing()
    ensures Resolve("") == Some("/")
  {
  }

  // ------------------------------------------------------------ the methods

  /** The next component at or after `i`. */
  method StrTok(s: string, i: nat, c: char) returns (token: Option<string>, j: nat)
    requires i <= |s|
    ensures i <= j <= |s|
    ensures token.None? ==> Split(s[i..], c) == []
    ensures token.Some? ==> Split(s[i..], c) == [token.value] + Split(s[j..], c) && i < j
  {
    hide Split;
    j := i;
    while j < |s| && s[j] == c
      invariant i <= j <= |s|
      invariant Split(s[j..], c) == Split(s[i..], c)
    {
      PastRunTurn(s, j, c);
      j := j + 1;
    }
    if j == |s| {
      assert s[j..] == "";
      SplitJoin("", c, "");
      return None, j;
    }
    PastRunTurn(s, j, c);
    var word;
    word, j := NextWord(s, j, c);
    token := Some(word);
  }

  method ResolvePath(path: string) returns (resolved: Option<string>)
    ensures resolved == Resolve(path)
  {
    hide Split, Reduce, TooLong, Joined;
    var tokens: seq<string> := [];
    ghost var done: seq<string> := [];
    var token, i := StrTok(path, 0, '/');
    assert path[0..] == path;
    NothingReduced();
    while token.Some?
      invariant i <= |path|
      invariant Split(path, '/') == done + (if token.Some? then [token.value] + Split(path[i..], '/') else [])
      invariant tokens == Reduce([], done) && !TooLong(done)
      decreases |path| - i, if token.Some? then 1 else 0
    {
      var t := token.value;
      OneMore(done, t);
      TooLongAppend(done + [t], Split(path[i..], '/'));
      Assoc(done, [t], Split(path[i..], '/'));
      if |t| >= POSIX_PATH_MAX {
        return None;
      }
      if t == ".." {
        tokens := if tokens == [] then tokens else tokens[..|tokens| - 1];
      } else if t != "." {
        tokens := tokens + [t];
      }
      done := done + [t];
      token, i := StrTok(path, i, '/');
    }
    assert done + [] == done;
    var joined := JoinTokens(tokens);
    resolved := Some(joined);
  }

  method JoinTokens(tokens: seq<string>) returns (path: string)
    ensures path == Joined(tokens)
  {
    path := "/";
    var k := 0;
    while k < |tokens|
      invariant 0 <= k <= |tokens| && path == Joined(tokens[..k])
    {
      assert tokens[..k + 1][..k] == tokens[..k];
      path := Concatenate(path, tokens[k]);
      k := k + 1;
    }
    assert tokens[..k] == tokens;
  }

  lemma NothingReduced()
    ensures Reduce([], []) == [] && !TooLong([])
  {
  }

  lemma OneMore(done: seq<string>, t: string)
    ensures TooLong(done + [t]) <==> (TooLong(done) || |t| >= POSIX_PATH_MAX)
    ensures var r := Reduce([], done);
            Reduce([], done + [t]) ==
              if t == ".." then (if r == [] then r else r[..|r| - 1]) else if t == "." then r else r + [t]
  {
    ReduceAppend([], done, [t]);
    TooLongAppend(done, [t]);
    assert [t][1..] == [];
    assert TooLong([t]) <==> |t| >= POSIX_PATH_MAX by {
      if |t| >= POSIX_PATH_MAX {
        assert [t][0] == t;
      }
    }
  }
}
