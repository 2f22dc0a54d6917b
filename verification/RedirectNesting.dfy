/** Redirection scopes inside redirection scopes, as blocks and builtins nest:
    the descriptor table after a whole command list. */
module RedirectNesting {
  import opened Tokens
  import opened Syntax
  import opened RedirectSpec
  import opened RedirectProofs

  /** Commands run in the shell itself: nothing that concerns descriptors, one
      after the other, or inside a scope of redirections with the
      here-document descriptors they hold. */
  datatype Body = Leaf | Both(first: Body, second: Body) | Scoped(rs: seq<Redir>, hs: seq<int>, body: Body)

  function Depth(b: Body): nat {
    match b
    case Leaf => 0
    case Both(p, q) => if Depth(p) > Depth(q) then Depth(p) else Depth(q)
    case Scoped(_, _, p) => 1 + Depth(p)
  }

  function Holds(hs: seq<int>): set<int> {
    set i | 0 <= i < |hs| && hs[i] != -1 :: hs[i]
  }

  /** The here-document descriptors of all its scopes. */
  function Descriptors(b: Body): set<int> {
    match b
    case Leaf => {}
    case Both(p, q) => Descriptors(p) + Descriptors(q)
    case Scoped(_, hs, p) => Holds(hs) + Descriptors(p)
  }

  predicate Closes(r: Redir) {
    r.kind in {RedirDupIn, RedirDupOut} && r.target == "-"
  }

  /** Each scope redirects 0, 1 and 2 only, and here-documents have descriptors
      of their own; a scope that contains another one closes nothing. */
  ghost predicate Orderly(b: Body) {
    match b
    case Leaf => true
    case Both(p, q) => Orderly(p) && Orderly(q) && Descriptors(p) !! Descriptors(q)
    case Scoped(rs, hs, p) =>
      && |rs| == |hs| && LowSources(rs) && Owned(rs, hs)
      && Orderly(p) && Holds(hs) !! Descriptors(p)
      && (Depth(p) > 0 ==> forall i :: 0 <= i < |rs| ==> !Closes(rs[i]))
  }

  ghost predicate Owned(rs: seq<Redir>, hs: seq<int>)
    requires |rs| == |hs|
  {
    && (forall i :: 0 <= i < |rs| && hs[i] != -1 ==> hs[i] > 2 && IsHeredoc(rs[i].kind))
    && (forall i, j :: 0 <= i < j < |rs| && hs[i] != -1 ==> hs[i] != hs[j])
  }

  function RunBody(t: Table, b: Body, sys: System): Table
    decreases b
  {
    match b
    case Leaf => t
    case Both(p, q) => RunBody(RunBody(t, p, sys), q, sys)
    case Scoped(rs, hs, p) =>
      if |rs| != |hs| then t
      else
        var (v, _, (s0, s1, s2), status) := Setup(t, rs, hs, sys);
        if status == -1 then v else Restore(RunBody(v, p, sys), s0, s1, s2, sys)
  }

  /** `u` is `t` but for some of the descriptors `fds`, closed. */
  ghost predicate Loses(t: Table, u: Table, fds: set<int>) {
    && (forall n :: n in u ==> n in t && u[n] == t[n])
    && (forall n :: n in t && n !in fds ==> n in u)
  }

  lemma {:induction false} FlatStays(t: Table, b: Body, sys: System)
    requires Depth(b) == 0
    ensures RunBody(t, b, sys) == t
  {
    match b {
      case Leaf =>
      case Both(p, q) =>
        FlatStays(t, p, sys);
        FlatStays(t, q, sys);
    }
  }

  /** A redirection that closes nothing leaves 0, 1 and 2 open. */
  lemma ApplyKeepsOpen(t: Table, r: Redir, h: int, sys: System)
    requires Standard(t, sys) && !Closes(r) && SourceFd(r) <= 2 && (h != -1 ==> h > 2 && IsHeredoc(r.kind))
    ensures var u := Apply(t, r, h, sys).0; 0 in u && 1 in u && 2 in u
  {
    hide FreeFrom;
  }

  lemma {:induction false} ApplyAllKeepsOpen(t: Table, rs: seq<Redir>, hs: seq<int>, sys: System)
    requires Standard(t, sys) && Held(t, rs, hs) && LowSources(rs)
    requires forall i :: 0 <= i < |rs| ==> !Closes(rs[i])
    ensures var u := ApplyAll(t, rs, hs, sys).0; 0 in u && 1 in u && 2 in u
    decreases |rs|
  {
    hide Apply, SameAbove;
    if rs != [] {
      var (u, h, status) := Apply(t, rs[0], hs[0], sys);
      ApplyKeeps(t, rs[0], hs[0], sys);
      ApplyKeepsOpen(t, rs[0], hs[0], sys);
      if status != -1 {
        HeldTail(t, u, rs, hs);
        ApplyAllKeepsOpen(u, rs[1..], hs[1..], sys);
      }
    }
  }

  /** The table inside a scope: the saved copies come on top, here-documents
      used up are gone, and there is still room. */
  lemma Inside(t: Table, rs: seq<Redir>, hs: seq<int>, sys: System)
    requires Standard(t, sys) && |t.Keys| + 3 <= sys.limit && LowSources(rs) && Held(t, rs, hs)
    ensures var (u, s0, s1, s2) := Save(t, sys);
            var (v, hs', status) := ApplyAll(u, rs, hs, sys);
            && Copies(t, u, s0, s1, s2) && InRange(u, sys) && InRange(v, sys)
            && SameAbove(u, v, Consumed(hs, hs'))
            && (forall n :: n in Consumed(hs, hs') ==> n > 2 && n in t && n in Holds(hs))
            && |v.Keys| <= |t.Keys| + 3
  {
    hide Save, ApplyAll;
    SaveCopies(t, sys);
    var (u, s0, s1, s2) := Save(t, sys);
    HeldAfterSave(t, u, s0, s1, s2, rs, hs);
    ApplyAllKeeps(u, rs, hs, sys);
    var (v, hs', status) := ApplyAll(u, rs, hs, sys);
    ConsumedHeld(t, rs, hs, hs');
    NoneAdded(u, v, Consumed(hs, hs'));
    assert u.Keys == t.Keys + {s0, s1, s2};
  }

  lemma HeldAfterSave(t: Table, u: Table, s0: int, s1: int, s2: int, rs: seq<Redir>, hs: seq<int>)
    requires Held(t, rs, hs) && Copies(t, u, s0, s1, s2)
    ensures Held(u, rs, hs)
  {
  }

  lemma NoneAdded(u: Table, v: Table, gone: set<int>)
    requires SameAbove(u, v, gone) && 0 in u && 1 in u && 2 in u && (forall n :: n in v ==> n >= 0)
    ensures |v.Keys| <= |u.Keys|
  {
    forall n | n in v.Keys ensures n in u.Keys {
      assert n in v;
    }
    Subset(v.Keys, u.Keys);
  }

  lemma Subset(a: set<int>, b: set<int>)
    requires a <= b
    ensures |a| <= |b|
  {
    assert b == a + (b - a);
  }

  lemma LosesTrans(t: Table, u: Table, v: Table, a: set<int>, b: set<int>)
    requires Loses(t, u, a) && Loses(u, v, b)
    ensures Loses(t, v, a + b)
  {
  }

  /** Descriptors 0, 1 and 2 are among those kept. */
  lemma LosesStandard(t: Table, u: Table, fds: set<int>, sys: System)
    requires Standard(t, sys) && Loses(t, u, fds) && (forall n :: n in fds ==> n > 2)
    ensures Standard(u, sys) && |u.Keys| <= |t.Keys|
  {
    forall n | n in u.Keys ensures n in t.Keys {
      assert n in u;
    }
    Subset(u.Keys, t.Keys);
  }

  lemma {:induction false} DescriptorsAbove(b: Body)
    requires Orderly(b)
    ensures forall n :: n in Descriptors(b) ==> n > 2
  {
    match b {
      case Leaf =>
      case Both(p, q) =>
        DescriptorsAbove(p);
        DescriptorsAbove(q);
      case Scoped(rs, hs, p) =>
        DescriptorsAbove(p);
    }
  }

  /** Main result: from a table with descriptors 0, 1 and 2 open, all
      here-documents open and room for the saved copies of every level, running
      scopes nested and in sequence to any depth, some failing, leaves every
      descriptor as it was but for here-documents used up. */
  lemma {:induction false} NestingRestores(t: Table, b: Body, sys: System)
    requires Orderly(b) && Standard(t, sys) && |t.Keys| + 3 * Depth(b) <= sys.limit
    requires Descriptors(b) <= t.Keys
    ensures Loses(t, RunBody(t, b, sys), Descriptors(b))
    decreases b, 0
  {
    match b {
      case Leaf =>
      case Both(p, q) =>
        hide Loses, Standard;
        var u := RunBody(t, p, sys);
        NestingRestores(t, p, sys);
        DescriptorsAbove(p);
        LosesStandard(t, u, Descriptors(p), sys);
        StillOpen(t, u, Descriptors(p), Descriptors(q));
        NestingRestores(u, q, sys);
        LosesTrans(t, u, RunBody(u, q, sys), Descriptors(p), Descriptors(q));
      case Scoped(rs, hs, p) =>
        ScopeAround(t, rs, hs, p, sys);
    }
  }

  lemma StillOpen(t: Table, u: Table, lost: set<int>, fds: set<int>)
    requires Loses(t, u, lost) && fds <= t.Keys && lost !! fds
    ensures fds <= u.Keys
  {
    forall n | n in fds ensures n in u.Keys {
      assert n in t.Keys && n in t;
    }
  }

  /** One scope around a body. */
  lemma {:induction false} ScopeAround(t: Table, rs: seq<Redir>, hs: seq<int>, p: Body, sys: System)
    requires Orderly(Scoped(rs, hs, p)) && Standard(t, sys) && |t.Keys| + 3 * (1 + Depth(p)) <= sys.limit
    requires Descriptors(Scoped(rs, hs, p)) <= t.Keys
    ensures Loses(t, RunBody(t, Scoped(rs, hs, p), sys), Descriptors(Scoped(rs, hs, p)))
    decreases p, 2
  {
    hide Standard, Loses, Copies, SameAbove, InRange, ApplyAll, Save, Restore, RunBody, LowSources, Held;
    ScopeFacts(t, rs, hs, p, sys);
    Inside(t, rs, hs, sys);
    var (u, s0, s1, s2) := Save(t, sys);
    var (v, hs', status) := ApplyAll(u, rs, hs, sys);
    ScopeRuns(t, rs, hs, p, sys);
    var all := Descriptors(Scoped(rs, hs, p));
    if status == -1 {
      RestoreUndoes(t, u, s0, s1, s2, v, Consumed(hs, hs'), sys);
      LosesMinus(t, Consumed(hs, hs'), all);
    } else {
      var w := RunBody(v, p, sys);
      BodyRuns(t, rs, hs, p, sys);
      var gone := v.Keys - w.Keys;
      AboveAgain(u, v, w, Consumed(hs, hs'), Descriptors(p), sys);
      RestoreUndoes(t, u, s0, s1, s2, w, Consumed(hs, hs') + gone, sys);
      LosesMinus(t, Consumed(hs, hs') + gone, all);
    }
  }

  lemma ScopeFacts(t: Table, rs: seq<Redir>, hs: seq<int>, p: Body, sys: System)
    requires Orderly(Scoped(rs, hs, p)) && Standard(t, sys) && Descriptors(Scoped(rs, hs, p)) <= t.Keys
    ensures InRange(t, sys) && LowSources(rs) && Held(t, rs, hs) && Orderly(p)
    ensures Descriptors(p) <= t.Keys && Holds(hs) !! Descriptors(p) && forall n :: n in Descriptors(p) ==> n > 2
  {
    hide Orderly;
    OrderlyScope(rs, hs, p);
    DescriptorsAbove(p);
    forall i | 0 <= i < |rs| && hs[i] != -1 ensures hs[i] in t {
      assert hs[i] in Holds(hs);
    }
  }

  lemma OrderlyScope(rs: seq<Redir>, hs: seq<int>, p: Body)
    requires Orderly(Scoped(rs, hs, p))
    ensures |rs| == |hs| && LowSources(rs) && Owned(rs, hs) && Orderly(p) && Holds(hs) !! Descriptors(p)
    ensures Depth(p) > 0 ==> forall i :: 0 <= i < |rs| ==> !Closes(rs[i])
  {
  }

  lemma ScopeRuns(t: Table, rs: seq<Redir>, hs: seq<int>, p: Body, sys: System)
    requires |rs| == |hs|
    ensures var (u, s0, s1, s2) := Save(t, sys);
            var (v, _, status) := ApplyAll(u, rs, hs, sys);
            RunBody(t, Scoped(rs, hs, p), sys)
              == Restore(if status == -1 then v else RunBody(v, p, sys), s0, s1, s2, sys)
  {
    hide Save, ApplyAll, Restore;
  }

  /** The body of a scope loses its own here-documents only. */
  lemma {:induction false} BodyRuns(t: Table, rs: seq<Redir>, hs: seq<int>, p: Body, sys: System)
    requires Orderly(Scoped(rs, hs, p)) && Standard(t, sys) && |t.Keys| + 3 * (1 + Depth(p)) <= sys.limit
    requires Descriptors(Scoped(rs, hs, p)) <= t.Keys
    ensures var v := ApplyAll(Save(t, sys).0, rs, hs, sys).0;
            Loses(v, RunBody(v, p, sys), Descriptors(p))
    decreases p, 1
  {
    hide Standard, Loses, ApplyAll, Save, RunBody, Held, LowSources, Closes;
    ScopeFacts(t, rs, hs, p, sys);
    Inside(t, rs, hs, sys);
    var (u, s0, s1, s2) := Save(t, sys);
    var (v, hs', status) := ApplyAll(u, rs, hs, sys);
    if Depth(p) == 0 {
      FlatStays(v, p, sys);
      LosesNothing(v, Descriptors(p));
    } else {
      HeldAfterSave(t, u, s0, s1, s2, rs, hs);
      CopiesStandard(t, u, s0, s1, s2, sys);
      ApplyAllKeepsOpen(u, rs, hs, sys);
      StandardAgain(v, sys);
      forall n | n in Descriptors(p) ensures n in v {
        assert n in t && n > 2 && n !in Consumed(hs, hs');
        assert n in u;
      }
      NestingRestores(v, p, sys);
    }
  }

  lemma StandardAgain(v: Table, sys: System)
    requires InRange(v, sys) && 0 in v && 1 in v && 2 in v
    ensures Standard(v, sys)
  {
  }

  lemma LosesNothing(t: Table, fds: set<int>)
    ensures Loses(t, t, fds)
  {
  }

  lemma LosesMinus(t: Table, gone: set<int>, fds: set<int>)
    requires gone <= fds
    ensures Loses(t, t - gone, fds)
  {
  }

  /** After the body, above 2: what the redirections left, without what the
      body lost. */
  lemma AboveAgain(u: Table, v: Table, w: Table, used: set<int>, fds: set<int>, sys: System)
    requires SameAbove(u, v, used) && Loses(v, w, fds) && InRange(v, sys)
    ensures SameAbove(u, w, used + (v.Keys - w.Keys)) && InRange(w, sys) && v.Keys - w.Keys <= fds
  {
    forall n | n in v.Keys - w.Keys ensures n in fds {
      assert n in v && n !in w;
    }
  }
}
