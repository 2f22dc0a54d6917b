/** The process's descriptor table under redirections, updated in place. */
module Redirect {
  import opened Ascii
  import opened Decimal
  import opened Tokens
  import opened Syntax
  import opened Wrappers
  import opened RedirectSpec
  import opened SeqFacts

  class Descriptors {
    var table: Table
    const sys: System

    constructor (table: Table, sys: System)
      ensures this.table == table && this.sys == sys
    {
      this.table, this.sys := table, sys;
    }

    // -------------------------------------------------------- system calls

    method OpenFile(file: Option<int>) returns (fd: int)
      modifies this
      ensures (table, fd) == Open(old(table), file, sys)
    {
      var n: nat := 0;
      while n < sys.limit && n in table
        invariant n <= sys.limit && FreeFrom(table, 0, sys.limit) == FreeFrom(table, n, sys.limit)
      {
        n := n + 1;
      }
      if file.None? || n == sys.limit {
        return -1;
      }
      table := table[n := file.value];
      fd := n;
    }

    method DupFd(from: int) returns (fd: int)
      modifies this
      ensures (table, fd) == Dup(old(table), from, sys)
    {
      fd := OpenFile(if from in table then Some(table[from]) else None);
    }

    method Dup2Fd(from: int, to: int) returns (fd: int)
      modifies this
      ensures (table, fd) == Dup2(old(table), from, to, sys)
    {
      if from !in table || !(0 <= to < sys.limit) {
        return -1;
      }
      table := table[to := table[from]];
      fd := to;
    }

    method CloseFd(fd: int)
      modifies this
      ensures table == Close(old(table), fd)
    {
      table := table - {fd};
    }

    // -------------------------------------------------------- redirections

    method RedirOpenFile(r: Redir) returns (fd: int)
      modifies this
      ensures (table, fd) == OpenTarget(old(table), r, sys)
    {
      hide Open, Dup2;
      var fdIn := -1;
      if 0 !in table {
        fdIn := OpenFile(sys.null_);
        if fdIn != 0 {
          var _ := Dup2Fd(fdIn, 0);
        }
      }
      if r.kind == RedirIn || r.kind == RedirOut || r.kind == RedirAppend {
        fd := OpenFile(sys.opens(r.kind, r.target));
      } else {
        fd := -2;
      }
      if fdIn > 0 {
        CloseFd(fdIn);
      }
    }

    method ApplyDupRedir(r: Redir) returns (status: int)
      modifies this
      ensures (table, status) == Duplicate(old(table), r, sys)
    {
      if r.target == "-" {
        CloseFd(SourceFd(r));
        return 0;
      }
      if !IsDigit(At(r.target, 0)) {
        return -1;
      }
      var fd := Dup2Fd(Value(r.target[..DigitRun(r.target)], 0), SourceFd(r));
      status := if fd == -1 then -1 else 0;
    }

    /** One redirection; `h'` is what remains of its here-document. */
    method ApplyOneRedir(r: Redir, h: int) returns (h': int, status: int)
      modifies this
      ensures (table, h', status) == Apply(old(table), r, h, sys)
    {
      hide OpenTarget, Duplicate;
      h' := h;
      if r.kind == RedirDupIn || r.kind == RedirDupOut {
        status := ApplyDupRedir(r);
        return;
      }
      if IsHeredoc(r.kind) && h != -1 {
        var fd := Dup2Fd(h, SourceFd(r));
        CloseFd(h);
        return -1, if fd < 0 then -1 else 0;
      }
      var file := RedirOpenFile(r);
      if file == -1 {
        return h, -1;
      }
      var fd := Dup2Fd(file, SourceFd(r));
      if fd < 0 {
        if file >= 0 {
          CloseFd(file);
        }
        return h, -1;
      }
      if file >= 0 {
        CloseFd(file);
      }
      status := 0;
    }

    /** Saves 0, 1 and 2, then redirects in order; the first failure restores. */
    method SetupRedirections(rs: seq<Redir>, hs: array<int>) returns (s0: int, s1: int, s2: int, status: int)
      requires |rs| == hs.Length
      modifies this, hs
      ensures (table, hs[..], (s0, s1, s2), status) == Setup(old(table), rs, old(hs[..]), sys)
    {
      hide Dup, Apply, ApplyAll, Restore, Dup2, Close, Reached;
      s0 := DupFd(0);
      s1 := DupFd(1);
      s2 := DupFd(2);
      ghost var saved, before, done := table, hs[..], [];
      ReachedStart(saved, rs, before, sys);
      var i := 0;
      while i < |rs|
        invariant 0 <= i <= |rs|
        invariant hs[..i] == done && hs[i..] == before[i..]
        invariant Reached(saved, rs, before, sys, table, done, i)
      {
        var h;
        ghost var start := table;
        h, status := ApplyOneRedir(rs[i], hs[i]);
        ReachedStep(saved, rs, before, sys, start, done, i);
        hs[i] := h;
        done := done + [h];
        i := i + 1;
        if status == -1 {
          assert hs[..] == done + before[i..];
          RestoreRedirections(s0, s1, s2);
          return;
        }
      }
      ReachedEnd(saved, rs, before, sys, table, done);
      assert hs[..] == done;
      status := 0;
    }

    method RestoreRedirections(s0: int, s1: int, s2: int)
      modifies this
      ensures table == Restore(old(table), s0, s1, s2, sys)
    {
      hide Dup2;
      var _ := Dup2Fd(s0, 0);
      var _ := Dup2Fd(s1, 1);
      var _ := Dup2Fd(s2, 2);
      CloseFd(s0);
      CloseFd(s1);
      CloseFd(s2);
    }
  }

  /** From `saved`, the redirections before `i` lead to table `t` and leave the
      here-documents `done`. */
  ghost predicate Reached(saved: Table, rs: seq<Redir>, hs: seq<int>, sys: System, t: Table, done: seq<int>, i: nat)
    requires |rs| == |hs| && i <= |rs|
  {
    var (t2, rest, status) := ApplyAll(t, rs[i..], hs[i..], sys);
    ApplyAll(saved, rs, hs, sys) == (t2, done + rest, status)
  }

  lemma ReachedStart(saved: Table, rs: seq<Redir>, hs: seq<int>, sys: System)
    requires |rs| == |hs|
    ensures Reached(saved, rs, hs, sys, saved, [], 0)
  {
    hide ApplyAll;
    assert rs[0..] == rs && hs[0..] == hs;
    var rest := ApplyAll(saved, rs, hs, sys).1;
    assert [] + rest == rest;
  }

  lemma ReachedStep(saved: Table, rs: seq<Redir>, hs: seq<int>, sys: System, t: Table, done: seq<int>, i: nat)
    requires |rs| == |hs| && i < |rs| && Reached(saved, rs, hs, sys, t, done, i)
    ensures var (t1, h, status) := Apply(t, rs[i], hs[i], sys);
            if status == -1 then ApplyAll(saved, rs, hs, sys) == (t1, done + [h] + hs[i + 1..], -1)
            else Reached(saved, rs, hs, sys, t1, done + [h], i + 1)
  {
    hide Apply;
    ApplyTurn(t, rs, hs, i, sys);
    hide ApplyAll;
    var (t1, h, status) := Apply(t, rs[i], hs[i], sys);
    if status == -1 {
      Assoc(done, [h], hs[i + 1..]);
    } else {
      Assoc(done, [h], ApplyAll(t1, rs[i + 1..], hs[i + 1..], sys).1);
    }
  }

  lemma ReachedEnd(saved: Table, rs: seq<Redir>, hs: seq<int>, sys: System, t: Table, done: seq<int>)
    requires |rs| == |hs| && Reached(saved, rs, hs, sys, t, done, |rs|)
    ensures ApplyAll(saved, rs, hs, sys) == (t, done, 0)
  {
    assert rs[|rs|..] == [] && hs[|rs|..] == [];
    assert ApplyAll(t, [], [], sys) == (t, [], 0);
    hide ApplyAll;
    assert done + [] == done;
  }

  lemma ApplyTurn(t: Table, rs: seq<Redir>, hs: seq<int>, i: nat, sys: System)
    requires |rs| == |hs| && i < |rs|
    ensures ApplyAll(t, rs[i..], hs[i..], sys) ==
      var (t1, h, status) := Apply(t, rs[i], hs[i], sys);
      if status == -1 then (t1, [h] + hs[i + 1..], -1)
      else
        var (t2, rest, status') := ApplyAll(t1, rs[i + 1..], hs[i + 1..], sys);
        (t2, [h] + rest, status')
  {
    hide Apply;
    assert rs[i..][1..] == rs[i + 1..] && hs[i..][1..] == hs[i + 1..];
  }
}
