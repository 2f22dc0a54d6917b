/** Handing queued bodies to here-documents by walking the tree. */
module HeredocQueue {
  import opened Tokens
  import opened Syntax
  import opened Wrappers
  import opened ParserSpec
  import opened ParserRoundTrip
  import opened ParserSound
  import opened Heredocs

  /** Each here-document with the body it takes; with nothing queued, an empty
      one. */
  function Fill(rs: seq<Redir>, queue: seq<string>): seq<(Redir, string)>
    decreases |rs|
  {
    if rs == [] then []
    else if queue == [] then [(rs[0], "")] + Fill(rs[1..], [])
    else [(rs[0], queue[0])] + Fill(rs[1..], queue[1..])
  }

  function After(n: nat, queue: seq<string>): seq<string> {
    if n <= |queue| then queue[n..] else []
  }

  lemma {:induction false} FillAt(rs: seq<Redir>, queue: seq<string>, k: nat)
    requires k < |rs|
    ensures |Fill(rs, queue)| == |rs|
    ensures Fill(rs, queue)[k] == (rs[k], if k < |queue| then queue[k] else "")
    decreases |rs|
  {
    var rest := if queue == [] then [] else queue[1..];
    if |rs| > 1 {
      FillAt(rs[1..], rest, if k > 0 then k - 1 else 0);
    }
  }

  lemma {:induction false} FillAppend(a: seq<Redir>, b: seq<Redir>, queue: seq<string>)
    ensures Fill(a + b, queue) == Fill(a, queue) + Fill(b, After(|a|, queue))
    decreases |a|
  {
    if a == [] {
      assert a + b == b && After(0, queue) == queue;
    } else {
      assert (a + b)[1..] == a[1..] + b;
      var rest := if queue == [] then [] else queue[1..];
      FillAppend(a[1..], b, rest);
      assert After(|a| - 1, rest) == After(|a|, queue);
    }
  }

  /** For every successful parse: the k-th here-document visited is the one at
      `Visits(a, 0)[k]` of the source and takes the k-th body queued; so each
      takes the body of its own operator exactly when no group with a
      here-document contains another. */
  lemma BodiesMeetOperators(ts: Toks, queue: seq<string>)
    requires Left(ts, true) && |queue| == |InTokens(ts)|
    ensures match Parse(ts)
            case Some(a) =>
              var got := Fill(Walk(a), queue);
              && |got| == |InTokens(ts)| == |Visits(a, 0)|
              && (forall k :: 0 <= k < |got| ==>
                    0 <= Visits(a, 0)[k] < |got| && got[k] == (InTokens(ts)[Visits(a, 0)[k]], queue[k]))
              && ((forall k :: 0 <= k < |got| ==> Visits(a, 0)[k] == k) <==> NoCrossing(a))
            case None => true
  {
    hide Parse, InTokens, Walk, Visits, Fill, NoCrossing, InSource;
    ParseKeepsHeredocs(ts);
    if Parse(ts).Some? {
      var a := Parse(ts).value;
      VisitsAreWalk(a, 0);
      InOrderExactly(a, 0);
      if Walk(a) == [] {
        FillNone(queue);
      } else {
        FillAt(Walk(a), queue, 0);
      }
      forall k | 0 <= k < |Walk(a)| ensures Fill(Walk(a), queue)[k] == (Walk(a)[k], queue[k]) {
        FillAt(Walk(a), queue, k);
      }
    }
  }

  lemma FillNone(queue: seq<string>)
    ensures Fill([], queue) == []
  {
  }

  // ------------------------------------------------------------ the methods

  class Collector {
    /** Bodies waiting, and what the walk has handed out. */
    var queue: seq<string>
    var filled: seq<(Redir, string)>

    constructor (queue: seq<string>)
      ensures this.queue == queue && filled == []
    {
      this.queue, filled := queue, [];
    }

    method CollectFromList(rs: seq<Redir>)
      modifies this
      ensures filled == old(filled) + Fill(Only(rs), old(queue))
      ensures queue == After(|Only(rs)|, old(queue))
    {
      ghost var start, waiting := filled, queue;
      ghost var done: seq<Redir> := [];
      var i := 0;
      assert rs[0..] == rs && [] + Only(rs) == Only(rs);
      FillNone(queue);
      while i < |rs|
        invariant 0 <= i <= |rs|
        invariant Only(rs) == done + Only(rs[i..])
        invariant filled == start + Fill(done, waiting) && queue == After(|done|, waiting)
      {
        OnlyTurn(rs, i, done);
        if IsHeredoc(rs[i].kind) {
          FillSnoc(done, rs[i], waiting);
          if queue == [] {
            filled := filled + [(rs[i], "")];
          } else {
            filled := filled + [(rs[i], queue[0])];
            queue := queue[1..];
          }
          done := done + [rs[i]];
        }
        i := i + 1;
      }
      assert done + [] == done;
    }

    method AstWalk(a: Ast)
      modifies this
      ensures filled == old(filled) + Fill(Walk(a), old(queue))
      ensures queue == After(|Walk(a)|, old(queue))
      decreases a
    {
      hide Fill, Only, After;
      match a {
        case Null =>
          FillNone(queue);
          AfterNone(queue);
        case Cmd(c) =>
          CollectFromList(c.redirs);
        case Bin(_, l, r) =>
          BothWalks(Walk(l), Walk(r), queue);
          AstWalk(l);
          AstWalk(r);
        case Grp(k, c, rs) =>
          if k != Background {
            BothWalks(Only(rs), Walk(c), queue);
            CollectFromList(rs);
          }
          AstWalk(c);
      }
    }
  }

  lemma AfterNone(queue: seq<string>)
    ensures After(0, queue) == queue
  {
  }

  lemma OnlyTurn(rs: seq<Redir>, i: nat, done: seq<Redir>)
    requires i < |rs|
    ensures done + Only(rs[i..]) == (if IsHeredoc(rs[i].kind) then done + [rs[i]] else done) + Only(rs[i + 1..])
  {
    assert rs[i..][1..] == rs[i + 1..];
  }

  lemma FillSnoc(done: seq<Redir>, r: Redir, queue: seq<string>)
    ensures var left := After(|done|, queue);
            && Fill(done + [r], queue) == Fill(done, queue) + [(r, if left == [] then "" else left[0])]
            && After(|done| + 1, queue) == if left == [] then [] else left[1..]
  {
    FillAppend(done, [r], queue);
    assert [r][1..] == [];
  }

  lemma BothWalks(a: seq<Redir>, b: seq<Redir>, queue: seq<string>)
    ensures Fill(a + b, queue) == Fill(a, queue) + Fill(b, After(|a|, queue))
    ensures After(|a + b|, queue) == After(|b|, After(|a|, queue))
  {
    FillAppend(a, b, queue);
  }

  // ------------------------------------------------------------ a witness

  /** `{ <<A c; } <<B` takes the body of `<<B` first. */
  lemma CrossingSwaps(body: string, body': string)
    ensures var (a, b) := (MakeRedir(Heredoc, -1, "A"), MakeRedir(Heredoc, -1, "B"));
            var tree := Grp(Block, Cmd(Command(["c"], [], [a])), [b]);
            && Parse(Printed(tree)) == Some(tree) && InSource(tree) == [a, b]
            && Fill(Walk(tree), [body, body']) == [(b, body), (a, body')]
  {
    hide Parse, Printed, ListOk;
    var (a, b) := (MakeRedir(Heredoc, -1, "A"), MakeRedir(Heredoc, -1, "B"));
    var c := Cmd(Command(["c"], [], [a]));
    CrossingOk(a, b);
    ParseComplete(Grp(Block, c, [b]));
    OnlyOne(a);
    OnlyOne(b);
    assert Walk(c) == [a] && Walk(Grp(Block, c, [b])) == [b] + [a];
    assert InSource(c) == [a] && InSource(Grp(Block, c, [b])) == [a] + [b];
    assert Fill([a], [body']) == [(a, body')];
    assert ([b] + [a])[1..] == [a] && [body, body'][1..] == [body'];
  }

  lemma OnlyOne(r: Redir)
    requires IsHeredoc(r.kind)
    ensures Only([r]) == [r]
  {
    assert [r][1..] == [];
  }

  lemma CrossingOk(a: Redir, b: Redir)
    requires a == MakeRedir(Heredoc, -1, "A") && b == MakeRedir(Heredoc, -1, "B")
    ensures ListOk(Grp(Block, Cmd(Command(["c"], [], [a])), [b]), false)
  {
    var c := Cmd(Command(["c"], [], [a]));
    assert RedirOk(a) && RedirOk(b);
    assert CommandNodeOk(c, false);
    Widen(c, false);
    var g := Grp(Block, c, [b]);
    assert CommandNodeOk(g, false);
    Widen(g, false);
  }
}
