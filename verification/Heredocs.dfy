/** Which body a here-document gets: bodies are queued in the order of the
    `<<` tokens and popped in the order the tree walk visits them. */
module Heredocs {
  import opened Tokens
  import opened Syntax
  import opened ParserSpec
  import opened ParserRoundTrip
  import opened ParserSound
  import opened SeqFacts

  /** Here-documents of a token list in source order; an arithmetic expansion
      is not searched. */
  function InTokens(ts: Toks): seq<Redir>
    decreases |ts|
  {
    if ts == [] then []
    else if ts[0].kind == ArithOpen then InTokens(SkipArith(ts[1..]))
    else if IsHeredoc(ts[0].kind) && |ts| > 1 then
      [MakeRedir(ts[0].kind, ts[0].io, ts[1].value)] + InTokens(ts[2..])
    else InTokens(ts[1..])
  }

  function Only(rs: seq<Redir>): seq<Redir> {
    if rs == [] then []
    else if IsHeredoc(rs[0].kind) then [rs[0]] + Only(rs[1..])
    else Only(rs[1..])
  }

  /** Here-documents in the order `ast_walk` visits them: a group's own before
      those inside it. */
  function Walk(a: Ast): seq<Redir> {
    match a
    case Null => []
    case Cmd(c) => Only(c.redirs)
    case Bin(_, l, r) => Walk(l) + Walk(r)
    case Grp(Background, c, _) => Walk(c)
    case Grp(_, c, rs) => Only(rs) + Walk(c)
  }

  /** Here-documents in source order: a group's own come after its body. */
  function InSource(a: Ast): seq<Redir> {
    match a
    case Null => []
    case Cmd(c) => Only(c.redirs)
    case Bin(_, l, r) => InSource(l) + InSource(r)
    case Grp(Background, c, _) => InSource(c)
    case Grp(_, c, rs) => InSource(c) + Only(rs)
  }

  // ------------------------------------- the parser keeps every here-document

  lemma {:induction false} OnlyAppend(rs: seq<Redir>, r: Redir)
    ensures Only(rs + [r]) == Only(rs) + (if IsHeredoc(r.kind) then [r] else [])
  {
    if rs != [] {
      assert (rs + [r])[1..] == rs[1..] + [r];
      OnlyAppend(rs[1..], r);
    }
  }

  lemma {:induction false} NewlinesHaveNone(ts: Toks)
    ensures InTokens(SkipNewlines(ts)) == InTokens(ts)
  {
    if Head(ts) == Newline {
      NewlinesHaveNone(ts[1..]);
    }
  }

  lemma {:induction false} AssignmentsHaveNone(ts: Toks, acc: seq<string>, loose: bool)
    requires Left(ts, loose)
    ensures var (all, rest, bad) := Assignments(ts, acc); !bad ==> InTokens(rest) == InTokens(ts)
    decreases |ts|
  {
    hide IsAssignment, ArithText, Left;
    if Head(ts) == Word && IsAssignment(ts[0].value) {
      LeftTail(ts, loose);
      if Head(ts[1..]) == ArithOpen {
        LeftTail(ts[1..], loose);
        assert ts[1..][1..] == ts[2..];
        ArithSound(ts[2..], "$((", loose);
        var (text, rest, bad) := ArithText(ts[2..], "$((");
        if !bad {
          AssignmentsHaveNone(rest, acc + [ts[0].value + text], loose);
        }
      } else {
        AssignmentsHaveNone(ts[1..], acc + [ts[0].value], loose);
      }
    }
  }

  /** Every here-document token of the consumed part is in the tree, in order. */
  ghost predicate Keeps(ts: Toks, r: Parsed) {
    !r.error ==> InSource(r.ast) + InTokens(r.rest) == InTokens(ts)
  }

  lemma ArithTokens(ts: Toks)
    requires Head(ts) == ArithOpen
    ensures InTokens(ts) == InTokens(SkipArith(ts[1..]))
  {
  }

  /** A redirection and its target word. */
  lemma RedirTokens(ts: Toks)
    requires IsRedir(Head(ts)) && Head(ts[1..]) == Word
    ensures var rd := MakeRedir(ts[0].kind, ts[0].io, ts[1].value);
            InTokens(ts) == (if IsHeredoc(rd.kind) then [rd] else []) + InTokens(ts[2..])
  {
    assert ts[1..][1..] == ts[2..];
    assert InTokens(ts[1..]) == InTokens(ts[2..]);
  }

  lemma {:induction false} BuildKeeps(ts: Toks, c: Command, loose: bool)
    requires Left(ts, loose)
    ensures var r := BuildCommand(ts, c);
            !r.error ==> r.ast.Cmd? && Only(r.ast.cmd.redirs) + InTokens(r.rest) == Only(c.redirs) + InTokens(ts)
    decreases |ts|
  {
    hide Left, InTokens, Only, ArithText, SkipArith, MakeRedir, IsRedir, BuildCommand;
    RedirKinds(Head(ts));
    if !InCommand(Head(ts)) {
      FillEnds(ts, c);
    } else {
      LeftTail(ts, loose);
      if ts[0].kind == Word {
        FillWord(ts, c);
        TokenHasNone(ts);
        BuildKeeps(ts[1..], c.(argv := c.argv + [ts[0].value]), loose);
      } else if ts[0].kind == ArithOpen {
        FillArith(ts, c);
        ArithSound(ts[1..], "$((", loose);
        var (text, rest, bad) := ArithText(ts[1..], "$((");
        ArithTokens(ts);
        if !bad {
          BuildKeeps(rest, c.(argv := c.argv + [text]), loose);
        }
      } else {
        FillRedir(ts, c);
      }
      if ts[0].kind != Word && ts[0].kind != ArithOpen && Head(ts[1..]) == Word {
        LeftTail(ts[1..], loose);
        assert ts[1..][1..] == ts[2..];
        var rd := MakeRedir(ts[0].kind, ts[0].io, ts[1].value);
        OnlyAppend(c.redirs, rd);
        RedirTokens(ts);
        BuildKeeps(ts[2..], c.(redirs := c.redirs + [rd]), loose);
        Assoc(Only(c.redirs), if IsHeredoc(rd.kind) then [rd] else [], InTokens(ts[2..]));
      }
    }
  }

  lemma {:induction false} GroupKeeps(kind: GroupKind, child: Ast, rs: seq<Redir>, ts: Toks, loose: bool)
    requires Left(ts, loose) && kind != Background
    ensures var r := GroupRedirs(kind, child, rs, ts);
            !r.error ==> InSource(r.ast) + InTokens(r.rest) == InSource(child) + (Only(rs) + InTokens(ts))
    decreases |ts|
  {
    hide Left, InTokens, Only, InSource, InCommand, MakeRedir, IsRedir;
    RedirKinds(Head(ts));
    if !IsRedir(Head(ts)) {
      GroupSource(kind, child, rs);
      Assoc(InSource(child), Only(rs), InTokens(ts));
    } else {
      LeftTail(ts, loose);
      if Head(ts[1..]) == Word {
        LeftTail(ts[1..], loose);
        assert ts[1..][1..] == ts[2..];
        var rd := MakeRedir(ts[0].kind, ts[0].io, ts[1].value);
        OnlyAppend(rs, rd);
        RedirTokens(ts);
        GroupKeeps(kind, child, rs + [rd], ts[2..], loose);
        Assoc(Only(rs), if IsHeredoc(rd.kind) then [rd] else [], InTokens(ts[2..]));
      }
    }
  }

  lemma GroupSource(kind: GroupKind, child: Ast, rs: seq<Redir>)
    requires kind != Background
    ensures InSource(Grp(kind, child, rs)) == InSource(child) + Only(rs)
  {
  }

  lemma BracketKeeps(ts: Toks)
    requires Left(ts, true) && (Head(ts) == LParen || HeadIsWord(ts, "{"))
    requires var inner := SkipNewlines(ts[1..]);
             Keeps(inner, CommandList(inner)) && ListSoundAt(inner, CommandList(inner), true)
    ensures Keeps(ts, if Head(ts) == LParen then SubshellCommand(ts) else BlockCommand(ts))
  {
    hide CommandList, GroupRedirs, InTokens, InSource, Left;
    var inner := SkipNewlines(ts[1..]);
    var c := CommandList(inner);
    if !c.error {
      var rest := SkipNewlines(c.rest);
      LeftSkip(c.rest, true);
      LeftNonempty(rest, true);
      NewlinesHaveNone(ts[1..]);
      NewlinesHaveNone(c.rest);
      TokenHasNone(ts);
      if Head(rest) == RParen || HeadIsWord(rest, "}") {
        LeftTail(rest, true);
        TokenHasNone(rest);
        GroupKeeps(if Head(ts) == LParen then Subshell else Block, c.ast, [], rest[1..], true);
        assert Only([]) + InTokens(rest[1..]) == InTokens(rest[1..]);
      }
    }
  }

  lemma TokenHasNone(ts: Toks)
    requires ts != [] && ts[0].kind != ArithOpen && !IsHeredoc(ts[0].kind)
    ensures InTokens(ts) == InTokens(ts[1..])
  {
  }

  lemma {:induction false} CommandKeeps(ts: Toks)
    requires Left(ts, true)
    ensures Keeps(ts, AnyCommand(ts))
    decreases |ts|, 1
  {
    hide SubshellCommand, BlockCommand, SimpleCommand, Left, Keeps;
    LeftNonempty(ts, true);
    if Head(ts) == LParen || HeadIsWord(ts, "{") {
      LeftTail(ts, true);
      LeftSkip(ts[1..], true);
      ListSound(SkipNewlines(ts[1..]), true);
      ListKeeps(SkipNewlines(ts[1..]));
      BracketKeeps(ts);
    } else {
      SimpleKeeps(ts);
    }
  }

  lemma {:induction false} SimpleKeeps(ts: Toks)
    requires Left(ts, true) && !HeadIsWord(ts, "{") && Head(ts) != LParen
    ensures Keeps(ts, SimpleCommand(ts))
    decreases |ts|, 0
  {
    hide SubshellCommand, Left, InTokens, BuildCommand, Assignments, CommandList;
    var (assigns, rest, bad) := Assignments(ts, []);
    if !bad {
      AssignmentsSound(ts, [], true);
      AssignmentsHaveNone(ts, [], true);
      if Head(rest) == LParen {
        LeftTail(rest, true);
        LeftSkip(rest[1..], true);
        ListSound(SkipNewlines(rest[1..]), true);
        ListKeeps(SkipNewlines(rest[1..]));
        BracketKeeps(rest);
      } else {
        var start := SkipNewlines(rest);
        LeftSkip(rest, true);
        NewlinesHaveNone(rest);
        BuildKeeps(start, Command([], assigns, []), true);
        assert Only([]) + InTokens(start) == InTokens(start);
      }
    }
  }

  lemma BinSource(op: BinOp, l: Ast, r: Ast, x: seq<Redir>)
    ensures InSource(Bin(op, l, r)) + x == InSource(l) + (InSource(r) + x)
  {
  }

  lemma {:induction false} PipelineLoopKeeps(left: Ast, ts: Toks, ts0: Toks)
    requires Left(ts, true) && InSource(left) + InTokens(ts) == InTokens(ts0)
    ensures Keeps(ts0, PipelineLoop(left, ts, false))
    decreases |ts|, 2
  {
    hide AnyCommand, Left, InSource, InTokens, CommandNodeOk, HeadFrom, NodeToks;
    if Head(ts) == Pipe {
      LeftTail(ts, true);
      TokenHasNone(ts);
      CommandSound(ts[1..], true);
      CommandKeeps(ts[1..]);
      var c := AnyCommand(ts[1..]);
      var both := Bin(PipeOp, left, c.ast);
      if c.error {
        PipelineErrorSticks(both, c.rest);
      } else {
        BinSource(PipeOp, left, c.ast, InTokens(c.rest));
        PipelineLoopKeeps(both, c.rest, ts0);
      }
    }
  }

  lemma {:induction false} PipelineKeeps(ts: Toks)
    requires Left(ts, true)
    ensures Keeps(ts, Pipeline(ts))
    decreases |ts|, 3
  {
    hide AnyCommand, Left, PipelineLoop;
    CommandSound(ts, true);
    CommandKeeps(ts);
    var c := AnyCommand(ts);
    if c.error {
      PipelineErrorSticks(c.ast, c.rest);
    } else {
      PipelineLoopKeeps(c.ast, c.rest, ts);
    }
  }

  lemma {:induction false} AndOrLoopKeeps(left: Ast, ts: Toks, ts0: Toks)
    requires Left(ts, true) && InSource(left) + InTokens(ts) == InTokens(ts0)
    ensures Keeps(ts0, AndOrLoop(left, ts, false))
    decreases |ts|, 4
  {
    hide Pipeline, Left, InSource, InTokens, PipelineOk, HeadFrom, NodeToks;
    if Head(ts) == And || Head(ts) == Or {
      TokenHasNone(ts);
      LeftTail(ts, true);
      PipelineSound(ts[1..], true);
      PipelineKeeps(ts[1..]);
      var c := Pipeline(ts[1..]);
      var both := Bin(if Head(ts) == And then AndOp else OrOp, left, c.ast);
      if c.error {
        AndOrErrorSticks(both, c.rest);
      } else {
        BinSource(both.op, left, c.ast, InTokens(c.rest));
        AndOrLoopKeeps(both, c.rest, ts0);
      }
    }
  }

  lemma {:induction false} AndOrKeeps(ts: Toks)
    requires Left(ts, true)
    ensures Keeps(ts, AndOr(ts))
    decreases |ts|, 5
  {
    hide Pipeline, Left, AndOrLoop;
    PipelineSound(ts, true);
    PipelineKeeps(ts);
    var c := Pipeline(ts);
    if c.error {
      AndOrErrorSticks(c.ast, c.rest);
    } else {
      AndOrLoopKeeps(c.ast, c.rest, ts);
    }
  }

  lemma SeparatorsHaveNone(ts: Toks)
    ensures InTokens(Separators(ts).1) == InTokens(ts)
  {
    hide InTokens;
    var after := SkipNewlines(ts);
    NewlinesHaveNone(ts);
    if Head(after) == Semicolon {
      TokenHasNone(after);
      NewlinesHaveNone(after[1..]);
    }
    if Head(ts) == Ampersand {
      TokenHasNone(ts);
      NewlinesHaveNone(ts[1..]);
    }
  }

  lemma BackgroundSource(a: Ast)
    ensures InSource(Grp(Background, a, [])) == InSource(a)
  {
  }

  lemma {:induction false} ListKeeps(ts: Toks)
    requires Left(ts, true)
    ensures Keeps(ts, CommandList(ts))
    decreases |ts|, 6
  {
    hide AndOr, Left, ListLoop, InTokens, InSource, AndOrOk, ListOk, HeadFrom, NodeToks, ListToks;
    AndOrSound(ts, true);
    AndOrKeeps(ts);
    var c := AndOr(ts);
    if c.error {
      ListErrorSticks(c.ast, c.rest);
    } else {
      var (sep, rest) := Separators(c.rest);
      SeparatorsSound(c.rest, true);
      SeparatorsHaveNone(c.rest);
      var elem := if sep == Async then Grp(Background, c.ast, []) else c.ast;
      BackgroundSource(c.ast);
      if sep == NoSep {
        LoopStops(c.ast, c.rest);
      } else if Terminator(rest) {
        LoopTerminates(c.ast, c.rest);
      } else {
        ListSound(rest, true);
        ListKeeps(rest);
        var l := CommandList(rest);
        var both := Bin(SeqOp, elem, l.ast);
        LoopTurns(c.ast, c.rest);
        if l.error {
          ListErrorSticks(both, l.rest);
        } else {
          LoopStops(both, l.rest);
          BinSource(SeqOp, elem, l.ast, InTokens(l.rest));
        }
      }
    }
  }

  /** A successful parse keeps exactly the here-documents of its tokens, in
      source order. */
  lemma ParseKeepsHeredocs(ts: Toks)
    requires Left(ts, true)
    ensures match Parse(ts) case Some(a) => InSource(a) == InTokens(ts) case None => true
  {
    hide CommandList, InSource;
    LeftSkip(ts, true);
    NewlinesHaveNone(ts);
    var start := SkipNewlines(ts);
    ListSound(start, true);
    ListKeeps(start);
    var c := CommandList(start);
    NewlinesHaveNone(c.rest);
    if Parse(ts).Some? {
      LeftSkip(c.rest, true);
      var rest := SkipNewlines(c.rest);
      assert |rest| == 1;
      assert InTokens(rest) == [];
    }
  }

  // --------------------------------------------------- which body goes where

  /** For each visit of the walk, the source position of the here-document it
      visits, counting from `base`. */
  function Visits(a: Ast, base: nat): seq<nat> {
    match a
    case Null => []
    case Cmd(c) => Range(base, |Only(c.redirs)|)
    case Bin(_, l, r) => Visits(l, base) + Visits(r, base + |InSource(l)|)
    case Grp(Background, c, _) => Visits(c, base)
    case Grp(_, c, rs) => Range(base + |InSource(c)|, |Only(rs)|) + Visits(c, base)
  }

  function Range(base: nat, n: nat): (s: seq<nat>)
    ensures |s| == n && forall i :: 0 <= i < n ==> s[i] == base + i
  {
    seq(n, i => base + i)
  }

  ghost predicate InRange(visits: seq<nat>, base: nat, n: nat) {
    forall i :: 0 <= i < |visits| ==> base <= visits[i] < base + n
  }

  /** The here-documents at the given positions of `source`. */
  ghost function Pick(source: seq<Redir>, visits: seq<nat>, base: nat): (p: seq<Redir>)
    requires InRange(visits, base, |source|)
    ensures |p| == |visits| && forall i :: 0 <= i < |p| ==> p[i] == source[visits[i] - base]
  {
    seq(|visits|, i requires 0 <= i < |visits| => source[visits[i] - base])
  }

  lemma PickAppend(s1: seq<Redir>, v1: seq<nat>, s2: seq<Redir>, v2: seq<nat>, base: nat)
    requires InRange(v1, base, |s1|) && InRange(v2, base + |s1|, |s2|)
    ensures InRange(v1 + v2, base, |s1 + s2|)
    ensures Pick(s1 + s2, v1 + v2, base) == Pick(s1, v1, base) + Pick(s2, v2, base + |s1|)
  {
  }

  lemma PickBefore(s1: seq<Redir>, v1: seq<nat>, own: seq<Redir>, base: nat)
    requires InRange(v1, base, |s1|)
    ensures InRange(Range(base + |s1|, |own|) + v1, base, |s1 + own|)
    ensures Pick(s1 + own, Range(base + |s1|, |own|) + v1, base) == own + Pick(s1, v1, base)
  {
  }

  lemma PickAll(rs: seq<Redir>, base: nat)
    ensures InRange(Range(base, |rs|), base, |rs|) && Pick(rs, Range(base, |rs|), base) == rs
    ensures InRange([], base, 0) && Pick([], [], base) == []
  {
  }

  /** The walk visits each here-document of the source, at these positions. */
  lemma {:induction false} VisitsAreWalk(a: Ast, base: nat)
    ensures |Visits(a, base)| == |InSource(a)|
    ensures InRange(Visits(a, base), base, |InSource(a)|)
    ensures Walk(a) == Pick(InSource(a), Visits(a, base), base)
  {
    hide Pick, InRange, Range, Only;
    match a {
      case Null =>
        PickAll([], base);
      case Cmd(c) =>
        PickAll(Only(c.redirs), base);
      case Bin(_, l, r) =>
        VisitsAreWalk(l, base);
        VisitsAreWalk(r, base + |InSource(l)|);
        PickAppend(InSource(l), Visits(l, base), InSource(r), Visits(r, base + |InSource(l)|), base);
      case Grp(Background, c, _) =>
        VisitsAreWalk(c, base);
      case Grp(_, c, rs) =>
        VisitsAreWalk(c, base);
        PickBefore(InSource(c), Visits(c, base), Only(rs), base);
    }
  }

  ghost predicate Counts(s: seq<nat>, base: nat) {
    forall i :: 0 <= i < |s| ==> s[i] == base + i
  }

  /** No group carries a here-document while its body contains one. */
  predicate NoCrossing(a: Ast) {
    match a
    case Null => true
    case Cmd(_) => true
    case Bin(_, l, r) => NoCrossing(l) && NoCrossing(r)
    case Grp(k, c, rs) => NoCrossing(c) && (k == Background || Only(rs) == [] || InSource(c) == [])
  }

  lemma CountsAppend(x: seq<nat>, y: seq<nat>, base: nat)
    ensures Counts(x + y, base) <==> Counts(x, base) && Counts(y, base + |x|)
  {
    if Counts(x + y, base) {
      forall i | 0 <= i < |x| ensures x[i] == base + i { assert (x + y)[i] == x[i]; }
      forall i | 0 <= i < |y| ensures y[i] == base + |x| + i { assert (x + y)[|x| + i] == y[i]; }
    }
  }

  /** Bodies reach their own here-documents exactly in trees where no group
      with a here-document contains another one. */
  lemma {:induction false} InOrderExactly(a: Ast, base: nat)
    ensures Counts(Visits(a, base), base) <==> NoCrossing(a)
  {
    hide Only, Pick, InRange;
    match a {
      case Null =>
      case Cmd(c) =>
      case Bin(_, l, r) =>
        var n := |InSource(l)|;
        VisitsAreWalk(l, base);
        CountsAppend(Visits(l, base), Visits(r, base + n), base);
        InOrderExactly(l, base);
        InOrderExactly(r, base + n);
      case Grp(Background, c, _) =>
        InOrderExactly(c, base);
      case Grp(_, c, rs) =>
        InOrderExactly(c, base);
        VisitsAreWalk(c, base);
        OwnFirst(|InSource(c)|, |Only(rs)|, Visits(c, base), base);
    }
  }

  lemma OwnFirst(inner: nat, own: nat, visits: seq<nat>, base: nat)
    requires |visits| == inner
    ensures Counts(Range(base + inner, own) + visits, base) <==> Counts(visits, base) && (own == 0 || inner == 0)
  {
    CountsAppend(Range(base + inner, own), visits, base);
    if own > 0 {
      assert Range(base + inner, own)[0] == base + inner;
    }
  }
}
