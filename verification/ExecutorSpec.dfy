/** Running a syntax tree: the shell's dispatch with its `running` flag, and
    the short-circuit meaning it has. */
module ExecutorSpec {
  import opened Tokens
  import opened Syntax
  import opened ParserSpec
  import opened ParserRoundTrip
  import opened ParserSound

  /** A leaf that ran, with the last exit status it found. */
  datatype Run = Run(leaf: Ast, last: int)

  /** What commands do, given everything that ran before and the last exit
      status: a leaf's status and whether the shell goes on; whether a block's
      redirections succeed. */
  datatype System = System(leaf: (Ast, seq<Run>, int) -> (int, bool), setup: (seq<Redir>, seq<Run>, int) -> bool)

  /** The leaves run so far, the `running` flag and the last exit status. */
  datatype State = State(trace: seq<Run>, running: bool, last: int)

  // -------------------------------------------------------- as the code runs

  function RunLeaf(a: Ast, s: State, sys: System): (State, int) {
    var (status, goesOn) := sys.leaf(a, s.trace, s.last);
    (s.(trace := s.trace + [Run(a, s.last)], running := goesOn), status)
  }

  /** A node; once the flag is cleared nothing more runs. */
  function Execute(a: Ast, s: State, sys: System): (State, int)
    decreases a, 1
  {
    if a == Null then (s, 0)
    else if !s.running then (s, s.last)
    else
      var (t, status) := Dispatch(a, s, sys);
      (t.(last := status), status)
  }

  function Dispatch(a: Ast, s: State, sys: System): (State, int)
    requires a != Null
    decreases a, 0
  {
    match a
    case Bin(AndOp, l, r) =>
      var (t, status) := Execute(l, s, sys);
      if status == 0 then Execute(r, t, sys) else (t, status)
    case Bin(OrOp, l, r) =>
      var (t, status) := Execute(l, s, sys);
      if status != 0 then Execute(r, t, sys) else (t, status)
    case Bin(SeqOp, l, r) => Execute(r, Execute(l, s, sys).0, sys)
    case Grp(Block, child, redirs) =>
      if sys.setup(redirs, s.trace, s.last) then Execute(child, s, sys) else (s, 1)
    case _ => RunLeaf(a, s, sys)
  }

  // -------------------------------------------------------------- as it means

  /** The leaves run, the status, and whether a leaf ended the shell. */
  datatype Outcome = Outcome(trace: seq<Run>, status: int, ended: bool)

  /** The standard's lists: `&&` and `||` short-circuit on the status, `;` runs
      both sides, nothing follows the end of the shell, and what runs next
      finds the status of what ran before. */
  function Meaning(a: Ast, trace: seq<Run>, last: int, sys: System): Outcome {
    match a
    case Null => Outcome(trace, 0, false)
    case Bin(AndOp, l, r) =>
      var o := Meaning(l, trace, last, sys);
      if o.ended || o.status != 0 then o else Meaning(r, o.trace, o.status, sys)
    case Bin(OrOp, l, r) =>
      var o := Meaning(l, trace, last, sys);
      if o.ended || o.status == 0 then o else Meaning(r, o.trace, o.status, sys)
    case Bin(SeqOp, l, r) =>
      var o := Meaning(l, trace, last, sys);
      if o.ended then o else Meaning(r, o.trace, o.status, sys)
    case Grp(Block, child, redirs) =>
      if sys.setup(redirs, trace, last) then Meaning(child, trace, last, sys) else Outcome(trace, 1, false)
    case _ =>
      var (status, goesOn) := sys.leaf(a, trace, last);
      Outcome(trace + [Run(a, last)], status, !goesOn)
  }

  /** No operand is missing. */
  predicate Solid(a: Ast) {
    match a
    case Null => false
    case Bin(PipeOp, _, _) => true
    case Bin(_, l, r) => Solid(l) && Solid(r)
    case Grp(Block, child, _) => Solid(child)
    case _ => true
  }

  /** Running a tree gives its meaning: the same leaves in the same order, the
      same status, which is also the last status, and the flag cleared exactly
      when a leaf ended the shell. */
  lemma {:induction false} ExecuteMeans(a: Ast, s: State, sys: System)
    requires Solid(a) && s.running
    ensures var o := Meaning(a, s.trace, s.last, sys);
            Execute(a, s, sys) == (State(o.trace, !o.ended, o.status), o.status)
  {
    match a {
      case Bin(PipeOp, l, r) =>
      case Bin(op, l, r) =>
        ExecuteMeans(l, s, sys);
        var o := Meaning(l, s.trace, s.last, sys);
        if o.ended {
          NotRunning(r, State(o.trace, false, o.status), sys);
        } else {
          ExecuteMeans(r, State(o.trace, true, o.status), sys);
        }
      case Grp(Block, child, redirs) =>
        ExecuteMeans(child, s, sys);
      case _ =>
    }
  }

  /** The leaf that ends the shell is the last to run, and its status is the
      result. */
  lemma {:induction false} EndingLeafIsLast(a: Ast, trace: seq<Run>, last: int, sys: System)
    requires Meaning(a, trace, last, sys).ended
    ensures var o := Meaning(a, trace, last, sys);
            && o.trace != []
            && var e := o.trace[|o.trace| - 1]; sys.leaf(e.leaf, o.trace[..|o.trace| - 1], e.last) == (o.status, false)
  {
    match a {
      case Bin(PipeOp, l, r) =>
        LeafEnds(a, trace, last, sys);
      case Bin(op, l, r) =>
        var o := Meaning(l, trace, last, sys);
        if o.ended {
          EndingLeafIsLast(l, trace, last, sys);
        } else {
          EndingLeafIsLast(r, o.trace, o.status, sys);
        }
      case Grp(Block, child, redirs) =>
        EndingLeafIsLast(child, trace, last, sys);
      case _ =>
        LeafEnds(a, trace, last, sys);
    }
  }

  lemma LeafEnds(a: Ast, trace: seq<Run>, last: int, sys: System)
    ensures var all := trace + [Run(a, last)]; all[|all| - 1] == Run(a, last) && all[..|all| - 1] == trace
  {
  }

  /** While the flag stays set, no leaf run has ended the shell. */
  lemma {:induction false} EarlierLeavesGoOn(a: Ast, trace: seq<Run>, last: int, sys: System, i: nat)
    requires var o := Meaning(a, trace, last, sys); |trace| <= i < |o.trace| - (if o.ended then 1 else 0)
    ensures var o := Meaning(a, trace, last, sys);
            trace <= o.trace && sys.leaf(o.trace[i].leaf, o.trace[..i], o.trace[i].last).1
  {
    MeaningExtends(a, trace, last, sys);
    match a {
      case Bin(PipeOp, l, r) =>
        LeafEnds(a, trace, last, sys);
      case Bin(op, l, r) =>
        hide Meaning;
        var o := Meaning(l, trace, last, sys);
        BinMeans(op, l, r, trace, last, sys);
        MeaningExtends(l, trace, last, sys);
        MeaningExtends(r, o.trace, o.status, sys);
        if i < |o.trace| - (if o.ended then 1 else 0) {
          EarlierLeavesGoOn(l, trace, last, sys, i);
          SamePrefix(o.trace, Meaning(a, trace, last, sys).trace, i);
        } else {
          EarlierLeavesGoOn(r, o.trace, o.status, sys, i);
        }
      case Grp(Block, child, redirs) =>
        EarlierLeavesGoOn(child, trace, last, sys, i);
      case _ =>
        LeafEnds(a, trace, last, sys);
    }
  }

  lemma SamePrefix(a: seq<Run>, b: seq<Run>, i: nat)
    requires i < |a| && a <= b
    ensures a[i] == b[i] && a[..i] == b[..i]
  {
  }

  lemma {:induction false} MeaningExtends(a: Ast, trace: seq<Run>, last: int, sys: System)
    ensures trace <= Meaning(a, trace, last, sys).trace
  {
    match a {
      case Bin(PipeOp, l, r) =>
      case Bin(op, l, r) =>
        MeaningExtends(l, trace, last, sys);
        MeaningExtends(r, Meaning(l, trace, last, sys).trace, Meaning(l, trace, last, sys).status, sys);
      case Grp(Block, child, redirs) =>
        MeaningExtends(child, trace, last, sys);
      case _ =>
    }
  }

  // ------------------------------------------------------------- re-nesting

  /** Chains of one operator mean the same however they are nested. */
  lemma RenestMeans(op: BinOp, a: Ast, b: Ast, c: Ast, trace: seq<Run>, last: int, sys: System)
    requires op != PipeOp
    ensures Meaning(Bin(op, Bin(op, a, b), c), trace, last, sys) == Meaning(Bin(op, a, Bin(op, b, c)), trace, last, sys)
  {
    hide Meaning;
    BinMeans(op, a, b, trace, last, sys);
    BinMeans(op, Bin(op, a, b), c, trace, last, sys);
    BinMeans(op, a, Bin(op, b, c), trace, last, sys);
    BinMeans(op, b, c, Meaning(a, trace, last, sys).trace, Meaning(a, trace, last, sys).status, sys);
  }

  /** Whether the right operand runs. */
  predicate Continues(op: BinOp, o: Outcome) {
    !o.ended && (op == AndOp ==> o.status == 0) && (op == OrOp ==> o.status != 0)
  }

  lemma BinMeans(op: BinOp, l: Ast, r: Ast, trace: seq<Run>, last: int, sys: System)
    requires op != PipeOp
    ensures var o := Meaning(l, trace, last, sys);
            Meaning(Bin(op, l, r), trace, last, sys)
              == if Continues(op, o) then Meaning(r, o.trace, o.status, sys) else o
  {
  }

  /** In the code's terms: re-nesting a chain changes nothing, from any state,
      unless the middle operand is missing. */
  lemma Renest(op: BinOp, a: Ast, b: Ast, c: Ast, s: State, sys: System)
    requires op != PipeOp && Solid(a) && Solid(b) && Solid(c)
    ensures Execute(Bin(op, Bin(op, a, b), c), s, sys) == Execute(Bin(op, a, Bin(op, b, c)), s, sys)
  {
    hide Execute, Meaning;
    if s.running {
      RenestMeans(op, a, b, c, s.trace, s.last, sys);
      ExecuteMeans(Bin(op, Bin(op, a, b), c), s, sys);
      ExecuteMeans(Bin(op, a, Bin(op, b, c)), s, sys);
    } else {
      NotRunning(Bin(op, Bin(op, a, b), c), s, sys);
      NotRunning(Bin(op, a, Bin(op, b, c)), s, sys);
    }
  }

  lemma NotRunning(a: Ast, s: State, sys: System)
    requires a != Null && !s.running
    ensures Execute(a, s, sys) == (s, s.last)
  {
  }

  /** A missing right operand loses the status of the leaf that ended the
      shell. */
  lemma MissingOperandLosesStatus(a: Ast, s: State, sys: System)
    requires a.Cmd? && s.running && sys.leaf(a, s.trace, s.last) == (3, false)
    ensures Execute(Bin(SeqOp, a, Null), s, sys).1 == 0
  {
    assert Dispatch(a, s, sys) == RunLeaf(a, s, sys);
    var t := Execute(a, s, sys).0;
    assert Execute(Null, t, sys).1 == 0;
    assert Dispatch(Bin(SeqOp, a, Null), s, sys) == Execute(Null, t, sys);
  }

  // ------------------------------------------------- and-or lists, as chains

  /** `first op1 a1 op2 a2 ...`, nested to the left as the parser does. */
  function Chain(first: Ast, items: seq<(BinOp, Ast)>): Ast
    decreases |items|
  {
    if items == [] then first else Chain(Bin(items[0].0, first, items[0].1), items[1..])
  }

  /** Each element in turn runs or is skipped on the status so far. */
  function Walk(o: Outcome, items: seq<(BinOp, Ast)>, sys: System): Outcome
    decreases |items|
  {
    if items == [] then o
    else Walk(if Continues(items[0].0, o) then Meaning(items[0].1, o.trace, o.status, sys) else o, items[1..], sys)
  }

  /** A left-nested chain mixing operators is one left-to-right walk. */
  lemma {:induction false} ChainMeans(first: Ast, items: seq<(BinOp, Ast)>, trace: seq<Run>, last: int, sys: System)
    requires forall i :: 0 <= i < |items| ==> items[i].0 != PipeOp
    ensures Meaning(Chain(first, items), trace, last, sys) == Walk(Meaning(first, trace, last, sys), items, sys)
    decreases |items|
  {
    hide Meaning;
    if items != [] {
      BinMeans(items[0].0, first, items[0].1, trace, last, sys);
      ChainMeans(Bin(items[0].0, first, items[0].1), items[1..], trace, last, sys);
    }
  }

  // ----------------------------------------------------- what the parser gives

  lemma {:induction false} ListIsSolid(a: Ast, loose: bool)
    requires ListOk(a, loose)
    ensures Solid(a)
    decreases a, 3
  {
    if a.Bin? && a.op == SeqOp {
      ElemIsSolid(a.l, loose);
      ListIsSolid(a.r, loose);
    } else {
      ElemIsSolid(a, loose);
    }
  }

  lemma {:induction false} ElemIsSolid(a: Ast, loose: bool)
    requires ElemOk(a, loose)
    ensures Solid(a)
    decreases a, 2
  {
    if !IsBackground(a) {
      AndOrIsSolid(a, loose);
    }
  }

  lemma {:induction false} AndOrIsSolid(a: Ast, loose: bool)
    requires AndOrOk(a, loose)
    ensures Solid(a)
    decreases a, 1
  {
    if a.Bin? && (a.op == AndOp || a.op == OrOp) {
      AndOrIsSolid(a.l, loose);
      PipelineIsSolid(a.r, loose);
    } else {
      PipelineIsSolid(a, loose);
    }
  }

  lemma {:induction false} PipelineIsSolid(a: Ast, loose: bool)
    requires PipelineOk(a, loose)
    ensures Solid(a)
    decreases a, 0
  {
    if a.Grp? && a.kind == Block {
      ListIsSolid(a.child, loose);
    }
  }

  /** Whatever the parser accepts runs as it means. */
  lemma ParsedRunsAsMeant(ts: seq<Token>, loose: bool, s: State, sys: System)
    requires Left(ts, loose) && s.running
    ensures match Parse(ts)
            case Some(a) =>
              var o := Meaning(a, s.trace, s.last, sys);
              Execute(a, s, sys) == (State(o.trace, !o.ended, o.status), o.status)
            case None => true
  {
    hide Parse, ListOk, Execute, Meaning, Solid;
    ParseSound(ts, loose);
    if Parse(ts).Some? {
      ListIsSolid(Parse(ts).value, loose);
      ExecuteMeans(Parse(ts).value, s, sys);
    }
  }
}
