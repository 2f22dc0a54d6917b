/** When a line break ends a command, and when it is swallowed. */
module LineBreaks {
  import opened Ascii
  import opened Tokens
  import opened Syntax
  import opened ParserSpec
  import opened ParserRoundTrip
  import opened Wrappers

  // ----------------------------------------------------- it ends an element

  lemma ListAt(a: Ast, k: TokenKind, ts: Toks)
    requires AndOrOk(a, false) && (k == Semicolon || (k == Newline && !EndsBare(a)))
    ensures CommandList(NodeToks(a) + ([Op(k)] + ts)) == ListLoop(a, [Op(k)] + ts, false)
  {
    hide AndOr, AndOrLoop, ListLoop, CommandList, AndOrOk;
    var after := [Op(k)] + ts;
    AndOrComplete(a, after);
    AndOrEnds(a, after);
    AndOrNotNull(a);
    ListBegins(NodeToks(a) + after, a, after);
  }

  /** A line break separates as `;` does. */
  lemma BreakSeparates(a: Ast, ts: Toks)
    requires Head(ts) != Newline && Head(ts) != Semicolon
    ensures ListLoop(a, [Op(Newline)] + ts, false) == ListLoop(a, [Op(Semicolon)] + ts, false)
  {
    hide CommandList;
    Separated([Op(Newline)] + ts, ts);
    Separated([Op(Semicolon)] + ts, ts);
  }

  lemma Separated(all: Toks, ts: Toks)
    requires all == [Op(Newline)] + ts || all == [Op(Semicolon)] + ts
    requires Head(ts) != Newline && Head(ts) != Semicolon
    ensures Separators(all) == (Sequential, ts)
  {
    assert all[1..] == ts && SkipNewlines(ts) == ts;
  }

  // -------------------------------------------------------- it is swallowed

  /** Nothing that would read differently right after an assignment. */
  predicate Continues(ts: Toks) {
    && Head(ts) != Newline && Head(ts) != LParen && Head(ts) != ArithOpen
    && (Head(ts) == Word ==> !IsAssignment(ts[0].value))
  }

  lemma BareCommand(c: Command, ts: Toks)
    requires CommandOk(c, false) && EndsBare(Cmd(c)) && Continues(ts)
    ensures AnyCommand(CommandToks(c) + ([Op(Newline)] + ts)) == AnyCommand(CommandToks(c) + ts)
  {
    hide Assignments, BuildCommand, CountArgs, IsAssignment, SubshellCommand, BlockCommand, IsRedir;
    var ws, brk := WordToks(c.assigns), [Op(Newline)] + ts;
    assert ws + ([] + []) == ws;
    FirstToks(c.assigns, []);
    BraceIsNoAssignment();
    AssignmentsComplete(c.assigns, [], brk);
    AssignmentsComplete(c.assigns, [], ts);
    assert brk[1..] == ts && SkipNewlines(brk) == ts && SkipNewlines(ts) == ts;
    assert (ws + brk)[0] == ws[0] && (ws + ts)[0] == ws[0];
  }

  lemma {:induction false} SwallowedInPipeline(a: Ast, ts: Toks)
    requires PipelineOk(a, false) && EndsBare(a) && Continues(ts)
    ensures Pipeline(NodeToks(a) + ([Op(Newline)] + ts)) == Pipeline(NodeToks(a) + ts)
  {
    hide AnyCommand, PipelineLoop, CommandNodeOk, Continues;
    var brk := [Op(Newline)] + ts;
    if a.Bin? && a.op == PipeOp {
      LastIsCommand(a.r);
      BareCommand(a.r.cmd, ts);
      PipeRight(a, brk);
      PipeRight(a, ts);
      LoopRight(a.l, NodeToks(a.r) + brk, NodeToks(a.r) + ts);
    } else {
      LastIsCommand(a);
      BareCommand(a.cmd, ts);
    }
  }

  lemma LastIsCommand(a: Ast)
    requires CommandNodeOk(a, false) && EndsBare(a)
    ensures a.Cmd? && CommandOk(a.cmd, false) && NodeToks(a) == CommandToks(a.cmd)
  {
  }

  lemma PipeRight(a: Ast, rest: Toks)
    requires a.Bin? && a.op == PipeOp && PipelineOk(a, false)
    ensures Pipeline(NodeToks(a) + rest) == PipelineLoop(a.l, [Op(Pipe)] + (NodeToks(a.r) + rest), false)
  {
    hide Pipeline, PipelineLoop;
    var after := [Op(Pipe)] + (NodeToks(a.r) + rest);
    assert NodeToks(a) + rest == NodeToks(a.l) + after;
    PipelineComplete(a.l, after);
  }

  lemma LoopRight(l: Ast, x: Toks, y: Toks)
    requires AnyCommand(x) == AnyCommand(y)
    ensures PipelineLoop(l, [Op(Pipe)] + x, false) == PipelineLoop(l, [Op(Pipe)] + y, false)
  {
    hide AnyCommand;
    assert ([Op(Pipe)] + x)[1..] == x && ([Op(Pipe)] + y)[1..] == y;
  }

  lemma {:induction false} SwallowedInAndOr(a: Ast, ts: Toks)
    requires AndOrOk(a, false) && EndsBare(a) && Continues(ts)
    ensures AndOr(NodeToks(a) + ([Op(Newline)] + ts)) == AndOr(NodeToks(a) + ts)
  {
    hide Pipeline, AndOrLoop, PipelineOk, Continues;
    var brk := [Op(Newline)] + ts;
    if a.Bin? && (a.op == AndOp || a.op == OrOp) {
      SwallowedInPipeline(a.r, ts);
      AndOrRight(a, brk);
      AndOrRight(a, ts);
      AndOrLoopRight(a.l, Joint(a), NodeToks(a.r) + brk, NodeToks(a.r) + ts);
    } else {
      SwallowedInPipeline(a, ts);
    }
  }

  function Joint(a: Ast): TokenKind
    requires a.Bin?
  {
    if a.op == AndOp then And else Or
  }

  lemma AndOrRight(a: Ast, rest: Toks)
    requires a.Bin? && (a.op == AndOp || a.op == OrOp) && AndOrOk(a, false)
    ensures AndOr(NodeToks(a) + rest) == AndOrLoop(a.l, [Op(Joint(a))] + (NodeToks(a.r) + rest), false)
  {
    hide AndOr, AndOrLoop, PipelineOk;
    var after := [Op(Joint(a))] + (NodeToks(a.r) + rest);
    assert NodeToks(a) + rest == NodeToks(a.l) + after;
    AndOrComplete(a.l, after);
  }

  lemma AndOrLoopRight(l: Ast, k: TokenKind, x: Toks, y: Toks)
    requires (k == And || k == Or) && Pipeline(x) == Pipeline(y)
    ensures AndOrLoop(l, [Op(k)] + x, false) == AndOrLoop(l, [Op(k)] + y, false)
  {
    hide Pipeline;
    assert ([Op(k)] + x)[1..] == x && ([Op(k)] + y)[1..] == y;
  }

  /** After a list element that ends in assignments only, a line break is not
      there: what follows continues the command. */
  lemma BreakSwallowed(a: Ast, ts: Toks)
    requires AndOrOk(a, false) && EndsBare(a) && Continues(ts)
    ensures CommandList(NodeToks(a) + ([Op(Newline)] + ts)) == CommandList(NodeToks(a) + ts)
  {
    hide AndOr, ListLoop, AndOrOk, Continues;
    SwallowedInAndOr(a, ts);
  }

  // ------------------------------------------------------------ exactly when

  /** The element with `w` as the argument of its last command. */
  function WithArg(a: Ast, w: string): Ast {
    match a
    case Cmd(c) => Cmd(c.(argv := [w]))
    case Bin(op, l, r) => Bin(op, l, WithArg(r, w))
    case _ => a
  }

  lemma BinFrom(op: BinOp, l: Ast, r: Ast)
    ensures op == PipeOp && PipelineOk(l, false) && CommandNodeOk(r, false) ==> PipelineOk(Bin(op, l, r), false)
    ensures (op == AndOp || op == OrOp) && AndOrOk(l, false) && PipelineOk(r, false) ==> AndOrOk(Bin(op, l, r), false)
  {
  }

  lemma {:induction false} WithArgOk(a: Ast, w: string)
    requires AndOrOk(a, false) && EndsBare(a) && !IsAssignment(w) && w != "{"
    ensures CommandNodeOk(a, false) ==> CommandNodeOk(WithArg(a, w), false)
    ensures PipelineOk(a, false) ==> PipelineOk(WithArg(a, w), false)
    ensures AndOrOk(WithArg(a, w), false) && NodeToks(WithArg(a, w)) == NodeToks(a) + [W(w)]
    decreases a
  {
    hide IsAssignment, CommandNodeOk, PipelineOk, AndOrOk;
    var b := WithArg(a, w);
    Widen(b, false);
    if a.Bin? {
      BinParts(a);
      Widen(a.r, false);
      WithArgOk(a.r, w);
      BinFrom(a.op, a.l, b.r);
      Widen(b, false);
      var op := [Op(if a.op == PipeOp then Pipe else if a.op == AndOp then And else Or)];
      assert NodeToks(a.l) + (op + (NodeToks(a.r) + [W(w)])) == NodeToks(a.l) + (op + NodeToks(a.r)) + [W(w)];
    } else {
      CommandWithArg(a, w);
    }
  }

  lemma OneWord(w: string)
    ensures WordToks([w]) == [W(w)]
  {
    assert WordToks([w]) == [W(w)] + WordToks([]);
  }

  lemma CommandWithArg(a: Ast, w: string)
    requires AndOrOk(a, false) && a.Cmd? && EndsBare(a) && !IsAssignment(w) && w != "{"
    ensures CommandNodeOk(WithArg(a, w), false) && NodeToks(WithArg(a, w)) == NodeToks(a) + [W(w)]
  {
    hide IsAssignment;
    assert PipelineOk(a, false) && CommandNodeOk(a, false);
    var c, rs, ws := a.cmd, RedirToks(a.cmd.redirs), WordToks(a.cmd.argv);
    OneWord(w);
    assert |rs| == 0 && |ws| == 0;
    assert rs + [W(w)] == [W(w)] && rs + ws == [];
    assert CommandToks(c) == WordToks(c.assigns);
  }

  /** Main result: a line break after a list element parses as `;` does,
      whatever follows but another separator, if and only if the last command of
      the element is not assignments only. */
  lemma BreakEndsExactly(a: Ast)
    requires AndOrOk(a, false)
    ensures !EndsBare(a) <==>
      forall ts: Toks :: Head(ts) != Newline && Head(ts) != Semicolon ==>
        CommandList(NodeToks(a) + ([Op(Newline)] + ts)) == CommandList(NodeToks(a) + ([Op(Semicolon)] + ts))
  {
    hide CommandList, ListLoop, AndOrOk;
    if EndsBare(a) {
      Differs(a);
    } else {
      forall ts: Toks | Head(ts) != Newline && Head(ts) != Semicolon
        ensures CommandList(NodeToks(a) + ([Op(Newline)] + ts)) == CommandList(NodeToks(a) + ([Op(Semicolon)] + ts))
      {
        ListAt(a, Newline, ts);
        ListAt(a, Semicolon, ts);
        BreakSeparates(a, ts);
      }
    }
  }

  /** With a command on the next line: one command, not two. */
  lemma Differs(a: Ast)
    requires AndOrOk(a, false) && EndsBare(a)
    ensures var ts := [W("b"), EOF_TOKEN];
            && Head(ts) != Newline && Head(ts) != Semicolon
            && CommandList(NodeToks(a) + ([Op(Newline)] + ts)) == Parsed(WithArg(a, "b"), [EOF_TOKEN], false)
            && CommandList(NodeToks(a) + ([Op(Newline)] + ts)) != CommandList(NodeToks(a) + ([Op(Semicolon)] + ts))
  {
    hide CommandList, ListLoop, AndOrOk, IsAssignment;
    var ts := [W("b"), EOF_TOKEN];
    PlainB();
    BreakSwallowed(a, ts);
    WithArgOk(a, "b");
    var one := WithArg(a, "b");
    assert NodeToks(a) + ts == NodeToks(one) + [EOF_TOKEN];
    Element(one);
    var b := Cmd(Command(["b"], [], []));
    assert NodeToks(b) == [W("b")];
    Element(b);
    assert ts == NodeToks(b) + [EOF_TOKEN];
    ListAt(a, Semicolon, ts);
    SemicolonSplits(a, b, ts);
    SameKind(a);
    if one.Bin? {
      BinParts(one);
    }
  }

  lemma PlainB()
    ensures !IsAssignment("b") && AndOrOk(Cmd(Command(["b"], [], [])), false)
    ensures NodeToks(Cmd(Command(["b"], [], []))) == [W("b")]
  {
    assert NameLen("b") <= 1;
    assert WordToks(["b"]) == [W("b")] + WordToks([]);
  }

  lemma SameKind(a: Ast)
    ensures WithArg(a, "b").Bin? <==> a.Bin?
  {
  }

  lemma Element(a: Ast)
    requires AndOrOk(a, false)
    ensures CommandList(NodeToks(a) + [EOF_TOKEN]) == Parsed(a, [EOF_TOKEN], false)
  {
    hide AndOr, AndOrLoop, ListLoop, CommandList, AndOrOk;
    AndOrComplete(a, [EOF_TOKEN]);
    AndOrEnds(a, [EOF_TOKEN]);
    AndOrNotNull(a);
    ListBegins(NodeToks(a) + [EOF_TOKEN], a, [EOF_TOKEN]);
    ListEnds(a, [EOF_TOKEN]);
  }

  lemma SemicolonSplits(a: Ast, b: Ast, ts: Toks)
    requires ts == [W("b"), EOF_TOKEN] && CommandList(ts) == Parsed(b, [EOF_TOKEN], false)
    ensures ListLoop(a, [Op(Semicolon)] + ts, false) == Parsed(Bin(SeqOp, a, b), [EOF_TOKEN], false)
  {
    hide CommandList, ListLoop;
    SepStep(a, [Op(Semicolon)] + ts, Sequential, a, ts);
    ListEnds(Bin(SeqOp, a, b), [EOF_TOKEN]);
  }

  /** `A=1` and `b` on two lines run as `A=1 b`. */
  lemma AssignmentContinues()
    ensures Parse([W("A=1"), Op(Newline), W("b"), EOF_TOKEN]) == Some(Cmd(Command(["b"], ["A=1"], [])))
  {
    hide CommandList, AndOrOk, IsAssignment;
    var a := Cmd(Command([], ["A=1"], []));
    BareA();
    Differs(a);
    var all := [W("A=1"), Op(Newline), W("b"), EOF_TOKEN];
    assert NodeToks(a) + ([Op(Newline)] + [W("b"), EOF_TOKEN]) == all;
    assert SkipNewlines(all) == all && SkipNewlines([EOF_TOKEN]) == [EOF_TOKEN];
  }

  lemma BareA()
    ensures var a := Cmd(Command([], ["A=1"], []));
            AndOrOk(a, false) && NodeToks(a) == [W("A=1")]
  {
    assert IsAssignment("A=1") by {
      assert "A=1"[1..] == "=1";
    }
    assert WordToks(["A=1"]) == [W("A=1")] + WordToks([]);
  }
}
