/** How a command starts decides what the parser makes of it: exactly when a
    line break before it matters, and when its assignments are lost. */
module CommandStarts {
  import opened Tokens
  import opened Syntax
  import opened ParserSpec
  import opened ParserRoundTrip
  import opened ParserSound
  import opened Wrappers
  import opened Ascii

  /** A pass without error yields a command. */
  lemma {:induction false} BuildYields(ts: Toks, c: Command)
    requires !BuildCommand(ts, c).error
    ensures var r := BuildCommand(ts, c); r.ast.Cmd? && r.ast.cmd.assigns == c.assigns
    decreases |ts|
  {
    BuildKeepsAssigns(ts, c);
    hide ArithText, IsRedir, MakeRedir;
    RedirKinds(Head(ts));
    if InCommand(Head(ts)) {
      if ts[0].kind == Word {
        BuildYields(ts[1..], c.(argv := c.argv + [ts[0].value]));
      } else if ts[0].kind == ArithOpen {
        BuildYields(ArithText(ts[1..], "$((").1, c.(argv := c.argv + [ArithText(ts[1..], "$((").0]));
      } else if Head(ts[1..]) == Word {
        BuildYields(ts[2..], c.(redirs := c.redirs + [MakeRedir(ts[0].kind, ts[0].io, ts[1].value)]));
      }
    }
  }

  lemma {:induction false} GroupIsNoCommand(kind: GroupKind, child: Ast, redirs: seq<Redir>, ts: Toks)
    ensures !GroupRedirs(kind, child, redirs, ts).ast.Cmd?
    decreases |ts|
  {
    hide IsRedir, MakeRedir;
    RedirKinds(Eof);
    if IsRedir(Head(ts)) && Head(ts[1..]) == Word {
      GroupIsNoCommand(kind, child, redirs + [MakeRedir(ts[0].kind, ts[0].io, ts[1].value)], ts[2..]);
    }
  }

  lemma SubshellIsNoCommand(ts: Toks)
    requires ts != []
    ensures !SubshellCommand(ts).ast.Cmd?
  {
    hide CommandList, GroupRedirs;
    var c := CommandList(SkipNewlines(ts[1..]));
    var rest := SkipNewlines(c.rest);
    if c.ast != Null && Head(rest) == RParen {
      GroupIsNoCommand(Subshell, c.ast, [], rest[1..]);
    }
  }

  lemma BlockIsNoCommand(ts: Toks)
    requires ts != []
    ensures !BlockCommand(ts).ast.Cmd?
  {
    hide CommandList, GroupRedirs;
    var c := CommandList(SkipNewlines(ts[1..]));
    var rest := SkipNewlines(c.rest);
    if c.ast != Null && HeadIsWord(rest, "}") {
      GroupIsNoCommand(Block, c.ast, [], rest[1..]);
    }
  }

  lemma AssignmentsStart(ts: Toks)
    ensures Assignments(ts, []).0 != [] <==> (Head(ts) == Word && IsAssignment(ts[0].value))
  {
    hide ArithText, IsAssignment;
  }

  // -------------------------------------------- assignments before a subshell

  /** A simple command, by what follows its assignments. */
  lemma SimpleByRest(ts: Toks)
    ensures var (assigns, rest, bad) := Assignments(ts, []);
            var r := SimpleCommand(ts);
            if Head(rest) == LParen then r.ast == SubshellCommand(rest).ast
            else !r.error ==> r == BuildCommand(SkipNewlines(rest), Command([], assigns, []))
  {
    hide Assignments, SubshellCommand, BuildCommand, CountArgs;
  }

  /** Assignments in front of a command are kept exactly when no `(` follows
      them; `A=1 (b)` runs the subshell and loses them. */
  lemma AssignmentsKeptExactly(ts: Toks)
    requires !SimpleCommand(ts).error && Assignments(ts, []).0 != []
    ensures var (assigns, rest, _) := Assignments(ts, []);
            var r := SimpleCommand(ts);
            (r.ast.Cmd? && r.ast.cmd.assigns == assigns) <==> Head(rest) != LParen
  {
    hide SimpleCommand, Assignments, SubshellCommand, BuildCommand;
    var (assigns, rest, _) := Assignments(ts, []);
    SimpleByRest(ts);
    if Head(rest) == LParen {
      SubshellIsNoCommand(rest);
    } else {
      BuildYields(SkipNewlines(rest), Command([], assigns, []));
    }
  }

  /** An assignment word in front of `(` leaves no trace: the input parses as if
      it were not there. */
  lemma AssignmentLost(w: string, ts: Toks)
    requires IsAssignment(w) && Head(ts) == LParen
    ensures Parse([W(w)] + ts) == Parse(ts)
  {
    hide CommandList, IsAssignment;
    var all := [W(w)] + ts;
    assert all[1..] == ts;
    BeforeParen(w, ts);
    FirstCommandDecides(all, ts);
    assert SkipNewlines(all) == all && SkipNewlines(ts) == ts;
  }

  lemma BeforeParen(w: string, ts: Toks)
    requires IsAssignment(w) && Head(ts) == LParen
    ensures AnyCommand([W(w)] + ts) == AnyCommand(ts)
  {
    hide SubshellCommand, IsAssignment;
    var all := [W(w)] + ts;
    assert all[1..] == ts && [] + [w] == [w];
    assert Assignments(ts, [w]) == ([w], ts, false);
    assert Assignments(all, []) == ([w], ts, false);
    assert w != "{" by {
      BraceAssigns(w);
    }
  }

  lemma BraceAssigns(w: string)
    requires IsAssignment(w)
    ensures w != "{"
  {
  }

  lemma FirstCommandDecides(a: Toks, b: Toks)
    requires AnyCommand(a) == AnyCommand(b)
    ensures CommandList(a) == CommandList(b)
  {
    hide AnyCommand, PipelineLoop, AndOrLoop, ListLoop;
    assert Pipeline(a) == Pipeline(b);
    assert AndOr(a) == AndOr(b);
  }

  /** `A=1 (b)` runs the subshell only. */
  lemma AssignmentLostHere()
    ensures Parse([W("A=1"), Op(LParen), W("b"), Op(RParen), EOF_TOKEN])
         == Some(Grp(Subshell, Cmd(Command(["b"], [], [])), []))
  {
    hide Parse;
    var group := [Op(LParen), W("b"), Op(RParen), EOF_TOKEN];
    assert IsAssignment("A=1") by {
      assert "A=1"[1..] == "=1";
    }
    AssignmentLost("A=1", group);
    assert [W("A=1")] + group == [W("A=1"), Op(LParen), W("b"), Op(RParen), EOF_TOKEN];
    GroupPrinted();
    ParseComplete(Grp(Subshell, Cmd(Command(["b"], [], [])), []));
  }

  lemma GroupPrinted()
    ensures var a := Grp(Subshell, Cmd(Command(["b"], [], [])), []);
            ListOk(a, false) && Printed(a) == [Op(LParen), W("b"), Op(RParen), EOF_TOKEN]
  {
    var b := Cmd(Command(["b"], [], []));
    assert !IsAssignment("b") by {
      assert NameLen("b") <= 1;
    }
    assert ListOk(b, false);
    assert WordToks(["b"]) == [W("b")] + WordToks([]);
    assert NodeToks(b) == [W("b")];
    assert ListToks(b, false) == [W("b")];
  }

  // ------------------------------------------------------------ line breaks

  /** Neither a group nor an assignment. */
  predicate StartsPlainly(ts: Toks) {
    Head(ts) != LParen && !HeadIsWord(ts, "{") && !(Head(ts) == Word && IsAssignment(ts[0].value))
  }

  lemma AfterBreak(ts: Toks)
    requires Head(ts) != Newline
    ensures var r := AnyCommand([Op(Newline)] + ts);
            && r == (if CountArgs(ts) == 0 && !IsHeredoc(Head(ts)) then Parsed(Null, ts, true)
                     else BuildCommand(ts, Command([], [], [])))
            && (!r.error ==> r.ast.Cmd? && r.ast.cmd.assigns == [])
  {
    hide BuildCommand, CountArgs, IsAssignment;
    var brk := [Op(Newline)] + ts;
    assert brk[1..] == ts && SkipNewlines(brk) == ts && SkipNewlines(ts) == ts;
    assert Assignments(brk, []) == ([], brk, false);
    if !BuildCommand(ts, Command([], [], [])).error {
      BuildYields(ts, Command([], [], []));
    }
  }

  /** A line break before a command changes nothing when the command starts
      plainly, and for a command read without error only then. */
  lemma LineBreakHarmlessExactly(ts: Toks)
    requires ts != [] && Head(ts) != Newline
    ensures StartsPlainly(ts) ==> AnyCommand([Op(Newline)] + ts) == AnyCommand(ts)
    ensures !AnyCommand(ts).error ==>
      (AnyCommand([Op(Newline)] + ts) == AnyCommand(ts) <==> StartsPlainly(ts))
  {
    AfterBreak(ts);
    hide BuildCommand, CountArgs, IsAssignment, SubshellCommand, BlockCommand, Assignments;
    AssignmentsStart(ts);
    if Head(ts) == LParen {
      SubshellIsNoCommand(ts);
      NoCommandAtParen(ts);
    } else if HeadIsWord(ts, "{") {
      BlockIsNoCommand(ts);
    } else if StartsPlainly(ts) {
      PlainAssignments(ts);
    } else if !AnyCommand(ts).error {
      AssignmentsKeptExactly(ts);
      SimpleByRest(ts);
      if Head(Assignments(ts, []).1) == LParen {
        SubshellIsNoCommand(Assignments(ts, []).1);
      }
    }
  }

  lemma NoCommandAtParen(ts: Toks)
    requires Head(ts) == LParen
    ensures CountArgs(ts) == 0 && !IsHeredoc(Head(ts))
  {
  }

  lemma PlainAssignments(ts: Toks)
    requires StartsPlainly(ts) && Head(ts) != Newline
    ensures Assignments(ts, []) == ([], ts, false) && SkipNewlines(ts) == ts
  {
    hide IsAssignment;
  }
}
