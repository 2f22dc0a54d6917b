/** What every parse yields: a tree in normal form, an error whenever it
    yields none, and never a step past the end of the tokens. */
module ParserSound {
  import opened Ascii
  import opened Tokens
  import opened Syntax
  import opened ParserSpec
  import opened ParserRoundTrip
  import opened Wrappers

  /** One EOF token, at the end, as the tokenizer leaves it. */
  ghost predicate EofLast(ts: Toks) {
    ts != [] && ts[|ts| - 1].kind == Eof && forall i :: 0 <= i < |ts| - 1 ==> ts[i].kind != Eof
  }

  ghost predicate NoNewlines(ts: Toks) {
    forall i :: 0 <= i < |ts| ==> ts[i].kind != Newline
  }

  /** Tokens the parser may be left with; line breaks only if `loose`. */
  ghost predicate Left(ts: Toks, loose: bool) {
    EofLast(ts) && (loose || NoNewlines(ts))
  }

  lemma LeftTail(ts: Toks, loose: bool)
    requires Left(ts, loose) && Head(ts) != Eof
    ensures Left(ts[1..], loose)
  {
  }

  lemma {:induction false} LeftSkip(ts: Toks, loose: bool)
    requires Left(ts, loose)
    ensures Left(SkipNewlines(ts), loose)
    ensures Head(ts) != Newline ==> SkipNewlines(ts) == ts
    ensures !loose ==> SkipNewlines(ts) == ts
  {
    if Head(ts) == Newline {
      LeftTail(ts, loose);
      LeftSkip(ts[1..], loose);
    }
  }

  // -------------------------------------------------------- simple commands

  lemma {:induction false} ArithSound(ts: Toks, buf: string, loose: bool)
    requires Left(ts, loose) && buf != ""
    ensures var (text, rest, bad) := ArithText(ts, buf);
            !bad ==> Left(rest, loose) && buf <= text && rest == SkipArith(ts)
  {
    if Head(ts) != ArithClose && Head(ts) != Eof {
      LeftTail(ts, loose);
      ArithSound(ts[1..], buf + (if buf[|buf| - 1] != '(' then " " else "") + ts[0].value, loose);
    } else if Head(ts) == ArithClose {
      LeftTail(ts, loose);
    }
  }

  lemma {:induction false} NameRunAppend(s: string, t: string)
    requires At(s, NameLen(s)) == '='
    ensures NameLen(s + t) == NameLen(s)
  {
    if s[0] != '=' && IsNameChar(s[0]) {
      assert (s + t)[1..] == s[1..] + t;
      NameRunAppend(s[1..], t);
    }
  }

  lemma {:induction false} AssignmentsSound(ts: Toks, acc: seq<string>, loose: bool)
    requires Left(ts, loose) && AssignsOk(acc)
    ensures var (all, rest, bad) := Assignments(ts, acc);
            AssignsOk(all) && (!bad ==> Left(rest, loose) && (Head(rest) == Word ==> !IsAssignment(rest[0].value)))
    ensures var (all, rest, bad) := Assignments(ts, acc);
            !bad && all == [] ==> rest == ts
    decreases |ts|
  {
    if Head(ts) == Word && IsAssignment(ts[0].value) {
      LeftTail(ts, loose);
      if Head(ts[1..]) == ArithOpen {
        LeftTail(ts[1..], loose);
        assert ts[1..][1..] == ts[2..];
        ArithSound(ts[2..], "$((", loose);
        var (text, rest, bad) := ArithText(ts[2..], "$((");
        NameRunAppend(ts[0].value, text);
        if !bad {
          AssignmentsSound(rest, acc + [ts[0].value + text], loose);
        } else {
          AssignmentsAreAssignments(rest, acc + [ts[0].value + text]);
        }
      } else {
        AssignmentsSound(ts[1..], acc + [ts[0].value], loose);
      }
    }
  }

  lemma {:induction false} AssignmentsAreAssignments(ts: Toks, acc: seq<string>)
    requires AssignsOk(acc)
    ensures AssignsOk(Assignments(ts, acc).0)
    decreases |ts|
  {
    if Head(ts) == Word && IsAssignment(ts[0].value) {
      if Head(ts[1..]) == ArithOpen {
        var (text, rest, bad) := ArithText(ts[2..], "$((");
        NameRunAppend(ts[0].value, text);
        AssignmentsAreAssignments(rest, acc + [ts[0].value + text]);
      } else {
        AssignmentsAreAssignments(ts[1..], acc + [ts[0].value]);
      }
    }
  }

  /** The filling pass on a well-formed command: it fills exactly the counted
      slots, and its first token decides its first argument or redirection. */
  ghost predicate Built(ts: Toks, c: Command, r: Parsed, loose: bool) {
    && r.ast.Cmd? && Left(r.rest, loose) && !InCommand(Head(r.rest))
    && var d := r.ast.cmd;
    && d.assigns == c.assigns && c.argv <= d.argv && c.redirs <= d.redirs
    && |d.argv| == |c.argv| + CountArgs(ts)
    && (RedirsOk(c.redirs) ==> RedirsOk(d.redirs))
    && (IsRedir(Head(ts)) ==> |c.redirs| < |d.redirs| && d.redirs[|c.redirs|].kind == Head(ts))
    && (Head(ts) == Word ==> |c.argv| < |d.argv| && d.argv[|c.argv|] == ts[0].value)
    && (Head(ts) == ArithOpen ==> |c.argv| < |d.argv| && "$((" <= d.argv[|c.argv|])
  }

  lemma {:induction false} BuildSound(ts: Toks, c: Command, loose: bool)
    requires Left(ts, loose)
    ensures var r := BuildCommand(ts, c); !r.error ==> Built(ts, c, r, loose)
    decreases |ts|
  {
    hide Built, Left;
    if !InCommand(Head(ts)) {
      BuildStops(ts, c, loose);
    } else {
      LeftTail(ts, loose);
      if ts[0].kind == Word {
        BuildSound(ts[1..], c.(argv := c.argv + [ts[0].value]), loose);
        BuildWord(ts, c, loose);
      } else if ts[0].kind == ArithOpen {
        ArithSound(ts[1..], "$((", loose);
        var (text, rest, bad) := ArithText(ts[1..], "$((");
        if !bad {
          BuildSound(rest, c.(argv := c.argv + [text]), loose);
          BuildArith(ts, c, loose);
        }
      } else if Head(ts[1..]) == Word {
        LeftTail(ts[1..], loose);
        assert ts[1..][1..] == ts[2..];
        BuildSound(ts[2..], c.(redirs := c.redirs + [MakeRedir(ts[0].kind, ts[0].io, ts[1].value)]), loose);
        BuildRedir(ts, c, loose);
      }
    }
  }

  lemma BuildStops(ts: Toks, c: Command, loose: bool)
    requires Left(ts, loose) && !InCommand(Head(ts))
    ensures Built(ts, c, BuildCommand(ts, c), loose)
  {
  }

  lemma BuildWord(ts: Toks, c: Command, loose: bool)
    requires Head(ts) == Word
    requires var c' := c.(argv := c.argv + [ts[0].value]);
             var r := BuildCommand(ts[1..], c'); !r.error ==> Built(ts[1..], c', r, loose)
    ensures var r := BuildCommand(ts, c); !r.error ==> Built(ts, c, r, loose)
  {
    hide Left, RedirsOk;
    assert CountArgs(ts) == 1 + CountArgs(ts[1..]);
  }

  lemma BuildArith(ts: Toks, c: Command, loose: bool)
    requires Head(ts) == ArithOpen
    requires var (text, rest, bad) := ArithText(ts[1..], "$((");
             !bad && "$((" <= text && rest == SkipArith(ts[1..]) &&
             var c' := c.(argv := c.argv + [text]);
             var r := BuildCommand(rest, c'); !r.error ==> Built(rest, c', r, loose)
    ensures var r := BuildCommand(ts, c); !r.error ==> Built(ts, c, r, loose)
  {
    hide Left, RedirsOk, ArithText, SkipArith;
    assert CountArgs(ts) == 1 + CountArgs(SkipArith(ts[1..]));
  }

  lemma BuildRedir(ts: Toks, c: Command, loose: bool)
    requires IsRedir(Head(ts)) && Head(ts[1..]) == Word
    requires var c' := c.(redirs := c.redirs + [MakeRedir(ts[0].kind, ts[0].io, ts[1].value)]);
             var r := BuildCommand(ts[2..], c'); !r.error ==> Built(ts[2..], c', r, loose)
    ensures var r := BuildCommand(ts, c); !r.error ==> Built(ts, c, r, loose)
  {
    hide Left;
    assert CountArgs(ts) == CountArgs(ts[2..]);
    assert RedirOk(MakeRedir(ts[0].kind, ts[0].io, ts[1].value));
  }

  /** The filling pass never writes past the counted argument slots, and a
      pass without error fills every one of them. */
  lemma {:induction false} FillWithinCount(ts: Toks, c: Command)
    ensures var r := BuildCommand(ts, c);
            && (r.ast.Cmd? ==> |r.ast.cmd.argv| <= |c.argv| + CountArgs(ts))
            && (!r.error ==> r.ast.Cmd? && |r.ast.cmd.argv| == |c.argv| + CountArgs(ts))
    decreases |ts|
  {
    hide ArithText, SkipArith, MakeRedir, IsRedir;
    RedirKinds(Head(ts));
    if InCommand(Head(ts)) {
      if ts[0].kind == Word {
        FillWithinCount(ts[1..], c.(argv := c.argv + [ts[0].value]));
      } else if ts[0].kind == ArithOpen {
        var (text, rest, bad) := ArithText(ts[1..], "$((");
        FillWithinCount(rest, c.(argv := c.argv + [text]));
        ArithSkips(ts[1..], "$((");
        EofStopsCount(rest);
      } else if Head(ts[1..]) == Word {
        var rd := MakeRedir(ts[0].kind, ts[0].io, ts[1].value);
        FillWithinCount(ts[2..], c.(redirs := c.redirs + [rd]));
      }
    }
  }

  lemma {:induction false} ArithSkips(ts: Toks, buf: string)
    requires buf != ""
    ensures var (text, rest, bad) := ArithText(ts, buf);
            if bad then Head(rest) == Eof else rest == SkipArith(ts)
  {
    if Head(ts) != ArithClose && Head(ts) != Eof {
      ArithSkips(ts[1..], buf + (if buf[|buf| - 1] != '(' then " " else "") + ts[0].value);
    }
  }

  lemma EofStopsCount(ts: Toks)
    ensures Head(ts) == Eof ==> CountArgs(ts) == 0
  {
  }

  lemma FillWord(ts: Toks, c: Command)
    requires Head(ts) == Word
    ensures BuildCommand(ts, c) == BuildCommand(ts[1..], c.(argv := c.argv + [ts[0].value]))
    ensures CountArgs(ts) == 1 + CountArgs(ts[1..])
  {
    hide ArithText, MakeRedir, SkipArith;
  }

  lemma FillArith(ts: Toks, c: Command)
    requires Head(ts) == ArithOpen
    ensures var (text, rest, bad) := ArithText(ts[1..], "$((");
            var p := BuildCommand(rest, c.(argv := c.argv + [text]));
            BuildCommand(ts, c) == p.(error := p.error || bad) && CountArgs(ts) >= 1 + CountArgs(rest)
  {
    hide ArithText, MakeRedir, SkipArith;
    ArithSkips(ts[1..], "$((");
    EofStopsCount(ArithText(ts[1..], "$((").1);
  }

  lemma FillRedir(ts: Toks, c: Command)
    requires InCommand(Head(ts)) && Head(ts) != Word && Head(ts) != ArithOpen
    ensures Head(ts[1..]) == Word ==>
      BuildCommand(ts, c)
        == BuildCommand(ts[2..], c.(redirs := c.redirs + [MakeRedir(ts[0].kind, ts[0].io, ts[1].value)]))
      && CountArgs(ts) == CountArgs(ts[2..])
    ensures Head(ts[1..]) != Word ==> BuildCommand(ts, c) == Parsed(Null, if |ts| == 1 then [] else ts[2..], true)
  {
    hide ArithText, MakeRedir, SkipArith;
  }

  lemma FillEnds(ts: Toks, c: Command)
    requires !InCommand(Head(ts))
    ensures BuildCommand(ts, c) == Parsed(Cmd(c), ts, false)
  {
  }

  lemma SimpleSound(ts: Toks, loose: bool)
    requires Left(ts, loose) && !HeadIsWord(ts, "{")
    requires Head(Assignments(ts, []).1) != LParen
    ensures var r := SimpleCommand(ts);
            !r.error ==> Left(r.rest, loose) && CommandNodeOk(r.ast, loose) && HeadFrom(r.ast, ts)
  {
    hide BuildCommand, Left, CountArgs, SubshellCommand;
    var (assigns, rest, bad) := Assignments(ts, []);
    AssignmentsSound(ts, [], loose);
    if !bad {
      var start := SkipNewlines(rest);
      LeftSkip(rest, loose);
      var c := Command([], assigns, []);
      BuildSound(start, c, loose);
      var r := BuildCommand(start, c);
      if !SimpleCommand(ts).error {
        SimpleOk(ts, assigns, rest, start, r, loose);
      }
    }
  }

  /** If a printed tree starts with the word `}`, so did the tokens it was
      parsed from, unless they started with a line break. */
  ghost predicate HeadFrom(a: Ast, ts: Toks) {
    Head(ts) != Newline && HeadIsWord(NodeToks(a), "}") ==> HeadIsWord(ts, "}")
  }

  lemma SimpleOk(ts: Toks, assigns: seq<string>, rest: Toks, start: Toks, r: Parsed, loose: bool)
    requires !HeadIsWord(ts, "{") && AssignsOk(assigns)
    requires assigns == [] ==> rest == ts
    requires Head(rest) == Word ==> !IsAssignment(rest[0].value)
    requires (!loose || Head(rest) != Newline ==> start == rest) && Built(start, Command([], assigns, []), r, loose)
    requires CountArgs(start) == 0 && assigns == [] ==> IsHeredoc(Head(start))
    ensures CommandNodeOk(r.ast, loose) && HeadFrom(r.ast, ts)
  {
    hide CountArgs, Left;
    var d := r.ast.cmd;
    assert RedirsOk([]);
    assert d.redirs == [] && d.argv != [] ==> InCommand(Head(start)) && !IsRedir(Head(start)) by {
      StopsEmpty(start);
    }
    assert !IsAssignment("}") && !IsAssignment("$((") && !IsAssignment("{");
    assert d.argv != [] && "$((" <= d.argv[0] ==> d.argv[0][0] == '$';
    assert CommandOk(d, loose);
    if HeadIsWord(NodeToks(r.ast), "}") {
      FirstOfCommand(d);
    }
  }

  lemma StopsEmpty(ts: Toks)
    ensures !InCommand(Head(ts)) ==> CountArgs(ts) == 0
  {
  }

  lemma FirstOfCommand(d: Command)
    requires HeadIsWord(CommandToks(d), "}") && AssignsOk(d.assigns) && RedirsOk(d.redirs)
    ensures d.assigns == [] && d.redirs == [] && d.argv != [] && d.argv[0] == "}"
  {
    assert !IsAssignment("}");
    assert d.assigns == [] && d.redirs == [] ==> CommandToks(d) == WordToks(d.argv);
  }

  // ------------------------------------------------------------ whole parser

  /** A parse without error leaves a well-formed rest; a null tree is an error. */
  ghost predicate Sound(ts: Toks, r: Parsed, loose: bool) {
    && (r.ast == Null ==> r.error)
    && (!r.error ==> Left(r.rest, loose))
  }

  lemma {:induction false} GroupRedirsSound(kind: GroupKind, child: Ast, rs: seq<Redir>, ts: Toks, loose: bool)
    requires Left(ts, loose) && RedirsOk(rs)
    ensures var r := GroupRedirs(kind, child, rs, ts);
            Sound(ts, r, loose)
            && (!r.error ==> r.ast.Grp? && r.ast.kind == kind && r.ast.child == child && RedirsOk(r.ast.redirs))
    decreases |ts|
  {
    if IsRedir(Head(ts)) {
      LeftTail(ts, loose);
      if Head(ts[1..]) == Word {
        LeftTail(ts[1..], loose);
        assert ts[1..][1..] == ts[2..];
        var rd := MakeRedir(ts[0].kind, ts[0].io, ts[1].value);
        assert RedirOk(rd);
        GroupRedirsSound(kind, child, rs + [rd], ts[2..], loose);
      }
    }
  }

  /** The group whose opening token is `ts[0]`, given its list. */
  lemma GroupSound(ts: Toks, loose: bool)
    requires Left(ts, loose) && (Head(ts) == LParen || HeadIsWord(ts, "{"))
    requires var inner := SkipNewlines(ts[1..]); ListSoundAt(inner, CommandList(inner), loose)
    ensures var r := if Head(ts) == LParen then SubshellCommand(ts) else BlockCommand(ts);
            Sound(ts, r, loose) && (!r.error ==> CommandNodeOk(r.ast, loose) && !HeadIsWord(NodeToks(r.ast), "}"))
  {
    hide CommandList, GroupRedirs, ListOk, RedirsOk, Left, NoNewlines;
    var inner := SkipNewlines(ts[1..]);
    var c := CommandList(inner);
    if !c.error {
      var rest := SkipNewlines(c.rest);
      LeftSkip(c.rest, loose);
      LeftNonempty(rest, loose);
      if Head(rest) == RParen || HeadIsWord(rest, "}") {
        LeftTail(rest, loose);
        assert RedirsOk([]) by { NoRedirs(); }
        GroupRedirsSound(if Head(ts) == LParen then Subshell else Block, c.ast, [], rest[1..], loose);
      }
    }
  }

  lemma NoRedirs()
    ensures RedirsOk([])
  {
  }

  lemma LeftNonempty(ts: Toks, loose: bool)
    requires Left(ts, loose)
    ensures ts != []
  {
  }

  /** The list parser's promise on `ts`. */
  ghost predicate ListSoundAt(ts: Toks, r: Parsed, loose: bool) {
    && Sound(ts, r, loose)
    && (!r.error ==> ListOk(r.ast, loose) && Separators(r.rest).0 == NoSep
                     && (Head(ts) != Newline && HeadIsWord(ListToks(r.ast, true), "}") ==> HeadIsWord(ts, "}")))
  }

  lemma {:induction false} CommandSound(ts: Toks, loose: bool)
    requires Left(ts, loose)
    ensures var r := AnyCommand(ts);
            && Sound(ts, r, loose)
            && (!r.error ==> CommandNodeOk(r.ast, loose) && NodeToks(r.ast) != [] && HeadFrom(r.ast, ts))
    decreases |ts|, 1
  {
    hide SubshellCommand, BlockCommand, SimpleCommand, Left, CommandNodeOk, NodeToks;
    LeftNonempty(ts, loose);
    if Head(ts) == LParen || HeadIsWord(ts, "{") {
      LeftTail(ts, loose);
      LeftSkip(ts[1..], loose);
      ListSound(SkipNewlines(ts[1..]), loose);
      GroupSound(ts, loose);
    } else {
      SimpleCases(ts, loose);
    }
    var r := AnyCommand(ts);
    if !r.error {
      NodeNonempty(r.ast, loose);
    }
  }

  /** A simple command, or a subshell after dropped assignments. */
  lemma {:induction false} SimpleCases(ts: Toks, loose: bool)
    requires Left(ts, loose) && !HeadIsWord(ts, "{") && Head(ts) != LParen
    ensures var r := SimpleCommand(ts);
            Sound(ts, r, loose) && (!r.error ==> CommandNodeOk(r.ast, loose) && HeadFrom(r.ast, ts))
    decreases |ts|, 0
  {
    var (assigns, rest, bad) := Assignments(ts, []);
    if Head(rest) == LParen {
      hide SubshellCommand, Left, CommandNodeOk, Assignments, CommandList, ListOk, ListToks, NodeToks;
      if !bad {
        AssignmentsSound(ts, [], loose);
        LeftTail(rest, loose);
        LeftSkip(rest[1..], loose);
        ListSound(SkipNewlines(rest[1..]), loose);
        GroupSound(rest, loose);
      }
    } else {
      hide Left, CommandNodeOk, BuildCommand, NodeToks;
      SimpleSound(ts, loose);
      BuildNull(SkipNewlines(rest), Command([], assigns, []));
    }
  }

  lemma {:induction false} BuildNull(ts: Toks, c: Command)
    ensures var r := BuildCommand(ts, c); r.ast == Null ==> r.error
    decreases |ts|
  {
    if InCommand(Head(ts)) {
      if ts[0].kind == Word {
        BuildNull(ts[1..], c.(argv := c.argv + [ts[0].value]));
      } else if ts[0].kind == ArithOpen {
        var (text, rest, bad) := ArithText(ts[1..], "$((");
        BuildNull(rest, c.(argv := c.argv + [text]));
      } else if Head(ts[1..]) == Word {
        BuildNull(ts[2..], c.(redirs := c.redirs + [MakeRedir(ts[0].kind, ts[0].io, ts[1].value)]));
      }
    }
  }

  lemma NodeNonempty(a: Ast, loose: bool)
    requires CommandNodeOk(a, loose)
    ensures NodeToks(a) != []
  {
    hide ListToks, ListOk;
    if a.Cmd? && a.cmd.assigns == [] && a.cmd.redirs == [] {
      assert a.cmd.argv != [];
    }
  }

  // Operator chains: `HeadFrom` and normal form carry over from the first
  // operand, and an error anywhere is never forgotten.

  lemma {:induction false} PipelineErrorSticks(left: Ast, ts: Toks)
    ensures PipelineLoop(left, ts, true).error
    decreases |ts|
  {
    hide AnyCommand;
    if Head(ts) == Pipe {
      var c := AnyCommand(ts[1..]);
      PipelineErrorSticks(Bin(PipeOp, left, c.ast), c.rest);
    }
  }

  lemma {:induction false} PipelineLoopSound(left: Ast, ts: Toks, loose: bool, ts0: Toks)
    requires Left(ts, loose) && PipelineOk(left, loose) && NodeToks(left) != [] && HeadFrom(left, ts0) && left != Null
    ensures var r := PipelineLoop(left, ts, false);
            && Sound(ts, r, loose)
            && (!r.error ==> PipelineOk(r.ast, loose) && NodeToks(r.ast) != [] && HeadFrom(r.ast, ts0))
    decreases |ts|, 2
  {
    if Head(ts) == Pipe {
      hide AnyCommand, PipelineOk, CommandNodeOk, Left, NodeToks, HeadFrom;
      LeftTail(ts, loose);
      CommandSound(ts[1..], loose);
      var c := AnyCommand(ts[1..]);
      if c.error {
        PipelineErrorSticks(Bin(PipeOp, left, c.ast), c.rest);
      } else {
        Chain(PipeOp, left, c.ast, loose, ts0);
        PipelineLoopSound(Bin(PipeOp, left, c.ast), c.rest, loose, ts0);
      }
    }
  }

  lemma Chain(op: BinOp, l: Ast, r: Ast, loose: bool, ts0: Toks)
    requires op != SeqOp && NodeToks(l) != [] && HeadFrom(l, ts0)
    ensures NodeToks(Bin(op, l, r)) != [] && HeadFrom(Bin(op, l, r), ts0)
    ensures op == PipeOp && PipelineOk(l, loose) && CommandNodeOk(r, loose) ==> PipelineOk(Bin(op, l, r), loose)
    ensures op != PipeOp && AndOrOk(l, loose) && PipelineOk(r, loose) ==> AndOrOk(Bin(op, l, r), loose)
  {
    assert NodeToks(Bin(op, l, r))[0] == NodeToks(l)[0];
  }

  lemma {:induction false} PipelineSound(ts: Toks, loose: bool)
    requires Left(ts, loose)
    ensures var r := Pipeline(ts);
            && Sound(ts, r, loose)
            && (!r.error ==> PipelineOk(r.ast, loose) && NodeToks(r.ast) != [] && HeadFrom(r.ast, ts))
    decreases |ts|, 3
  {
    hide AnyCommand, PipelineOk, CommandNodeOk, Left, NodeToks, HeadFrom, PipelineLoop;
    CommandSound(ts, loose);
    var c := AnyCommand(ts);
    if c.error {
      PipelineErrorSticks(c.ast, c.rest);
    } else {
      Widen(c.ast, loose);
      PipelineLoopSound(c.ast, c.rest, loose, ts);
    }
  }

  lemma {:induction false} AndOrErrorSticks(left: Ast, ts: Toks)
    ensures AndOrLoop(left, ts, true).error
    decreases |ts|
  {
    hide Pipeline;
    if Head(ts) == And || Head(ts) == Or {
      var c := Pipeline(ts[1..]);
      AndOrErrorSticks(Bin(if Head(ts) == And then AndOp else OrOp, left, c.ast), c.rest);
    }
  }

  lemma {:induction false} AndOrLoopSound(left: Ast, ts: Toks, loose: bool, ts0: Toks)
    requires Left(ts, loose) && AndOrOk(left, loose) && NodeToks(left) != [] && HeadFrom(left, ts0) && left != Null
    ensures var r := AndOrLoop(left, ts, false);
            Sound(ts, r, loose) && (!r.error ==> AndOrOk(r.ast, loose) && NodeToks(r.ast) != [] && HeadFrom(r.ast, ts0))
    decreases |ts|, 4
  {
    if Head(ts) == And || Head(ts) == Or {
      hide Pipeline, PipelineOk, AndOrOk, Left, NodeToks, HeadFrom;
      LeftTail(ts, loose);
      PipelineSound(ts[1..], loose);
      var c := Pipeline(ts[1..]);
      var op := if Head(ts) == And then AndOp else OrOp;
      if c.error {
        AndOrErrorSticks(Bin(op, left, c.ast), c.rest);
      } else {
        Chain(op, left, c.ast, loose, ts0);
        AndOrLoopSound(Bin(op, left, c.ast), c.rest, loose, ts0);
      }
    }
  }

  lemma {:induction false} AndOrSound(ts: Toks, loose: bool)
    requires Left(ts, loose)
    ensures var r := AndOr(ts);
            Sound(ts, r, loose) && (!r.error ==> AndOrOk(r.ast, loose) && NodeToks(r.ast) != [] && HeadFrom(r.ast, ts))
    decreases |ts|, 5
  {
    hide Pipeline, PipelineOk, AndOrOk, Left, NodeToks, HeadFrom, AndOrLoop;
    PipelineSound(ts, loose);
    var c := Pipeline(ts);
    if c.error {
      AndOrErrorSticks(c.ast, c.rest);
    } else {
      Widen(c.ast, loose);
      AndOrLoopSound(c.ast, c.rest, loose, ts);
    }
  }

  lemma {:induction false} ListErrorSticks(left: Ast, ts: Toks)
    ensures ListLoop(left, ts, true).error
    decreases |ts|
  {
    hide CommandList;
    var (sep, rest) := Separators(ts);
    if sep != NoSep && !Terminator(rest) {
      var elem := if sep == Async then Grp(Background, left, []) else left;
      var c := CommandList(rest);
      ListErrorSticks(Bin(SeqOp, elem, c.ast), c.rest);
    }
  }

  lemma SeparatorsSound(ts: Toks, loose: bool)
    requires Left(ts, loose)
    ensures var (sep, rest) := Separators(ts);
            Left(rest, loose) && (sep != NoSep ==> Head(rest) != Newline)
    ensures Terminator(ts) ==> Separators(ts).0 == NoSep
  {
    LeftSkip(ts, loose);
    var after := SkipNewlines(ts);
    if Head(after) == Semicolon {
      LeftTail(after, loose);
      LeftSkip(after[1..], loose);
    }
    if Head(ts) == Ampersand {
      LeftTail(ts, loose);
      LeftSkip(ts[1..], loose);
    }
  }

  lemma {:induction false} ListSound(ts: Toks, loose: bool)
    requires Left(ts, loose)
    ensures ListSoundAt(ts, CommandList(ts), loose)
    decreases |ts|, 6
  {
    hide AndOr, AndOrOk, Left, NodeToks, HeadFrom, ListLoop, ListOk, ListToks;
    AndOrSound(ts, loose);
    var c := AndOr(ts);
    if c.error {
      ListErrorSticks(c.ast, c.rest);
    } else {
      var (sep, rest) := Separators(c.rest);
      SeparatorsSound(c.rest, loose);
      var elem := if sep == Async then Grp(Background, c.ast, []) else c.ast;
      ElemIsList(c.ast, elem, sep == Async, loose, ts);
      if sep == NoSep {
        LoopStops(c.ast, c.rest);
      } else if Terminator(rest) {
        SeparatorsSound(rest, loose);
        LoopTerminates(c.ast, c.rest);
      } else {
        ListSound(rest, loose);
        var l := CommandList(rest);
        LoopTurns(c.ast, c.rest);
        if l.error {
          ListErrorSticks(Bin(SeqOp, elem, l.ast), l.rest);
        } else {
          LoopStops(Bin(SeqOp, elem, l.ast), l.rest);
          SequenceIsList(elem, l.ast, loose, ts);
        }
      }
    }
  }

  lemma LoopStops(left: Ast, ts: Toks)
    requires Separators(ts).0 == NoSep
    ensures ListLoop(left, ts, false) == Parsed(left, ts, false)
  {
  }

  lemma LoopTerminates(left: Ast, ts: Toks)
    requires var (sep, rest) := Separators(ts); sep != NoSep && Terminator(rest)
    ensures var (sep, rest) := Separators(ts);
            ListLoop(left, ts, false) == Parsed(if sep == Async then Grp(Background, left, []) else left, rest, false)
  {
  }

  lemma LoopTurns(left: Ast, ts: Toks)
    requires var (sep, rest) := Separators(ts); sep != NoSep && !Terminator(rest)
    ensures var (sep, rest) := Separators(ts);
            var elem := if sep == Async then Grp(Background, left, []) else left;
            var c := CommandList(rest);
            ListLoop(left, ts, false) == ListLoop(Bin(SeqOp, elem, c.ast), c.rest, c.error)
  {
    hide CommandList;
  }

  /** First token of a list is the first token of its first element. */
  ghost predicate ListHeadFrom(a: Ast, ts: Toks) {
    Head(ts) != Newline && HeadIsWord(ListToks(a, true), "}") ==> HeadIsWord(ts, "}")
  }

  lemma ElemIsList(a: Ast, elem: Ast, async: bool, loose: bool, ts: Toks)
    requires AndOrOk(a, loose) && NodeToks(a) != [] && HeadFrom(a, ts)
    requires elem == if async then Grp(Background, a, []) else a
    ensures ElemOk(elem, loose) && ListOk(elem, loose) && ListHeadFrom(elem, ts)
    ensures ElemToks(elem, true) != [] && (HeadIsWord(ElemToks(elem, true), "}") ==> HeadIsWord(NodeToks(a), "}"))
    ensures HeadFrom(a, ts)
    ensures Head(ts) != Newline && HeadIsWord(ElemToks(elem, true), "}") ==> HeadIsWord(ts, "}")
  {
    Widen(a, loose);
    NotBackground(a, loose);
    NotSequence(a, loose);
    assert NodeToks(Grp(Background, a, [])) == NodeToks(a) + [Op(Ampersand)];
  }

  lemma NotSequence(a: Ast, loose: bool)
    requires AndOrOk(a, loose)
    ensures !(a.Bin? && a.op == SeqOp)
  {
    assert a.Bin? && a.op == SeqOp ==> PipelineOk(a, loose) == CommandNodeOk(a, loose);
  }

  lemma SequenceIsList(elem: Ast, tail: Ast, loose: bool, ts: Toks)
    requires ElemOk(elem, loose) && ListOk(tail, loose) && !HeadIsWord(ListToks(tail, true), "}")
    requires ElemToks(elem, true) != []
    requires Head(ts) != Newline && HeadIsWord(ElemToks(elem, true), "}") ==> HeadIsWord(ts, "}")
    ensures ListOk(Bin(SeqOp, elem, tail), loose) && ListHeadFrom(Bin(SeqOp, elem, tail), ts)
  {
    assert ListToks(Bin(SeqOp, elem, tail), true) == ElemToks(elem, true) + ListToks(tail, true);
  }

  // --------------------------------------------------------------- theorems

  /** Every successful parse yields a tree in normal form; the strict normal
      form when the input has no line breaks. */
  lemma ParseSound(ts: Toks, loose: bool)
    requires Left(ts, loose)
    ensures match Parse(ts) case Some(a) => a != Null && ListOk(a, loose) case None => true
  {
    hide CommandList, ListOk, ListToks;
    LeftSkip(ts, loose);
    ListSound(SkipNewlines(ts), loose);
  }

  /** Kinds of tokens a printed tree is made of. */
  predicate PrintedKind(k: TokenKind) {
    k != Eof && k != Newline && k != ArithOpen && k != ArithClose
  }

  ghost predicate PlainToks(ts: Toks) {
    forall i :: 0 <= i < |ts| ==> PrintedKind(ts[i].kind)
  }

  /** Every redirection in the tree carries a redirection operator. */
  predicate Plain(a: Ast) {
    match a
    case Null => true
    case Cmd(c) => PlainRedirs(c.redirs)
    case Bin(_, l, r) => Plain(l) && Plain(r)
    case Grp(_, c, rs) => Plain(c) && PlainRedirs(rs)
  }

  predicate PlainRedirs(rs: seq<Redir>) {
    forall i :: 0 <= i < |rs| ==> IsRedir(rs[i].kind)
  }

  lemma {:induction false} WordsPlain(ws: seq<string>)
    ensures PlainToks(WordToks(ws))
  {
    if ws != [] {
      WordsPlain(ws[1..]);
    }
  }

  lemma {:induction false} RedirsPlain(rs: seq<Redir>)
    requires PlainRedirs(rs)
    ensures PlainToks(RedirToks(rs))
  {
    if rs != [] {
      RedirsPlain(rs[1..]);
    }
  }

  lemma {:induction false} NodePlain(a: Ast)
    requires Plain(a)
    ensures PlainToks(NodeToks(a))
    decreases a, 0
  {
    hide PrintedKind, RedirToks, WordToks;
    TokensPrint();
    match a {
      case Null =>
      case Cmd(c) =>
        WordsPlain(c.assigns);
        RedirsPlain(c.redirs);
        WordsPlain(c.argv);
      case Bin(_, l, r) =>
        NodePlain(l);
        NodePlain(r);
      case Grp(k, c, rs) =>
        RedirsPlain(rs);
        if k == Background {
          NodePlain(c);
        } else {
          ListPlain(c, k == Block);
        }
    }
  }

  lemma {:induction false} ListPlain(a: Ast, close: bool)
    requires Plain(a)
    ensures PlainToks(ListToks(a, close))
    decreases a, 1
  {
    hide PrintedKind;
    assert PrintedKind(Semicolon) by { SemicolonPrints(); }
    if a.Bin? && a.op == SeqOp {
      NodePlain(a.l);
      ListPlain(a.r, close);
    } else {
      NodePlain(a);
    }
  }

  lemma TokensPrint()
    ensures forall k: TokenKind :: k in {Word, LParen, RParen, Ampersand, Pipe, And, Or} ==> PrintedKind(k)
  {
  }

  lemma SemicolonPrints()
    ensures PrintedKind(Semicolon)
  {
  }

  /** The trees that survive printing and parsing are exactly the normal
      forms. */
  lemma RoundTripExactly(a: Ast)
    requires Plain(a)
    ensures Parse(Printed(a)) == Some(a) <==> ListOk(a, false)
  {
    hide Parse, ListOk, ListToks;
    if ListOk(a, false) {
      ParseComplete(a);
    }
    if Parse(Printed(a)) == Some(a) {
      ListPlain(a, false);
      ParseSound(Printed(a), false);
    }
  }

  /** Parsing normalises: on input without line breaks, printing the parsed
      tree and parsing again gives the same tree. */
  lemma ParseNormalises(ts: Toks)
    requires Left(ts, false)
    ensures match Parse(ts) case Some(a) => Parse(Printed(a)) == Some(a) case None => true
  {
    hide Parse, ListOk, ListToks;
    ParseSound(ts, false);
    if Parse(ts).Some? {
      ParseComplete(Parse(ts).value);
    }
  }

  lemma {:induction false} BuildKeepsAssigns(ts: Toks, c: Command)
    ensures var r := BuildCommand(ts, c); r.ast == Null || (r.ast.Cmd? && r.ast.cmd.assigns == c.assigns)
    decreases |ts|
  {
    if InCommand(Head(ts)) {
      if ts[0].kind == Word {
        BuildKeepsAssigns(ts[1..], c.(argv := c.argv + [ts[0].value]));
      } else if ts[0].kind == ArithOpen {
        var (text, rest, bad) := ArithText(ts[1..], "$((");
        BuildKeepsAssigns(rest, c.(argv := c.argv + [text]));
      } else if Head(ts[1..]) == Word {
        BuildKeepsAssigns(ts[2..], c.(redirs := c.redirs + [MakeRedir(ts[0].kind, ts[0].io, ts[1].value)]));
      }
    }
  }

  /** After a line break, as `&&`, `||` and `|` allow one, a command is never a
      group and never has assignments: an assignment word becomes its name. */
  lemma AfterLineBreak(ts: Toks)
    requires Head(ts) == Newline
    ensures var r := AnyCommand(ts);
            r.ast == Null || (r.ast.Cmd? && r.ast.cmd.assigns == [])
  {
    BuildKeepsAssigns(SkipNewlines(ts), Command([], [], []));
  }

  lemma SecondOperand(rest: Toks, c: Ast)
    requires c != Null && AnyCommand(rest) == Parsed(c, [EOF_TOKEN], false)
    ensures Parse([W("a"), Op(And)] + rest) == Some(Bin(AndOp, Cmd(Command(["a"], [], [])), c))
  {
    hide AnyCommand, Pipeline, AndOr, CommandList, ListLoop, CommandNodeOk;
    var left := Cmd(Command(["a"], [], []));
    var after := [Op(And)] + rest;
    assert NodeToks(left) == [W("a")] by {
      assert WordToks(["a"]) == [W("a")] + WordToks([]);
    }
    assert CommandNodeOk(left, false) by { PlainWordOk(); }
    Widen(left, false);
    AndOrComplete(left, after);
    assert [W("a"), Op(And)] + rest == NodeToks(left) + after && after[1..] == rest;
    OnePipeline(rest, c);
    AndOrStep(left, after, c, [EOF_TOKEN]);
    var both := Bin(AndOp, left, c);
    AndOrEnds(both, [EOF_TOKEN]);
    ListBegins([W("a"), Op(And)] + rest, both, [EOF_TOKEN]);
    ListEnds(both, [EOF_TOKEN]);
    assert SkipNewlines([EOF_TOKEN]) == [EOF_TOKEN];
  }

  lemma PlainWordOk()
    ensures CommandNodeOk(Cmd(Command(["a"], [], [])), false)
  {
    assert !IsAssignment("a") by {
      assert NameLen("a") <= 1;
    }
    assert RedirsOk([]) && AssignsOk([]);
  }

  lemma OnePipeline(rest: Toks, c: Ast)
    requires c != Null && AnyCommand(rest) == Parsed(c, [EOF_TOKEN], false)
    ensures Pipeline(rest) == Parsed(c, [EOF_TOKEN], false)
  {
    hide AnyCommand;
  }

  /** The same words with and without a line break after `&&`: an assignment
      on one line, a command name after the break. */
  lemma LineBreakMatters()
    ensures var one := [W("a"), Op(And), W("A=1"), EOF_TOKEN];
            var two := [W("a"), Op(And), Op(Newline), W("A=1"), EOF_TOKEN];
            var left := Cmd(Command(["a"], [], []));
            Parse(one) == Some(Bin(AndOp, left, Cmd(Command([], ["A=1"], []))))
            && Parse(two) == Some(Bin(AndOp, left, Cmd(Command(["A=1"], [], []))))
  {
    hide Parse;
    var last := [W("A=1"), EOF_TOKEN];
    AssignmentLine();
    SecondOperand(last, Cmd(Command([], ["A=1"], [])));
    assert [W("a"), Op(And)] + last == [W("a"), Op(And), W("A=1"), EOF_TOKEN];
    SecondOperand([Op(Newline)] + last, Cmd(Command(["A=1"], [], [])));
    assert [W("a"), Op(And)] + ([Op(Newline)] + last) == [W("a"), Op(And), Op(Newline), W("A=1"), EOF_TOKEN];
  }

  lemma AssignmentLine()
    ensures var last := [W("A=1"), EOF_TOKEN];
            AnyCommand(last) == Parsed(Cmd(Command([], ["A=1"], [])), [EOF_TOKEN], false)
            && AnyCommand([Op(Newline)] + last) == Parsed(Cmd(Command(["A=1"], [], [])), [EOF_TOKEN], false)
  {
    hide SubshellCommand, BlockCommand, Assignments, BuildCommand, CountArgs, IsRedir;
    RedirKinds(Eof);
    RedirKinds(Newline);
    var last, eof := [W("A=1"), EOF_TOKEN], [EOF_TOKEN];
    var brk := [Op(Newline)] + last;
    assert last[1..] == eof && brk[1..] == last;
    AssignmentAlone(last, eof);
    AssignmentLater(brk, last, eof);
  }

  lemma AssignmentAlone(last: Toks, eof: Toks)
    requires eof == [EOF_TOKEN] && last == [W("A=1"), EOF_TOKEN] && last[1..] == eof
    ensures Assignments(last, []) == (["A=1"], eof, false)
    ensures SkipNewlines(eof) == eof && CountArgs(eof) == 0
    ensures BuildCommand(eof, Command([], ["A=1"], [])) == Parsed(Cmd(Command([], ["A=1"], [])), eof, false)
  {
    hide ArithText, SkipArith, IsRedir;
    RedirKinds(Eof);
    assert IsAssignment("A=1") by {
      assert "A=1"[1..] == "=1";
    }
    assert Assignments(eof, ["A=1"]) == (["A=1"], eof, false);
    assert [] + [last[0].value] == ["A=1"];
  }

  lemma AssignmentLater(brk: Toks, last: Toks, eof: Toks)
    requires eof == [EOF_TOKEN] && last == [W("A=1"), EOF_TOKEN] && brk == [Op(Newline)] + last
    ensures Assignments(brk, []) == ([], brk, false) && SkipNewlines(brk) == last && CountArgs(last) == 1
    ensures BuildCommand(last, Command([], [], [])) == Parsed(Cmd(Command(["A=1"], [], [])), eof, false)
  {
    hide ArithText, SkipArith, IsRedir, IsAssignment;
    RedirKinds(Eof);
    assert brk[1..] == last && last[1..] == eof;
    assert [] + ["A=1"] == ["A=1"];
    assert CountArgs(eof) == 0;
    assert BuildCommand(eof, Command(["A=1"], [], [])) == Parsed(Cmd(Command(["A=1"], [], [])), eof, false);
  }
}
