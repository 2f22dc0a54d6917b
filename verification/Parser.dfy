/** The recursive-descent parser: a cursor over the token list and a sticky
    error. Each method is tied to the function of `ParserSpec` that gives its
    result on the tokens left. */
module Parser {
  import opened Tokens
  import opened Syntax
  import opened ParserSpec
  import opened ParserSound
  import opened Wrappers

  class Parser {
    const tokens: Toks
    var current: nat
    var error: bool

    constructor (tokens: Toks)
      requires EofLast(tokens)
      ensures Valid() && this.tokens == tokens && Rest() == tokens && !error
    {
      this.tokens := tokens;
      current := 0;
      error := false;
    }

    ghost predicate Valid()
      reads this
    {
      EofLast(tokens) && current <= |tokens|
    }

    /** The tokens left; empty only once the EOF token has been consumed. */
    ghost function Rest(): Toks
      requires Valid()
      reads this
    {
      tokens[current..]
    }

    /** A call's outcome when an error may have been recorded before it. */
    static ghost function After(r: Parsed, before: bool): Parsed {
      r.(error := r.error || before)
    }

    function PeekKind(): (k: TokenKind)
      requires Valid()
      reads this
      ensures k == Head(Rest())
    {
      if current < |tokens| then tokens[current].kind else Eof
    }

    method Next() returns (t: Option<Token>)
      requires Valid()
      modifies `current
      ensures Valid()
      ensures old(Rest()) == [] ==> t == None && Rest() == []
      ensures old(Rest()) != [] ==> t == Some(old(Rest())[0]) && Rest() == old(Rest())[1..]
    {
      if current == |tokens| {
        return None;
      }
      t := Some(tokens[current]);
      current := current + 1;
    }

    method Accept(k: TokenKind) returns (yes: bool)
      requires Valid() && k != Eof
      modifies `current
      ensures Valid()
      ensures yes == (Head(old(Rest())) == k)
      ensures Rest() == if yes then old(Rest())[1..] else old(Rest())
    {
      if PeekKind() != k {
        return false;
      }
      var _ := Next();
      yes := true;
    }

    method SkipBreaks()
      requires Valid()
      modifies `current
      ensures Valid() && Rest() == SkipNewlines(old(Rest()))
      ensures old(current) < |tokens| ==> current < |tokens|
    {
      var ate := Accept(Newline);
      while ate
        invariant Valid()
        invariant old(current) < |tokens| ==> current < |tokens|
        invariant SkipNewlines(Rest()) == SkipNewlines(old(Rest()))
        invariant !ate ==> Head(Rest()) != Newline
        decreases |Rest()|, ate
      {
        ate := Accept(Newline);
      }
    }

    /** Rebuilds the text of an arithmetic expansion from its tokens. */
    method CollectArith() returns (text: string)
      requires Valid()
      modifies `current, `error
      ensures Valid()
      ensures (text, Rest(), error) == var (t, r, bad) := ArithText(old(Rest()), "$(("); (t, r, bad || old(error))
      ensures old(current) < |tokens| ==> current < |tokens|
    {
      var buf := "$((";
      while PeekKind() != ArithClose && PeekKind() != Eof
        invariant Valid() && buf != "" && error == old(error)
        invariant ArithText(Rest(), buf) == ArithText(old(Rest()), "$((")
        invariant old(current) < |tokens| ==> current < |tokens|
        decreases |Rest()|
      {
        var t := Next();
        buf := buf + (if buf[|buf| - 1] != '(' then " " else "") + t.value.value;
      }
      var closed := Accept(ArithClose);
      if closed {
        return buf + "))";
      }
      error := true;
      text := "";
    }

    method ParseAssignments() returns (assigns: seq<string>)
      requires Valid()
      modifies `current, `error
      ensures Valid()
      ensures (assigns, Rest(), error) == var (a, r, bad) := Assignments(old(Rest()), []); (a, r, bad || old(error))
      ensures old(current) < |tokens| ==> current < |tokens|
    {
      assigns := [];
      ghost var goal := Assignments(old(Rest()), []);
      while PeekKind() == Word && IsAssignment(tokens[current].value)
        invariant Valid()
        invariant var (a, r, bad) := Assignments(Rest(), assigns);
                  (a, r, bad || error) == (goal.0, goal.1, goal.2 || old(error))
        invariant old(current) < |tokens| ==> current < |tokens|
        decreases |Rest()|
      {
        hide ArithText;
        ghost var here := Rest();
        var t := Next();
        var expr := t.value.value;
        if PeekKind() == ArithOpen {
          var _ := Next();
          assert Rest() == here[2..];
          var text := CollectArith();
          expr := expr + text;
        }
        assigns := assigns + [expr];
      }
    }

    /** Counting pass: argument slots from here on; the cursor comes back. */
    method CountSlots() returns (argc: nat)
      requires Valid()
      modifies `current
      ensures Valid() && current == old(current)
      ensures argc == CountArgs(Rest())
    {
      var start := current;
      argc := 0;
      while InCommand(PeekKind())
        invariant Valid()
        invariant argc + CountArgs(Rest()) == CountArgs(old(Rest()))
        decreases |Rest()|
      {
        hide SkipArith;
        ghost var here := Rest();
        var t := Next();
        if t.value.kind == Word {
          argc := argc + 1;
        } else if t.value.kind == ArithOpen {
          argc := argc + 1;
          SkipArithmetic();
        } else {
          var _ := Next();
          assert |here| > 1 ==> Rest() == here[2..];
          EmptyCount(Rest());
        }
      }
      current := start;
    }

    method SkipArithmetic()
      requires Valid()
      modifies `current
      ensures Valid() && Rest() == SkipArith(old(Rest()))
    {
      var t := Next();
      while t.Some? && t.value.kind != ArithClose && t.value.kind != Eof
        invariant Valid()
        invariant if t.Some? && t.value.kind != ArithClose && t.value.kind != Eof
                  then SkipArith(Rest()) == SkipArith(old(Rest())) else Rest() == SkipArith(old(Rest()))
        decreases |Rest()|, t.Some?
      {
        t := Next();
      }
    }

    /** The word after a redirection operator, None (an error) if there is none. */
    method RedirTarget(op: Token) returns (r: Option<Redir>)
      requires Valid()
      modifies `current, `error
      ensures Valid()
      ensures var ts := old(Rest());
              if Head(ts) == Word then
                r == Some(MakeRedir(op.kind, op.io, ts[0].value)) && Rest() == ts[1..] && error == old(error)
              else
                r == None && Rest() == (if ts == [] then [] else ts[1..]) && error
    {
      var t := Next();
      if t.None? || t.value.kind != Word {
        error := true;
        return None;
      }
      r := Some(MakeRedir(op.kind, op.io, t.value.value));
    }

    /** One step of the filling pass: an argument into slot `i`, or a
        redirection; not `ok` when a redirection has no target. */
    method FillOne(argv: array<string>, i: nat, redirs: seq<Redir>, ghost assigns: seq<string>)
      returns (i': nat, redirs': seq<Redir>, ok: bool)
      requires Valid() && InCommand(PeekKind()) && i + CountArgs(Rest()) <= argv.Length
      modifies `current, `error, argv
      ensures Valid() && |Rest()| < |old(Rest())|
      ensures var was := After(BuildCommand(old(Rest()), Command(old(argv[..i]), assigns, redirs)), old(error));
              if ok then
                i' + CountArgs(Rest()) <= argv.Length
                && After(BuildCommand(Rest(), Command(argv[..i'], assigns, redirs')), error) == was
              else Parsed(Null, Rest(), error) == was
    {
      hide BuildCommand, CountArgs, ArithText, SkipArith, MakeRedir, IsRedir;
      ghost var here, c := Rest(), Command(argv[..i], assigns, redirs);
      RedirKinds(PeekKind());
      i', redirs', ok := i, redirs, true;
      var t := Next();
      if t.value.kind == Word {
        FillWord(here, c);
        argv[i] := t.value.value;
        i' := i + 1;
        assert argv[..i'] == c.argv + [t.value.value];
      } else if t.value.kind == ArithOpen {
        FillArith(here, c);
        var text := CollectArith();
        argv[i] := text;
        i' := i + 1;
        assert argv[..i'] == c.argv + [text];
      } else {
        FillRedir(here, c);
        var r := RedirTarget(t.value);
        if r.None? {
          ok := false;
          return;
        }
        assert Rest() == here[2..];
        redirs' := redirs + [r.value];
      }
    }

    /** Filling pass: `argc` slots were counted and none beyond is written. */
    method FillCommand(assigns: seq<string>, argc: nat) returns (ast: Ast)
      requires Valid() && argc == CountArgs(Rest())
      modifies `current, `error
      ensures Valid()
      ensures Parsed(ast, Rest(), error) == After(BuildCommand(old(Rest()), Command([], assigns, [])), old(error))
    {
      hide BuildCommand, CountArgs, InCommand;
      var argv := new string[argc];
      var i: nat, redirs: seq<Redir> := 0, [];
      ghost var goal := After(BuildCommand(Rest(), Command([], assigns, [])), error);
      assert argv[..0] == [];
      while InCommand(PeekKind())
        invariant Valid() && i + CountArgs(Rest()) <= argv.Length
        invariant After(BuildCommand(Rest(), Command(argv[..i], assigns, redirs)), error) == goal
        decreases |Rest()|
      {
        var ok;
        i, redirs, ok := FillOne(argv, i, redirs, assigns);
        if !ok {
          return Null;
        }
      }
      FillEnds(Rest(), Command(argv[..i], assigns, redirs));
      ast := Cmd(Command(argv[..i], assigns, redirs));
    }

    method ParseSimple() returns (ast: Ast)
      requires Valid() && current < |tokens|
      modifies `current, `error
      ensures Valid()
      ensures Parsed(ast, Rest(), error) == After(SimpleCommand(old(Rest())), old(error))
      decreases |Rest()|, 2
    {
      hide Assignments, BuildCommand, CountArgs, CommandList;
      var assigns := ParseAssignments();
      assert current < |tokens|;
      if tokens[current].kind == LParen {
        ast := ParseSubshell();
        return;
      }
      SkipBreaks();
      var argc := CountSlots();
      if argc == 0 && assigns == [] {
        if !IsHeredoc(tokens[current].kind) {
          error := true;
          return Null;
        }
      }
      ast := FillCommand(assigns, argc);
    }

    /** Redirections after a group's closing token. */
    method ParseGroup(kind: GroupKind, child: Ast) returns (ast: Ast)
      requires Valid()
      modifies `current, `error
      ensures Valid()
      ensures Parsed(ast, Rest(), error) == After(GroupRedirs(kind, child, [], old(Rest())), old(error))
    {
      hide GroupRedirs, MakeRedir, IsRedir;
      var redirs := [];
      ghost var goal := After(GroupRedirs(kind, child, [], Rest()), error);
      while IsRedir(PeekKind())
        invariant Valid()
        invariant After(GroupRedirs(kind, child, redirs, Rest()), error) == goal
        decreases |Rest()|
      {
        ghost var here := Rest();
        GroupTurn(kind, child, redirs, here);
        RedirKinds(PeekKind());
        var t := Next();
        var r := RedirTarget(t.value);
        if r.None? {
          return Null;
        }
        assert Rest() == here[2..];
        redirs := redirs + [r.value];
      }
      GroupTurn(kind, child, redirs, Rest());
      ast := Grp(kind, child, redirs);
    }

    method ParseSubshell() returns (ast: Ast)
      requires Valid() && Head(Rest()) == LParen
      modifies `current, `error
      ensures Valid()
      ensures Parsed(ast, Rest(), error) == After(SubshellCommand(old(Rest())), old(error))
      decreases |Rest()|, 1
    {
      hide CommandList, GroupRedirs, SkipNewlines;
      var open := Accept(LParen);
      SkipBreaks();
      var child := ParseList();
      if child == Null {
        return Null;
      }
      SkipBreaks();
      var close := Accept(RParen);
      if !close {
        error := true;
        return Null;
      }
      ast := ParseGroup(Subshell, child);
    }

    method ParseBlock() returns (ast: Ast)
      requires Valid() && HeadIsWord(Rest(), "{")
      modifies `current, `error
      ensures Valid()
      ensures Parsed(ast, Rest(), error) == After(BlockCommand(old(Rest())), old(error))
      decreases |Rest()|, 1
    {
      hide CommandList, GroupRedirs, SkipNewlines;
      var open := Next();
      SkipBreaks();
      var child := ParseList();
      if child == Null {
        return Null;
      }
      SkipBreaks();
      var close := Next();
      if close.None? || close.value.kind != Word || close.value.value != "}" {
        error := true;
        return Null;
      }
      ast := ParseGroup(Block, child);
    }

    method ParseCommand() returns (ast: Ast)
      requires Valid()
      modifies `current, `error
      ensures Valid()
      ensures Parsed(ast, Rest(), error) == After(AnyCommand(old(Rest())), old(error))
      decreases |Rest()|, 3
    {
      hide SubshellCommand, BlockCommand, SimpleCommand;
      if current == |tokens| {
        return Null;
      }
      if tokens[current].kind == LParen {
        ast := ParseSubshell();
      } else if tokens[current].kind == Word && tokens[current].value == "{" {
        ast := ParseBlock();
      } else {
        ast := ParseSimple();
      }
    }

    method ParsePipeline() returns (ast: Ast)
      requires Valid()
      modifies `current, `error
      ensures Valid()
      ensures Parsed(ast, Rest(), error) == After(Pipeline(old(Rest())), old(error))
      decreases |Rest()|, 4
    {
      hide AnyCommand, PipelineLoop;
      ghost var first, goal := AnyCommand(Rest()), After(Pipeline(Rest()), error);
      ast := ParseCommand();
      if ast == Null {
        return;
      }
      PipelineErrorShift(ast, Rest(), first.error, old(error));
      while PeekKind() == Pipe
        invariant Valid() && |Rest()| <= |old(Rest())|
        invariant PipelineLoop(ast, Rest(), error) == goal
        decreases |Rest()|
      {
        PipelineTurn(ast, Rest(), error);
        var bar := Accept(Pipe);
        var right := ParseCommand();
        if right == Null {
          error := true;
          return Null;
        }
        ast := Bin(PipeOp, ast, right);
      }
      PipelineTurn(ast, Rest(), error);
    }

    /** The operator at the cursor. */
    method AcceptAndOr() returns (op: BinOp)
      requires Valid() && (Head(Rest()) == And || Head(Rest()) == Or)
      modifies `current
      ensures Valid() && Rest() == old(Rest())[1..]
      ensures op == if Head(old(Rest())) == And then AndOp else OrOp
    {
      var and := Accept(And);
      if and {
        return AndOp;
      }
      var or := Accept(Or);
      op := OrOp;
    }

    method ParseAndOr() returns (ast: Ast)
      requires Valid()
      modifies `current, `error
      ensures Valid()
      ensures Parsed(ast, Rest(), error) == After(AndOr(old(Rest())), old(error))
      decreases |Rest()|, 5
    {
      hide Pipeline, AndOrLoop;
      ghost var first, goal := Pipeline(Rest()), After(AndOr(Rest()), error);
      ast := ParsePipeline();
      if ast == Null {
        return;
      }
      AndOrErrorShift(ast, Rest(), first.error, old(error));
      while PeekKind() == And || PeekKind() == Or
        invariant Valid() && |Rest()| <= |old(Rest())|
        invariant AndOrLoop(ast, Rest(), error) == goal
        decreases |Rest()|
      {
        AndOrTurn(ast, Rest(), error);
        var op := AcceptAndOr();
        var right := ParsePipeline();
        if right == Null {
          error := true;
          return Null;
        }
        ast := Bin(op, ast, right);
      }
      AndOrTurn(ast, Rest(), error);
    }

    /** Line breaks with one `;`, or one `&`, that end a list element. */
    method DetectSeparator() returns (sep: Separator)
      requires Valid()
      modifies `current
      ensures Valid() && (sep, Rest()) == Separators(old(Rest()))
    {
      var ate := PeekKind() == Newline;
      SkipBreaks();
      var semicolon := Accept(Semicolon);
      if semicolon || ate {
        SkipBreaks();
        return Sequential;
      }
      var ampersand := Accept(Ampersand);
      if ampersand {
        SkipBreaks();
        return Async;
      }
      sep := NoSep;
    }

    method ParseList() returns (ast: Ast)
      requires Valid()
      modifies `current, `error
      ensures Valid()
      ensures Parsed(ast, Rest(), error) == After(CommandList(old(Rest())), old(error))
      decreases |Rest()|, 6
    {
      hide AndOr, ListLoop, Separators;
      ghost var first, goal := AndOr(Rest()), After(CommandList(Rest()), error);
      ast := ParseAndOr();
      if ast == Null {
        return;
      }
      ListErrorShift(ast, Rest(), first.error, old(error));
      ListTurn(ast, Rest(), error);
      ghost var here := Rest();
      var sep := DetectSeparator();
      while sep != NoSep
        invariant Valid() && |here| <= |old(Rest())| && (sep, Rest()) == Separators(here)
        invariant ListLoop(ast, here, error) == goal
        decreases |here|
      {
        ListTurn(ast, here, error);
        if sep == Async {
          ast := Grp(Background, ast, []);
        }
        if current == |tokens| || PeekKind() == Eof || PeekKind() == RParen
           || (PeekKind() == Word && tokens[current].value == "}") {
          return;
        }
        var right := ParseList();
        ast := Bin(SeqOp, ast, right);
        here := Rest();
        sep := DetectSeparator();
      }
      ListTurn(ast, here, error);
      SeparatorsNone(here);
    }
  }

  lemma ParseIs(ts: Toks)
    ensures var c := CommandList(SkipNewlines(ts));
            var rest := SkipNewlines(c.rest);
            Parse(ts) == if c.error || rest == [] || Head(rest) != Eof then None else Some(c.ast)
  {
  }

  lemma GroupTurn(kind: GroupKind, child: Ast, redirs: seq<Redir>, ts: Toks)
    ensures GroupRedirs(kind, child, redirs, ts) ==
      if !IsRedir(Head(ts)) then Parsed(Grp(kind, child, redirs), ts, false)
      else if Head(ts[1..]) != Word then Parsed(Null, if |ts| == 1 then [] else ts[2..], true)
      else GroupRedirs(kind, child, redirs + [MakeRedir(ts[0].kind, ts[0].io, ts[1].value)], ts[2..])
  {
    hide MakeRedir, IsRedir;
  }

  /** `parser_parse`: one list, then EOF; 2 is the exit status of an error. */
  method ParserParse(tokens: Toks, lastExitStatus: int) returns (ast: Option<Ast>, status: int)
    requires EofLast(tokens)
    ensures ast == Parse(tokens)
    ensures status == if ast.None? then 2 else lastExitStatus
  {
    hide CommandList, SkipNewlines, Parse;
    var p := new Parser(tokens);
    p.SkipBreaks();
    ghost var c := CommandList(p.Rest());
    ParseIs(tokens);
    var tree := p.ParseList();
    assert Parsed(tree, p.Rest(), p.error) == c;
    p.SkipBreaks();
    if p.error {
      return None, 2;
    }
    if p.current == |tokens| || p.PeekKind() != Eof {
      return None, 2;
    }
    return Some(tree), lastExitStatus;
  }

  lemma PipelineTurn(left: Ast, ts: Toks, error: bool)
    ensures PipelineLoop(left, ts, error) ==
            if Head(ts) != Pipe then Parsed(left, ts, error)
            else
              var c := AnyCommand(ts[1..]);
              if c.ast == Null then Parsed(Null, c.rest, true)
              else PipelineLoop(Bin(PipeOp, left, c.ast), c.rest, error || c.error)
  {
    hide AnyCommand;
  }

  lemma PipelineErrorShift(left: Ast, ts: Toks, error: bool, before: bool)
    ensures PipelineLoop(left, ts, error || before) == Parser.After(PipelineLoop(left, ts, error), before)
    decreases |ts|
  {
    hide AnyCommand;
    if Head(ts) == Pipe {
      var c := AnyCommand(ts[1..]);
      PipelineErrorShift(Bin(PipeOp, left, c.ast), c.rest, error || c.error, before);
    }
  }

  lemma AndOrTurn(left: Ast, ts: Toks, error: bool)
    ensures AndOrLoop(left, ts, error) ==
            if Head(ts) != And && Head(ts) != Or then Parsed(left, ts, error)
            else
              var c := Pipeline(ts[1..]);
              if c.ast == Null then Parsed(Null, c.rest, true)
              else AndOrLoop(Bin(if Head(ts) == And then AndOp else OrOp, left, c.ast), c.rest, error || c.error)
  {
    hide Pipeline;
  }

  lemma AndOrErrorShift(left: Ast, ts: Toks, error: bool, before: bool)
    ensures AndOrLoop(left, ts, error || before) == Parser.After(AndOrLoop(left, ts, error), before)
    decreases |ts|
  {
    hide Pipeline;
    if Head(ts) == And || Head(ts) == Or {
      var c := Pipeline(ts[1..]);
      AndOrErrorShift(Bin(if Head(ts) == And then AndOp else OrOp, left, c.ast), c.rest, error || c.error, before);
    }
  }

  lemma ListTurn(left: Ast, ts: Toks, error: bool)
    ensures var (sep, rest) := Separators(ts);
            var elem := if sep == Async then Grp(Background, left, []) else left;
            ListLoop(left, ts, error) ==
            if sep == NoSep then Parsed(left, ts, error)
            else if Terminator(rest) then Parsed(elem, rest, error)
            else
              var c := CommandList(rest);
              ListLoop(Bin(SeqOp, elem, c.ast), c.rest, error || c.error)
  {
    hide CommandList;
  }

  lemma ListErrorShift(left: Ast, ts: Toks, error: bool, before: bool)
    ensures ListLoop(left, ts, error || before) == Parser.After(ListLoop(left, ts, error), before)
    decreases |ts|
  {
    hide CommandList;
    var (sep, rest) := Separators(ts);
    if sep != NoSep && !Terminator(rest) {
      var elem := if sep == Async then Grp(Background, left, []) else left;
      var c := CommandList(rest);
      ListErrorShift(Bin(SeqOp, elem, c.ast), c.rest, error || c.error, before);
    }
  }

  lemma SeparatorsNone(ts: Toks)
    ensures Separators(ts).0 == NoSep ==> Separators(ts).1 == ts
  {
  }

  lemma EmptyCount(ts: Toks)
    ensures ts == [] ==> CountArgs(ts) == 0
  {
  }
}
