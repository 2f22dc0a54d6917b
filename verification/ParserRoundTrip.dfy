/** Printing a tree as tokens and parsing it back. */
module ParserRoundTrip {
  import opened Tokens
  import opened Syntax
  import opened ParserSpec
  import opened SeqFacts
  import opened Wrappers

  // ------------------------------------------------------------ the printer

  function Symbol(k: TokenKind): string {
    match k
    case Pipe => "|"
    case And => "&&"
    case Or => "||"
    case Semicolon => ";"
    case Ampersand => "&"
    case Newline => "\n"
    case RedirIn => "<"
    case RedirOut => ">"
    case RedirAppend => ">>"
    case Heredoc => "<<"
    case HeredocStrip => "<<-"
    case RedirDupIn => "<&"
    case RedirDupOut => ">&"
    case LParen => "("
    case RParen => ")"
    case ArithOpen => "$(("
    case ArithClose => "))"
    case _ => ""
  }

  function W(s: string): Token {
    Token(Word, s, -1)
  }

  function Op(k: TokenKind): Token {
    Token(k, Symbol(k), -1)
  }

  function WordToks(ws: seq<string>): Toks {
    if ws == [] then [] else [W(ws[0])] + WordToks(ws[1..])
  }

  function RedirToks(rs: seq<Redir>): Toks {
    if rs == [] then [] else [Token(rs[0].kind, Symbol(rs[0].kind), rs[0].fd), W(rs[0].target)] + RedirToks(rs[1..])
  }

  function CommandToks(c: Command): Toks {
    WordToks(c.assigns) + (RedirToks(c.redirs) + WordToks(c.argv))
  }

  /** A command or a group, a pipeline, an and-or list. */
  function NodeToks(a: Ast): Toks
    decreases a, 0
  {
    match a
    case Null => []
    case Cmd(c) => CommandToks(c)
    case Grp(Subshell, c, rs) => [Op(LParen)] + (ListToks(c, false) + ([Op(RParen)] + RedirToks(rs)))
    case Grp(Block, c, rs) => [W("{")] + (ListToks(c, true) + ([W("}")] + RedirToks(rs)))
    case Grp(Background, c, _) => NodeToks(c) + [Op(Ampersand)]
    case Bin(PipeOp, l, r) => NodeToks(l) + ([Op(Pipe)] + NodeToks(r))
    case Bin(AndOp, l, r) => NodeToks(l) + ([Op(And)] + NodeToks(r))
    case Bin(OrOp, l, r) => NodeToks(l) + ([Op(Or)] + NodeToks(r))
    case Bin(SeqOp, l, r) => []
  }

  predicate IsBackground(a: Ast) {
    a.Grp? && a.kind == Background
  }

  /** A list; `close` ends it with `;` unless its last element ends in `&`. */
  function ListToks(a: Ast, close: bool): Toks
    decreases a, 1
  {
    if a.Bin? && a.op == SeqOp then ElemToks(a.l, true) + ListToks(a.r, close)
    else if IsBackground(a) then NodeToks(a)
    else NodeToks(a) + (if close then [Op(Semicolon)] else [])
  }

  function ElemToks(a: Ast, close: bool): Toks
    decreases a, 1
  {
    if IsBackground(a) then NodeToks(a) else NodeToks(a) + (if close then [Op(Semicolon)] else [])
  }

  // ----------------------------------------------------------- normal forms

  predicate RedirOk(r: Redir) {
    IsRedir(r.kind) && r == MakeRedir(r.kind, r.fd, r.target)
  }

  predicate RedirsOk(rs: seq<Redir>) {
    forall i :: 0 <= i < |rs| ==> RedirOk(rs[i])
  }

  predicate AssignsOk(ws: seq<string>) {
    forall i :: 0 <= i < |ws| ==> IsAssignment(ws[i])
  }

  /** A command the parser can build. With `loose`, its first argument may be
      an assignment word or `{`, as happens after a line break. */
  predicate CommandOk(c: Command, loose: bool) {
    && AssignsOk(c.assigns)
    && RedirsOk(c.redirs)
    && (c.assigns == [] && c.argv == [] ==> c.redirs != [] && IsHeredoc(c.redirs[0].kind))
    && (!loose && c.redirs == [] && c.argv != [] ==>
          !IsAssignment(c.argv[0]) && (c.assigns == [] ==> c.argv[0] != "{"))
  }

  predicate CommandNodeOk(a: Ast, loose: bool)
    decreases a, 0
  {
    match a
    case Cmd(c) => CommandOk(c, loose)
    case Grp(k, c, rs) => k != Background && ListOk(c, loose) && RedirsOk(rs)
    case _ => false
  }

  predicate PipelineOk(a: Ast, loose: bool)
    decreases a, 1
  {
    if a.Bin? && a.op == PipeOp then PipelineOk(a.l, loose) && CommandNodeOk(a.r, loose)
    else CommandNodeOk(a, loose)
  }

  predicate AndOrOk(a: Ast, loose: bool)
    decreases a, 2
  {
    if a.Bin? && (a.op == AndOp || a.op == OrOp) then AndOrOk(a.l, loose) && PipelineOk(a.r, loose)
    else PipelineOk(a, loose)
  }

  predicate ElemOk(a: Ast, loose: bool)
    decreases a, 3
  {
    if IsBackground(a) then a.redirs == [] && AndOrOk(a.child, loose) else AndOrOk(a, loose)
  }

  /** Sequences nest to the right; an element after `;` or `&` is not `}`. */
  predicate ListOk(a: Ast, loose: bool)
    decreases a, 4
  {
    if a.Bin? && a.op == SeqOp then
      ElemOk(a.l, loose) && ListOk(a.r, loose) && !HeadIsWord(ListToks(a.r, true), "}")
    else ElemOk(a, loose)
  }

  // ------------------------------------------------------ parsing a command

  lemma {:induction false} AssignmentsComplete(ws: seq<string>, acc: seq<string>, rest: Toks)
    requires AssignsOk(ws)
    requires Head(rest) != ArithOpen && (Head(rest) == Word ==> !IsAssignment(rest[0].value))
    ensures Assignments(WordToks(ws) + rest, acc) == (acc + ws, rest, false)
    decreases |ws|
  {
    hide ArithText, IsAssignment;
    var ts := WordToks(ws) + rest;
    if ws == [] {
      assert ts == rest && acc + ws == acc;
    } else {
      assert ts[1..] == WordToks(ws[1..]) + rest;
      assert Head(ts[1..]) != ArithOpen;
      AssignmentsComplete(ws[1..], acc + [ws[0]], rest);
      assert acc + [ws[0]] + ws[1..] == acc + ws;
    }
  }

  lemma {:induction false} BuildWords(ws: seq<string>, c: Command, rest: Toks)
    requires !InCommand(Head(rest))
    ensures BuildCommand(WordToks(ws) + rest, c) == Parsed(Cmd(c.(argv := c.argv + ws)), rest, false)
    ensures CountArgs(WordToks(ws) + rest) == |ws|
    decreases |ws|
  {
    hide IsRedir;
    var ts := WordToks(ws) + rest;
    if ws == [] {
      assert ts == rest && c.argv + ws == c.argv;
    } else {
      assert ts[1..] == WordToks(ws[1..]) + rest;
      BuildWords(ws[1..], c.(argv := c.argv + [ws[0]]), rest);
      assert c.argv + [ws[0]] + ws[1..] == c.argv + ws;
    }
  }

  lemma BuildOneRedir(r: Redir, c: Command, rest: Toks)
    requires RedirOk(r)
    ensures var ts := [Token(r.kind, Symbol(r.kind), r.fd), W(r.target)] + rest;
            BuildCommand(ts, c) == BuildCommand(rest, c.(redirs := c.redirs + [r])) && CountArgs(ts) == CountArgs(rest)
  {
    hide MakeRedir, Symbol, IsRedir;
    RedirKinds(r.kind);
    Drop2(Token(r.kind, Symbol(r.kind), r.fd), W(r.target), rest);
  }

  lemma {:induction false} BuildRedirs(rs: seq<Redir>, ws: seq<string>, c: Command, rest: Toks)
    requires RedirsOk(rs) && !InCommand(Head(rest))
    ensures var ts := RedirToks(rs) + (WordToks(ws) + rest);
            BuildCommand(ts, c) == Parsed(Cmd(c.(redirs := c.redirs + rs, argv := c.argv + ws)), rest, false)
            && CountArgs(ts) == |ws|
    decreases |rs|
  {
    hide BuildCommand, CountArgs, WordToks, IsRedir, Symbol, RedirOk;
    var after := WordToks(ws) + rest;
    if rs == [] {
      assert RedirToks(rs) + after == after && c.redirs + rs == c.redirs;
      BuildWords(ws, c, rest);
    } else {
      var r, tail := rs[0], RedirToks(rs[1..]);
      BuildOneRedir(r, c, tail + after);
      Assoc([Token(r.kind, Symbol(r.kind), r.fd), W(r.target)], tail, after);
      BuildRedirs(rs[1..], ws, c.(redirs := c.redirs + [r]), rest);
      assert c.redirs + [r] + rs[1..] == c.redirs + rs;
    }
  }

  /** What may follow a command in printed text. */
  predicate Follow(ts: Toks) {
    var k := Head(ts);
    k == Pipe || k == And || k == Or || k == Semicolon || k == Ampersand || k == RParen || k == Eof
  }

  /** The last command is assignments only. */
  predicate EndsBare(a: Ast) {
    match a
    case Cmd(c) => c.argv == [] && c.redirs == []
    case Bin(_, _, r) => EndsBare(r)
    case _ => false
  }

  /** What ends a command in the input: after assignments only, a line break
      does not. */
  predicate Ends(a: Ast, rest: Toks) {
    Follow(rest) || (Head(rest) == Newline && !EndsBare(a))
  }

  lemma HeadOfCommand(c: Command, rest: Toks)
    requires CommandOk(c, false) && Ends(Cmd(c), rest)
    ensures var ts := CommandToks(c) + rest;
            ts != [] && CommandToks(c) != [] && InCommand(Head(ts)) && !HeadIsWord(ts, "{")
    ensures var after := RedirToks(c.redirs) + (WordToks(c.argv) + rest);
            CommandToks(c) + rest == WordToks(c.assigns) + after
            && Head(after) != ArithOpen && (Head(after) == Word ==> !IsAssignment(after[0].value))
            && Head(after) != LParen && Head(after) != Newline
            && (c.assigns == [] && c.argv == [] ==> IsHeredoc(Head(after)))
  {
    hide RedirToks, WordToks, IsAssignment, IsRedir, MakeRedir, RedirOk;
    var rs, ws := RedirToks(c.redirs), WordToks(c.argv);
    BraceIsNoAssignment();
    Assoc(WordToks(c.assigns), rs + ws, rest);
    Assoc(rs, ws, rest);
    FirstToks(c.assigns, c.redirs);
    FirstToks(c.argv, []);
    if c.redirs != [] {
      RedirKinds(c.redirs[0].kind);
      assert (rs + (ws + rest))[0] == rs[0];
    } else {
      assert rs + (ws + rest) == ws + rest;
    }
    if c.assigns != [] {
      assert (WordToks(c.assigns) + (rs + (ws + rest)))[0] == WordToks(c.assigns)[0];
    } else {
      assert WordToks(c.assigns) + (rs + (ws + rest)) == rs + (ws + rest);
    }
  }

  /** First token of printed words and of printed redirections. */
  lemma FirstToks(ws: seq<string>, rs: seq<Redir>)
    requires RedirsOk(rs)
    ensures if ws == [] then WordToks(ws) == [] else WordToks(ws) != [] && WordToks(ws)[0] == W(ws[0])
    ensures if rs == [] then RedirToks(rs) == []
            else RedirToks(rs) != [] && RedirToks(rs)[0].kind == rs[0].kind && IsRedir(rs[0].kind)
  {
    assert rs != [] ==> RedirOk(rs[0]);
  }

  lemma BraceIsNoAssignment()
    ensures !IsAssignment("{")
  {
  }

  lemma FollowStops(ts: Toks)
    requires Follow(ts) || Head(ts) == Newline
    ensures !InCommand(Head(ts))
  {
  }

  lemma CommandComplete(c: Command, rest: Toks)
    requires CommandOk(c, false) && Ends(Cmd(c), rest)
    ensures AnyCommand(CommandToks(c) + rest) == Parsed(Cmd(c), rest, false)
  {
    hide SubshellCommand, BlockCommand, BuildCommand, Assignments, CountArgs, RedirToks, WordToks, IsAssignment,
        IsRedir;
    var after := RedirToks(c.redirs) + (WordToks(c.argv) + rest);
    HeadOfCommand(c, rest);
    AssignmentsComplete(c.assigns, [], after);
    assert [] + c.assigns == c.assigns;
    FollowStops(rest);
    BuildRedirs(c.redirs, c.argv, Command([], c.assigns, []), rest);
    assert [] + c.redirs == c.redirs && [] + c.argv == c.argv;
    SimpleOnly(CommandToks(c) + rest, c.assigns, after);
  }

  lemma SimpleOnly(ts: Toks, assigns: seq<string>, after: Toks)
    requires ts != [] && InCommand(Head(ts)) && !HeadIsWord(ts, "{")
    requires Assignments(ts, []) == (assigns, after, false)
    requires Head(after) != LParen && Head(after) != Newline
    requires CountArgs(after) == 0 && assigns == [] ==> IsHeredoc(Head(after))
    ensures AnyCommand(ts) == BuildCommand(after, Command([], assigns, []))
  {
    hide SubshellCommand, BlockCommand, Assignments, CountArgs, BuildCommand;
    assert SkipNewlines(after) == after;
  }

  // ------------------------------------------- parsing groups and operators

  /** Printed nodes start with a word, `(` or a redirection. */
  predicate Starts(ts: Toks) {
    ts != [] && (InCommand(Head(ts)) || Head(ts) == LParen)
  }

  /** Each level of the grammar contains the one below. */
  lemma Widen(a: Ast, loose: bool)
    ensures CommandNodeOk(a, loose) ==> PipelineOk(a, loose)
    ensures PipelineOk(a, loose) ==> AndOrOk(a, loose)
    ensures AndOrOk(a, loose) ==> ElemOk(a, loose)
    ensures ElemOk(a, loose) ==> ListOk(a, loose)
  {
    if AndOrOk(a, loose) {
      NotBackground(a, loose);
    }
    if a.Bin? {
      assert !CommandNodeOk(a, loose);
      assert PipelineOk(a, loose) ==> a.op == PipeOp;
    }
  }

  lemma BinParts(a: Ast)
    requires a.Bin? && AndOrOk(a, false)
    ensures !CommandNodeOk(a, false) && a.op != SeqOp
    ensures if a.op == PipeOp then PipelineOk(a, false) && PipelineOk(a.l, false) && CommandNodeOk(a.r, false)
            else !PipelineOk(a, false) && AndOrOk(a.l, false) && PipelineOk(a.r, false)
  {
    assert !CommandNodeOk(a, false);
    assert a.op == PipeOp || a.op == SeqOp ==> PipelineOk(a, false);
  }

  lemma NotBackground(a: Ast, loose: bool)
    requires AndOrOk(a, loose)
    ensures !IsBackground(a)
  {
    assert !a.Bin? ==> PipelineOk(a, loose) == CommandNodeOk(a, loose);
  }

  // The parts of a node in normal form are in normal form.

  function JointOf(op: BinOp): TokenKind {
    match op
    case PipeOp => Pipe
    case AndOp => And
    case OrOp => Or
    case SeqOp => Semicolon
  }

  lemma ElemIsNode(a: Ast)
    requires ElemOk(a, false) && !IsBackground(a) && !a.Bin?
    ensures CommandNodeOk(a, false) && a != Null
  {
    assert AndOrOk(a, false);
    assert PipelineOk(a, false);
  }

  lemma PartsOk(a: Ast)
    requires a.Bin? && ElemOk(a, false)
    ensures a.op != SeqOp && ElemOk(a.l, false) && ElemOk(a.r, false) && !IsBackground(a.l) && !IsBackground(a.r)
    ensures NodeToks(a) == NodeToks(a.l) + ([Op(JointOf(a.op))] + NodeToks(a.r))
  {
    hide AndOrOk, PipelineOk, CommandNodeOk;
    BinParts(a);
    Widen(a.l, false);
    Widen(a.r, false);
    NotBackground(a.l, false);
    NotBackground(a.r, false);
  }

  lemma BackgroundOk(a: Ast)
    requires ElemOk(a, false) && IsBackground(a)
    ensures ElemOk(a.child, false)
  {
    Widen(a.child, false);
  }

  lemma {:induction false} NodeStarts(a: Ast)
    requires AndOrOk(a, false)
    ensures Starts(NodeToks(a))
    decreases a
  {
    match a {
      case Cmd(c) =>
        assert CommandNodeOk(a, false);
        HeadOfCommand(c, []);
        assert CommandToks(c) + [] == CommandToks(c);
      case Bin(op, l, _) =>
        BinLeft(a);
        NodeStarts(l);
      case Grp(_, _, _) =>
        NotBackground(a, false);
      case Null =>
    }
  }

  lemma BinLeft(a: Ast)
    requires a.Bin? && AndOrOk(a, false)
    ensures a.op != SeqOp && AndOrOk(a.l, false)
  {
    assert !CommandNodeOk(a, false);
    Widen(a.l, false);
  }

  lemma {:induction false} ListStarts(a: Ast, close: bool)
    requires ListOk(a, false)
    ensures Starts(ListToks(a, close)) && Starts(ListToks(a, true))
    ensures ListToks(a, close)[0] == ListToks(a, true)[0]
  {
    var elem := if a.Bin? && a.op == SeqOp then a.l else a;
    assert ElemOk(elem, false);
    NodeStarts(if IsBackground(elem) then elem.child else elem);
    assert Starts(NodeToks(elem));
  }

  lemma {:induction false} GroupRedirsComplete(kind: GroupKind, child: Ast, done: seq<Redir>, rs: seq<Redir>,
                                               rest: Toks)
    requires RedirsOk(rs) && !IsRedir(Head(rest))
    ensures GroupRedirs(kind, child, done, RedirToks(rs) + rest) == Parsed(Grp(kind, child, done + rs), rest, false)
    decreases |rs|
  {
    hide MakeRedir, IsRedir;
    var ts := RedirToks(rs) + rest;
    if rs == [] {
      assert ts == rest && done + rs == done;
    } else {
      assert RedirOk(rs[0]);
      assert ts[2..] == RedirToks(rs[1..]) + rest;
      GroupRedirsComplete(kind, child, done + [rs[0]], rs[1..], rest);
      assert done + [rs[0]] + rs[1..] == done + rs;
    }
  }

  /** The closing token of a group: `)`, or the word `}`. */
  function Closing(k: GroupKind): Token {
    if k == Subshell then Op(RParen) else W("}")
  }

  lemma {:induction false} NodeComplete(a: Ast, rest: Toks)
    requires CommandNodeOk(a, false) && Ends(a, rest)
    ensures AnyCommand(NodeToks(a) + rest) == Parsed(a, rest, false)
    decreases a, 0
  {
    hide AnyCommand, CommandList, ListOk, ListToks, CommandNodeOk, NodeToks, RedirToks, RedirsOk;
    if a.Cmd? {
      CmdComplete(a, rest);
    } else {
      GroupText(a, rest);
      var (k, c, rs) := (a.kind, a.child, a.redirs);
      ListStarts(c, k == Block);
      ListComplete(c, k == Block, [Closing(k)] + (RedirToks(rs) + rest));
      GroupRedirsComplete(k, c, [], rs, rest);
      assert [] + rs == rs;
      ListNotNull(c);
      GroupComplete(NodeToks(a) + rest, k, c, rs, rest);
    }
  }

  lemma CmdComplete(a: Ast, rest: Toks)
    requires a.Cmd? && CommandNodeOk(a, false) && Ends(a, rest)
    ensures AnyCommand(NodeToks(a) + rest) == Parsed(a, rest, false)
  {
    hide AnyCommand;
    CommandComplete(a.cmd, rest);
  }

  lemma GroupText(a: Ast, rest: Toks)
    requires !a.Cmd? && CommandNodeOk(a, false)
    ensures a.Grp? && a.kind != Background && ListOk(a.child, false) && RedirsOk(a.redirs)
    ensures var ts := NodeToks(a) + rest;
            ts != [] && ts[0] == (if a.kind == Subshell then Op(LParen) else W("{"))
            && ts[1..] == ListToks(a.child, a.kind == Block) + ([Closing(a.kind)] + (RedirToks(a.redirs) + rest))
  {
    hide ListOk, ListToks, RedirToks;
  }

  lemma GroupComplete(ts: Toks, k: GroupKind, c: Ast, rs: seq<Redir>, rest: Toks)
    requires k != Background && c != Null
    requires ts != [] && (if k == Subshell then ts[0] == Op(LParen) else ts[0] == W("{"))
    requires Head(ts[1..]) != Newline
    requires var close := [Closing(k)] + (RedirToks(rs) + rest);
             CommandList(ts[1..]) == Parsed(c, close, false)
             && GroupRedirs(k, c, [], close[1..]) == Parsed(Grp(k, c, rs), rest, false)
    ensures AnyCommand(ts) == Parsed(Grp(k, c, rs), rest, false)
  {
    hide CommandList, GroupRedirs, SimpleCommand, RedirToks;
    var close := [Closing(k)] + (RedirToks(rs) + rest);
    assert SkipNewlines(ts[1..]) == ts[1..] && SkipNewlines(close) == close;
  }

  lemma {:induction false} PipelineComplete(a: Ast, rest: Toks)
    requires PipelineOk(a, false) && Ends(a, rest)
    ensures Pipeline(NodeToks(a) + rest) == PipelineLoop(a, rest, false)
    decreases a, 1
  {
    hide AnyCommand, PipelineLoop, CommandNodeOk;
    if a.Bin? && a.op == PipeOp {
      var after := [Op(Pipe)] + (NodeToks(a.r) + rest);
      assert NodeToks(a) + rest == NodeToks(a.l) + after;
      PipelineComplete(a.l, after);
      NodeComplete(a.r, rest);
      NodeNotNull(a.r);
      PipeStep(a.l, after, a.r, rest);
    } else {
      NodeComplete(a, rest);
      NodeNotNull(a);
    }
  }

  lemma NodeNotNull(a: Ast)
    requires CommandNodeOk(a, false)
    ensures a != Null
  {
  }

  lemma PipeStep(l: Ast, after: Toks, r: Ast, rest: Toks)
    requires Head(after) == Pipe && r != Null && AnyCommand(after[1..]) == Parsed(r, rest, false)
    ensures PipelineLoop(l, after, false) == PipelineLoop(Bin(PipeOp, l, r), rest, false)
  {
    hide AnyCommand;
  }

  lemma {:induction false} AndOrComplete(a: Ast, rest: Toks)
    requires AndOrOk(a, false) && Ends(a, rest) && Head(rest) != Pipe
    ensures AndOr(NodeToks(a) + rest) == AndOrLoop(a, rest, false)
    decreases a, 2
  {
    hide Pipeline, AndOrLoop, PipelineLoop, PipelineOk;
    if a.Bin? && (a.op == AndOp || a.op == OrOp) {
      var op := if a.op == AndOp then And else Or;
      var after := [Op(op)] + (NodeToks(a.r) + rest);
      assert NodeToks(a) + rest == NodeToks(a.l) + after;
      AndOrComplete(a.l, after);
      PipelineComplete(a.r, rest);
      PipeEnds(a.r, rest);
      PipelineNotNull(a.r);
      AndOrStep(a.l, after, a.r, rest);
    } else {
      PipelineComplete(a, rest);
      PipeEnds(a, rest);
      PipelineNotNull(a);
    }
  }

  lemma PipelineNotNull(a: Ast)
    requires PipelineOk(a, false)
    ensures a != Null
  {
  }

  lemma PipeEnds(a: Ast, rest: Toks)
    requires Head(rest) != Pipe
    ensures PipelineLoop(a, rest, false) == Parsed(a, rest, false)
  {
  }

  lemma AndOrStep(l: Ast, after: Toks, r: Ast, rest: Toks)
    requires (Head(after) == And || Head(after) == Or) && r != Null && Pipeline(after[1..]) == Parsed(r, rest, false)
    ensures AndOrLoop(l, after, false) == AndOrLoop(Bin(if Head(after) == And then AndOp else OrOp, l, r), rest, false)
  {
    hide Pipeline;
  }

  /** An element of a list together with its separator. */
  lemma ElemComplete(a: Ast, close: bool, rest: Toks)
    requires ElemOk(a, false)
    requires Head(rest) != Newline
    requires close || IsBackground(a) || Head(rest) == RParen || Head(rest) == Eof
    ensures CommandList(ElemToks(a, close) + rest)
         == if close || IsBackground(a) then AfterSep(a, rest) else Parsed(a, rest, false)
    decreases a, 3
  {
    hide AndOr, ListLoop, CommandList, AndOrOk;
    var ts := ElemToks(a, close) + rest;
    var inner := if IsBackground(a) then a.child else a;
    var after := if IsBackground(a) then [Op(Ampersand)] + rest else if close then [Op(Semicolon)] + rest else rest;
    assert IsBackground(a) ==> NodeToks(a) == NodeToks(inner) + [Op(Ampersand)];
    assert ts == NodeToks(inner) + after;
    AndOrComplete(inner, after);
    AndOrEnds(inner, after);
    AndOrNotNull(inner);
    ListBegins(ts, inner, after);
    if IsBackground(a) {
      assert a == Grp(Background, a.child, []);
      SepStep(inner, after, Async, a, rest);
    } else if close {
      SepStep(inner, after, Sequential, a, rest);
    } else {
      ListEnds(inner, rest);
    }
  }

  /** What `ListLoop` does once an element's separator has been read. */
  function AfterSep(elem: Ast, rest: Toks): Parsed {
    if Terminator(rest) then Parsed(elem, rest, false)
    else
      var c := CommandList(rest);
      ListLoop(Bin(SeqOp, elem, c.ast), c.rest, c.error)
  }

  lemma AndOrNotNull(a: Ast)
    requires AndOrOk(a, false)
    ensures a != Null
  {
  }

  lemma AndOrEnds(a: Ast, rest: Toks)
    requires Head(rest) != And && Head(rest) != Or
    ensures AndOrLoop(a, rest, false) == Parsed(a, rest, false)
  {
  }

  lemma ListBegins(ts: Toks, a: Ast, rest: Toks)
    requires a != Null && AndOr(ts) == Parsed(a, rest, false)
    ensures CommandList(ts) == ListLoop(a, rest, false)
  {
    hide AndOr, ListLoop;
  }

  lemma SepStep(left: Ast, after: Toks, sep: Separator, elem: Ast, rest: Toks)
    requires after != [] && after[1..] == rest && Head(rest) != Newline
    requires if sep == Async then Head(after) == Ampersand && elem == Grp(Background, left, [])
             else sep == Sequential && Head(after) == Semicolon && elem == left
    ensures ListLoop(left, after, false) == AfterSep(elem, rest)
  {
    hide CommandList;
    assert SkipNewlines(rest) == rest && SkipNewlines(after) == after;
  }

  lemma ListEnds(a: Ast, rest: Toks)
    requires Terminator(rest)
    ensures ListLoop(a, rest, false) == Parsed(a, rest, false)
  {
    assert SkipNewlines(rest) == rest;
  }

  lemma {:induction false} ListComplete(a: Ast, close: bool, rest: Toks)
    requires ListOk(a, false) && Terminator(rest) && rest != []
    requires close || Head(rest) != Word
    ensures CommandList(ListToks(a, close) + rest) == Parsed(a, rest, false)
    decreases a, 4
  {
    hide CommandList, ListLoop, ElemOk;
    if a.Bin? && a.op == SeqOp {
      var after := ListToks(a.r, close) + rest;
      assert ListToks(a, close) + rest == ElemToks(a.l, true) + after;
      ListStarts(a.r, close);
      ListNotNull(a.r);
      ElemComplete(a.l, true, after);
      ListComplete(a.r, close, rest);
      assert after[0] == ListToks(a.r, true)[0];
      assert !Terminator(after);
      assert a == Bin(SeqOp, a.l, a.r);
      ListEnds(a, rest);
    } else {
      assert ListToks(a, close) == ElemToks(a, close);
      ElemComplete(a, close, rest);
      ListEnds(a, rest);
    }
  }

  lemma ListNotNull(a: Ast)
    requires ListOk(a, false)
    ensures a != Null
  {
  }

  // ------------------------------------------------------------- round trip

  /** The tokens of a whole input. */
  function Printed(a: Ast): Toks {
    ListToks(a, false) + [EOF_TOKEN]
  }

  /** Parsing a printed normal-form tree gives exactly that tree. */
  lemma ParseComplete(a: Ast)
    requires ListOk(a, false)
    ensures Parse(Printed(a)) == Some(a)
  {
    hide CommandList;
    ListStarts(a, false);
    ListComplete(a, false, [EOF_TOKEN]);
    assert SkipNewlines(Printed(a)) == Printed(a);
    assert SkipNewlines([EOF_TOKEN]) == [EOF_TOKEN];
  }
}
