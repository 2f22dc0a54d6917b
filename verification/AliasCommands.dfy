/** Which words the alias scan takes for command names, against the commands of
    the syntax tree. */
module AliasCommands {
  import opened Ascii
  import opened Tokens
  import opened Syntax
  import opened Wrappers
  import opened ParserSpec
  import opened ParserRoundTrip
  import opened AliasSpec
  import opened AliasPlaces

  /** The words of `ts` that the scan reads in command position. */
  function Seen(ts: Toks, p: Place): seq<string> {
    if ts == [] then []
    else (if ts[0].kind == Word && p == COMMAND then [ts[0].value] else []) + Seen(ts[1..], Next(ts[0], p))
  }

  /** The words in command position of a printed tree, `at` when it starts in
      command position: for a command its first assignment, else its name; the
      braces of a block, whose first command is not in command position. */
  function SeenIn(a: Ast, at: bool): seq<string> {
    match a
    case Null => []
    case Cmd(c) =>
      if !at then [] else if c.assigns != [] then [c.assigns[0]] else if c.argv != [] then [c.argv[0]] else []
    case Bin(_, l, r) => SeenIn(l, at) + SeenIn(r, true)
    case Grp(Subshell, c, _) => SeenIn(c, true)
    case Grp(Block, c, _) => (if at then ["{"] else []) + (SeenIn(c, false) + ["}"])
    case Grp(Background, c, _) => SeenIn(c, at)
  }

  lemma {:induction false} SeenAppend(a: Toks, b: Toks, p: Place)
    ensures Seen(a + b, p) == Seen(a, p) + Seen(b, Reading(a, p))
    ensures Reading(a + b, p) == Reading(b, Reading(a, p))
  {
    hide Next;
    if a == [] {
      assert a + b == b;
    } else {
      assert (a + b)[1..] == a[1..] + b;
      SeenAppend(a[1..], b, Next(a[0], p));
    }
  }

  lemma SeenOne(t: Token, p: Place)
    ensures Seen([t], p) == (if t.kind == Word && p == COMMAND then [t.value] else []) && Reading([t], p) == Next(t, p)
  {
    assert [t][1..] == [];
  }

  lemma {:induction false} SeenWords(ws: seq<string>, p: Place)
    requires !p.target
    ensures Seen(WordToks(ws), p) == if p.cmdPos && ws != [] then [ws[0]] else []
    ensures Reading(WordToks(ws), p) == Place(p.cmdPos && ws == [], false)
  {
    if ws != [] {
      SeenWords(ws[1..], ARGUMENT);
    }
  }

  lemma {:induction false} SeenRedirs(rs: seq<Redir>, p: Place)
    requires RedirsOk(rs) && !p.target
    ensures Seen(RedirToks(rs), p) == [] && Reading(RedirToks(rs), p) == p
  {
    if rs != [] {
      var ts := RedirToks(rs);
      assert RedirOk(rs[0]);
      assert ts[1..] == [W(rs[0].target)] + RedirToks(rs[1..]) && ts[1..][1..] == RedirToks(rs[1..]);
      RedirKinds(rs[0].kind);
      SeenRedirs(rs[1..], p);
    }
  }

  lemma SeenCommand(c: Command, p: Place)
    requires CommandOk(c, false) && !p.target
    ensures Seen(CommandToks(c), p) == SeenIn(Cmd(c), p.cmdPos) && !Reading(CommandToks(c), p).target
  {
    hide Seen, Reading, WordToks, RedirToks;
    var ws, rs, args := WordToks(c.assigns), RedirToks(c.redirs), WordToks(c.argv);
    SeenWords(c.assigns, p);
    var q := Reading(ws, p);
    SeenRedirs(c.redirs, q);
    SeenWords(c.argv, q);
    SeenAppend(rs, args, q);
    SeenAppend(ws, rs + args, p);
  }

  lemma SeenThen(ts: Toks, t: Token, rest: Toks, p: Place)
    requires t.kind != Word && !Reading(ts, p).target
    ensures var q := Next(t, Reading(ts, p));
            Seen(ts + ([t] + rest), p) == Seen(ts, p) + Seen(rest, q)
                && Reading(ts + ([t] + rest), p) == Reading(rest, q)
  {
    hide Seen, Reading, Next;
    SeenOne(t, Reading(ts, p));
    SeenAppend([t], rest, Reading(ts, p));
    SeenAppend(ts, [t] + rest, p);
  }

  lemma {:induction false} SeenNode(a: Ast, p: Place)
    requires ElemOk(a, false) && !p.target
    ensures Seen(NodeToks(a), p) == SeenIn(a, p.cmdPos) && !Reading(NodeToks(a), p).target
    ensures IsBackground(a) ==> Reading(NodeToks(a), p) == COMMAND
    decreases a, 0
  {
    hide Seen, Reading, ListToks, RedirToks, CommandToks, ListOk;
    match a {
      case Cmd(c) =>
        ElemIsNode(a);
        SeenCommand(c, p);
      case Grp(Background, c, _) =>
        Widen(c, false);
        SeenNode(c, p);
        SeenThen(NodeToks(c), Op(Ampersand), [], p);
        assert [Op(Ampersand)] + [] == [Op(Ampersand)];
        SeenNone(COMMAND);
      case Grp(k, c, rs) =>
        ElemIsNode(a);
        SeenList(c, k == Block, if k == Subshell then COMMAND else ARGUMENT);
        SeenRedirs(rs, ARGUMENT);
        SeenGroup(a, p);
      case Bin(op, l, r) =>
        PartsOk(a);
        SeenNode(l, p);
        SeenNode(r, COMMAND);
        SeenThen(NodeToks(l), Op(JointOf(op)), NodeToks(r), p);
      case Null =>
        ElemIsNode(a);
    }
  }

  lemma SeenNone(p: Place)
    ensures Seen([], p) == [] && Reading([], p) == p
  {
  }

  /** The tokens of a group around those of its list. */
  lemma SeenGroup(a: Ast, p: Place)
    requires CommandNodeOk(a, false) && a.Grp? && !p.target
    requires var inner := if a.kind == Subshell then COMMAND else ARGUMENT;
             var list := ListToks(a.child, a.kind == Block);
             Seen(list, inner) == SeenIn(a.child, inner.cmdPos) && !Reading(list, inner).target
             && (a.kind == Block ==> Reading(list, inner) == COMMAND)
    requires Seen(RedirToks(a.redirs), ARGUMENT) == [] && Reading(RedirToks(a.redirs), ARGUMENT) == ARGUMENT
    ensures Seen(NodeToks(a), p) == SeenIn(a, p.cmdPos) && Reading(NodeToks(a), p) == ARGUMENT
  {
    hide Seen, Reading, ListToks, RedirToks, ListOk;
    var list, rs := ListToks(a.child, a.kind == Block), RedirToks(a.redirs);
    var open := if a.kind == Subshell then Op(LParen) else W("{");
    var inner := if a.kind == Subshell then COMMAND else ARGUMENT;
    var close := Closing(a.kind);
    assert NodeToks(a) == [open] + (list + ([close] + rs));
    SeenOne(open, p);
    SeenOne(close, Reading(list, inner));
    SeenAppend([close], rs, Reading(list, inner));
    SeenAppend(list, [close] + rs, inner);
    SeenAppend([open], list + ([close] + rs), p);
  }

  lemma {:induction false} SeenList(a: Ast, close: bool, p: Place)
    requires ListOk(a, false) && !p.target
    ensures Seen(ListToks(a, close), p) == SeenIn(a, p.cmdPos) && !Reading(ListToks(a, close), p).target
    ensures close ==> Reading(ListToks(a, close), p) == COMMAND
    decreases a, 2
  {
    hide Seen, Reading, NodeToks, ElemOk;
    if a.Bin? && a.op == SeqOp {
      SeenElem(a.l, true, p);
      SeenList(a.r, close, COMMAND);
      SeenAppend(ElemToks(a.l, true), ListToks(a.r, close), p);
    } else {
      SeenElem(a, close, p);
    }
  }

  lemma {:induction false} SeenElem(a: Ast, close: bool, p: Place)
    requires ElemOk(a, false) && !p.target
    ensures Seen(ElemToks(a, close), p) == SeenIn(a, p.cmdPos) && !Reading(ElemToks(a, close), p).target
    ensures close ==> Reading(ElemToks(a, close), p) == COMMAND
    decreases a, 1
  {
    hide Seen, Reading, NodeToks, ElemOk;
    SeenNode(a, p);
    if !IsBackground(a) {
      if close {
        SeenThen(NodeToks(a), Op(Semicolon), [], p);
        assert [Op(Semicolon)] + [] == [Op(Semicolon)];
        SeenNone(COMMAND);
      } else {
        assert NodeToks(a) + [] == NodeToks(a);
      }
    }
  }

  // ------------------------------------------------- the names of commands

  /** The commands' names, in order. */
  function Names(a: Ast): seq<string> {
    match a
    case Null => []
    case Cmd(c) => if c.argv == [] then [] else [c.argv[0]]
    case Bin(_, l, r) => Names(l) + Names(r)
    case Grp(_, c, _) => Names(c)
  }

  /** Where a printed tree has them, from `base`, and whether each stands in
      command position: not after an assignment, nor first in a block. */
  function Spots(a: Ast, base: nat, at: bool): seq<(nat, bool)>
    decreases a, 0
  {
    match a
    case Null => []
    case Cmd(c) =>
      if c.argv == [] then []
      else [(base + |WordToks(c.assigns)| + |RedirToks(c.redirs)|, at && c.assigns == [])]
    case Bin(_, l, r) => Spots(l, base, at) + Spots(r, base + |NodeToks(l)| + 1, true)
    case Grp(Subshell, c, _) => ListSpots(c, base + 1, true)
    case Grp(Block, c, _) => ListSpots(c, base + 1, false)
    case Grp(Background, c, _) => Spots(c, base, at)
  }

  function ListSpots(a: Ast, base: nat, at: bool): seq<(nat, bool)>
    decreases a, 1
  {
    if a.Bin? && a.op == SeqOp then Spots(a.l, base, at) + ListSpots(a.r, base + |ElemToks(a.l, true)|, true)
    else Spots(a, base, at)
  }

  /** `name` stands at the spot, in command position exactly when it says so. */
  ghost predicate Stands(ts: Toks, spot: (nat, bool), name: string) {
    && spot.0 < |ts| && ts[spot.0] == W(name)
    && (Reading(ts[..spot.0], COMMAND) == COMMAND <==> spot.1)
  }

  ghost predicate AllStand(ts: Toks, spots: seq<(nat, bool)>, names: seq<string>) {
    |spots| == |names| && forall i :: 0 <= i < |spots| ==> Stands(ts, spots[i], names[i])
  }

  lemma StandAppend(ts: Toks, a: seq<(nat, bool)>, b: seq<(nat, bool)>, x: seq<string>, y: seq<string>)
    requires AllStand(ts, a, x) && AllStand(ts, b, y)
    ensures AllStand(ts, a + b, x + y)
  {
  }

  lemma CommandSpot(pre: Toks, c: Command, post: Toks, p: Place)
    requires CommandOk(c, false) && Reading(pre, COMMAND) == p && !p.target
    ensures AllStand(pre + CommandToks(c) + post, Spots(Cmd(c), |pre|, p.cmdPos), Names(Cmd(c)))
  {
    hide Reading, Seen, WordToks, RedirToks, RedirsOk, Stands;
    if c.argv != [] {
      var ws, rs, args := WordToks(c.assigns), RedirToks(c.redirs), WordToks(c.argv);
      BeforeName(pre, c, p);
      FirstToks(c.argv, []);
      SplitAt(pre, ws, rs, args, post);
      StandsAt(pre + CommandToks(c) + post, |pre| + |ws| + |rs|, pre + (ws + rs), c.argv[0],
               p.cmdPos && c.assigns == []);
    }
  }

  lemma BeforeName(pre: Toks, c: Command, p: Place)
    requires CommandOk(c, false) && Reading(pre, COMMAND) == p && !p.target
    ensures Reading(pre + (WordToks(c.assigns) + RedirToks(c.redirs)), COMMAND)
        == Place(p.cmdPos && c.assigns == [], false)
  {
    hide Reading, Seen, WordToks, RedirToks, RedirsOk;
    var ws, rs := WordToks(c.assigns), RedirToks(c.redirs);
    SeenWords(c.assigns, p);
    SeenRedirs(c.redirs, Reading(ws, p));
    SeenAppend(ws, rs, p);
    SeenAppend(pre, ws + rs, COMMAND);
  }

  lemma StandsAt(ts: Toks, k: nat, front: Toks, name: string, seen: bool)
    requires k < |ts| && ts[k] == W(name) && ts[..k] == front && Reading(front, COMMAND) == Place(seen, false)
    ensures Stands(ts, (k, seen), name)
  {
    hide Reading;
  }

  lemma SplitAt(pre: Toks, ws: Toks, rs: Toks, args: Toks, post: Toks)
    requires args != []
    ensures var full := pre + (ws + (rs + args)) + post;
            var k := |pre| + |ws| + |rs|;
            k < |full| && full[k] == args[0] && full[..k] == pre + (ws + rs)
  {
  }

  lemma {:induction false} NodeSpots(pre: Toks, a: Ast, post: Toks, p: Place)
    requires ElemOk(a, false) && Reading(pre, COMMAND) == p && !p.target
    ensures AllStand(pre + NodeToks(a) + post, Spots(a, |pre|, p.cmdPos), Names(a))
    decreases a, 0
  {
    hide Reading, ListToks, RedirToks, CommandToks, ListOk, AllStand, SeenIn, Seen, ElemOk;
    match a {
      case Cmd(c) =>
        ElemIsNode(a);
        CommandSpot(pre, c, post, p);
      case Grp(Background, c, _) =>
        BackgroundOk(a);
        NodeSpots(pre, c, [Op(Ampersand)] + post, p);
        assert pre + NodeToks(a) + post == pre + NodeToks(c) + ([Op(Ampersand)] + post);
      case Grp(k, c, rs) =>
        ElemIsNode(a);
        GroupSpots(pre, a, post, p);
        ListSpotsStand(pre + [Opening(k)], c, k == Block, [Closing(k)] + RedirToks(rs) + post,
                       if k == Subshell then COMMAND else ARGUMENT);
      case Bin(op, l, r) =>
        PartsOk(a);
        BinSpots(pre, a, post, p);
        NodeSpots(pre, l, [Op(JointOf(op))] + NodeToks(r) + post, p);
        NodeSpots(pre + NodeToks(l) + [Op(JointOf(op))], r, post, COMMAND);
        StandAppend(pre + NodeToks(a) + post, Spots(l, |pre|, p.cmdPos), Spots(r, |pre| + |NodeToks(l)| + 1, true),
                    Names(l), Names(r));
      case Null =>
        ElemIsNode(a);
    }
  }

  function Opening(k: GroupKind): Token {
    if k == Subshell then Op(LParen) else W("{")
  }

  lemma GroupSpots(pre: Toks, a: Ast, post: Toks, p: Place)
    requires CommandNodeOk(a, false) && a.Grp? && Reading(pre, COMMAND) == p && !p.target
    ensures var list := ListToks(a.child, a.kind == Block);
            pre + NodeToks(a) + post
              == pre + [Opening(a.kind)] + list + ([Closing(a.kind)] + RedirToks(a.redirs) + post)
    ensures Reading(pre + [Opening(a.kind)], COMMAND) == if a.kind == Subshell then COMMAND else ARGUMENT
  {
    hide Reading, ListToks, RedirToks, ListOk, Seen;
    SeenOne(Opening(a.kind), p);
    SeenAppend(pre, [Opening(a.kind)], COMMAND);
  }

  lemma BinSpots(pre: Toks, a: Ast, post: Toks, p: Place)
    requires a.Bin? && ElemOk(a, false) && Reading(pre, COMMAND) == p && !p.target
    ensures var op := [Op(JointOf(a.op))];
            && pre + NodeToks(a) + post == pre + NodeToks(a.l) + (op + NodeToks(a.r) + post)
            && pre + NodeToks(a) + post == pre + NodeToks(a.l) + op + NodeToks(a.r) + post
            && Reading(pre + NodeToks(a.l) + op, COMMAND) == COMMAND
  {
    hide Reading, NodeToks, Seen, SeenIn, ElemOk;
    PartsOk(a);
    SeenNode(a.l, p);
    var q := Reading(NodeToks(a.l), p);
    SeenOne(Op(JointOf(a.op)), q);
    SeenAppend(pre, NodeToks(a.l), COMMAND);
    SeenAppend(pre + NodeToks(a.l), [Op(JointOf(a.op))], COMMAND);
  }

  lemma ListIsElem(a: Ast, close: bool)
    ensures !(a.Bin? && a.op == SeqOp) ==> ListToks(a, close) == ElemToks(a, close)
  {
    hide NodeToks;
  }

  lemma FourParts(a: Toks, b: Toks, c: Toks, d: Toks)
    ensures a + (b + c) + d == a + b + (c + d) == (a + b) + c + d
  {
  }

  lemma {:induction false} ListSpotsStand(pre: Toks, a: Ast, close: bool, post: Toks, p: Place)
    requires ListOk(a, false) && Reading(pre, COMMAND) == p && !p.target
    ensures AllStand(pre + ListToks(a, close) + post, ListSpots(a, |pre|, p.cmdPos), Names(a))
    decreases a, 2
  {
    hide Reading, Seen, SeenIn, NodeToks, ElemOk, ElemToks, AllStand, Spots;
    ListIsElem(a, close);
    if a.Bin? && a.op == SeqOp {
      var elem, rest := ElemToks(a.l, true), ListToks(a.r, close);
      ElemSpots(pre, a.l, true, rest + post, p);
      SeenElem(a.l, true, p);
      SeenAppend(pre, elem, COMMAND);
      ListSpotsStand(pre + elem, a.r, close, post, COMMAND);
      FourParts(pre, elem, rest, post);
      StandAppend(pre + ListToks(a, close) + post, Spots(a.l, |pre|, p.cmdPos), ListSpots(a.r, |pre| + |elem|, true),
                  Names(a.l), Names(a.r));
    } else {
      ElemSpots(pre, a, close, post, p);
    }
  }

  lemma {:induction false} ElemSpots(pre: Toks, a: Ast, close: bool, post: Toks, p: Place)
    requires ElemOk(a, false) && Reading(pre, COMMAND) == p && !p.target
    ensures AllStand(pre + ElemToks(a, close) + post, Spots(a, |pre|, p.cmdPos), Names(a))
    decreases a, 1
  {
    hide Reading, NodeToks, ElemOk, AllStand, Spots, Names;
    if IsBackground(a) {
      NodeSpots(pre, a, post, p);
    } else {
      var end := if close then [Op(Semicolon)] else [];
      NodeSpots(pre, a, end + post, p);
      assert pre + (NodeToks(a) + end) + post == pre + NodeToks(a) + (end + post);
    }
  }

  /** Main result, for every tree in normal form: the words its printed tokens
      hold in command position are those of `SeenIn`; and the name of each of
      its commands is in command position exactly when no assignment precedes
      it and it is not first in a block. */
  lemma NamesReadExactly(a: Ast)
    requires ListOk(a, false)
    ensures Parse(Printed(a)) == Some(a)
    ensures Seen(Printed(a), COMMAND) == SeenIn(a, true)
    ensures AllStand(Printed(a), ListSpots(a, 0, true), Names(a))
  {
    hide Parse, Seen, Reading, ListToks, ListOk, AllStand;
    ParseComplete(a);
    SeenList(a, false, COMMAND);
    SeenOne(EOF_TOKEN, Reading(ListToks(a, false), COMMAND));
    SeenAppend(ListToks(a, false), [EOF_TOKEN], COMMAND);
    SeenNone(COMMAND);
    ListSpotsStand([], a, false, [EOF_TOKEN], COMMAND);
    assert [] + ListToks(a, false) + [EOF_TOKEN] == Printed(a);
  }

  // ------------------------------------------------------------ witnesses

  /** Nothing is expanded when no word in command position has an alias. */
  lemma {:induction false} NothingExpands(table: Table, xs: seq<Src>, s: Pos)
    requires forall i :: 0 <= i < |Seen(Untag(xs), PlaceOf(s))| ==> Seen(Untag(xs), PlaceOf(s))[i] !in table
    ensures Expand(table, xs, s) == xs
    decreases |xs|
  {
    hide Expand, Expands, Pass, Body, Next, PlaceOf, Untag;
    if xs == [] {
      ExpandNone(table, s);
    } else {
      var t := xs[0].tok;
      assert Untag(xs)[1..] == Untag(xs[1..]);
      SeenHere(t, table, s, Seen(Untag(xs), PlaceOf(s)));
      PassIsNext(t, s);
      ExpandTurn(table, xs, s);
      var here := if t.kind == Word && PlaceOf(s) == COMMAND then [t.value] else [];
      NotInRest(here, Seen(Untag(xs[1..]), Next(t, PlaceOf(s))), table);
      NothingExpands(table, xs[1..], Pass(t, s));
    }
  }

  lemma NotInRest(here: seq<string>, rest: seq<string>, table: Table)
    requires forall i :: 0 <= i < |here + rest| ==> (here + rest)[i] !in table
    ensures forall i :: 0 <= i < |rest| ==> rest[i] !in table
  {
    assert forall i :: 0 <= i < |rest| ==> rest[i] == (here + rest)[|here| + i];
  }

  lemma SeenHere(t: Token, table: Table, s: Pos, seen: seq<string>)
    requires t.kind == Word && PlaceOf(s) == COMMAND ==> seen != [] && seen[0] == t.value
    requires forall i :: 0 <= i < |seen| ==> seen[i] !in table
    ensures !Expands(t, table, s)
  {
  }

  lemma TreeStays(table: Table, a: Ast)
    requires ListOk(a, false) && forall i :: 0 <= i < |SeenIn(a, true)| ==> SeenIn(a, true)[i] !in table
    ensures Aliased(table, Printed(a)) == Printed(a)
  {
    hide Expand, Seen, Reading, ListOk, ListToks, SeenIn, AllStand;
    NamesReadExactly(a);
    assert Untag(Tag(Printed(a))) == Printed(a);
    NothingExpands(table, Tag(Printed(a)), FIRST);
  }

  /** With an alias for `ls`, neither `A=1 ls` nor `{ ls; }` is expanded. */
  lemma NamesMissed()
    ensures var table := map["ls" := "x"];
            var (given, ls) := (Cmd(Command(["ls"], ["A=1"], [])), Cmd(Command(["ls"], [], [])));
            var block := Grp(Block, ls, []);
            && Names(given) == Names(block) == ["ls"]
            && Aliased(table, Printed(given)) == Printed(given)
            && Aliased(table, Printed(block)) == Printed(block)
  {
    hide Aliased, Printed, ListOk;
    MissedOk();
    var table := map["ls" := "x"];
    var (given, ls) := (Cmd(Command(["ls"], ["A=1"], [])), Cmd(Command(["ls"], [], [])));
    assert SeenIn(given, true) == ["A=1"];
    TreeStays(table, given);
    assert SeenIn(ls, false) == [] && SeenIn(Grp(Block, ls, []), true) == ["{"] + ([] + ["}"]);
    TreeStays(table, Grp(Block, ls, []));
  }

  lemma MissedOk()
    ensures ListOk(Cmd(Command(["ls"], ["A=1"], [])), false)
    ensures ListOk(Grp(Block, Cmd(Command(["ls"], [], [])), []), false)
  {
    hide ListOk, ElemOk, AndOrOk, PipelineOk, ListToks;
    NoAssignments();
    var (given, ls) := (Cmd(Command(["ls"], ["A=1"], [])), Cmd(Command(["ls"], [], [])));
    assert CommandNodeOk(given, false) && CommandNodeOk(ls, false);
    Widen(given, false);
    Widen(ls, false);
    assert CommandNodeOk(Grp(Block, ls, []), false);
    Widen(Grp(Block, ls, []), false);
  }

  lemma NoAssignments()
    ensures IsAssignment("A=1") && !IsAssignment("ls")
  {
    assert "A=1"[1..] == "=1";
    assert NameLen("ls") <= 2;
  }
}
