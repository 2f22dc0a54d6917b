/** From text to trees: a tree written out with any blanks and comments between
    its tokens is read back as that tree. */
module TextTokens {
  import opened Ascii
  import opened Tokens
  import opened LexerSpec
  import opened LexerNormalForm
  import opened Syntax
  import opened ParserSpec
  import opened ParserRoundTrip
  import opened SeqFacts
  import opened Wrappers

  // ------------------------------------------------------------ the layout

  /** What stands before a token: blanks, then possibly a comment. */
  datatype Gap = Gap(blanks: string, comment: string)

  predicate GapOk(g: Gap) {
    && (forall i :: 0 <= i < |g.blanks| ==> IsBlank(g.blanks[i]))
    && (g.comment == "" || (g.comment[0] == '#' && '\n' !in g.comment))
  }

  /** The tokens as text, each after its gap. */
  function Layout(ts: Toks, gs: seq<Gap>): string
    requires |gs| == |ts|
  {
    if ts == [] then ""
    else gs[0].blanks + (gs[0].comment + (TokenText(ts[0]) + Layout(ts[1..], gs[1..])))
  }

  /** No blank is needed between the tokens. */
  predicate Touching(p: Token, n: Token) {
    if p.kind == Word then
      && n.io == -1 && n.kind !in {Word, LParen, ArithOpen}
      && (IsRedir(n.kind) ==> p.value == "" || !IsDigit(p.value[|p.value| - 1]))
    else p.kind in {Semicolon, Newline, LParen, ArithOpen} || (n.kind == Word && At(n.value, 0) != '-')
  }

  /** The gap can stand between the two tokens: a comment runs to a newline or
      the end, and does not start inside a word. */
  predicate Between(p: Token, g: Gap, n: Token) {
    && (g.comment != "" ==> p.kind == Word ==> g.blanks != "")
    && (g.blanks == "" && g.comment == "" ==> n.kind == Eof || Touching(p, n))
  }

  predicate Fit(ts: Toks, gs: seq<Gap>)
    decreases |ts|
  {
    && |gs| == |ts|
    && (ts != [] ==>
          && GapOk(gs[0]) && (gs[0].comment != "" ==> Head(ts) == Newline || Head(ts) == Eof)
          && (|ts| > 1 ==> Between(ts[0], gs[1], ts[1]))
          && Fit(ts[1..], gs[1..]))
  }

  /** A single word, or an operator in its own spelling. */
  ghost predicate Spelled(t: Token, depth: nat) {
    if t.kind == Word then t.io == -1 && LexedWord(t.value, false)
    else
      && t.kind != Eof && t.value == Symbol(t.kind) && (t.kind == ArithClose ==> depth > 0)
      && -1 <= t.io && (t.io >= 0 ==> IsRedir(t.kind))
  }

  /** Arithmetic expansions open after a token. */
  function Within(t: Token, depth: nat): nat {
    if t.kind == ArithOpen then depth + 1 else if t.kind == ArithClose && depth > 0 then depth - 1 else depth
  }

  ghost predicate AllSpelled(ts: Toks, depth: nat)
    decreases |ts|
  {
    if |ts| <= 1 then ts == [EOF_TOKEN]
    else Spelled(ts[0], depth) && AllSpelled(ts[1..], Within(ts[0], depth))
  }

  // ------------------------------------------------------- gaps are skipped

  lemma {:induction false} BlanksSkipped(b: string, r: string, pos: nat, depth: nat)
    requires forall i :: 0 <= i < |b| ==> IsBlank(b[i])
    ensures Lex(b + r, pos, depth) == Lex(r, pos + |b|, depth)
    decreases |b|
  {
    hide Lex;
    if b == "" {
      assert b + r == r;
    } else {
      var s := b + r;
      assert s[1..] == b[1..] + r && s[0] == b[0];
      assert !TokenAhead(s) && GapLen(s) == 1;
      LexGap(s, pos, depth);
      BlanksSkipped(b[1..], r, pos + 1, depth);
    }
  }

  lemma CommentSkipped(c: string, r: string, pos: nat, depth: nat)
    requires c == "" || (c[0] == '#' && '\n' !in c && (r == "" || r[0] == '\n'))
    ensures Lex(c + r, pos, depth) == Lex(r, pos + |c|, depth)
  {
    hide Lex;
    if c == "" {
      assert c + r == r;
    } else {
      var s := c + r;
      assert s[0] == '#' && !TokenAhead(s);
      FirstNewline(c, r);
      assert s[|c|..] == r;
      LexGap(s, pos, depth);
    }
  }

  lemma {:induction false} FirstNewline(c: string, r: string)
    requires '\n' !in c && (r == "" || r[0] == '\n')
    ensures IndexOfChar(c + r, '\n') == |c|
  {
    if c == "" {
      assert c + r == r;
    } else {
      assert (c + r)[1..] == c[1..] + r;
      FirstNewline(c[1..], r);
    }
  }

  lemma GapSkipped(g: Gap, r: string, pos: nat, depth: nat)
    requires GapOk(g) && (g.comment != "" ==> r == "" || r[0] == '\n')
    ensures Lex(g.blanks + (g.comment + r), pos, depth) == Lex(r, pos + |g.blanks| + |g.comment|, depth)
  {
    hide Lex;
    BlanksSkipped(g.blanks, g.comment + r, pos, depth);
    CommentSkipped(g.comment, r, pos + |g.blanks|, depth);
  }

  // ----------------------------------------------------- operators and words

  /** Row `RowOf(k)` of the operator table is the one for `k`. */
  function RowOf(k: TokenKind): nat {
    match k
    case Semicolon => 0
    case Newline => 1
    case ArithOpen => 2
    case LParen => 3
    case ArithClose => 4
    case RParen => 5
    case Or => 6
    case Pipe => 7
    case And => 8
    case Ampersand => 9
    case HeredocStrip => 10
    case Heredoc => 11
    case RedirDupIn => 12
    case RedirIn => 13
    case RedirAppend => 14
    case RedirDupOut => 15
    case _ => 16
  }

  lemma RowsSpelled(k: TokenKind)
    requires k != Word && k != Eof
    ensures RowOf(k) < OPERATORS && Kind(RowOf(k)) == k && Literal(RowOf(k)) == Symbol(k) && Symbol(k) != ""
  {
  }

  lemma SpelledIsLexed(t: Token, depth: nat)
    requires Spelled(t, depth)
    ensures LexedToken(t, depth, false) && Within(t, depth) == DepthAfter(t.kind, depth)
  {
    hide LexedWord;
    if t.kind != Word {
      RowsSpelled(t.kind);
    }
  }

  /** The first byte of a token's text. */
  lemma FirstByte(t: Token, depth: nat)
    requires Spelled(t, depth)
    ensures TokenText(t) != ""
    ensures var c := TokenText(t)[0];
            if t.kind == Word then c == t.value[0] && c !in "|&<>);(\n" && !IsBlank(c)
            else if t.io >= 0 then IsDigit(c)
            else c == Symbol(t.kind)[0]
  {
    hide WordLen, Closed;
    if t.kind != Word {
      RowsSpelled(t.kind);
    }
  }

  /** What follows a token in a layout stands apart from it. */
  lemma FollowsApart(p: Token, n: Token, g: Gap, rest: string, depth: nat)
    requires GapOk(g) && Between(p, g, n)
    requires if n.kind == Eof then TokenText(n) + rest == "" else Spelled(n, depth)
    ensures Apart(p, g.blanks + (g.comment + (TokenText(n) + rest)))
  {
    hide Spelled, Touching, TokenText, Apart, IsBlank;
    var text := TokenText(n) + rest;
    var after := g.blanks + (g.comment + text);
    if g.blanks != "" {
      assert after[0] == g.blanks[0];
      StartsApart(p, after);
    } else if g.comment != "" {
      assert after[0] == '#';
      StartsApart(p, after);
    } else {
      assert after == text;
      if n.kind == Eof {
        NothingApart(p);
      } else {
        FirstByte(n, depth);
        assert text[0] == TokenText(n)[0];
        TouchingApart(p, n, text, depth);
      }
    }
  }

  lemma StartsApart(p: Token, t: string)
    requires t != "" && (IsBlank(t[0]) || (t[0] == '#' && p.kind != Word))
    ensures Apart(p, t)
  {
  }

  lemma NothingApart(p: Token)
    ensures Apart(p, "")
  {
  }

  /** How an operator that can touch a word starts. */
  lemma OperatorByte(k: TokenKind)
    requires k !in {Word, LParen, ArithOpen, Eof}
    ensures Symbol(k) != ""
    ensures if IsRedir(k) then Symbol(k)[0] == '<' || Symbol(k)[0] == '>' else Symbol(k)[0] in "\n;&|)"
  {
  }

  lemma TouchingApart(p: Token, n: Token, after: string, depth: nat)
    requires Spelled(n, depth) && Touching(p, n) && after != "" && TokenText(n) != "" && after[0] == TokenText(n)[0]
    ensures Apart(p, after)
  {
    FirstByte(n, depth);
    hide LexedWord, Symbol;
    if p.kind == Word {
      OperatorByte(n.kind);
    }
  }

  lemma NextApart(ts: Toks, gs: seq<Gap>, depth: nat)
    requires |ts| > 1 && AllSpelled(ts, depth) && Fit(ts, gs)
    ensures Apart(ts[0], Layout(ts[1..], gs[1..]))
  {
    hide Spelled, TokenText, Apart, Within, Between, GapOk;
    var rest := Layout(ts[1..][1..], gs[1..][1..]);
    if |ts| == 2 {
      NoText(ts[1]);
    } else {
      assert Spelled(ts[1..][0], Within(ts[0], depth));
      NotEof(ts[1], Within(ts[0], depth));
    }
    FollowsApart(ts[0], ts[1], gs[1], rest, Within(ts[0], depth));
  }

  lemma NotEof(t: Token, depth: nat)
    requires Spelled(t, depth)
    ensures t.kind != Eof
  {
  }

  /** Main result, for every list of single words and operators in their own
      spelling, with any gaps that fit: lexing the text gives the list. */
  lemma {:induction false} LayoutLexes(ts: Toks, gs: seq<Gap>, pos: nat, depth: nat)
    requires AllSpelled(ts, depth) && Fit(ts, gs)
    ensures TokensOf(Lex(Layout(ts, gs), pos, depth)) == ts
    decreases |ts|
  {
    hide Lex, Spelled, TokenText, Apart, DepthAfter, Within, Layout, Fit, AllSpelled;
    LayoutTurn(ts, gs, depth);
    var t, rest := ts[0], ts[1..];
    var after := Layout(rest, gs[1..]);
    var start := pos + |gs[0].blanks| + |gs[0].comment|;
    GapSkipped(gs[0], TokenText(t) + after, pos, depth);
    if |ts| == 1 {
      LexEnd(start, depth);
    } else {
      LayoutLexes(rest, gs[1..], start + |TokenText(t)|, Within(t, depth));
      TokenFirst(t, after, start, depth);
      assert ts == [t] + rest;
    }
  }

  /** A token is lexed before what follows it. */
  lemma TokenFirst(t: Token, after: string, pos: nat, depth: nat)
    requires Spelled(t, depth) && Apart(t, after)
    ensures TokensOf(Lex(TokenText(t) + after, pos, depth))
         == [t] + TokensOf(Lex(after, pos + |TokenText(t)|, Within(t, depth)))
  {
    hide Lex, Spelled, TokenText, Apart, DepthAfter, Within;
    var end := pos + |TokenText(t)|;
    SpelledIsLexed(t, depth);
    HeadRelex(t, after, pos, depth, false);
    TokensCons(Lexeme(t, pos, end), Lex(after, end, Within(t, depth)));
  }

  /** The head of a layout, its gap ready to be skipped. */
  lemma LayoutTurn(ts: Toks, gs: seq<Gap>, depth: nat)
    requires AllSpelled(ts, depth) && Fit(ts, gs)
    ensures |gs| == |ts| > 0 && GapOk(gs[0])
    ensures var text := TokenText(ts[0]) + Layout(ts[1..], gs[1..]);
            && Layout(ts, gs) == gs[0].blanks + (gs[0].comment + text)
            && (gs[0].comment != "" ==> text == "" || text[0] == '\n')
            && (|ts| == 1 ==> ts == [EOF_TOKEN] && text == "")
    ensures |ts| > 1 ==> Spelled(ts[0], depth) && AllSpelled(ts[1..], Within(ts[0], depth)) && Fit(ts[1..], gs[1..])
                         && Apart(ts[0], Layout(ts[1..], gs[1..]))
  {
    hide TokenText, Apart, DepthAfter, Within, GapOk, Between, Spelled;
    StartsLine(ts, Layout(ts[1..], gs[1..]), depth, gs[0].comment);
    if |ts| == 1 {
      NoText(ts[0]);
    } else {
      NextApart(ts, gs, depth);
    }
  }

  lemma NoText(t: Token)
    requires t == EOF_TOKEN
    ensures TokenText(t) == ""
  {
  }

  /** A comment is followed by a newline or by nothing. */
  lemma StartsLine(ts: Toks, after: string, depth: nat, comment: string)
    requires AllSpelled(ts, depth) && (comment != "" ==> Head(ts) == Newline || Head(ts) == Eof)
    requires |ts| == 1 ==> after == ""
    ensures comment != "" ==> var r := TokenText(ts[0]) + after; r == "" || r[0] == '\n'
  {
    if |ts| > 1 && Head(ts) == Newline {
      assert ts[0].io == -1;
    }
  }

  // -------------------------------------------------------------- trees

  ghost predicate WordsOk(ws: seq<string>) {
    forall i :: 0 <= i < |ws| ==> LexedWord(ws[i], false)
  }

  ghost predicate TargetsOk(rs: seq<Redir>) {
    forall i :: 0 <= i < |rs| ==> rs[i].fd >= -1 && LexedWord(rs[i].target, false)
  }

  /** Every word and every redirection target is a single word. */
  ghost predicate Writable(a: Ast) {
    match a
    case Null => true
    case Cmd(c) => WordsOk(c.assigns) && WordsOk(c.argv) && TargetsOk(c.redirs)
    case Bin(_, l, r) => Writable(l) && Writable(r)
    case Grp(_, c, rs) => Writable(c) && TargetsOk(rs)
  }

  /** Tokens of a tree: no arithmetic among them. */
  ghost predicate Flat(ts: Toks) {
    forall i :: 0 <= i < |ts| ==> Spelled(ts[i], 0) && ts[i].kind != ArithOpen
  }

  lemma {:induction false} FlatWords(ws: seq<string>)
    requires WordsOk(ws)
    ensures Flat(WordToks(ws))
  {
    hide LexedWord;
    if ws != [] {
      FlatWords(ws[1..]);
    }
  }

  lemma {:induction false} FlatRedirs(rs: seq<Redir>)
    requires TargetsOk(rs) && RedirsOk(rs)
    ensures Flat(RedirToks(rs))
  {
    hide LexedWord, Flat;
    if rs == [] {
      FlatNone();
    } else {
      var two := [Token(rs[0].kind, Symbol(rs[0].kind), rs[0].fd), W(rs[0].target)];
      assert RedirOk(rs[0]);
      FlatTwo(rs[0]);
      FlatRedirs(rs[1..]);
      FlatAppend(two, RedirToks(rs[1..]));
    }
  }

  lemma FlatTwo(r: Redir)
    requires RedirOk(r) && r.fd >= -1 && LexedWord(r.target, false)
    ensures Flat([Token(r.kind, Symbol(r.kind), r.fd), W(r.target)])
  {
    hide LexedWord;
    RedirKinds(r.kind);
  }

  lemma FlatAppend(a: Toks, b: Toks)
    requires Flat(a) && Flat(b)
    ensures Flat(a + b)
  {
    hide Spelled;
  }

  lemma FlatOp(k: TokenKind)
    requires k !in {Word, Eof, ArithOpen, ArithClose}
    ensures Flat([Op(k)])
  {
  }

  lemma Braces()
    ensures Flat([W("{")]) && Flat([W("}")])
  {
    BraceLexed("{");
    BraceLexed("}");
  }

  lemma BraceLexed(w: string)
    requires w == "{" || w == "}"
    ensures LexedWord(w, false)
  {
    assert w[1..] == "";
    assert LexerSpec.Step(w, START) == (1, START);
  }

  lemma {:induction false} FlatNode(a: Ast)
    requires ElemOk(a, false) && Writable(a)
    ensures Flat(NodeToks(a))
    decreases a, 0
  {
    hide Flat, ListToks, ListOk, RedirToks, CommandToks, WordsOk, TargetsOk;
    match a {
      case Cmd(c) =>
        ElemIsNode(a);
        FlatCommand(c);
      case Grp(Background, c, _) =>
        BackgroundOk(a);
        FlatNode(c);
        FlatOp(Ampersand);
        FlatAppend(NodeToks(c), [Op(Ampersand)]);
      case Grp(k, c, rs) =>
        ElemIsNode(a);
        FlatList(c, k == Block);
        FlatRedirs(rs);
        FlatGroup(k, ListToks(c, k == Block), RedirToks(rs));
      case Bin(op, l, r) =>
        PartsOk(a);
        FlatNode(l);
        FlatNode(r);
        FlatOp(JointOf(op));
        FlatAppend([Op(JointOf(op))], NodeToks(r));
        FlatAppend(NodeToks(l), [Op(JointOf(op))] + NodeToks(r));
      case Null =>
    }
  }

  lemma FlatGroup(k: GroupKind, list: Toks, rs: Toks)
    requires Flat(list) && Flat(rs)
    ensures Flat([Op(LParen)] + (list + ([Op(RParen)] + rs))) && Flat([W("{")] + (list + ([W("}")] + rs)))
  {
    hide Flat;
    FlatOp(LParen);
    FlatOp(RParen);
    Braces();
    FlatAppend([Op(RParen)], rs);
    FlatAppend([W("}")], rs);
    FlatAppend(list, [Op(RParen)] + rs);
    FlatAppend(list, [W("}")] + rs);
    FlatAppend([Op(LParen)], list + ([Op(RParen)] + rs));
    FlatAppend([W("{")], list + ([W("}")] + rs));
  }

  lemma FlatCommand(c: Command)
    requires WordsOk(c.assigns) && WordsOk(c.argv) && TargetsOk(c.redirs) && RedirsOk(c.redirs)
    ensures Flat(CommandToks(c))
  {
    hide Flat, WordsOk, TargetsOk, RedirsOk, WordToks, RedirToks;
    FlatWords(c.assigns);
    FlatRedirs(c.redirs);
    FlatWords(c.argv);
    FlatAppend(RedirToks(c.redirs), WordToks(c.argv));
    FlatAppend(WordToks(c.assigns), RedirToks(c.redirs) + WordToks(c.argv));
  }

  lemma {:induction false} FlatList(a: Ast, close: bool)
    requires ListOk(a, false) && Writable(a)
    ensures Flat(ListToks(a, close))
    decreases a, 2
  {
    hide Flat, NodeToks, ElemOk;
    if a.Bin? && a.op == SeqOp {
      FlatElem(a.l, true);
      FlatList(a.r, close);
      FlatAppend(ElemToks(a.l, true), ListToks(a.r, close));
    } else {
      FlatElem(a, close);
      assert ListToks(a, close) == ElemToks(a, close);
    }
  }

  lemma {:induction false} FlatElem(a: Ast, close: bool)
    requires ElemOk(a, false) && Writable(a)
    ensures Flat(ElemToks(a, close))
    decreases a, 1
  {
    hide Flat, NodeToks, ElemOk;
    FlatNode(a);
    if !IsBackground(a) {
      FlatOp(Semicolon);
      var end := if close then [Op(Semicolon)] else [];
      assert Flat([]) by { FlatNone(); }
      FlatAppend(NodeToks(a), end);
    }
  }

  lemma FlatNone()
    ensures Flat([])
  {
  }

  lemma {:induction false} FlatIsSpelled(ts: Toks)
    requires Flat(ts)
    ensures AllSpelled(ts + [EOF_TOKEN], 0)
  {
    hide Spelled;
    var all := ts + [EOF_TOKEN];
    if ts == [] {
      assert all == [EOF_TOKEN];
    } else {
      assert all[0] == ts[0] && all[1..] == ts[1..] + [EOF_TOKEN];
      FlatIsSpelled(ts[1..]);
    }
  }

  /** Main result: any text that writes out a tree in normal form, with blanks
      and comments where they fit, is read as exactly that tree. */
  lemma TreeReads(a: Ast, gs: seq<Gap>)
    requires ListOk(a, false) && Writable(a) && Fit(Printed(a), gs)
    ensures Tokenized(Layout(Printed(a), gs)) == Printed(a)
    ensures Parse(Tokenized(Layout(Printed(a), gs))) == Some(a)
  {
    hide Lex, Parse, ListOk, Writable, ListToks, Fit, Layout, Flat, AllSpelled;
    FlatList(a, false);
    FlatIsSpelled(ListToks(a, false));
    LayoutLexes(Printed(a), gs, 0, 0);
    ParseComplete(a);
  }

  // ------------------------------------------------------- single spaces

  /** No blank before the first of `n` tokens and the last, which is EOF. */
  function Spaces(n: nat, head: string): seq<Gap> {
    if n == 0 then [] else [Gap(if n == 1 then "" else head, "")] + Spaces(n - 1, " ")
  }

  lemma {:induction false} SpacesFit(ts: Toks, depth: nat, head: string)
    requires AllSpelled(ts, depth) && (head == "" || head == " ")
    ensures Fit(ts, Spaces(|ts|, head))
    ensures Layout(ts, Spaces(|ts|, head)) == (if |ts| == 1 then "" else head) + Print(ts)
    decreases |ts|
  {
    hide Spelled, TokenText, Within, Fit, Layout;
    SpacesLength(|ts|, head);
    if |ts| == 1 {
      NoText(ts[0]);
      LayoutEnd(ts, Spaces(1, head));
    } else {
      var gs := Spaces(|ts| - 1, " ");
      SpacesFit(ts[1..], Within(ts[0], depth), " ");
      SpacesBetween(ts, gs);
      LayoutCons(ts, Gap(head, ""), gs);
    }
  }

  lemma LayoutEnd(ts: Toks, gs: seq<Gap>)
    requires ts == [EOF_TOKEN] && gs == [Gap("", "")]
    ensures Fit(ts, gs) && Layout(ts, gs) == ""
  {
  }

  lemma LayoutCons(ts: Toks, g: Gap, gs: seq<Gap>)
    requires |ts| > 1 && |gs| == |ts| - 1 && Fit(ts[1..], gs) && (g.blanks == "" || g.blanks == " ") && g.comment == ""
    requires Between(ts[0], gs[0], ts[1])
    ensures Fit(ts, [g] + gs) && Layout(ts, [g] + gs) == g.blanks + (TokenText(ts[0]) + Layout(ts[1..], gs))
  {
    hide TokenText, Between;
    assert ([g] + gs)[1..] == gs;
    assert "" + (TokenText(ts[0]) + Layout(ts[1..], gs)) == TokenText(ts[0]) + Layout(ts[1..], gs);
  }

  lemma {:induction false} SpacesLength(n: nat, head: string)
    ensures |Spaces(n, head)| == n
  {
    if n > 0 {
      SpacesLength(n - 1, " ");
    }
  }

  lemma SpacesBetween(ts: Toks, gs: seq<Gap>)
    requires |ts| > 1 && gs == Spaces(|ts| - 1, " ") && (|ts| == 2 ==> ts[1].kind == Eof)
    ensures gs != [] && Between(ts[0], gs[0], ts[1])
  {
    hide Touching;
  }

  /** So a tree printed with single spaces is read back as the tree. */
  lemma PrintReads(a: Ast)
    requires ListOk(a, false) && Writable(a)
    ensures Tokenized(Print(Printed(a))) == Printed(a)
    ensures Parse(Tokenized(Print(Printed(a)))) == Some(a)
  {
    hide Lex, Parse, ListOk, Writable, ListToks, Fit, Layout, Flat, AllSpelled, Print, Spaces;
    FlatList(a, false);
    FlatIsSpelled(ListToks(a, false));
    SpacesFit(Printed(a), 0, "");
    assert "" + Print(Printed(a)) == Print(Printed(a));
    TreeReads(a, Spaces(|Printed(a)|, ""));
  }

  /** `a && b` is a conjunction and `a || b` a disjunction. */
  lemma JointsRead()
    ensures var a, b := Cmd(Command(["a"], [], [])), Cmd(Command(["b"], [], []));
            && Parse(Tokenized("a && b")) == Some(Bin(AndOp, a, b))
            && Parse(Tokenized("a || b")) == Some(Bin(OrOp, a, b))
  {
    hide Lex, Parse, ListOk, Writable, Print, Printed;
    JointReads(AndOp);
    JointReads(OrOp);
    assert "a " + ("&&" + (" " + "b")) == "a && b" && "a " + ("||" + (" " + "b")) == "a || b";
  }

  function Joint(op: BinOp): Ast {
    Bin(op, Cmd(Command(["a"], [], [])), Cmd(Command(["b"], [], [])))
  }

  lemma JointReads(op: BinOp)
    requires op == AndOp || op == OrOp
    ensures Parse(Tokenized("a " + (Symbol(JointOf(op)) + (" " + "b")))) == Some(Joint(op))
  {
    hide Lex, Parse, ListOk, Writable, Print, Printed, Symbol;
    JointOk(op);
    JointPrints(op);
    PrintReads(Joint(op));
  }

  lemma JointOk(op: BinOp)
    requires op == AndOp || op == OrOp
    ensures ListOk(Joint(op), false) && Writable(Joint(op))
  {
    hide LexedWord, IsAssignment;
    LetterWord("a");
    LetterWord("b");
    assert CommandNodeOk(Joint(op).l, false) && CommandNodeOk(Joint(op).r, false);
    Widen(Joint(op).l, false);
    Widen(Joint(op).r, false);
    assert AndOrOk(Joint(op), false);
    Widen(Joint(op), false);
  }

  lemma JointPrints(op: BinOp)
    requires op == AndOp || op == OrOp
    ensures Print(Printed(Joint(op))) == "a " + (Symbol(JointOf(op)) + (" " + "b"))
  {
    hide Printed, Symbol, Print;
    var ts := Printed(Joint(op));
    JointToks(op);
    PrintThree(W("a"), Op(JointOf(op)), W("b"));
    assert TokenText(ts[0]) == "a" && TokenText(ts[1]) == Symbol(JointOf(op)) && TokenText(ts[2]) == "b";
    assert ("a" + " ") + (Symbol(JointOf(op)) + (" " + "b")) == "a " + (Symbol(JointOf(op)) + (" " + "b"));
  }

  lemma PrintThree(x: Token, y: Token, z: Token)
    ensures Print([x, y, z, EOF_TOKEN]) == (TokenText(x) + " ") + (TokenText(y) + (" " + TokenText(z)))
  {
    hide TokenText;
    assert [x, y, z, EOF_TOKEN][1..] == [y, z, EOF_TOKEN] && [y, z, EOF_TOKEN][1..] == [z, EOF_TOKEN];
    assert Print([z, EOF_TOKEN]) == TokenText(z);
    assert Print([y, z, EOF_TOKEN]) == TokenText(y) + " " + TokenText(z);
  }

  lemma JointToks(op: BinOp)
    requires op == AndOp || op == OrOp
    ensures Printed(Joint(op)) == [W("a"), Op(JointOf(op)), W("b"), EOF_TOKEN]
  {
    var a := Joint(op);
    assert CommandToks(a.l.cmd) == [W("a")] && CommandToks(a.r.cmd) == [W("b")];
    assert NodeToks(a.l) == [W("a")] && NodeToks(a.r) == [W("b")];
    assert NodeToks(a) == [W("a")] + ([Op(JointOf(op))] + [W("b")]);
    assert ListToks(a, false) == NodeToks(a) + [];
  }

  lemma LetterWord(w: string)
    requires w == "a" || w == "b"
    ensures LexedWord(w, false) && !IsAssignment(w)
  {
    assert w[1..] == "";
    assert LexerSpec.Step(w, START) == (1, START);
  }
}
