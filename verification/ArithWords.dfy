/** Arithmetic expansions from the tokens of their text to their value. */
module ArithWords {
  import opened Ascii
  import opened Decimal
  import opened Wrappers
  import opened Tokens
  import opened Syntax
  import opened SeqFacts
  import opened ParserSpec
  import opened ParserRoundTrip
  import opened WordGrammar
  import opened Assignments
  import A = ArithSpec
  import L = LexerSpec
  import N = LexerNormalForm
  import X = ExpanderSpec
  import F = FieldSplitSpec
  import M = WordMeaning
  import E = WordExpansion
  import G = WordLexing
  import T = TextTokens

  // ------------------------------------------------------ the text rebuilt

  /** The texts of the tokens, a space between two unless the first ends with an
      opening parenthesis. */
  function Spaced(ts: Toks): string {
    if ts == [] then ""
    else if |ts| == 1 then ts[0].value
    else ts[0].value + ((if EndsOpen(ts[0].value) then "" else " ") + Spaced(ts[1..]))
  }

  predicate EndsOpen(s: string) {
    s != "" && s[|s| - 1] == '('
  }

  /** What stands after the first token. */
  function Gap(ts: Toks): string
    requires ts != []
  {
    if |ts| == 1 || EndsOpen(ts[0].value) then "" else " "
  }

  /** Tokens inside an arithmetic expansion. */
  predicate Inner(ts: Toks) {
    forall i :: 0 <= i < |ts| ==> ts[i].kind != ArithClose && ts[i].kind != Eof && ts[i].value != ""
  }

  lemma {:induction false} TextRebuilt(ts: Toks, buf: string, rest: Toks)
    requires Inner(ts) && EndsOpen(buf) && Head(rest) == ArithClose
    ensures ArithText(ts + rest, buf) == (buf + (Spaced(ts) + "))"), rest[1..], false)
    decreases |ts|
  {
    if ts == [] {
      assert ts + rest == rest && "" + "))" == "))";
    } else {
      assert (ts + rest)[0] == ts[0] && (ts + rest)[1..] == ts[1..] + rest;
      var buf' := buf + "" + ts[0].value;
      TextGoesOn(ts, buf', rest);
      assert buf' == buf + ts[0].value;
      Assoc(buf, ts[0].value, Gap(ts) + (Spaced(ts[1..]) + "))"));
      SpacedCons(ts);
    }
  }

  lemma SpacedCons(ts: Toks)
    requires ts != []
    ensures Spaced(ts) + "))"
         == ts[0].value + (Gap(ts) + (Spaced(ts[1..]) + "))"))
  {
    if |ts| == 1 {
      assert "" + ("" + "))") == "))";
    } else {
      var gap := if EndsOpen(ts[0].value) then "" else " ";
      Assoc(ts[0].value, gap + Spaced(ts[1..]), "))");
      Assoc(gap, Spaced(ts[1..]), "))");
    }
  }

  /** After the first token. */
  lemma {:induction false} TextGoesOn(ts: Toks, buf: string, rest: Toks)
    requires ts != [] && Inner(ts) && Head(rest) == ArithClose
    requires buf != "" && buf[|buf| - 1] == ts[0].value[|ts[0].value| - 1]
    ensures ArithText(ts[1..] + rest, buf)
         == (buf + (Gap(ts) + (Spaced(ts[1..]) + "))")), rest[1..], false)
    decreases |ts|
  {
    hide Spaced;
    var us := ts[1..];
    if us == [] {
      NothingSpaced();
      assert us + rest == rest && "" + ("" + "))") == "))";
    } else {
      var gap := if EndsOpen(ts[0].value) then "" else " ";
      assert (us + rest)[0] == us[0] && (us + rest)[1..] == us[1..] + rest;
      TextGoesOn(us, buf + gap + us[0].value, rest);
      SpacedCons(us);
      FourParts(buf, gap, us[0].value, Gap(us) + (Spaced(us[1..]) + "))"));
    }
  }

  lemma NothingSpaced()
    ensures Spaced([]) == ""
  {
  }

  lemma FourParts(a: string, b: string, c: string, d: string)
    ensures a + b + c + d == a + (b + (c + d))
  {
  }

  /** Main result, for any tokens in it: the argument a command gets for an
      arithmetic expansion is their text between `$((` and `))`. */
  lemma ArgumentBuilt(name: string, ts: Toks)
    requires Inner(ts) && !AssignsAny(name) && name != "{" && name != "}"
    ensures Parse([W(name), Op(ArithOpen)] + (ts + [Op(ArithClose), EOF_TOKEN]))
         == Some(Cmd(Command([name, "$((" + (Spaced(ts) + "))")], [], [])))
  {
    hide Parse, Spaced, ArithText, AssignsAny, IsAssignment;
    var rest := [Op(ArithClose), EOF_TOKEN];
    var all := [W(name), Op(ArithOpen)] + (ts + rest);
    var arg := "$((" + (Spaced(ts) + "))");
    AssignmentExactly(name);
    Drop2(W(name), Op(ArithOpen), ts + rest);
    assert all[1..][1..] == ts + rest && rest[1..] == [EOF_TOKEN];
    TextRebuilt(ts, "$((", rest);
    NoCommandAfter(Command([name, arg], [], []));
    assert [name] + [arg] == [name, arg];
    var c := Cmd(Command([name, arg], [], []));
    assert BuildCommand(all[1..], Command([name], [], [])) == Parsed(c, [EOF_TOKEN], false);
    assert [] + [name] == [name];
    assert BuildCommand(all, Command([], [], [])) == Parsed(c, [EOF_TOKEN], false);
    CommandIs(all, c);
  }

  lemma NoCommandAfter(c: Command)
    ensures BuildCommand([EOF_TOKEN], c) == Parsed(Cmd(c), [EOF_TOKEN], false)
  {
  }

  /** A simple command and nothing after it. */
  lemma CommandIs(ts: Toks, a: Ast)
    requires Head(ts) == Word && !IsAssignment(ts[0].value) && ts[0].value != "{"
    requires a != Null && BuildCommand(ts, Command([], [], [])) == Parsed(a, [EOF_TOKEN], false)
    ensures Parse(ts) == Some(a)
  {
    hide BuildCommand, CountArgs, IsAssignment;
    assert ParserSpec.Assignments(ts, []) == ([], ts, false);
    assert CountArgs(ts) > 0 by { Counted(ts); }
    assert SkipNewlines(ts) == ts && SkipNewlines([EOF_TOKEN]) == [EOF_TOKEN];
    assert SimpleCommand(ts) == Parsed(a, [EOF_TOKEN], false);
    assert AnyCommand(ts) == Parsed(a, [EOF_TOKEN], false);
    hide SimpleCommand, AnyCommand, ParserSpec.Assignments;
    Alone(ts, a);
  }

  lemma Counted(ts: Toks)
    requires Head(ts) == Word
    ensures CountArgs(ts) > 0
  {
  }

  lemma Alone(ts: Toks, a: Ast)
    requires AnyCommand(ts) == Parsed(a, [EOF_TOKEN], false) && a != Null && Head(ts) == Word
    ensures Parse(ts) == Some(a)
  {
    hide AnyCommand;
    assert Pipeline(ts) == Parsed(a, [EOF_TOKEN], false);
    assert AndOr(ts) == Parsed(a, [EOF_TOKEN], false);
    assert SkipNewlines([EOF_TOKEN]) == [EOF_TOKEN] && SkipNewlines(ts) == ts;
    assert CommandList(ts) == Parsed(a, [EOF_TOKEN], false);
  }

  // ------------------------------------------------------- plain text as a word

  function Bytes(s: string): Word {
    if s == "" then Done else Plain(s[0], Bytes(s[1..]))
  }

  /** No byte with a meaning to expansion. */
  predicate PlainText(s: string) {
    (forall i :: 0 <= i < |s| ==> s[i] !in "\"\\$'") && At(s, 0) != '~'
  }

  lemma {:induction false} BytesWord(s: string, dq: bool)
    requires forall i :: 0 <= i < |s| ==> s[i] !in "\"\\$'"
    ensures WordText(Bytes(s)) == s && WordOk(Bytes(s), dq) && !E.WordQuotes(Bytes(s))
    ensures (forall i :: 0 <= i < |s| ==> WordByte(s[i])) ==> WordLexes(Bytes(s), dq)
  {
    hide WordByte;
    if s != "" {
      BytesWord(s[1..], dq);
    }
  }

  lemma {:induction false} BytesMean(env: X.Env, s: string, st: X.State)
    ensures M.Meaning(env, Bytes(s), false, st) == (Some(M.Marked(s, true)), st)
  {
    if s != "" {
      BytesMean(env, s[1..], st);
    }
  }

  lemma MarkedText(s: string, split: bool)
    ensures F.Text(M.Marked(s, split)) == s
  {
    M.MarkedIsCells(s, split);
  }

  // ------------------------------------------------------------ the value

  function Ifs(env: X.Env): Option<string> {
    if "IFS" in env.vars then Some(env.vars["IFS"]) else None
  }

  /** `$((e))` comes to the value of `e` in decimal: one field in double quotes,
      split like any unquoted expansion outside. */
  lemma ValueWritten(env: X.Env, e: string, st: X.State)
    requires PlainText(e) && NoPairs(e)
    ensures var v := A.Eval(e);
            X.WordFields(env, "$((" + (e + "))"), st)
              == if v.None? then (None, st)
                 else (Some(F.FieldSplit(Ifs(env), M.Marked(A.Lltoa(v.value), true))), st)
    ensures var v := A.Eval(e);
            X.WordFields(env, "\"" + ("$((" + (e + "))") + "\""), st)
              == if v.None? then (None, st) else (Some([A.Lltoa(v.value)]), st)
  {
    hide X.WordFields, F.FieldSplit, A.Eval, A.Lltoa, NoPairs, M.Marked;
    var bare := Result(Bytes(e), Done);
    ResultWord(e);
    E.FieldsMean(env, bare, st);
    E.FieldsMean(env, Quoted(bare, Done), st);
    ResultMeaning(env, e, false, st);
    ResultMeaning(env, e, true, st);
    QuotedMeaning(env, e, st);
    if A.Eval(e).Some? {
      M.MarkedIsCells(A.Lltoa(A.Eval(e).value), false);
      E.CellsWhole(Ifs(env), A.Lltoa(A.Eval(e).value));
      NumeralsAreNotEmpty(A.Eval(e).value);
    }
  }

  lemma NumeralsAreNotEmpty(n: int)
    ensures A.Lltoa(n) != ""
  {
  }

  lemma ResultWord(e: string)
    requires PlainText(e) && NoPairs(e)
    ensures var bare := Result(Bytes(e), Done);
            && WordText(bare) == "$((" + (e + "))") && WordOk(bare, false) && WordOk(bare, true) && !E.WordQuotes(bare)
            && WordText(Quoted(bare, Done)) == "\"" + ("$((" + (e + "))") + "\"") && WordOk(Quoted(bare, Done), false)
  {
    hide NoPairs, Paired, WordOk, E.WordQuotes, PlainText;
    SinglesPaired(e);
    PlainWord(e);
    ResultParts(Bytes(e), e);
  }

  lemma PlainWord(e: string)
    requires PlainText(e)
    ensures WordText(Bytes(e)) == e && WordOk(Bytes(e), false) && !E.WordQuotes(Bytes(e)) && At(e, 0) != '~'
  {
    BytesWord(e, false);
  }

  lemma ResultParts(w: Word, e: string)
    requires WordText(w) == e && WordOk(w, false) && !E.WordQuotes(w) && At(e, 0) != '~' && Paired(e)
    ensures var bare := Result(w, Done);
            && WordText(bare) == "$((" + (e + "))") && WordOk(bare, false) && WordOk(bare, true) && !E.WordQuotes(bare)
            && WordText(Quoted(bare, Done)) == "\"" + ("$((" + (e + "))") + "\"") && WordOk(Quoted(bare, Done), false)
  {
    hide Paired;
    assert WordText(Done) == "";
    assert "))" + "" == "))" && "\"" + "" == "\"";
  }

  lemma ResultMeaning(env: X.Env, e: string, dq: bool, st: X.State)
    ensures var v := A.Eval(e);
            M.Meaning(env, Result(Bytes(e), Done), dq, st)
              == (if v.None? then None else Some(M.Marked(A.Lltoa(v.value), !dq)), st)
  {
    hide A.Eval, A.Lltoa, M.Marked;
    BytesMean(env, e, st);
    MarkedText(e, true);
    var v := A.Eval(e);
    if v.Some? {
      E.JoinNothing(M.Marked(A.Lltoa(v.value), !dq), st);
    }
  }

  lemma QuotedMeaning(env: X.Env, e: string, st: X.State)
    ensures var v := A.Eval(e);
            M.Meaning(env, Quoted(Result(Bytes(e), Done), Done), false, st)
              == (if v.None? then None else Some(M.Marked(A.Lltoa(v.value), false)), st)
  {
    hide A.Eval, A.Lltoa, M.Marked;
    ResultMeaning(env, e, true, st);
    var v := A.Eval(e);
    if v.Some? {
      E.JoinNothing(M.Marked(A.Lltoa(v.value), false), st);
    }
  }

  // -------------------------------------------------- a parenthesis at the end

  /** Opening parentheses less closing ones. */
  function Open(s: string): int {
    if s == "" then 0 else (if s[0] == '(' then 1 else if s[0] == ')' then -1 else 0) + Open(s[1..])
  }

  lemma {:induction false} OpenAppend(a: string, b: string)
    ensures Open(a + b) == Open(a) + Open(b)
  {
    if a == "" {
      assert a + b == b;
    } else {
      assert (a + b)[1..] == a[1..] + b;
      OpenAppend(a[1..], b);
    }
  }

  lemma {:induction false} NoneOpen(s: string)
    requires forall i :: 0 <= i < |s| ==> s[i] != '(' && s[i] != ')'
    ensures Open(s) == 0
  {
    if s != "" {
      NoneOpen(s[1..]);
    }
  }

  lemma {:induction false} FacBalanced(f: A.Fac)
    requires A.FacOk(f)
    ensures Open(A.FacText(f)) == 0
    decreases f
  {
    hide Open;
    NoneOpen(f.pre);
    NoneOpen(if f.neg then "-" else "");
    OpenAppend(f.pre, if f.neg then "-" else "");
    match f {
      case Num(_, _, ds) =>
        NoneOpen(ds);
        OpenAppend(f.pre + (if f.neg then "-" else ""), ds);
      case Par(_, _, e, post) =>
        ExpBalanced(e);
        GroupBalanced(A.ExpText(e), post);
        OpenAppend(f.pre + (if f.neg then "-" else ""), "(" + (A.ExpText(e) + (post + ")")));
    }
  }

  lemma GroupBalanced(e: string, post: string)
    requires Open(e) == 0 && A.Blank(post)
    ensures Open("(" + (e + (post + ")"))) == 0
  {
    assert Open("(") == 1 && Open(")") == -1 by {
      assert "("[1..] == "" && ")"[1..] == "";
    }
    hide Open;
    NoneOpen(post);
    OpenAppend(post, ")");
    OpenAppend(e, post + ")");
    OpenAppend("(", e + (post + ")"));
  }

  lemma JoinBalanced(a: string, mid: string, op: char, b: string)
    requires Open(a) == 0 && Open(b) == 0 && A.Blank(mid) && op != '(' && op != ')'
    ensures Open(a + (mid + ([op] + b))) == 0
  {
    hide Open;
    NoneOpen(mid);
    NoneOpen([op]);
    OpenAppend([op], b);
    OpenAppend(mid, [op] + b);
    OpenAppend(a, mid + ([op] + b));
  }

  lemma {:induction false} TerBalanced(t: A.Ter)
    requires A.TerOk(t)
    ensures Open(A.TerText(t)) == 0
    decreases t
  {
    hide Open;
    match t {
      case One(f) => FacBalanced(f);
      case Mul(l, mid, op, r) =>
        TerBalanced(l);
        FacBalanced(r);
        JoinBalanced(A.TerText(l), mid, op, A.FacText(r));
    }
  }

  lemma {:induction false} ExpBalanced(e: A.Exp)
    requires A.ExpOk(e)
    ensures Open(A.ExpText(e)) == 0
    decreases e
  {
    hide Open;
    match e {
      case Uni(t) => TerBalanced(t);
      case Add(l, mid, op, r) =>
        ExpBalanced(l);
        TerBalanced(r);
        JoinBalanced(A.ExpText(l), mid, op, A.TerText(r));
    }
  }

  /** Whatever has a value has its parentheses in pairs. */
  lemma ValuesBalanced(s: string, v: int)
    requires A.Eval(s) == Some(v)
    ensures Open(s) == 0
  {
    hide A.Eval, A.ExpText, A.ExpOk, Open, A.Blank;
    A.EvalCorrect(s, v);
    var e, w :| A.Reads(s, e, w) && A.ExpVal(e) == Some(v);
    ReadsBalanced(s, e, w);
  }

  lemma ReadsBalanced(s: string, e: A.Exp, w: string)
    requires A.Reads(s, e, w)
    ensures Open(s) == 0
  {
    hide A.ExpText, A.ExpOk, Open;
    ExpBalanced(e);
    NoneOpen(w);
    OpenAppend(A.ExpText(e), w);
  }

  /** Bytes of expressions. */
  predicate SumByte(c: char) {
    IsSpace(c) || IsDigit(c) || c == '(' || c == ')' || A.IsAddOp(c) || A.IsMulOp(c)
  }

  predicate SumBytes(s: string) {
    forall i :: 0 <= i < |s| ==> SumByte(s[i])
  }

  lemma BytesAppend(a: string, b: string)
    requires SumBytes(a) && SumBytes(b)
    ensures SumBytes(a + b)
  {
    hide SumByte;
  }

  lemma PieceBytes(s: string)
    requires A.Blank(s) || AllDigits(s) || s == "-" || s == "(" || s == ")"
    ensures SumBytes(s)
  {
  }

  lemma {:induction false} FacBytes(f: A.Fac)
    requires A.FacOk(f)
    ensures SumBytes(A.FacText(f))
    decreases f
  {
    hide SumBytes;
    var sign := if f.neg then "-" else "";
    PieceBytes(f.pre);
    PieceBytes(sign) by { assert A.Blank(""); }
    BytesAppend(f.pre, sign);
    match f {
      case Num(_, _, ds) =>
        PieceBytes(ds);
        BytesAppend(f.pre + sign, ds);
      case Par(_, _, e, post) =>
        ExpBytes(e);
        PieceBytes(post);
        PieceBytes("(");
        PieceBytes(")");
        BytesAppend(post, ")");
        BytesAppend(A.ExpText(e), post + ")");
        BytesAppend("(", A.ExpText(e) + (post + ")"));
        BytesAppend(f.pre + sign, "(" + (A.ExpText(e) + (post + ")")));
    }
  }

  lemma JoinBytes(a: string, mid: string, op: char, b: string)
    requires SumBytes(a) && SumBytes(b) && A.Blank(mid) && (A.IsAddOp(op) || A.IsMulOp(op))
    ensures SumBytes(a + (mid + ([op] + b)))
  {
    PieceBytes(mid);
  }

  lemma {:induction false} TerBytes(t: A.Ter)
    requires A.TerOk(t)
    ensures SumBytes(A.TerText(t))
    decreases t
  {
    hide SumBytes;
    match t {
      case One(f) => FacBytes(f);
      case Mul(l, mid, op, r) =>
        TerBytes(l);
        FacBytes(r);
        JoinBytes(A.TerText(l), mid, op, A.FacText(r));
    }
  }

  lemma {:induction false} ExpBytes(e: A.Exp)
    requires A.ExpOk(e)
    ensures SumBytes(A.ExpText(e))
    decreases e
  {
    hide SumBytes;
    match e {
      case Uni(t) => TerBytes(t);
      case Add(l, mid, op, r) =>
        ExpBytes(l);
        TerBytes(r);
        JoinBytes(A.ExpText(l), mid, op, A.TerText(r));
    }
  }

  /** Whatever has a value has no byte with another meaning. */
  lemma ValuesPlain(s: string, v: int)
    requires A.Eval(s) == Some(v)
    ensures PlainText(s)
  {
    hide A.Eval, A.ExpText, A.ExpOk, A.Blank, SumBytes;
    A.EvalCorrect(s, v);
    var e, w :| A.Reads(s, e, w) && A.ExpVal(e) == Some(v);
    ReadsBytes(s, e, w);
    BytesPlain(s);
  }

  lemma ReadsBytes(s: string, e: A.Exp, w: string)
    requires A.Reads(s, e, w)
    ensures SumBytes(s)
  {
    hide A.ExpText, A.ExpOk, SumBytes;
    ExpBytes(e);
    PieceBytes(w);
    BytesAppend(A.ExpText(e), w);
  }

  lemma BytesPlain(s: string)
    requires SumBytes(s)
    ensures PlainText(s)
  {
  }

  /** No two equal parentheses in a row. */
  predicate NoTwo(s: string) {
    forall i :: 0 <= i < |s| - 1 ==> s[i] == s[i + 1] ==> s[i] != '(' && s[i] != ')'
  }

  /** Main result: an expression with a value `v`, without two equal parentheses
      in a row, expands to it between `$((` and `))` exactly when its last byte
      is no parenthesis: a closing one would be taken for the end. */
  lemma ExpressionExactly(env: X.Env, e: string, v: int, st: X.State)
    requires A.Eval(e) == Some(v) && NoTwo(e)
    ensures e != ""
    ensures X.WordFields(env, "\"" + ("$((" + (e + "))") + "\""), st) == (Some([A.Lltoa(v)]), st) <==> e[|e| - 1] != ')'
  {
    hide A.Eval, X.WordFields, PlainText, Open;
    NotEmpty(e, v);
    ValuesPlain(e, v);
    if e[|e| - 1] != ')' {
      assert NoPairs(e);
      ValueWritten(env, e, st);
    } else {
      var d := e[..|e| - 1];
      assert e == d + ")";
      EndsEarly(env, d, v, st);
    }
  }

  lemma NotEmpty(e: string, v: int)
    requires A.Eval(e) == Some(v)
    ensures e != ""
  {
    hide A.Eval;
    NothingHasNone();
  }

  lemma NothingHasNone()
    ensures A.Eval("") == None
  {
    assert A.SkipSpaces("") == "";
    assert A.Factor("") == A.Parse(0, "", true);
    assert A.Term("") == A.Parse(0, "", true);
    assert A.Expr("") == A.Parse(0, "", true);
  }

  lemma EndsEarly(env: X.Env, d: string, v: int, st: X.State)
    requires A.Eval(d + ")") == Some(v) && PlainText(d + ")") && NoTwo(d + ")")
    ensures X.WordFields(env, "\"" + ("$((" + (d + ")" + "))") + "\""), st).0 == None
  {
    hide A.Eval;
    DropLast(d);
    ValuesBalanced(d + ")", v);
    OpenAppend(d, ")");
    assert ")"[1..] == "" && Open(")") == -1;
    if A.Eval(d).Some? {
      ValuesBalanced(d, A.Eval(d).value);
      assert false;
    }
    QuotedFails(env, d, st);
  }

  lemma DropLast(d: string)
    requires PlainText(d + ")") && NoTwo(d + ")")
    ensures PlainText(d) && NoPairs(d)
  {
    var e := d + ")";
    assert forall i :: 0 <= i < |d| ==> e[i] == d[i];
    assert d != "" ==> e[|d|] == ')';
  }

  /** The text up to the first `))` has no value. */
  lemma QuotedFails(env: X.Env, d: string, st: X.State)
    requires PlainText(d) && NoPairs(d) && A.Eval(d).None?
    ensures X.WordFields(env, "\"" + ("$((" + (d + ")" + "))") + "\""), st).0 == None
  {
    hide A.Eval, X.ExpandWord, NoPairs, Paired, PlainText, X.Dollar;
    SinglesPaired(d);
    var q := X.Quotes(false, true);
    var r := ")\"";
    var s := "$((" + (d + "))") + r;
    var word := "\"" + ("$((" + (d + ")" + "))") + "\"");
    assert word == "\"" + s;
    M.QuoteTurn(env, '"', s, true, X.NONE, st);
    M.ResultTurn(env, d, r, false, true, st);
    BytesAlone(env, d, st);
  }

  lemma BytesAlone(env: X.Env, d: string, st: X.State)
    requires PlainText(d)
    ensures var w := X.ExpandWord(env, d, true, X.NONE, st); w.ok && F.Text(w.out) == d
  {
    hide X.ExpandWord;
    BytesWord(d, false);
    E.InnerMeans(env, Bytes(d), st);
    BytesMean(env, d, st);
    MarkedText(d, true);
  }

  // ------------------------------------------------------- from text to value

  /** Single words of a sum: operators, numbers, names of nothing. */
  predicate SumWord(w: string) {
    w != "" && w[0] != '#' && forall i :: 0 <= i < |w| ==> WordByte(w[i]) && w[i] !in "\"\\$'"
  }

  predicate SumWords(ws: seq<string>) {
    forall i :: 0 <= i < |ws| ==> SumWord(ws[i])
  }

  function Joined(ws: seq<string>): string {
    if ws == [] then "" else if |ws| == 1 then ws[0] else ws[0] + (" " + Joined(ws[1..]))
  }

  lemma SumWordLexed(w: string)
    requires SumWord(w)
    ensures N.LexedWord(w, false)
  {
    hide WordByte, N.LexedWord;
    BytesWord(w, false);
    G.WordLexed(Bytes(w));
  }

  lemma {:induction false} SumTokens(ws: seq<string>)
    requires SumWords(ws)
    ensures Inner(WordToks(ws)) && Spaced(WordToks(ws)) == Joined(ws) && |WordToks(ws)| == |ws|
  {
    hide SumWord;
    if ws != [] {
      assert SumWord(ws[0]);
      NoOpenEnd(ws[0]);
      SumTokens(ws[1..]);
    }
  }

  lemma {:induction false} SumSpelled(ws: seq<string>)
    requires SumWords(ws)
    ensures T.AllSpelled(WordToks(ws) + [Op(ArithClose), EOF_TOKEN], 1)
  {
    hide SumWord, N.LexedWord;
    var rest := [Op(ArithClose), EOF_TOKEN];
    if ws == [] {
      assert WordToks(ws) + rest == rest && rest[1..] == [EOF_TOKEN];
    } else {
      assert SumWord(ws[0]);
      SumWordLexed(ws[0]);
      SumSpelled(ws[1..]);
      SpelledCons(ws[0], WordToks(ws[1..]) + rest);
      Assoc([W(ws[0])], WordToks(ws[1..]), rest);
    }
  }

  lemma SpelledCons(w: string, rest: Toks)
    requires N.LexedWord(w, false) && rest != [] && T.AllSpelled(rest, 1)
    ensures T.AllSpelled([W(w)] + rest, 1)
  {
    hide N.LexedWord;
    Drop1(W(w), rest);
  }

  lemma NoOpenEnd(w: string)
    requires SumWord(w)
    ensures !EndsOpen(w) && w != ""
  {
  }

  lemma {:induction false} JoinedPlain(ws: seq<string>)
    requires SumWords(ws)
    ensures forall i :: 0 <= i < |Joined(ws)| ==> Joined(ws)[i] !in "\"\\$'()"
    ensures ws != [] ==> Joined(ws) != "" && Joined(ws)[0] == ws[0][0]
  {
    if |ws| == 1 {
      assert SumWord(ws[0]);
    } else if ws != [] {
      assert SumWord(ws[0]);
      JoinedPlain(ws[1..]);
    }
  }

  /** Main result, from text to value: a command line `name $(( ... ))`, with any
      words between and any blanks, gives the command an argument that comes to
      the value of the words, joined by single spaces, in decimal. */
  lemma SumRead(env: X.Env, name: string, ws: seq<string>, gs: seq<T.Gap>, st: X.State)
    requires SumWords(ws) && ws != [] && ws[0][0] != '~'
    requires SumWord(name) && !AssignsAny(name) && name != "{" && name != "}"
    requires var ts := [W(name), Op(ArithOpen)] + (WordToks(ws) + [Op(ArithClose), EOF_TOKEN]); T.Fit(ts, gs)
    ensures var ts := [W(name), Op(ArithOpen)] + (WordToks(ws) + [Op(ArithClose), EOF_TOKEN]);
            var arg := "$((" + (Joined(ws) + "))");
            var v := A.Eval(Joined(ws));
            && Parse(L.Tokenized(T.Layout(ts, gs))) == Some(Cmd(Command([name, arg], [], [])))
            && X.WordFields(env, arg, st)
               == if v.None? then (None, st)
                  else (Some(F.FieldSplit(Ifs(env), M.Marked(A.Lltoa(v.value), true))), st)
  {
    hide Parse, L.Lex, T.Layout, T.Fit, A.Eval, X.WordFields, Joined, SumWords, AssignsAny, F.FieldSplit, A.Lltoa,
         SumWord, M.Marked, WordToks;
    var inner := WordToks(ws);
    var rest := inner + [Op(ArithClose), EOF_TOKEN];
    var ts := [W(name), Op(ArithOpen)] + rest;
    SumTokens(ws);
    SumSpelled(ws);
    SumWordLexed(name);
    FirstTwo(name, rest);
    T.LayoutLexes(ts, gs, 0, 0);
    ArgumentBuilt(name, inner);
    JoinedPlain(ws);
    ValueWritten(env, Joined(ws), st);
  }

  lemma FirstTwo(name: string, rest: Toks)
    requires N.LexedWord(name, false) && T.AllSpelled(rest, 1) && rest != []
    ensures T.AllSpelled([W(name), Op(ArithOpen)] + rest, 0)
  {
    hide N.LexedWord;
    var ts := [W(name), Op(ArithOpen)] + rest;
    Drop2(W(name), Op(ArithOpen), rest);
    Drop1(Op(ArithOpen), rest);
    assert T.Spelled(W(name), 0) && T.Spelled(Op(ArithOpen), 0);
    assert T.AllSpelled(ts[1..], 0);
  }

  /** A printed tree without two equal parentheses in a row expands to the value
      of the tree exactly when its text does not end with a parenthesis. */
  lemma PrintedExactly(env: X.Env, t: A.Tree, st: X.State)
    requires A.TreeOk(t) && A.TreeVal(t).Some? && NoTwo(A.Show(t))
    ensures A.Show(t) != ""
    ensures var word := "\"" + ("$((" + (A.Show(t) + "))") + "\"");
            X.WordFields(env, word, st) == (Some([A.Lltoa(A.TreeVal(t).value)]), st)
            <==> A.Show(t)[|A.Show(t)| - 1] != ')'
  {
    hide A.Eval, X.WordFields, A.Show, A.TreeVal, NoTwo;
    A.EvalShow(t);
    NotEmpty(A.Show(t), A.TreeVal(t).value);
    ExpressionExactly(env, A.Show(t), A.TreeVal(t).value, st);
  }
}
