/** What a word expands to, read off the way it is written. */
module WordMeaning {
  import opened Ascii
  import opened Wrappers
  import opened ArithSpec
  import opened FieldSplitSpec
  import opened ExpanderSpec
  import opened SeqFacts
  import opened WordGrammar

  // ------------------------------------------------------------- the meaning

  /** Text with the mask that says whether it can be split. */
  function Marked(s: string, split: bool): Bytes {
    if s == "" then [] else [Cell(s[0], split)] + Marked(s[1..], split)
  }

  /** `\c`, inside double quotes or not. */
  function AfterBackslash(c: char, dq: bool): string {
    if c == '\n' then ""
    else if dq && c != '$' && c != '`' && c != '"' && c != '\\' then ['\\', c]
    else [c]
  }

  /** What is kept of a command's output, nothing if it could not be run. */
  function Kept(captured: Option<string>): string {
    if captured.Some? then StripNewlines(captured.value) else ""
  }

  /** Newlines at the end go, however many, and nothing else. */
  lemma {:induction false} NewlinesGo(t: string, nl: string)
    requires (forall i :: 0 <= i < |nl| ==> nl[i] == '\n') && (t == "" || t[|t| - 1] != '\n')
    ensures StripNewlines(t + nl) == t
  {
    if nl == "" {
      assert t + nl == t;
    } else {
      var s := t + nl;
      assert s[|s| - 1] == nl[|nl| - 1] && s[..|s| - 1] == t + nl[..|nl| - 1];
      NewlinesGo(t, nl[..|nl| - 1]);
    }
  }

  function Join(a: Bytes, r: (Option<Bytes>, State)): (Option<Bytes>, State) {
    (if r.0.None? then None else Some(a + r.0.value), r.1)
  }

  /** The bytes of a word, None when an arithmetic expansion in it has no value,
      and the state after its command substitutions. Quoted text and text after
      a backslash cannot be split; unquoted bytes and what unquoted expansions
      give can. */
  function Meaning(env: Env, w: Word, dq: bool, st: State): (Option<Bytes>, State) {
    match w
    case Done => (Some([]), st)
    case Plain(c, r) => Join([Cell(c, !dq)], Meaning(env, r, dq, st))
    case Escaped(c, r) => Join(Marked(AfterBackslash(c, dq), false), Meaning(env, r, dq, st))
    case Literal(s, r) => Join(Marked(s, false), Meaning(env, r, dq, st))
    case Var(n, _, r) =>
      Join(Marked(if n in env.vars then env.vars[n] else "", !dq), Meaning(env, r, dq, st))
    case Special(c, _, r) =>
      var text := if c == '?' then Lltoa(st.status) else if c == '$' then Lltoa(env.pid) else "42sh";
      Join(Marked(text, !dq), Meaning(env, r, dq, st))
    case Lone(r) => Join([Cell('$', !dq)], Meaning(env, r, dq, st))
    case Output(t, r) =>
      var (captured, status) := env.run(Source(t), st);
      Join(Marked(Kept(captured), !dq), Meaning(env, r, dq, State(status, st.runs + 1)))
    case Result(e, r) =>
      var (b, s) := Meaning(env, e, false, st);
      if b.None? || Eval(Text(b.value)).None? then (None, s)
      else Join(Marked(Lltoa(Eval(Text(b.value)).value), !dq), Meaning(env, r, dq, s))
    case Quoted(i, r) =>
      var (b, s) := Meaning(env, i, true, st);
      if b.None? then (None, s) else Join(b.value, Meaning(env, r, dq, s))
  }

  lemma {:induction false} MarkedIsCells(s: string, split: bool)
    ensures Marked(s, split) == Cells(s, split)
  {
    if s != "" {
      MarkedIsCells(s[1..], split);
    }
  }

  // ------------------------------------------------ what `$` starts, by form

  /** `${name}` writes the variable's value, splittable unless in double quotes,
      and nothing when it has none; what follows is left. */
  lemma BracedValue(env: Env, name: string, t: string, dq: bool, st: State)
    requires '}' !in name && name != "?" && name != "$" && name != "0"
    ensures Dollar(env, "${" + (name + ("}" + t)), dq, st)
         == Piece(true, Marked(if name in env.vars then env.vars[name] else "", !dq), t, st)
  {
    hide IndexOfChar, NameLen, Arithmetic, Cmdsub;
    var s := "${" + (name + ("}" + t));
    var body := name + ("}" + t);
    BraceEnds(name, t);
    assert s[2..] == body && body[..|name|] == name && body[|name| + 1..] == t;
    assert |name| == 1 ==> name == [body[0]];
    MarkedIsCells(if name in env.vars then env.vars[name] else "", !dq);
  }

  lemma {:induction false} BraceEnds(name: string, t: string)
    requires '}' !in name
    ensures IndexOfChar(name + ("}" + t), '}') == |name|
  {
    var body := name + ("}" + t);
    if name == "" {
      assert body == "}" + t;
    } else {
      assert body[1..] == name[1..] + ("}" + t);
      BraceEnds(name[1..], t);
    }
  }

  /** The text of `$?`, `$$` and `$0`. */
  function SpecialText(env: Env, c: char, st: State): string {
    if c == '?' then Lltoa(st.status) else if c == '$' then Lltoa(env.pid) else "42sh"
  }

  lemma BracedSpecial(env: Env, c: char, t: string, dq: bool, st: State)
    requires c in "?$0"
    ensures Dollar(env, "${" + ([c] + ("}" + t)), dq, st) == Piece(true, Marked(SpecialText(env, c, st), !dq), t, st)
  {
    var s := "${" + ([c] + ("}" + t));
    var body := [c] + ("}" + t);
    BraceEnds([c], t);
    assert s[2..] == body && body[2..] == t;
    MarkedIsCells(SpecialText(env, c, st), !dq);
  }

  lemma NamedValue(env: Env, name: string, t: string, dq: bool, st: State)
    requires IsIdentifier(name) && (t == "" || !IsNameChar(t[0]))
    ensures Dollar(env, "$" + (name + t), dq, st)
         == Piece(true, Marked(if name in env.vars then env.vars[name] else "", !dq), t, st)
  {
    hide NameLen, Arithmetic, Cmdsub, Braced;
    var s := "$" + (name + t);
    assert s[1..] == name + t && At(s, 1) == name[0];
    NameRuns(name, t);
    assert s[1..1 + |name|] == name && s[1 + |name|..] == t;
    MarkedIsCells(if name in env.vars then env.vars[name] else "", !dq);
  }

  lemma NamedSpecial(env: Env, c: char, t: string, dq: bool, st: State)
    requires c in "?$0"
    ensures Dollar(env, ['$', c] + t, dq, st) == Piece(true, Marked(SpecialText(env, c, st), !dq), t, st)
  {
    Drop2('$', c, t);
    MarkedIsCells(SpecialText(env, c, st), !dq);
  }

  lemma LoneDollar(env: Env, t: string, dq: bool, st: State)
    requires AfterLone(t)
    ensures Dollar(env, "$" + t, dq, st) == Piece(true, [Cell('$', !dq)], t, st)
  {
    Drop1('$', t);
    assert At("$" + t, 1) == At(t, 0);
  }

  /** A closed script ends at the parenthesis after it. */
  lemma {:induction false} SubstitutionEnds(t: Script, r: string, depth: nat)
    requires TextOk(t) && depth > 0
    ensures FindClose(Source(t) + r, depth, false, false) == Shift(|Source(t)|, FindClose(r, depth, false, false))
    decreases t
  {
    hide FindClose, Shift, Source;
    var n := FindClose(r, depth, false, false);
    ScriptShape(t, r);
    SourceLength(t);
    match t {
      case End => ShiftNone(n);
      case Byte(c, u) =>
        CloseByte(c, Source(u) + r, depth, false, false);
        SubstitutionEnds(u, r, depth);
        ShiftTwice(1, |Source(u)|, n);
      case Escape(c, u) =>
        CloseEscape(c, Source(u) + r, depth, false);
        SubstitutionEnds(u, r, depth);
        ShiftTwice(2, |Source(u)|, n);
      case Single(s, u) =>
        CloseQuote('\'', s + ("'" + Source(u)) + r, depth, false, false);
        CloseSingle(s, ("'" + Source(u)) + r, depth);
        CloseQuote('\'', Source(u) + r, depth, true, false);
        SubstitutionEnds(u, r, depth);
        CloseBetween("'", s, "'", Source(u), r, n);
      case Double(d, u) =>
        CloseQuote('"', DqText(d) + ("\"" + Source(u)) + r, depth, false, false);
        CloseDq(d, ("\"" + Source(u)) + r, depth);
        CloseQuote('"', Source(u) + r, depth, false, true);
        SubstitutionEnds(u, r, depth);
        CloseBetween("\"", DqText(d), "\"", Source(u), r, n);
      case Paren(i, u) =>
        CloseParen('(', Source(i) + ([')'] + (Source(u) + r)), depth);
        SubstitutionEnds(i, [')'] + (Source(u) + r), depth + 1);
        CloseParen(')', Source(u) + r, depth + 1);
        SubstitutionEnds(u, r, depth);
        CloseBetween("(", Source(i), ")", Source(u), r, n);
    }
  }

  lemma SourceLength(t: Script)
    ensures |Source(t)| ==
      match t
      case End => 0
      case Byte(_, u) => 1 + |Source(u)|
      case Escape(_, u) => 2 + |Source(u)|
      case Single(s, u) => |"'" + (s + ("'" + Source(u)))|
      case Double(d, u) => |"\"" + (DqText(d) + ("\"" + Source(u)))|
      case Paren(i, u) => |"(" + (Source(i) + (")" + Source(u)))|
  {
  }

  /** A position found `k` bytes further on. */
  function Shift(k: nat, n: Option<nat>): Option<nat> {
    if n.None? then None else Some(k + n.value)
  }

  lemma ShiftNone(n: Option<nat>)
    ensures Shift(0, n) == n
  {
  }

  lemma ShiftTwice(a: nat, b: nat, n: Option<nat>)
    ensures Shift(a, Shift(b, n)) == Shift(a + b, n)
  {
  }

  lemma CloseBetween(a: string, b: string, c: string, d: string, r: string, n: Option<nat>)
    ensures a + (b + (c + d)) + r == a + (b + (c + d) + r) && b + (c + d) + r == b + ((c + d) + r)
    ensures (c + d) + r == c + (d + r)
    ensures Shift(|a|, Shift(|b|, Shift(|c|, Shift(|d|, n)))) == Shift(|a + (b + (c + d))|, n)
  {
  }

  lemma CloseByte(c: char, r: string, depth: nat, sq: bool, dq: bool)
    requires depth > 0
    requires if sq then c != '\'' else c != '"' && c != '\\' && (dq || (c != '\'' && c != '(' && c != ')'))
    ensures FindClose([c] + r, depth, sq, dq) == Shift(1, FindClose(r, depth, sq, dq))
  {
    Drop1(c, r);
  }

  lemma CloseEscape(c: char, r: string, depth: nat, dq: bool)
    requires depth > 0
    ensures FindClose(['\\', c] + r, depth, false, dq) == Shift(2, FindClose(r, depth, false, dq))
  {
    Drop2('\\', c, r);
  }

  lemma CloseQuote(c: char, r: string, depth: nat, sq: bool, dq: bool)
    requires depth > 0 && ((c == '\'' && !dq) || (c == '"' && !sq))
    ensures FindClose([c] + r, depth, sq, dq)
         == Shift(1, FindClose(r, depth, if c == '\'' then !sq else sq, if c == '"' then !dq else dq))
  {
    Drop1(c, r);
  }

  lemma CloseParen(c: char, r: string, depth: nat)
    requires (c == '(' && depth > 0) || (c == ')' && depth > 1)
    ensures FindClose([c] + r, depth, false, false)
         == Shift(1, FindClose(r, if c == '(' then depth + 1 else depth - 1, false, false))
  {
    Drop1(c, r);
  }

  lemma {:induction false} CloseSingle(s: string, r: string, depth: nat)
    requires '\'' !in s && depth > 0
    ensures FindClose(s + r, depth, true, false) == Shift(|s|, FindClose(r, depth, true, false))
  {
    hide FindClose;
    if s == "" {
      assert s + r == r;
    } else {
      assert s + r == [s[0]] + (s[1..] + r);
      CloseByte(s[0], s[1..] + r, depth, true, false);
      CloseSingle(s[1..], r, depth);
    }
  }

  lemma {:induction false} CloseDq(d: Dq, r: string, depth: nat)
    requires DqOk(d) && depth > 0
    ensures FindClose(DqText(d) + r, depth, false, true) == Shift(|DqText(d)|, FindClose(r, depth, false, true))
    decreases d
  {
    hide FindClose, Shift;
    var n := FindClose(r, depth, false, true);
    match d {
      case DEnd =>
        assert DqText(d) + r == r;
        ShiftNone(n);
      case DByte(c, u) =>
        assert DqText(d) + r == [c] + (DqText(u) + r);
        CloseByte(c, DqText(u) + r, depth, false, true);
        CloseDq(u, r, depth);
        ShiftTwice(1, |DqText(u)|, n);
      case DEscape(c, u) =>
        assert DqText(d) + r == ['\\', c] + (DqText(u) + r);
        CloseEscape(c, DqText(u) + r, depth, true);
        CloseDq(u, r, depth);
        ShiftTwice(2, |DqText(u)|, n);
      case DParen(i, u) =>
        CloseByte('(', DqText(i) + (")" + DqText(u)) + r, depth, false, true);
        CloseDq(i, (")" + DqText(u)) + r, depth);
        CloseByte(')', DqText(u) + r, depth, false, true);
        CloseDq(u, r, depth);
        CloseBetween("(", DqText(i), ")", DqText(u), r, n);
    }
  }

  /** `$(script)` runs the script once and writes its output, splittable unless
      in double quotes; the status left behind is the script's. */
  lemma OutputWritten(env: Env, t: Script, r: string, dq: bool, st: State)
    requires TextOk(t) && !t.Paren?
    ensures var (captured, status) := env.run(Source(t), st);
            var out := Kept(captured);
            Dollar(env, "$(" + (Source(t) + (")" + r)), dq, st)
              == Piece(true, Marked(out, !dq), r, State(status, st.runs + 1))
  {
    hide FindClose, Source, TextOk;
    var body := Source(t) + (")" + r);
    var s := "$(" + body;
    ScriptFound(t, r);
    assert s[2..] == body;
    ScriptStart(t, r);
    assert At(s, 2) == At(body, 0);
    MarkedIsCells(Kept(env.run(Source(t), st).0), !dq);
    assert Marked("", !dq) == [];
  }

  lemma ScriptFound(t: Script, r: string)
    requires TextOk(t)
    ensures var body := Source(t) + (")" + r);
            && FindClose(body, 1, false, false) == Some(|Source(t)|)
            && body[..|Source(t)|] == Source(t) && body[|Source(t)| + 1..] == r
  {
    hide Source, TextOk;
    SubstitutionEnds(t, ")" + r, 1);
    assert (")" + r)[0] == ')' && (")" + r)[1..] == r;
    assert FindClose(")" + r, 1, false, false) == Some(0);
  }

  lemma ScriptStart(t: Script, r: string)
    requires TextOk(t) && !t.Paren?
    ensures At(Source(t) + (")" + r), 0) != '('
  {
    if t.End? {
      assert Source(t) + (")" + r) == ")" + r;
    } else {
      assert (Source(t) + (")" + r))[0] == Source(t)[0];
    }
  }

  /** Pairs of parentheses inside do not end an arithmetic expansion. */
  lemma {:induction false} PairsSkipped(a: Sum, r: string, depth: nat)
    requires SumOk(a, At(r, 0)) && depth > 0
    ensures FindArith(SumText(a) + r, depth) == Shift(|SumText(a)|, FindArith(r, depth))
    decreases a
  {
    hide FindArith, Shift, SumOk;
    SumParts(a, At(r, 0));
    match a {
      case SumEnd =>
        assert SumText(a) + r == r;
        ShiftNone(FindArith(r, depth));
      case SumByte(c, t) =>
        Assoc([c], SumText(t), r);
        FirstByte(SumText(t), r);
        ArithByte(c, SumText(t) + r, depth);
        PairsSkipped(t, r, depth);
        ShiftTwice(1, |SumText(t)|, FindArith(r, depth));
      case SumPair(i, t) =>
        var rest := ("))" + SumText(t)) + r;
        ArithPair('(', SumText(i) + ("))" + SumText(t)) + r, depth);
        PairsSkipped(i, rest, depth + 1);
        ArithPair(')', SumText(t) + r, depth + 1);
        PairsSkipped(t, r, depth);
        CloseBetween("((", SumText(i), "))", SumText(t), r, FindArith(r, depth));
    }
  }

  lemma SumParts(a: Sum, next: char)
    requires SumOk(a, next)
    ensures a.SumByte? ==> SumOk(a.rest, next)
    ensures a.SumByte? && (a.c == '(' || a.c == ')') ==>
      a.c != if SumText(a.rest) == "" then next else SumText(a.rest)[0]
    ensures a.SumPair? ==> SumOk(a.inner, ')') && SumOk(a.rest, next)
  {
  }

  lemma FirstByte(a: string, r: string)
    ensures At(a + r, 0) == if a == "" then At(r, 0) else a[0]
  {
    if a == "" {
      assert a + r == r;
    }
  }

  lemma ArithByte(c: char, r: string, depth: nat)
    requires depth > 0 && (c == '(' || c == ')' ==> At(r, 0) != c)
    ensures FindArith([c] + r, depth) == Shift(1, FindArith(r, depth))
  {
    var s := [c] + r;
    assert s[1..] == r && At(s, 1) == At(r, 0);
  }

  lemma ArithPair(c: char, r: string, depth: nat)
    requires depth > 0 && (c == '(' || c == ')')
    ensures FindArith([c, c] + r, depth) == Shift(2, FindArith(r, if c == '(' then depth + 1 else depth - 1))
  {
    Drop2(c, c, r);
  }

  lemma ArithEnds(e: string, r: string)
    requires Paired(e)
    ensures FindArith(e + ("))" + r), 1) == Some(|e| + 2)
  {
    hide FindArith, SumOk, SumText;
    var a :| SumText(a) == e && SumOk(a, ')');
    var t := [')', ')'] + r;
    assert t == "))" + r && At(t, 0) == ')';
    PairsSkipped(a, t, 1);
    ArithPair(')', r, 1);
    NoneOpenEnds(r);
    ShiftTwice(|e|, 2, Some(0));
  }

  lemma NoneOpenEnds(r: string)
    ensures FindArith(r, 0) == Some(0)
  {
  }

  /** `$((text))` expands the text as a word, evaluates it and writes the value
      in decimal; it fails when there is none. */
  lemma ResultWritten(env: Env, e: string, r: string, dq: bool, st: State)
    requires Paired(e)
    ensures var w := ExpandWord(env, e, true, NONE, st);
            var p := Dollar(env, "$((" + (e + ("))" + r)), dq, st);
            if !w.ok || Eval(Text(w.out)).None? then !p.ok && p.st == w.st
            else p == Piece(true, Marked(Lltoa(Eval(Text(w.out)).value), !dq), r, w.st)
  {
    hide ExpandWord, Eval, Paired;
    var body := e + ("))" + r);
    var s := "$((" + body;
    ArithEnds(e, r);
    assert s[3..] == body && body[..|e|] == e && body[|e| + 2..] == r;
    var w := ExpandWord(env, e, true, NONE, st);
    if w.ok && Eval(Text(w.out)).Some? {
      MarkedIsCells(Lltoa(Eval(Text(w.out)).value), !dq);
    }
  }

  // ---------------------------------------------------------- a whole word

  function Prepend(b: Bytes, p: Piece): Piece {
    Piece(p.ok, b + p.out, p.rest, p.st)
  }

  lemma PrependTwice(a: Bytes, b: Bytes, p: Piece)
    ensures Prepend(a, Prepend(b, p)) == Prepend(a + b, p) && Prepend([], p) == p
  {
  }

  /** The expansion goes on after a step that succeeds. */
  lemma Turn(env: Env, s: string, first: bool, q: Quotes, st: State, a: Piece, q': Quotes)
    requires s != "" && WordStep(env, s, first, q, st) == (a, q') && a.ok
    ensures ExpandWord(env, s, first, q, st) == Prepend(a.out, ExpandWord(env, a.rest, false, q', a.st))
  {
    hide WordStep;
  }

  lemma PlainStep(env: Env, c: char, r: string, first: bool, q: Quotes, st: State)
    requires if q.sq then c != '\'' && !q.dq else c !in "\"\\$" && (q.dq || (c != '\'' && (first ==> c != '~')))
    ensures ExpandWord(env, [c] + r, first, q, st)
         == Prepend([Cell(c, !q.sq && !q.dq)], ExpandWord(env, r, false, q, st))
  {
    hide Dollar, Tilde, ExpandWord;
    Drop1(c, r);
    Turn(env, [c] + r, first, q, st, Piece(true, [Cell(c, !q.sq && !q.dq)], r, st), q);
  }

  lemma QuoteTurn(env: Env, c: char, r: string, first: bool, q: Quotes, st: State)
    requires (c == '\'' && !q.dq) || (c == '"' && !q.sq)
    ensures ExpandWord(env, [c] + r, first, q, st)
         == ExpandWord(env, r, false, if c == '\'' then q.(sq := !q.sq) else q.(dq := !q.dq), st)
  {
    hide Dollar, Tilde, ExpandWord;
    Drop1(c, r);
    var q' := if c == '\'' then q.(sq := !q.sq) else q.(dq := !q.dq);
    Turn(env, [c] + r, first, q, st, Piece(true, [], r, st), q');
    PrependTwice([], [], ExpandWord(env, r, false, q', st));
  }

  lemma {:induction false} SingleQuoted(env: Env, s: string, r: string, st: State)
    requires '\'' !in s
    ensures var q := Quotes(true, false);
            ExpandWord(env, s + r, false, q, st) == Prepend(Marked(s, false), ExpandWord(env, r, false, q, st))
  {
    hide ExpandWord;
    var q := Quotes(true, false);
    if s == "" {
      assert s + r == r;
      PrependTwice([], [], ExpandWord(env, r, false, q, st));
    } else {
      assert s + r == [s[0]] + (s[1..] + r);
      PlainStep(env, s[0], s[1..] + r, false, q, st);
      SingleQuoted(env, s[1..], r, st);
      PrependTwice([Cell(s[0], false)], Marked(s[1..], false), ExpandWord(env, r, false, q, st));
    }
  }

  /** A backslash, outside single quotes. */
  lemma BackslashTurn(env: Env, c: char, r: string, first: bool, dq: bool, st: State)
    ensures var q := Quotes(false, dq);
            ExpandWord(env, ['\\', c] + r, first, q, st)
              == Prepend(Marked(AfterBackslash(c, dq), false), ExpandWord(env, r, false, q, st))
  {
    hide Dollar, Tilde, ExpandWord, Marked;
    var q, s := Quotes(false, dq), ['\\', c] + r;
    Drop2('\\', c, r);
    MarkedIsCells(AfterBackslash(c, dq), false);
    if c != '\n' && dq && !DqEscapable(c) {
      Turn(env, s, first, q, st, Piece(true, [Cell('\\', false)], [c] + r, st), q);
      PlainStep(env, c, r, false, q, st);
      PrependTwice([Cell('\\', false)], [Cell(c, false)], ExpandWord(env, r, false, q, st));
      assert Cells(['\\', c], false) == [Cell('\\', false)] + [Cell(c, false)];
    } else if c == '\n' {
      assert Cells("", false) == [];
      Turn(env, s, first, q, st, Piece(true, [], r, st), q);
    } else {
      assert Cells([c], false) == [Cell(c, false)];
      Turn(env, s, first, q, st, Piece(true, [Cell(c, false)], r, st), q);
    }
  }

  /** What `$` starts, when it can be expanded. */
  lemma DollarTurn(env: Env, s: string, first: bool, dq: bool, st: State)
    requires At(s, 0) == '$'
    ensures var q := Quotes(false, dq);
            var a := Dollar(env, s, dq, st);
            ExpandWord(env, s, first, q, st)
              == if a.ok then Prepend(a.out, ExpandWord(env, a.rest, false, q, a.st)) else a
  {
    hide Dollar, Tilde;
  }

  lemma ValueTurn(env: Env, name: string, braces: bool, r: string, first: bool, dq: bool, st: State)
    requires IsIdentifier(name) && (braces || r == "" || !IsNameChar(r[0]))
    ensures var q := Quotes(false, dq);
            ExpandWord(env, (if braces then "${" + (name + "}") else "$" + name) + r, first, q, st)
              == Prepend(Marked(if name in env.vars then env.vars[name] else "", !dq), ExpandWord(env, r, false, q, st))
  {
    hide ExpandWord, Dollar, Marked;
    var s := (if braces then "${" + (name + "}") else "$" + name) + r;
    if braces {
      NameHasNoBrace(name);
      BracedValue(env, name, r, dq, st);
      assert s == "${" + (name + ("}" + r));
    } else {
      NamedValue(env, name, r, dq, st);
      assert s == "$" + (name + r);
    }
    DollarTurn(env, s, first, dq, st);
  }

  lemma NameHasNoBrace(name: string)
    requires IsIdentifier(name)
    ensures '}' !in name && name != "?" && name != "$" && name != "0"
  {
  }

  lemma SpecialTurn(env: Env, c: char, braces: bool, r: string, first: bool, dq: bool, st: State)
    requires c in "?$0"
    ensures var q := Quotes(false, dq);
            ExpandWord(env, (if braces then "${" + ([c] + "}") else ['$', c]) + r, first, q, st)
              == Prepend(Marked(SpecialText(env, c, st), !dq), ExpandWord(env, r, false, q, st))
  {
    hide ExpandWord, Dollar, Marked, SpecialText;
    var s := (if braces then "${" + ([c] + "}") else ['$', c]) + r;
    if braces {
      BracedSpecial(env, c, r, dq, st);
      assert s == "${" + ([c] + ("}" + r));
    } else {
      NamedSpecial(env, c, r, dq, st);
    }
    DollarTurn(env, s, first, dq, st);
  }

  lemma LoneTurn(env: Env, r: string, first: bool, dq: bool, st: State)
    requires AfterLone(r)
    ensures var q := Quotes(false, dq);
            ExpandWord(env, "$" + r, first, q, st) == Prepend([Cell('$', !dq)], ExpandWord(env, r, false, q, st))
  {
    hide ExpandWord, Dollar;
    LoneDollar(env, r, dq, st);
    DollarTurn(env, "$" + r, first, dq, st);
  }

  lemma OutputTurn(env: Env, t: Script, r: string, first: bool, dq: bool, st: State)
    requires TextOk(t) && !t.Paren?
    ensures var q := Quotes(false, dq);
            var (captured, status) := env.run(Source(t), st);
            var out := Kept(captured);
            ExpandWord(env, "$(" + (Source(t) + ")") + r, first, q, st)
              == Prepend(Marked(out, !dq), ExpandWord(env, r, false, q, State(status, st.runs + 1)))
  {
    hide ExpandWord, Dollar, Marked;
    OutputWritten(env, t, r, dq, st);
    assert "$(" + (Source(t) + ")") + r == "$(" + (Source(t) + (")" + r));
    DollarTurn(env, "$(" + (Source(t) + ")") + r, first, dq, st);
  }

  lemma ResultTurn(env: Env, e: string, r: string, first: bool, dq: bool, st: State)
    requires Paired(e)
    ensures var q := Quotes(false, dq);
            var w := ExpandWord(env, e, true, NONE, st);
            var p := ExpandWord(env, "$((" + (e + "))") + r, first, q, st);
            if !w.ok || Eval(Text(w.out)).None? then !p.ok && p.st == w.st
            else p == Prepend(Marked(Lltoa(Eval(Text(w.out)).value), !dq), ExpandWord(env, r, false, q, w.st))
  {
    hide ExpandWord, Dollar, Marked, Eval;
    ResultWritten(env, e, r, dq, st);
    assert "$((" + (e + "))") + r == "$((" + (e + ("))" + r));
    DollarTurn(env, "$((" + (e + "))") + r, first, dq, st);
  }

  /** `p` is the meaning `m`, followed by what the rest `r` of the word gives. */
  ghost predicate Gives(env: Env, p: Piece, m: (Option<Bytes>, State), r: string, first: bool, dq: bool) {
    if m.0.None? then !p.ok && p.st == m.1
    else p == Prepend(m.0.value, ExpandWord(env, r, first, Quotes(false, dq), m.1))
  }

  /** One part and the meaning of the parts after it. */
  lemma GivesJoin(env: Env, p: Piece, a: Bytes, b: Piece, m: (Option<Bytes>, State), r: string, dq: bool)
    requires p == Prepend(a, b) && Gives(env, b, m, r, false, dq)
    ensures Gives(env, p, Join(a, m), r, false, dq)
  {
    hide ExpandWord;
    if m.0.Some? {
      PrependTwice(a, m.0.value, ExpandWord(env, r, false, Quotes(false, dq), m.1));
    }
  }
}
