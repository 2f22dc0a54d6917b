/** Every well-formed word expands to its meaning, alone and on a command line. */
module WordExpansion {
  import opened Ascii
  import opened Wrappers
  import opened Tokens
  import opened Syntax
  import opened FieldSplitSpec
  import opened ArithSpec
  import opened ExpanderSpec
  import opened SeqFacts
  import opened WordGrammar
  import opened WordMeaning
  import opened WordLexing
  import LexerSpec
  import LexerNormalForm
  import ParserSpec
  import R = ParserRoundTrip
  import T = TextTokens
  import AliasSpec
  import AliasCommands
  import Assignments

  lemma Nothing(env: Env, first: bool, q: Quotes, st: State)
    ensures ExpandWord(env, "", first, q, st) == Piece(true, [], "", st)
  {
  }

  /** What follows a word where it stands: the closing quote, or its end. */
  predicate Follows(r: string, dq: bool) {
    if dq then r != "" && r[0] == '"' else r == ""
  }

  /** Main result: in any state a well-formed word expands to its meaning; it
      fails exactly when it has none. */
  lemma {:induction false} WordMeans(env: Env, w: Word, first: bool, dq: bool, st: State, r: string)
    requires WordOk(w, dq) && Follows(r, dq)
    requires first ==> !w.Done? && (dq || At(WordText(w), 0) != '~')
    ensures Gives(env, ExpandWord(env, WordText(w) + r, first, Quotes(false, dq), st), Meaning(env, w, dq, st), r,
                  false, dq)
    decreases w, 1
  {
    hide ExpandWord, Gives, Marked, Paired, Follows;
    var q := Quotes(false, dq);
    if w.Done? {
      assert WordText(w) + r == r;
      GivesNothing(env, r, dq, st);
    } else {
      var t := WordText(w.rest) + r;
      PartAndRest(w);
      Assoc(Part(w), WordText(w.rest), r);
      if w.Result? {
        ResultMeans(env, w, first, dq, st, r);
      } else if w.Quoted? {
        QuotedMeans(env, w, first, st);
        assert r == "" by { NoneFollows(r); }
        assert Part(w) + WordText(w.rest) + r == Part(w) + WordText(w.rest);
      } else {
        var a := PartBytes(env, w, dq, st);
        var s := if w.Output? then State(env.run(Source(w.t), st).1, st.runs + 1) else st;
        PartTurn(env, w, first, dq, st, r);
        WordMeans(env, w.rest, false, dq, s, r);
        var p := ExpandWord(env, Part(w) + t, first, q, st);
        GivesJoin(env, p, a, ExpandWord(env, t, false, q, s), Meaning(env, w.rest, dq, s), r, dq);
        assert Meaning(env, w, dq, st) == Join(a, Meaning(env, w.rest, dq, s));
      }
    }
  }

  lemma NoneFollows(r: string)
    requires Follows(r, false)
    ensures r == ""
  {
  }

  lemma GivesNothing(env: Env, r: string, dq: bool, st: State)
    ensures Gives(env, ExpandWord(env, r, false, Quotes(false, dq), st), (Some([]), st), r, false, dq)
  {
    hide ExpandWord;
    PrependTwice([], [], ExpandWord(env, r, false, Quotes(false, dq), st));
  }

  /** The bytes of a part that holds no other word. */
  function PartBytes(env: Env, w: Word, dq: bool, st: State): Bytes
    requires !w.Done? && !w.Result? && !w.Quoted?
  {
    match w
    case Plain(c, _) => [Cell(c, !dq)]
    case Escaped(c, _) => Marked(AfterBackslash(c, dq), false)
    case Literal(s, _) => Marked(s, false)
    case Var(n, _, _) => Marked(if n in env.vars then env.vars[n] else "", !dq)
    case Special(c, _, _) => Marked(SpecialText(env, c, st), !dq)
    case Lone(_) => [Cell('$', !dq)]
    case Output(t, _) =>
      Marked(Kept(env.run(Source(t), st).0), !dq)
  }

  lemma PartTurn(env: Env, w: Word, first: bool, dq: bool, st: State, r: string)
    requires WordOk(w, dq) && Follows(r, dq) && !w.Done? && !w.Result? && !w.Quoted?
    requires first ==> dq || At(WordText(w), 0) != '~'
    ensures var q := Quotes(false, dq);
            var t := WordText(w.rest) + r;
            var s := if w.Output? then State(env.run(Source(w.t), st).1, st.runs + 1) else st;
            ExpandWord(env, Part(w) + t, first, q, st)
              == Prepend(PartBytes(env, w, dq, st), ExpandWord(env, t, false, q, s))
  {
    hide ExpandWord, Marked, Prepend, IsIdentifier, SpecialText;
    var t := WordText(w.rest) + r;
    HeadOf(WordText(w.rest), r);
    match w {
      case Plain(c, _) => PlainStep(env, c, t, first, Quotes(false, dq), st);
      case Escaped(c, _) => BackslashTurn(env, c, t, first, dq, st);
      case Literal(s, _) => LiteralTurn(env, s, t, first, st);
      case Var(n, braces, _) => ValueTurn(env, n, braces, t, first, dq, st);
      case Special(c, braces, _) => SpecialTurn(env, c, braces, t, first, dq, st);
      case Lone(_) => LoneTurn(env, t, first, dq, st);
      case Output(x, _) => OutputTurn(env, x, t, first, dq, st);
    }
  }

  lemma HeadOf(a: string, r: string)
    ensures a != "" ==> a + r != "" && (a + r)[0] == a[0]
    ensures a == "" ==> a + r == r
  {
  }

  lemma LiteralTurn(env: Env, s: string, r: string, first: bool, st: State)
    requires '\'' !in s
    ensures ExpandWord(env, "'" + (s + "'") + r, first, NONE, st)
         == Prepend(Marked(s, false), ExpandWord(env, r, false, NONE, st))
  {
    hide ExpandWord, Marked, Prepend;
    assert "'" + (s + "'") + r == "'" + (s + ("'" + r));
    QuoteTurn(env, '\'', s + ("'" + r), first, NONE, st);
    SingleQuoted(env, s, "'" + r, st);
    QuoteTurn(env, '\'', r, false, Quotes(true, false), st);
  }

  lemma ResultMeans(env: Env, w: Word, first: bool, dq: bool, st: State, r: string)
    requires w.Result? && WordOk(w, dq) && Follows(r, dq)
    ensures Gives(env, ExpandWord(env, Part(w) + (WordText(w.rest) + r), first, Quotes(false, dq), st),
                  Meaning(env, w, dq, st), r, false, dq)
    decreases w, 0
  {
    hide ExpandWord, Marked, Paired, WordText, Eval;
    var q, t, e := Quotes(false, dq), WordText(w.rest) + r, w.e;
    var v := ExpandWord(env, WordText(e), true, NONE, st);
    var (b, s) := Meaning(env, e, false, st);
    InnerMeans(env, e, st);
    ResultTurn(env, WordText(e), t, first, dq, st);
    if b.Some? && Eval(Text(b.value)).Some? {
      var a := Marked(Lltoa(Eval(Text(b.value)).value), !dq);
      WordMeans(env, w.rest, false, dq, s, r);
      GivesJoin(env, ExpandWord(env, Part(w) + t, first, q, st), a, ExpandWord(env, t, false, q, s),
                Meaning(env, w.rest, dq, s), r, dq);
    }
  }

  /** The text of an arithmetic expansion, expanded alone. */
  lemma InnerMeans(env: Env, e: Word, st: State)
    requires WordOk(e, false) && At(WordText(e), 0) != '~'
    ensures var w := ExpandWord(env, WordText(e), true, NONE, st);
            var (b, s) := Meaning(env, e, false, st);
            w.st == s && if b.None? then !w.ok else w.ok && w.out == b.value
    decreases e, 2
  {
    hide ExpandWord, Meaning;
    if e.Done? {
      Nothing(env, true, NONE, st);
      assert Meaning(env, e, false, st) == (Some([]), st) by { NothingMeant(env, st); }
    } else {
      assert WordText(e) + "" == WordText(e);
      WordMeans(env, e, true, false, st, "");
      var (b, s) := Meaning(env, e, false, st);
      Nothing(env, false, NONE, s);
      if b.Some? {
        assert b.value + [] == b.value;
      }
    }
  }

  lemma NothingMeant(env: Env, st: State)
    ensures Meaning(env, Done, false, st) == (Some([]), st)
  {
  }

  lemma QuotedMeans(env: Env, w: Word, first: bool, st: State)
    requires w.Quoted? && WordOk(w, false)
    ensures Gives(env, ExpandWord(env, Part(w) + WordText(w.rest), first, NONE, st), Meaning(env, w, false, st), "",
                  false, false)
    decreases w, 0
  {
    hide ExpandWord, Marked, Paired, WordText;
    var i, t := w.inner, WordText(w.rest);
    var r := "\"" + t;
    var (b, s) := Meaning(env, i, true, st);
    assert Part(w) + t == "\"" + (WordText(i) + r);
    QuoteTurn(env, '"', WordText(i) + r, first, NONE, st);
    WordMeans(env, i, false, true, st, r);
    if b.Some? {
      QuoteTurn(env, '"', t, false, Quotes(false, true), s);
      assert t + "" == t;
      WordMeans(env, w.rest, false, false, s, "");
      GivesJoin(env, ExpandWord(env, Part(w) + t, first, NONE, st), b.value, ExpandWord(env, t, false, NONE, s),
                Meaning(env, w.rest, false, s), "", false);
    }
  }

  // --------------------------------------------------------------- a tilde

  /** The directory a leading `~` or `~user` names, itself when there is none. */
  function Home(env: Env, user: string): string {
    if user == "" then
      if "HOME" in env.vars then env.vars["HOME"] else if env.ownHome.Some? then env.ownHome.value else "~"
    else if user in env.homes then env.homes[user]
    else "~" + user
  }

  /** A leading `~user` is replaced up to the first slash, and cannot be split. */
  lemma TildeMeans(env: Env, user: string, w: Word, st: State)
    requires '/' !in user && WordOk(w, false) && (WordText(w) == "" || WordText(w)[0] == '/')
    ensures Gives(env, ExpandWord(env, "~" + (user + WordText(w)), true, NONE, st),
                  Join(Marked(Home(env, user), false), Meaning(env, w, false, st)), "", false, false)
  {
    hide ExpandWord, WordText, Meaning, Marked, Tilde, Home;
    var t := WordText(w);
    TildeStep(env, user, t, st);
    var s := "~" + (user + t);
    assert s[0] == '~';
    Turn(env, s, true, NONE, st, Piece(true, Marked(Home(env, user), false), t, st), NONE);
    assert t + "" == t;
    WordMeans(env, w, false, false, st, "");
    GivesJoin(env, ExpandWord(env, s, true, NONE, st), Marked(Home(env, user), false),
              ExpandWord(env, t, false, NONE, st), Meaning(env, w, false, st), "", false);
  }

  lemma TildeStep(env: Env, user: string, t: string, st: State)
    requires '/' !in user && (t == "" || t[0] == '/')
    ensures Tilde(env, "~" + (user + t), st) == Piece(true, Marked(Home(env, user), false), t, st)
  {
    var s := "~" + (user + t);
    assert s[1..] == user + t;
    UserEnds(user, t);
    if user == "" {
      assert s[1..] == t;
      MarkedIsCells(if t == "" then "~" else Home(env, user), false);
      MarkedIsCells(Home(env, user), false);
    } else {
      assert s[1..1 + |user|] == user && s[..1 + |user|] == "~" + user && s[1 + |user|..] == t;
      MarkedIsCells(Home(env, user), false);
    }
  }

  lemma {:induction false} UserEnds(user: string, t: string)
    requires '/' !in user && (t == "" || t[0] == '/')
    ensures IndexOfChar(user + t, '/') == |user|
  {
    if user == "" {
      assert user + t == t;
    } else {
      assert (user + t)[1..] == user[1..] + t;
      UserEnds(user[1..], t);
    }
  }

  // ----------------------------------------------------------------- fields

  predicate ScriptQuotes(t: Script) {
    match t
    case End => false
    case Byte(_, r) => ScriptQuotes(r)
    case Escape(_, r) => ScriptQuotes(r)
    case Single(_, _) => true
    case Double(_, _) => true
    case Paren(i, r) => ScriptQuotes(i) || ScriptQuotes(r)
  }

  /** Quotes are written in the word, not escaped. */
  predicate WordQuotes(w: Word) {
    match w
    case Done => false
    case Literal(_, _) => true
    case Quoted(_, _) => true
    case Output(t, r) => ScriptQuotes(t) || WordQuotes(r)
    case Result(e, r) => WordQuotes(e) || WordQuotes(r)
    case _ => WordQuotes(w.rest)
  }

  lemma NoQuoteByte(c: char, r: string)
    requires c != '\'' && c != '"' && c != '\\'
    ensures HasQuote([c] + r) == HasQuote(r)
  {
    Drop1(c, r);
  }

  lemma QuoteAfterEscape(c: char, r: string)
    ensures HasQuote(['\\', c] + r) == HasQuote(r)
  {
    Drop2('\\', c, r);
  }

  lemma QuoteByte(c: char, r: string)
    requires c == '\'' || c == '"'
    ensures HasQuote([c] + r)
  {
    Drop1(c, r);
  }

  lemma {:induction false} NoQuoteIn(p: string, r: string)
    requires forall i :: 0 <= i < |p| ==> p[i] != '\'' && p[i] != '"' && p[i] != '\\'
    ensures HasQuote(p + r) == HasQuote(r)
  {
    if p == "" {
      assert p + r == r;
    } else {
      assert p + r == [p[0]] + (p[1..] + r);
      NoQuoteByte(p[0], p[1..] + r);
      NoQuoteIn(p[1..], r);
    }
  }

  lemma {:induction false} ScriptHasQuote(t: Script, r: string)
    requires TextOk(t)
    ensures HasQuote(Source(t) + r) == (ScriptQuotes(t) || HasQuote(r))
    decreases t
  {
    hide HasQuote, Source;
    ScriptShape(t, r);
    match t {
      case End =>
      case Byte(c, u) =>
        NoQuoteByte(c, Source(u) + r);
        ScriptHasQuote(u, r);
      case Escape(c, u) =>
        QuoteAfterEscape(c, Source(u) + r);
        ScriptHasQuote(u, r);
      case Single(s, u) => QuoteByte('\'', (s + ("'" + Source(u))) + r);
      case Double(d, u) => QuoteByte('"', (DqText(d) + ("\"" + Source(u))) + r);
      case Paren(i, u) =>
        NoQuoteByte('(', Source(i) + ([')'] + (Source(u) + r)));
        ScriptHasQuote(i, [')'] + (Source(u) + r));
        NoQuoteByte(')', Source(u) + r);
        ScriptHasQuote(u, r);
    }
  }

  lemma {:induction false} WordHasQuote(w: Word, r: string)
    requires WordOk(w, false)
    ensures HasQuote(WordText(w) + r) == (WordQuotes(w) || HasQuote(r))
    decreases w
  {
    hide HasQuote, Paired;
    if w.Done? {
      assert WordText(w) + r == r;
    } else {
      var t := WordText(w.rest) + r;
      PartAndRest(w);
      Assoc(Part(w), WordText(w.rest), r);
      WordHasQuote(w.rest, r);
      if w.Result? {
        assert Part(w) + t == "$((" + (WordText(w.e) + ("))" + t));
        NoQuoteIn("$((", WordText(w.e) + ("))" + t));
        WordHasQuote(w.e, "))" + t);
        NoQuoteIn("))", t);
      } else {
        PartHasQuote(w, t);
      }
    }
  }

  lemma PartHasQuote(w: Word, t: string)
    requires WordOk(w, false) && !w.Done? && !w.Result?
    ensures HasQuote(Part(w) + t)
         == (w.Literal? || w.Quoted? || (w.Output? && ScriptQuotes(w.t)) || HasQuote(t))
  {
    hide HasQuote, WordText, Source;
    match w {
      case Plain(c, _) => NoQuoteByte(c, t);
      case Escaped(c, _) => QuoteAfterEscape(c, t);
      case Literal(s, _) =>
        QuoteByte('\'', (s + "'") + t);
        Assoc("'", s + "'", t);
      case Quoted(i, _) =>
        QuoteByte('"', (WordText(i) + "\"") + t);
        Assoc("\"", WordText(i) + "\"", t);
      case Output(x, _) => OutputHasQuote(x, t);
      case Var(n, braces, _) => NamesHaveNoQuote(n, t);
      case Special(c, braces, _) => NoQuoteIn(Part(w), t);
      case Lone(_) => NoQuoteByte('$', t);
    }
  }

  lemma OutputHasQuote(x: Script, t: string)
    requires TextOk(x)
    ensures HasQuote("$(" + (Source(x) + ")") + t) == (ScriptQuotes(x) || HasQuote(t))
  {
    hide HasQuote, Source;
    Assoc("$(", Source(x) + ")", t);
    Assoc(Source(x), ")", t);
    NoQuoteIn("$(", Source(x) + (")" + t));
    ScriptHasQuote(x, ")" + t);
    NoQuoteIn(")", t);
  }

  lemma NamesHaveNoQuote(n: string, t: string)
    requires IsIdentifier(n)
    ensures HasQuote("${" + (n + "}") + t) == HasQuote(t) && HasQuote("$" + n + t) == HasQuote(t)
  {
    hide HasQuote;
    NoQuoteIn("${" + (n + "}"), t);
    NoQuoteIn("$" + n, t);
  }

  /** The fields of a word's meaning; a quoted word that comes to nothing is one
      empty field. */
  function FieldsOf(env: Env, w: Word, st: State): (Option<seq<string>>, State) {
    var (b, s) := Meaning(env, w, false, st);
    if b.None? then (None, s)
    else
      var fields := FieldSplit(if "IFS" in env.vars then Some(env.vars["IFS"]) else None, b.value);
      (Some(if fields == [] && WordQuotes(w) then [""] else fields), s)
  }

  /** Main result: a word's fields are the fields of its meaning. */
  lemma FieldsMean(env: Env, w: Word, st: State)
    requires WordOk(w, false) && At(WordText(w), 0) != '~'
    ensures WordFields(env, WordText(w), st) == FieldsOf(env, w, st)
  {
    hide ExpandWord, Meaning, FieldSplit, WordQuotes, WordOk;
    InnerMeans(env, w, st);
    WordHasQuote(w, "");
    assert WordText(w) + "" == WordText(w);
    assert !HasQuote("");
  }

  /** `"${X}"` is one field, the value of X, whatever IFS is, and `${X}` the
      fields of the value, as if IFS could split each of its bytes. */
  lemma BracesMean(env: Env, name: string, st: State)
    requires IsIdentifier(name)
    ensures var v := if name in env.vars then env.vars[name] else "";
            var ifs := if "IFS" in env.vars then Some(env.vars["IFS"]) else None;
            && WordFields(env, "\"${" + name + "}\"", st) == (Some([v]), st)
            && WordFields(env, "${" + name + "}", st) == (Some(FieldSplit(ifs, Marked(v, true))), st)
  {
    hide FieldSplit, Text, WordFields, Marked;
    var v := if name in env.vars then env.vars[name] else "";
    var ifs := if "IFS" in env.vars then Some(env.vars["IFS"]) else None;
    var bare := Var(name, true, Done);
    var quoted := Quoted(bare, Done);
    BracesWord(env, name, st);
    FieldsMean(env, bare, st);
    FieldsMean(env, quoted, st);
    MarkedIsCells(v, false);
    CellsWhole(ifs, v);
  }

  /** `${name}`, alone and in double quotes, as a word. */
  lemma BracesWord(env: Env, name: string, st: State)
    requires IsIdentifier(name)
    ensures var v := if name in env.vars then env.vars[name] else "";
            var bare := Var(name, true, Done);
            var quoted := Quoted(bare, Done);
            && WordOk(bare, false) && WordText(bare) == "${" + name + "}" && !WordQuotes(bare)
            && WordOk(quoted, false) && WordText(quoted) == "\"${" + name + "}\"" && WordQuotes(quoted)
            && Meaning(env, bare, false, st) == (Some(Marked(v, true)), st)
            && Meaning(env, quoted, false, st) == (Some(Marked(v, false)), st)
  {
    hide Marked, IsIdentifier;
    var v := if name in env.vars then env.vars[name] else "";
    var bare := Var(name, true, Done);
    assert WordText(Done) == "" && Meaning(env, Done, true, st) == Meaning(env, Done, false, st) == (Some([]), st);
    JoinNothing(Marked(v, true), st);
    JoinNothing(Marked(v, false), st);
    assert WordText(bare) == "${" + (name + "}") && WordOk(bare, true);
  }

  lemma JoinNothing(b: Bytes, st: State)
    ensures Join(b, (Some([]), st)) == (Some(b), st)
  {
    assert b + [] == b;
  }

  lemma CellsWhole(ifs: Option<string>, v: string)
    ensures FieldSplit(ifs, Cells(v, false)) == [v] || (v == "" && FieldSplit(ifs, Cells(v, false)) == [])
  {
    var b := Cells(v, false);
    assert Text(b) == v;
    if v != "" {
      WholeField(ifs, b);
    }
  }

  function FieldsOfAll(env: Env, ws: seq<Word>, st: State): (Option<seq<string>>, State) {
    if ws == [] then (Some([]), st)
    else
      var (a, s) := FieldsOf(env, ws[0], st);
      if a.None? then (None, s)
      else
        var (b, s') := FieldsOfAll(env, ws[1..], s);
        (if b.None? then None else Some(a.value + b.value), s')
  }

  function Texts(ws: seq<Word>): (ts: seq<string>)
    ensures |ts| == |ws| && forall i :: 0 <= i < |ws| ==> ts[i] == WordText(ws[i])
  {
    seq(|ws|, i requires 0 <= i < |ws| => WordText(ws[i]))
  }

  /** A word that can stand on a command line and does not start with `~`. */
  ghost predicate LineWord(w: Word) {
    && WordOk(w, false) && WordLexes(w, false)
    && WordText(w) != "" && WordText(w)[0] != '#' && WordText(w)[0] != '~'
  }

  lemma {:induction false} ArgvMeans(env: Env, ws: seq<Word>, st: State)
    requires forall i :: 0 <= i < |ws| ==> LineWord(ws[i])
    ensures Argv(env, Texts(ws), st) == FieldsOfAll(env, ws, st)
  {
    hide WordFields, FieldsOf;
    if ws != [] {
      assert LineWord(ws[0]);
      FieldsMean(env, ws[0], st);
      assert Texts(ws)[1..] == Texts(ws[1..]);
      ArgvMeans(env, ws[1..], FieldsOf(env, ws[0], st).1);
    }
  }

  // ----------------------------------------------------------- command lines

  /** Main result, from text to arguments: words written out with any blanks
      between them, the first no assignment, brace or alias, are one command,
      and its arguments are the fields of the words' meanings. */
  lemma CommandMeans(env: Env, ws: seq<Word>, gs: seq<T.Gap>, table: AliasSpec.Table, st: State)
    requires ws != [] && forall i :: 0 <= i < |ws| ==> LineWord(ws[i])
    requires var name := WordText(ws[0]);
             !Assignments.AssignsAny(name) && name != "{" && name != "}" && name !in table
    requires T.Fit(R.WordToks(Texts(ws)) + [EOF_TOKEN], gs)
    ensures var text := T.Layout(R.WordToks(Texts(ws)) + [EOF_TOKEN], gs);
            var tree := ParserSpec.Parse(AliasSpec.Aliased(table, LexerSpec.Tokenized(text)));
            tree == Some(Cmd(Command(Texts(ws), [], []))) && Argv(env, Texts(ws), st) == FieldsOfAll(env, ws, st)
  {
    hide LexerSpec.Lex, ParserSpec.Parse, Argv, AliasSpec.Aliased, T.Fit, T.Layout, R.ListOk, R.ListToks, LineWord,
         IsAssignment, Assignments.AssignsAny, R.WordToks, FieldsOfAll;
    var c := Command(Texts(ws), [], []);
    var a := Cmd(c);
    ArgvMeans(env, ws, st);
    Assignments.AssignmentExactly(WordText(ws[0]));
    CommandIsOk(c);
    WordsWritable(ws);
    Assignments.PrintedWords(c);
    assert R.Printed(a) == R.WordToks([]) + R.WordToks(Texts(ws)) + [EOF_TOKEN];
    assert R.WordToks([]) + R.WordToks(Texts(ws)) == R.WordToks(Texts(ws)) by { NoWords(); }
    T.TreeReads(a, gs);
    assert AliasCommands.SeenIn(a, true) == [WordText(ws[0])];
    AliasCommands.TreeStays(table, a);
  }

  lemma NoWords()
    ensures R.WordToks([]) == []
  {
  }

  lemma CommandIsOk(c: Command)
    requires c.assigns == [] && c.redirs == [] && c.argv != [] && !IsAssignment(c.argv[0]) && c.argv[0] != "{"
    ensures R.ListOk(Cmd(c), false)
  {
    hide R.ListOk, IsAssignment;
    assert R.CommandNodeOk(Cmd(c), false);
    R.Widen(Cmd(c), false);
  }

  lemma WordsWritable(ws: seq<Word>)
    requires forall i :: 0 <= i < |ws| ==> LineWord(ws[i])
    ensures T.Writable(Cmd(Command(Texts(ws), [], [])))
  {
    forall i | 0 <= i < |ws| ensures LexerNormalForm.LexedWord(Texts(ws)[i], false) {
      assert LineWord(ws[i]);
      WordLexed(ws[i]);
    }
  }
}
