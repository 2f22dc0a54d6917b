/** Quoting that survives tokenizing, alias expansion, parsing and expansion. */
module Quoting {
  import opened Ascii
  import opened Wrappers
  import opened Tokens
  import opened LexerSpec
  import opened LexerNormalForm
  import opened Syntax
  import opened ParserSpec
  import opened ParserRoundTrip
  import opened FieldSplitSpec
  import opened ExpanderSpec
  import opened SeqFacts
  import AliasSpec

  /** The value between the quotes: `'` is written `'\''`. */
  function QuoteBody(s: string): string {
    if s == "" then ""
    else (if s[0] == '\'' then "'\\''" else [s[0]]) + QuoteBody(s[1..])
  }

  function Quote(s: string): string {
    "'" + (QuoteBody(s) + "'")
  }

  /** One line of the alias listing. */
  method PrintOneAlias(name: string, value: string) returns (out: string)
    ensures out == "alias " + name + "=" + Quote(value) + "\n"
  {
    out := "alias " + name + "='";
    var i := 0;
    ghost var start := out;
    while i < |value|
      invariant 0 <= i <= |value|
      invariant out + QuoteBody(value[i..]) == start + QuoteBody(value)
    {
      assert value[i..][1..] == value[i + 1..];
      if value[i] == '\'' {
        out := out + "'\\''";
      } else {
        out := out + [value[i]];
      }
      i := i + 1;
    }
    assert value[i..] == "" && out == start + QuoteBody(value);
    out := out + "'\n";
    assert out == "alias " + name + "=" + ("'" + (QuoteBody(value) + "'")) + "\n";
  }

  // ------------------------------------------------------------- tokenizing

  const INSIDE: LexerSpec.Scan := LexerSpec.Scan(true, false, 0)

  /** Inside the quotes the scanner reaches the closing quote, whatever the
      bytes, and is back outside after it. */
  lemma {:induction false} BodyScans(s: string, t: string)
    requires IsSeparator(t)
    ensures var w := QuoteBody(s) + "'";
            WordLen(w + t, INSIDE) == |w| && Closed(w, INSIDE)
    decreases |s|
  {
    hide WordLen, Closed;
    var w := QuoteBody(s) + "'";
    if s == "" {
      ClosingQuote(t);
      assert w == "'";
    } else {
      BodyScans(s[1..], t);
      var w' := QuoteBody(s[1..]) + "'";
      if s[0] == '\'' {
        EscapedQuote(w' + t);
        EscapedQuoteCloses(w');
        assert w + t == "'\\''" + (w' + t) && w == "'\\''" + w';
      } else {
        PlainByte(s[0], w' + t);
        PlainByte(s[0], w');
        assert w + t == [s[0]] + (w' + t) && w == [s[0]] + w';
      }
    }
  }

  lemma ClosingQuote(t: string)
    requires IsSeparator(t)
    ensures WordLen("'" + t, INSIDE) == 1 && Closed("'", INSIDE)
  {
    assert ("'" + t)[1..] == t && "'"[1..] == "";
    assert LexerSpec.Step("'" + t, INSIDE) == (1, START);
    assert WordLen(t, START) == 0;
  }

  lemma PlainByte(c: char, r: string)
    requires c != '\''
    ensures WordLen([c] + r, INSIDE) == 1 + WordLen(r, INSIDE)
    ensures Closed(r, INSIDE) ==> Closed([c] + r, INSIDE)
  {
    Drop1(c, r);
    assert LexerSpec.Step([c] + r, INSIDE) == (1, INSIDE);
  }

  /** Closing quote, escaped quote, opening quote: back inside. */
  lemma EscapedQuote(r: string)
    ensures WordLen("'\\''" + r, INSIDE) == 4 + WordLen(r, INSIDE)
  {
    var a := "'\\''" + r;
    var b := "\\''" + r;
    var c := "'" + r;
    assert a[1..] == b && b[2..] == c && c[1..] == r;
    assert LexerSpec.Step(c, START) == (1, INSIDE) && !AtWordEnd(c, START);
    assert WordLen(c, START) == 1 + WordLen(r, INSIDE);
    assert LexerSpec.Step(b, START) == (2, START) && !AtWordEnd(b, START);
    assert WordLen(b, START) == 2 + WordLen(c, START);
    assert LexerSpec.Step(a, INSIDE) == (1, START);
  }

  lemma EscapedQuoteCloses(r: string)
    requires Closed(r, INSIDE)
    ensures Closed("'\\''" + r, INSIDE)
  {
    hide LexerSpec.Step, Closed;
    var c := "'" + r;
    var b := "\\'" + c;
    var a := "'" + b;
    assert a == "'\\''" + r;
    Drop1('\'', r);
    Drop2('\\', '\'', c);
    Drop1('\'', b);
    QuoteStep(c, START);
    BackslashStep(b);
    QuoteStep(a, INSIDE);
    ClosedTurn(c, START);
    ClosedTurn(b, START);
    ClosedTurn(a, INSIDE);
  }

  lemma QuoteStep(v: string, st: Scan)
    requires v != "" && v[0] == '\'' && !st.dq
    ensures LexerSpec.Step(v, st) == (1, st.(sq := !st.sq))
  {
  }

  lemma BackslashStep(v: string)
    requires |v| > 1 && v[0] == '\\'
    ensures LexerSpec.Step(v, START) == (2, START)
  {
  }

  lemma ClosedTurn(v: string, st: Scan)
    requires v != ""
    ensures var (k, st') := LexerSpec.Step(v, st);
            Closed(v, st) <==> (!(v == "\\" && !st.sq) && Closed(v[k..], st'))
  {
    hide LexerSpec.Step;
  }

  lemma QuoteIsLexedWord(s: string, last: bool)
    ensures LexedWord(Quote(s), last)
  {
    var w := QuoteBody(s) + "'";
    BodyScans(s, "");
    assert w + "" == w;
    Drop1('\'', w);
    assert LexerSpec.Step(Quote(s), START) == (1, INSIDE);
  }

  function QuoteAll(ss: seq<string>): (qs: seq<string>)
    ensures |qs| == |ss| && forall i :: 0 <= i < |ss| ==> qs[i] == Quote(ss[i])
  {
    seq(|ss|, i requires 0 <= i < |ss| => Quote(ss[i]))
  }

  /** The quoted strings, joined by single spaces. */
  function Join(ss: seq<string>): string {
    if ss == [] then ""
    else if |ss| == 1 then Quote(ss[0])
    else Quote(ss[0]) + " " + Join(ss[1..])
  }

  function Toks(ss: seq<string>): seq<Token> {
    WordToks(QuoteAll(ss)) + [EOF_TOKEN]
  }

  lemma {:induction false} ToksCons(ss: seq<string>)
    requires ss != []
    ensures Toks(ss) == [W(Quote(ss[0]))] + Toks(ss[1..])
  {
    assert QuoteAll(ss)[1..] == QuoteAll(ss[1..]);
  }

  lemma {:induction false} ToksLength(ss: seq<string>)
    ensures |Toks(ss)| == |ss| + 1
  {
    if ss != [] {
      ToksCons(ss);
      ToksLength(ss[1..]);
    }
  }

  lemma {:induction false} ToksLexed(ss: seq<string>)
    ensures Lexed(Toks(ss), 0) && Print(Toks(ss)) == Join(ss)
  {
    ToksLength(ss);
    if ss != [] {
      hide LexedWord, Closed;
      ToksCons(ss);
      ToksLexed(ss[1..]);
      ToksLength(ss[1..]);
      QuoteIsLexedWord(ss[0], |ss| == 1);
      assert TokenText(W(Quote(ss[0]))) == Quote(ss[0]);
      assert Toks(ss)[1..] == Toks(ss[1..]);
    }
  }

  // ---------------------------------------------------- aliases and parsing

  lemma QuotesAreOrdinary(s: string)
    ensures !AliasSpec.IsPlainWord(Quote(s)) && !IsAssignment(Quote(s)) && Quote(s) != "{"
  {
    assert Quote(s)[0] == '\'';
  }

  lemma {:induction false} ToksOrdinary(ss: seq<string>, i: nat)
    requires i < |Toks(ss)|
    ensures Toks(ss)[i] == EOF_TOKEN || exists s :: s in ss && Toks(ss)[i] == W(Quote(s))
  {
    if ss != [] {
      ToksCons(ss);
      if i == 0 {
        assert ss[0] in ss;
      } else {
        ToksOrdinary(ss[1..], i - 1);
      }
    }
  }

  lemma AliasesLeaveToks(table: AliasSpec.Table, ss: seq<string>)
    ensures AliasSpec.Aliased(table, Toks(ss)) == Toks(ss)
  {
    var xs := AliasSpec.Tag(Toks(ss));
    forall i | 0 <= i < |xs| ensures !AliasSpec.Aliasable(xs[i].tok, table) {
      ToksOrdinary(ss, i);
      if xs[i].tok != EOF_TOKEN {
        var s :| s in ss && xs[i].tok == W(Quote(s));
        QuotesAreOrdinary(s);
      }
    }
    AliasSpec.NothingToExpand(table, xs, AliasSpec.FIRST);
    assert AliasSpec.Untag(xs) == Toks(ss);
  }

  lemma QuotesParse(ss: seq<string>)
    requires ss != []
    ensures ParserSpec.Parse(Toks(ss)) == Some(Cmd(Command(QuoteAll(ss), [], [])))
  {
    hide ParserSpec.Parse, ListToks;
    var c := Command(QuoteAll(ss), [], []);
    QuotesAreOrdinary(ss[0]);
    assert CommandOk(c, false);
    assert CommandNodeOk(Cmd(c), false);
    Widen(Cmd(c), false);
    ParseComplete(Cmd(c));
    PrintedCommand(c);
  }

  lemma PrintedCommand(c: Command)
    requires c.assigns == [] && c.redirs == []
    ensures Printed(Cmd(c)) == WordToks(c.argv) + [EOF_TOKEN]
  {
    assert ListToks(Cmd(c), false) == NodeToks(Cmd(c)) + [];
    assert NodeToks(Cmd(c)) == CommandToks(c);
    assert CommandToks(c) == WordToks(c.argv);
  }

  // ---------------------------------------------------------------- expansion

  lemma {:induction false} BodyExpands(env: Env, s: string, st: State)
    ensures ExpandWord(env, QuoteBody(s) + "'", false, ExpanderSpec.Quotes(true, false), st)
        == Piece(true, Cells(s, false), "", st)
    decreases |s|
  {
    var inside := ExpanderSpec.Quotes(true, false);
    if s == "" {
      assert QuoteBody(s) + "'" == "'";
      assert Cells(s, false) == [];
      assert ExpandWord(env, "", false, NONE, st) == Piece(true, [], "", st);
    } else {
      var w' := QuoteBody(s[1..]) + "'";
      BodyExpands(env, s[1..], st);
      assert Cells(s, false) == [Cell(s[0], false)] + Cells(s[1..], false);
      if s[0] == '\'' {
        EscapedQuoteExpands(env, w', st);
        assert QuoteBody(s) + "'" == "'\\''" + w';
      } else {
        Drop1(s[0], w');
        assert QuoteBody(s) + "'" == [s[0]] + w';
      }
    }
  }

  lemma EscapedQuoteExpands(env: Env, r: string, st: State)
    ensures var inside := ExpanderSpec.Quotes(true, false);
            var w := ExpandWord(env, r, false, inside, st);
            ExpandWord(env, "'\\''" + r, false, inside, st) == w.(out := [Cell('\'', false)] + w.out)
  {
    hide Dollar, Tilde;
    var inside := ExpanderSpec.Quotes(true, false);
    var w := ExpandWord(env, r, false, inside, st);
    var a := "'\\''" + r;
    var b := "\\''" + r;
    var c := "'" + r;
    assert a[1..] == b && b[2..] == c && c[1..] == r;
    assert [] + w.out == w.out;
    assert ExpandWord(env, c, false, NONE, st) == w;
    assert ExpandWord(env, b, false, NONE, st) == w.(out := [Cell('\'', false)] + w.out);
    assert [] + ([Cell('\'', false)] + w.out) == [Cell('\'', false)] + w.out;
  }

  lemma TextOfCells(s: string, split: bool)
    ensures Text(Cells(s, split)) == s
  {
  }

  /** A quoted word is one field, its value, whatever IFS is. */
  lemma QuoteFields(env: Env, s: string, st: State)
    ensures WordFields(env, Quote(s), st) == (Some([s]), st)
  {
    hide FieldSplit, ExpandWord;
    var b := Cells(s, false);
    QuoteWord(env, s, st);
    TextOfCells(s, false);
    if s == "" {
      EmptyFields(Ifs(env));
      assert Quote(s)[0] == '\'';
    } else {
      WholeField(Ifs(env), b);
    }
  }

  lemma QuoteWord(env: Env, s: string, st: State)
    ensures ExpandWord(env, Quote(s), true, NONE, st) == Piece(true, Cells(s, false), "", st)
  {
    hide Dollar, Tilde;
    var w := QuoteBody(s) + "'";
    Drop1('\'', w);
    BodyExpands(env, s, st);
    assert WordStep(env, Quote(s), true, NONE, st) == (Piece(true, [], w, st), ExpanderSpec.Quotes(true, false));
    assert [] + Cells(s, false) == Cells(s, false);
  }

  lemma EmptyFields(ifs: Option<string>)
    ensures FieldSplit(ifs, []) == [] || FieldSplit(ifs, []) == [""]
  {
    assert Text([]) == "";
  }

  lemma {:induction false} QuotesExpand(env: Env, ss: seq<string>, st: State)
    ensures Argv(env, QuoteAll(ss), st) == (Some(ss), st)
  {
    hide WordFields;
    if ss != [] {
      QuoteFields(env, ss[0], st);
      assert QuoteAll(ss)[1..] == QuoteAll(ss[1..]);
      QuotesExpand(env, ss[1..], st);
      assert [ss[0]] + ss[1..] == ss;
    }
  }

  /** Any non-empty list of strings, quoted and joined by spaces, comes back
      unchanged from the whole front end, empty strings included, under every
      alias table, every IFS and every other variable. */
  lemma QuotingSurvives(ss: seq<string>, table: AliasSpec.Table, env: Env, st: State)
    requires ss != []
    ensures var ts := AliasSpec.Aliased(table, Tokenized(Join(ss)));
            var tree := ParserSpec.Parse(ts);
            tree.Some? && tree.value.Cmd?
            && tree.value.cmd.assigns == [] && tree.value.cmd.redirs == []
            && Argv(env, tree.value.cmd.argv, st) == (Some(ss), st)
  {
    hide Lex, Lexed, ParserSpec.Parse, Argv, AliasSpec.Aliased;
    ToksLexed(ss);
    Relex(Toks(ss), 0, 0);
    AliasesLeaveToks(table, ss);
    QuotesParse(ss);
    QuotesExpand(env, ss, st);
  }

  // ------------------------------------------------- variables and literals

  lemma DollarName(env: Env, name: string, t: string, dq: bool, st: State)
    requires IsIdentifier(name) && (t == "" || !IsNameChar(t[0]))
    ensures Dollar(env, "$" + (name + t), dq, st) == Piece(true, Cells(Lookup(env, name), !dq), t, st)
  {
    var s := "$" + (name + t);
    assert s[1..] == name + t && At(s, 1) == name[0];
    NameRuns(name, t);
    assert s[1..1 + |name|] == name && s[1 + |name|..] == t;
  }

  /** `"$X"` is exactly one field, the value of X, for every value and IFS; an
      unset X gives one empty field. */
  lemma QuotedVariable(env: Env, name: string, st: State)
    requires IsIdentifier(name)
    ensures WordFields(env, "\"$" + name + "\"", st) == (Some([Lookup(env, name)]), st)
  {
    hide Dollar, Tilde, FieldSplit, Cells, Text;
    var v := Lookup(env, name);
    var inside := ExpanderSpec.Quotes(false, true);
    var word := "\"$" + name + "\"";
    var s := "$" + (name + "\"");
    assert word == "\"" + s;
    Drop1('"', s);
    DollarName(env, name, "\"", true, st);
    assert ExpandWord(env, "", false, NONE, st) == Piece(true, [], "", st);
    assert ExpandWord(env, "\"", false, inside, st) == Piece(true, [], "", st) by {
      assert "\""[1..] == "";
    }
    assert Cells(v, false) + [] == Cells(v, false);
    assert ExpandWord(env, s, false, inside, st) == Piece(true, Cells(v, false), "", st);
    assert [] + Cells(v, false) == Cells(v, false);
    assert ExpandWord(env, word, true, NONE, st) == Piece(true, Cells(v, false), "", st);
    TextOfCells(v, false);
    if v == "" {
      EmptyFields(Ifs(env));
      assert HasQuote(word);
    } else {
      WholeField(Ifs(env), Cells(v, false));
    }
  }

  /** Unquoted `$X` is field splitting of X's value, every byte splittable. */
  lemma UnquotedVariable(env: Env, name: string, st: State)
    requires IsIdentifier(name)
    ensures WordFields(env, "$" + name, st) == (Some(FieldSplit(Ifs(env), Cells(Lookup(env, name), true))), st)
  {
    hide Dollar, Tilde, FieldSplit, Cells;
    var v := Lookup(env, name);
    var word := "$" + name;
    assert name + "" == name;
    DollarName(env, name, "", false, st);
    assert ExpandWord(env, "", false, NONE, st) == Piece(true, [], "", st);
    assert Cells(v, true) + [] == Cells(v, true);
    assert word[1..] == name && word[0] == '$';
    assert ExpandWord(env, word, true, NONE, st) == Piece(true, Cells(v, true), "", st);
    NamesHaveNoQuote(name);
    assert !HasQuote(word);
  }

  /** An unquoted variable without a value disappears, as section 2.6 asks,
      unless IFS is empty: then it is an empty argument. */
  lemma EmptyVanishesExactly(env: Env, name: string, st: State)
    requires IsIdentifier(name) && Lookup(env, name) == ""
    ensures WordFields(env, "$" + name, st).0 == Some([]) <==> Ifs(env) != Some("")
    ensures Ifs(env) == Some("") ==> WordFields(env, "$" + name, st).0 == Some([""])
  {
    hide WordFields, IsIdentifier, Ifs;
    UnquotedVariable(env, name, st);
    assert Cells("", true) == [];
    EmptyFieldsExactly(Ifs(env));
  }

  lemma {:induction false} NamesHaveNoQuote(name: string)
    requires forall i :: 0 <= i < |name| ==> IsNameChar(name[i])
    ensures !HasQuote(name)
  {
    if name != "" {
      NamesHaveNoQuote(name[1..]);
    }
  }

  /** Bytes with no meaning to expansion. */
  predicate PlainText(p: string) {
    forall i :: 0 <= i < |p| ==> p[i] != '\'' && p[i] != '"' && p[i] != '\\' && p[i] != '$'
  }

  lemma {:induction false} LiteralWord(env: Env, p: string, first: bool, st: State)
    requires PlainText(p) && (first ==> At(p, 0) != '~')
    ensures ExpandWord(env, p, first, NONE, st) == Piece(true, Cells(p, true), "", st)
    ensures !HasQuote(p)
    decreases |p|
  {
    if p == "" {
      assert Cells(p, true) == [];
    } else {
      LiteralWord(env, p[1..], false, st);
      assert Cells(p, true) == [Cell(p[0], true)] + Cells(p[1..], true);
    }
  }

  /** Section 2.6.5 splits the results of expansions only; here unquoted
      literal text is split as well, so a literal word stays whole exactly when
      IFS lists none of its bytes. */
  lemma LiteralWholeExactly(env: Env, p: string, st: State)
    requires p != "" && PlainText(p) && p[0] != '~'
    ensures WordFields(env, p, st) == (Some([p]), st)
       <==> var ifs := if Ifs(env).None? then DEFAULT_IFS else Ifs(env).value;
            forall i :: 0 <= i < |p| ==> p[i] !in ifs
  {
    hide ExpandWord, Fields;
    var ifs := if Ifs(env).None? then DEFAULT_IFS else Ifs(env).value;
    var b := Cells(p, true);
    LiteralWord(env, p, true, st);
    TextOfCells(p, true);
    if ifs != "" {
      WholeExactly(b, ifs);
      assert FieldSplit(Ifs(env), b) == FieldSplit(Some(ifs), b);
      assert forall i :: 0 <= i < |p| ==> (IsDelim(b[i], ifs) <==> p[i] in ifs);
    }
  }

  /** `${` and any text, in double quotes or not: its brace is left to be read
      again if and only if no brace closes it. */
  lemma BraceAgainExactly(env: Env, p: string, dq: bool, st: State)
    ensures Dollar(env, "${" + p, dq, st).rest == "{" + p <==> '}' !in p
  {
    var s := "${" + p;
    assert s[1..] == "{" + p && s[2..] == p;
    hide IndexOfChar;
    var n := IndexOfChar(p, '}');
    assert n == |p| <==> '}' !in p;
  }

  /** So an unterminated `${` is not written as typed: its brace comes twice,
      and whatever follows is expanded as if it stood alone. */
  lemma UnterminatedBrace(env: Env, p: string, dq: bool, st: State)
    requires '}' !in p
    ensures var q := Quotes(false, dq);
            var b := ExpandWord(env, p, false, q, st);
            ExpandWord(env, "${" + p, true, q, st)
              == Piece(b.ok, Cells("${", false) + ([Cell('{', !dq)] + b.out), b.rest, b.st)
  {
    BraceStep(env, p, dq, st);
    BraceByte(env, p, Quotes(false, dq), st);
    hide Dollar, Tilde, Cells;
    assert ("${" + p)[0] == '$';
  }

  lemma BraceStep(env: Env, p: string, dq: bool, st: State)
    requires '}' !in p
    ensures Dollar(env, "${" + p, dq, st) == Piece(true, Cells("${", false), "{" + p, st)
  {
    var s := "${" + p;
    assert s[1..] == "{" + p && s[2..] == p;
    assert IndexOfChar(p, '}') == |p|;
  }

  lemma BraceByte(env: Env, p: string, q: Quotes, st: State)
    requires !q.sq
    ensures var b := ExpandWord(env, p, false, q, st);
            ExpandWord(env, "{" + p, false, q, st) == Piece(b.ok, [Cell('{', !q.dq)] + b.out, b.rest, b.st)
  {
    hide Dollar, Tilde;
    Drop1('{', p);
  }
}
