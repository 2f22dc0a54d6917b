/** The tokenizer's promises over every input: where tokens sit, which token
    lists it can produce, and that printing such a list and lexing it again
    gives the list back. */
module LexerNormalForm {
  import opened Ascii
  import opened Decimal
  import opened Tokens
  import opened LexerSpec
  import opened SeqFacts

  // ---------------------------------------------------------------- spans

  /** Only blanks, then possibly a comment that runs to a newline or the end. */
  ghost predicate IsGap(s: string, a: nat, b: nat)
    requires a <= b <= |s|
  {
    exists m :: a <= m <= b && BlanksThenComment(s, a, m, b)
  }

  ghost predicate BlanksThenComment(s: string, a: nat, m: nat, b: nat)
    requires a <= m <= b <= |s|
  {
    && (forall i :: a <= i < m ==> s[i] != '\n' && IsSpace(s[i]))
    && (m < b ==> s[m] == '#' && '\n' !in s[m..b] && (b < |s| ==> s[b] == '\n'))
  }

  /** The token's text: digits of an fd number, then the operator or the word. */
  ghost predicate IsTextOf(t: Token, text: string) {
    exists n :: 0 <= n <= |text| && text[n..] == t.value && AllDigits(text[..n]) &&
                t.io == (if n == 0 then -1 else Value(text[..n], 0)) &&
                (n > 0 ==> IsRedir(t.kind))
  }

  /** From offset `from` on, gaps and tokens alternate up to the EOF token. */
  ghost predicate Spans(s: string, xs: seq<Lexeme>, from: nat)
    requires from <= |s|
  {
    && xs != []
    && from <= xs[0].start <= xs[0].stop <= |s|
    && IsGap(s, from, xs[0].start)
    && (if |xs| == 1 then
          xs[0] == Lexeme(EOF_TOKEN, |s|, |s|)
        else
          && xs[0].tok.kind != Eof
          && xs[0].start < xs[0].stop
          && IsTextOf(xs[0].tok, s[xs[0].start..xs[0].stop])
          && Spans(s, xs[1..], xs[0].stop))
  }

  lemma GapAfterBlank(s: string, a: nat, b: nat)
    requires a < b <= |s| && s[a] != '\n' && IsSpace(s[a]) && IsGap(s, a + 1, b)
    ensures IsGap(s, a, b)
  {
    var m :| a + 1 <= m <= b && BlanksThenComment(s, a + 1, m, b);
    assert BlanksThenComment(s, a, m, b);
  }

  lemma GapIsComment(s: string, a: nat, e: nat, b: nat)
    requires a < e <= b <= |s| && s[a] == '#' && '\n' !in s[a..e] && (e < |s| ==> s[e] == '\n')
    requires IsGap(s, e, b)
    ensures IsGap(s, a, b)
  {
    var m :| e <= m <= b && BlanksThenComment(s, e, m, b);
    assert e == b;
    assert BlanksThenComment(s, a, a, b);
  }

  lemma EmptyGap(s: string, a: nat)
    requires a <= |s|
    ensures IsGap(s, a, a)
  {
    assert BlanksThenComment(s, a, a, a);
  }

  lemma SpansStart(s: string, xs: seq<Lexeme>, from: nat)
    requires from <= |s| && Spans(s, xs, from)
    ensures xs != [] && from <= xs[0].start <= |s| && IsGap(s, from, xs[0].start)
  {
  }

  lemma EndSpans(s: string)
    ensures Spans(s, [Lexeme(EOF_TOKEN, |s|, |s|)], |s|)
  {
    EmptyGap(s, |s|);
  }

  lemma SpansFrom(s: string, xs: seq<Lexeme>, from: nat, later: nat)
    requires from <= later <= |s| && Spans(s, xs, later) && IsGap(s, from, xs[0].start)
    ensures Spans(s, xs, from)
  {
  }

  /** Tokens cover the input but for blanks and comments. */
  lemma {:induction false} LexSpans(s: string, pos: nat, depth: nat)
    requires pos <= |s|
    ensures Spans(s, Lex(s[pos..], pos, depth), pos)
    decreases |s| - pos
  {
    hide Lex, FirstLexeme, Spans;
    var rest := s[pos..];
    if rest == "" {
      LexEnd(pos, depth);
      EndSpans(s);
    } else if TokenAhead(rest) {
      LexSpansToken(s, pos, depth);
      var x := FirstLexeme(rest, pos, depth);
      LexSpans(s, x.stop, DepthAfter(x.tok.kind, depth));
    } else {
      var next := pos + GapLen(rest);
      assert rest[GapLen(rest)..] == s[next..];
      LexGap(rest, pos, depth);
      LexSpans(s, next, depth);
      var xs := Lex(s[next..], next, depth);
      SpansStart(s, xs, next);
      if rest[0] == '#' {
        LexSpansComment(s, pos);
        GapIsComment(s, pos, next, xs[0].start);
      } else {
        GapAfterBlank(s, pos, xs[0].start);
      }
      SpansFrom(s, xs, pos, next);
    }
  }

  lemma LexSpansComment(s: string, pos: nat)
    requires pos < |s| && s[pos] == '#'
    ensures var e := pos + IndexOfChar(s[pos..], '\n');
            pos < e <= |s| && s[pos..][e - pos..] == s[e..]
            && '\n' !in s[pos..e] && (e < |s| ==> s[e] == '\n')
  {
    var e := pos + IndexOfChar(s[pos..], '\n');
    assert s[pos..e] == s[pos..][..e - pos];
  }

  lemma LexSpansToken(s: string, pos: nat, depth: nat)
    requires pos < |s| && TokenAhead(s[pos..])
    ensures var rest := s[pos..];
            var x := FirstLexeme(rest, pos, depth);
            Spans(s, Lex(s[x.stop..], x.stop, DepthAfter(x.tok.kind, depth)), x.stop) ==>
                Spans(s, Lex(rest, pos, depth), pos)
  {
    hide Lex, FirstLexeme, TokenAhead, IsTextOf, IsGap, DepthAfter, WordLen, GapLen, IndexOfChar, Step;
    var rest := s[pos..];
    var x := FirstLexeme(rest, pos, depth);
    EmptyGap(s, pos);
    var tail := Lex(s[x.stop..], x.stop, DepthAfter(x.tok.kind, depth));
    assert rest[x.stop - pos..] == s[x.stop..] && s[pos..x.stop] == rest[..x.stop - pos];
    FirstText(rest, pos, depth);
    LexToken(rest, pos, depth);
    assert ([x] + tail)[1..] == tail;
  }

  lemma FirstText(rest: string, pos: nat, depth: nat)
    requires TokenAhead(rest)
    ensures var x := FirstLexeme(rest, pos, depth);
            x.tok.kind != Eof && IsTextOf(x.tok, rest[..x.stop - pos])
  {
    var x := FirstLexeme(rest, pos, depth);
    var text := rest[..x.stop - pos];
    if IsOperatorStart(rest) {
      OperatorStartMatches(rest, depth);
      var n := if IsDigit(At(rest, 0)) then DigitRun(rest) else 0;
      assert text[..n] == rest[..n] && text[n..] == rest[n..][..|x.tok.value|];
    } else {
      assert text[0..] == text && text[..0] == "";
    }
  }

  /** Token spans of any input are ordered and disjoint. */
  lemma {:induction false} SpansDisjoint(s: string, xs: seq<Lexeme>, from: nat, i: nat, j: nat)
    requires from <= |s| && Spans(s, xs, from)
    requires i < j < |xs|
    ensures from <= xs[i].start <= xs[i].stop <= xs[j].start
    decreases |xs|
  {
    if i == 0 {
      if j == 1 {
      } else {
        SpansDisjoint(s, xs[1..], xs[0].stop, 0, j - 1);
      }
    } else {
      SpansDisjoint(s, xs[1..], xs[0].stop, i - 1, j - 1);
    }
  }

  // ------------------------------------------------------- token normal form

  /** After the bytes of `s` every quote, `$(` and escape is closed. */
  ghost predicate Closed(s: string, st: Scan)
    decreases |s|
  {
    if s == "" then st.Neutral()
    else
      var (k, st') := Step(s, st);
      !(s == "\\" && !st.sq) && Closed(s[k..], st')
  }

  /** A token list the tokenizer can produce, at arithmetic depth `depth`:
      only its last word may leave a quote open. */
  ghost predicate Lexed(ts: seq<Token>, depth: nat) {
    if |ts| <= 1 then ts == [EOF_TOKEN]
    else LexedToken(ts[0], depth, |ts| == 2) && Lexed(ts[1..], DepthAfter(ts[0].kind, depth))
  }

  ghost predicate LexedToken(t: Token, depth: nat, last: bool) {
    if t.kind == Word then t.io == -1 && LexedWord(t.value, last)
    else
      exists k: nat {:trigger Kind(k)} :: k < OPERATORS && t.kind == Kind(k) && t.value == Literal(k)
        && (Kind(k) == ArithClose ==> depth > 0)
        && -1 <= t.io && (t.io >= 0 ==> IsRedir(Kind(k)))
  }

  ghost predicate LexedWord(v: string, last: bool) {
    v != "" && v[0] != '#' && !AtWordEnd(v, START) && WordLen(v, START) == |v| && (last || Closed(v, START))
  }

  /** Text of a token, io digits glued to their operator. */
  function TokenText(t: Token): string {
    (if t.io >= 0 then Dec(t.io) else "") + t.value
  }

  /** The tokens before EOF, joined by single spaces. */
  function Print(ts: seq<Token>): string {
    if |ts| <= 1 then ""
    else if |ts| == 2 then TokenText(ts[0])
    else TokenText(ts[0]) + " " + Print(ts[1..])
  }

  // ------------------------------------- a word is read the same in any place

  /** Nothing, or a separating space. */
  predicate IsSeparator(t: string) {
    t == "" || t[0] == ' '
  }

  /** A blank other than a newline. */
  predicate IsBlank(c: char) {
    c in " \t\r" || c == 11 as char || c == 12 as char
  }

  /** The word `v` ends where `t` follows: at a blank, a newline, `;`, `&`, `|`
      or `)`, and at `<` or `>` unless digits before it go with it. */
  predicate EndsWord(v: string, t: string) {
    t == "" || IsBlank(t[0]) || t[0] in "\n;&|)" || ((t[0] == '<' || t[0] == '>') && (v == "" || !IsDigit(v[|v| - 1])))
  }

  /** `t` can stand right after the token without changing it. */
  predicate Apart(x: Token, t: string) {
    if x.kind == Word then EndsWord(x.value, t)
    else t == "" || x.kind in {Semicolon, Newline, LParen, ArithOpen} || t[0] !in "|&<>)-"
  }

  lemma EndsTail(v: string, t: string, k: nat)
    requires EndsWord(v, t) && k <= |v|
    ensures EndsWord(v[k..], t)
  {
  }

  lemma {:induction false} DigitRunBeyond(v: string, u: string, t: string)
    requires DigitRun(v + u) >= |v|
    requires t == "" || !IsDigit(t[0])
    ensures DigitRun(v + t) == |v|
  {
    forall i | 0 <= i < |v| ensures IsDigit(v[i]) {
      assert (v + u)[..DigitRun(v + u)][i] == v[i];
    }
    DigitRunAppend(v, t);
  }

  lemma {:induction false} DigitRunWithin(v: string, u: string, t: string)
    requires DigitRun(v + u) < |v|
    ensures DigitRun(v + t) == DigitRun(v + u)
  {
    var n := DigitRun(v + u);
    var ds := v[..n];
    assert ds == (v + u)[..n];
    assert v + t == ds + (v[n..] + t);
    assert (v[n..] + t)[0] == (v + u)[n];
    DigitRunAppend(ds, v[n..] + t);
  }

  /** A byte of a word is not an operator start for what follows the word. */
  lemma OperatorStartLocal(v: string, u: string, t: string)
    requires v != "" && EndsWord(v, t)
    requires !IsOperatorStart(v + u)
    ensures !IsOperatorStart(v + t)
  {
    if IsDigit(v[0]) {
      if DigitRun(v + u) < |v| {
        DigitRunWithin(v, u, t);
      } else {
        assert (v + u)[|v| - 1] == v[|v| - 1];
        DigitRunBeyond(v, u, t);
      }
    }
  }

  /** `$` or `$(` at the end of a word is not cut off from a further `(`. */
  lemma CmdsubLocal(v: string, u: string, t: string, st: Scan)
    requires v != "" && EndsWord(v, t)
    requires WordLen(v + u, st) == |v| && st.sub == 0
    ensures CmdsubAhead(v + u, st.sq) == CmdsubAhead(v + t, st.sq)
    ensures CmdsubAhead(v + u, st.sq) ==> |v| >= 2
  {
    var s := v + u;
    if CmdsubAhead(s, st.sq) {
      assert Step(s, st).0 == 2;
    }
    if v[0] == '$' && !st.sq {
      if |v| == 1 {
        DollarEndsWord(v, u, st);
      } else if |v| == 2 && v[1] == '(' {
        DollarParenEndsWord(v, u, st);
      }
    }
  }

  lemma DollarEndsWord(v: string, u: string, st: Scan)
    requires v == "$" && !st.sq && st.sub == 0 && WordLen(v + u, st) == 1
    ensures At(u, 0) != '('
  {
    var s := v + u;
    assert s[1..] == u;
  }

  lemma DollarParenEndsWord(v: string, u: string, st: Scan)
    requires v == "$(" && !st.sq && st.sub == 0 && WordLen(v + u, st) == 2
    ensures At(u, 0) != '('
  {
    var s := v + u;
    assert s[1..] == "(" + u && s[1..][1..] == u;
  }

  lemma StepLocal(v: string, u: string, t: string, st: Scan)
    requires v != "" && EndsWord(v, t)
    requires WordLen(v + u, st) == |v|
    requires t != "" && !st.sq ==> v != "\\"
    ensures Step(v + t, st) == Step(v + u, st)
    ensures Step(v + u, st).0 <= |v|
  {
    if st.sub == 0 {
      CmdsubLocal(v, u, t, st);
    }
    assert (v + u)[0] == v[0] == (v + t)[0];
    StepWithin(v + u, st);
  }

  lemma WordLenTurn(s: string, st: Scan)
    ensures if AtWordEnd(s, st) then WordLen(s, st) == 0
            else (var (k, st') := Step(s, st); WordLen(s, st) == k + WordLen(s[k..], st'))
  {
    hide Step;
  }

  lemma EscapeTakesTwo(v: string, u: string, st: Scan)
    requires v != "" && u != "" && Step(v + u, st).0 <= |v|
    ensures v != "\\" || st.sq
  {
    assert (v + u)[0] == v[0];
  }

  lemma StepWithin(s: string, st: Scan)
    requires s != "" && WordLen(s, st) > 0
    ensures Step(s, st).0 <= WordLen(s, st)
  {
  }

  /** A word ends at the same byte when what follows it is a separator. */
  lemma {:induction false} Resume(v: string, u: string, t: string, st: Scan)
    requires WordLen(v + u, st) == |v|
    requires EndsWord(v, t) && (t != "" ==> Closed(v, st))
    ensures WordLen(v + t, st) == |v|
    decreases |v|
  {
    if v == "" {
      assert v + t == t;
    } else {
      OperatorStartLocal'(v, u, t, st);
      StepLocal(v, u, t, st);
      StepLocal(v, u, "", st);
      assert v + "" == v;
      var (k, st') := Step(v + u, st);
      assert (v + u)[k..] == v[k..] + u && (v + t)[k..] == v[k..] + t;
      EndsTail(v, t, k);
      Resume(v[k..], u, t, st');
    }
  }

  lemma OperatorStartLocal'(v: string, u: string, t: string, st: Scan)
    requires v != "" && EndsWord(v, t)
    requires !AtWordEnd(v + u, st)
    ensures !AtWordEnd(v + t, st)
  {
    if st.Neutral() {
      OperatorStartLocal(v, u, t);
    }
  }

  /** A word that stops before the end of the input is closed. */
  lemma {:induction false} StopsClosed(v: string, u: string, st: Scan)
    requires WordLen(v + u, st) == |v| && u != ""
    ensures Closed(v, st)
    decreases |v|
  {
    hide Step, WordLen;
    WordLenTurn(v + u, st);
    if v == "" {
      assert v + u == u;
    } else {
      StepLocal(v, u, "", st);
      EscapeTakesTwo(v, u, st);
      assert v + "" == v;
      var (k, st') := Step(v + u, st);
      assert (v + u)[k..] == v[k..] + u;
      StopsClosed(v[k..], u, st');
    }
  }

  // ------------------------------------------------------- normal form theorem

  /** Every token list the tokenizer returns is in normal form. */
  lemma {:induction false} LexIsLexed(s: string, pos: nat, depth: nat)
    ensures Lexed(TokensOf(Lex(s, pos, depth)), depth)
    decreases |s|
  {
    hide Lex, FirstLexeme, LexedToken;
    if s == "" {
      LexEnd(pos, depth);
    } else if !TokenAhead(s) {
      LexGap(s, pos, depth);
      LexIsLexed(s[GapLen(s)..], pos + GapLen(s), depth);
    } else {
      LexToken(s, pos, depth);
      var x := FirstLexeme(s, pos, depth);
      var rest, depth' := s[x.stop - pos..], DepthAfter(x.tok.kind, depth);
      LexIsLexed(rest, x.stop, depth');
      var tail := Lex(rest, x.stop, depth');
      TokensCons(x, tail);
      LastToken(rest, x.stop, depth');
      LexedHead(s, pos, depth, |tail| == 1);
      assert ([x.tok] + TokensOf(tail))[1..] == TokensOf(tail);
    }
  }

  lemma LastToken(s: string, pos: nat, depth: nat)
    ensures s == "" ==> |Lex(s, pos, depth)| == 1
  {
  }

  lemma LexedHead(s: string, pos: nat, depth: nat, last: bool)
    requires TokenAhead(s)
    requires !last ==> FirstLexeme(s, pos, depth).stop < pos + |s|
    ensures LexedToken(FirstLexeme(s, pos, depth).tok, depth, last)
  {
    if IsOperatorStart(s) {
      OperatorStartMatches(s, depth);
    } else {
      var n := WordLen(s, START);
      assert s == s[..n] + s[n..];
      WordIsLexed(s[..n], s[n..], last);
    }
  }

  lemma WordIsLexed(v: string, u: string, last: bool)
    requires TokenAhead(v + u) && !IsOperatorStart(v + u)
    requires WordLen(v + u, START) == |v| && (last || u != "")
    ensures LexedWord(v, last)
  {
    assert v != "";
    if u != "" {
      StopsClosed(v, u, START);
    }
    assert v + "" == v;
    Resume(v, u, "", START);
    OperatorStartLocal(v, u, "");
  }

  /** Re-lexing printed tokens gives the tokens: same kinds, values, numbers. */
  lemma {:induction false} Relex(ts: seq<Token>, pos: nat, depth: nat)
    requires Lexed(ts, depth)
    ensures TokensOf(Lex(Print(ts), pos, depth)) == ts
    decreases |ts|
  {
    hide Lex, TokenText, LexedToken, TokenAhead, GapLen, DepthAfter, WordLen, Step, FirstLexeme;
    if |ts| <= 1 {
      LexEnd(pos, depth);
    } else {
      var t, rest := ts[0], ts[1..];
      var sep := if |ts| == 2 then "" else " ";
      var after := sep + Print(rest);
      var pos', depth' := pos + |TokenText(t)|, DepthAfter(t.kind, depth);
      assert Print(ts) == TokenText(t) + after;
      HeadRelex(t, after, pos, depth, |ts| == 2);
      if |ts| == 2 {
        LexEnd(pos', depth');
      } else {
        Drop1(' ', Print(rest));
        Relex(rest, pos' + 1, depth');
        SpaceIsGap(after);
        LexGap(after, pos', depth');
      }
      TokensCons(Lexeme(t, pos, pos'), Lex(after, pos', depth'));
      assert ts == [t] + rest;
    }
  }

  lemma SpaceIsGap(s: string)
    requires s != "" && s[0] == ' '
    ensures !TokenAhead(s) && GapLen(s) == 1
  {
  }

  lemma HeadRelex(t: Token, after: string, pos: nat, depth: nat, last: bool)
    requires LexedToken(t, depth, last)
    requires Apart(t, after) && (last ==> after == "")
    ensures Lex(TokenText(t) + after, pos, depth)
         == [Lexeme(t, pos, pos + |TokenText(t)|)] + Lex(after, pos + |TokenText(t)|, DepthAfter(t.kind, depth))
  {
    hide Lex, FirstLexeme, TokenAhead, TokenText, DepthAfter, WordLen, Step, LexedToken;
    var s := TokenText(t) + after;
    HeadIs(t, after, pos, depth, last);
    assert s[|TokenText(t)|..] == after;
    LexToken(s, pos, depth);
  }

  lemma HeadIs(t: Token, after: string, pos: nat, depth: nat, last: bool)
    requires LexedToken(t, depth, last)
    requires Apart(t, after) && (last ==> after == "")
    ensures var s := TokenText(t) + after;
            TokenAhead(s) && FirstLexeme(s, pos, depth) == Lexeme(t, pos, pos + |TokenText(t)|)
  {
    hide OperatorLexeme, IsOperatorStart, Step;
    if t.kind == Word {
      assert TokenText(t) == t.value;
      WordRelex(t.value, after, last);
    } else {
      hide WordLen, LexedToken;
      OperatorRelex(t, after, pos, depth, last);
    }
  }

  lemma WordRelex(v: string, after: string, last: bool)
    requires LexedWord(v, last)
    requires EndsWord(v, after) && (last ==> after == "")
    ensures var s := v + after;
            s != "" && s[0] != '#' && !IsSpace(s[0]) && !IsOperatorStart(s) &&
            WordLen(s, START) == |v| && s[..|v|] == v
  {
    assert v + "" == v;
    Resume(v, "", after, START);
    OperatorStartLocal(v, "", after);
  }

  lemma OperatorRelex(t: Token, after: string, pos: nat, depth: nat, last: bool)
    requires LexedToken(t, depth, last) && t.kind != Word
    requires Apart(t, after)
    ensures var s := TokenText(t) + after;
            s != "" && s[0] != '#' && (s[0] == '\n' || !IsSpace(s[0])) && IsOperatorStart(s) &&
            OperatorLexeme(s, pos, depth) == Lexeme(t, pos, pos + |TokenText(t)|)
  {
    hide OperatorRow, Literal, Dec, Kind, OperatorLexeme, IsOperatorStart;
    var k: nat :| k < OPERATORS && t.kind == Kind(k) && t.value == Literal(k)
      && (Kind(k) == ArithClose ==> depth > 0) && -1 <= t.io && (t.io >= 0 ==> IsRedir(Kind(k)));
    var ds := if t.io >= 0 then Dec(t.io) else "";
    var body := Literal(k) + after;
    var s := TokenText(t) + after;
    assert s == ds + body;
    assert FollowsRow(k, after) by { hide OperatorLexeme, IsOperatorStart; }
    RowRelex(k, after, depth);
    hide LexedToken;
    if t.io >= 0 {
      DigitRunAppend(ds, body);
      ValueOfDec(t.io);
      IoOperator(s, ds, body, k, pos, depth);
    } else {
      assert s == body;
      BareOperator(body, k, pos, depth);
    }
  }

  lemma BareOperator(body: string, k: nat, pos: nat, depth: nat)
    requires body != "" && !IsDigit(body[0]) && IsOperatorStart(body)
    requires k < OPERATORS && OperatorRow(body, depth) == k
    ensures OperatorLexeme(body, pos, depth) == Lexeme(Token(Kind(k), Literal(k), -1), pos, pos + |Literal(k)|)
  {
    hide OperatorRow, Literal, Kind, IsOperatorStart;
    assert body[0..] == body;
  }

  lemma IoOperator(s: string, ds: string, body: string, k: nat, pos: nat, depth: nat)
    requires s == ds + body && ds != "" && AllDigits(ds) && DigitRun(s) == |ds|
    requires body != "" && (body[0] == '<' || body[0] == '>')
    requires k < OPERATORS && OperatorRow(body, depth) == k
    ensures s != "" && IsDigit(s[0]) && IsOperatorStart(s)
    ensures OperatorLexeme(s, pos, depth)
         == Lexeme(Token(Kind(k), Literal(k), Value(ds, 0)), pos, pos + |ds| + |Literal(k)|)
  {
    hide OperatorRow, Literal, DigitRun, Kind;
    assert s[..|ds|] == ds && s[|ds|..] == body && s[0] == ds[0] && At(s, |ds|) == body[0];
  }

  predicate FollowsRow(k: nat, t: string)
    requires k < OPERATORS
  {
    t == "" || Kind(k) in {Semicolon, Newline, LParen, ArithOpen} || t[0] !in "|&<>)-"
  }

  lemma RowRelex(k: nat, after: string, depth: nat)
    requires k < OPERATORS && FollowsRow(k, after) && (Kind(k) == ArithClose ==> depth > 0)
    ensures var body := Literal(k) + after;
            OperatorRow(body, depth) == k && IsOperatorStart(body)
            && !IsDigit(body[0]) && body[0] != '#' && (body[0] == '\n' || !IsSpace(body[0]))
            && (IsRedir(Kind(k)) ==> body[0] == '<' || body[0] == '>')
  {
  }

  /** For every input: print its tokens, lex again, and nothing changed. */
  lemma RelexTokenized(s: string)
    ensures Tokenized(Print(Tokenized(s))) == Tokenized(s)
  {
    LexIsLexed(s, 0, 0);
    Relex(Tokenized(s), 0, 0);
  }

  /** Exactly the normal-form lists are outputs of the tokenizer. */
  lemma TokenizerImage(ts: seq<Token>)
    ensures Lexed(ts, 0) <==> exists s :: Tokenized(s) == ts
  {
    hide Lex, Lexed;
    if Lexed(ts, 0) {
      Relex(ts, 0, 0);
      assert Tokenized(Print(ts)) == ts;
    }
    forall s | Tokenized(s) == ts ensures Lexed(ts, 0) {
      LexIsLexed(s, 0, 0);
    }
  }
}
