/** Here-documents from the input to the tree: the reader, the tokenizer, the
    parser and the walk agree on which body belongs to which operator. */
module HeredocFlow {
  import opened Ascii
  import opened Decimal
  import opened Wrappers
  import opened SeqFacts
  import opened Tokens
  import opened LexerSpec
  import opened LexerNormalForm
  import opened Syntax
  import opened ParserSpec
  import opened ParserRoundTrip
  import opened ParserSound
  import opened Heredocs
  import opened HeredocQueue
  import I = InputSpec
  import P = InputProofs

  // ---------------------------------------------------- one-line commands

  /** A byte without a meaning of its own to the reader. */
  predicate Bare(c: char) {
    c !in "'\"\\#()<>;|& \t"
  }

  predicate NoSubstitution(w: string) {
    forall i :: 0 <= i < |w| - 1 ==> !(w[i] == '$' && w[i + 1] == '(')
  }

  /** A word in any quoting, closed, on one line and without `$(`. */
  ghost predicate LineWord(w: string) {
    LexedWord(w, false) && '\n' !in w && NoSubstitution(w)
  }

  /** `#` stands unquoted in the word. */
  predicate OpenHash(w: string, st: Scan)
    decreases |w|
  {
    w != "" && ((st.Neutral() && w[0] == '#') || (var (k, st') := Step(w, st); OpenHash(w[k..], st')))
  }

  /** A delimiter without quotes, or one quoted as a whole. */
  predicate BareDelim(w: string) {
    w != "" && forall i :: 0 <= i < |w| ==> Bare(w[i]) || w[i] == '#'
  }

  predicate QuotedDelim(w: string) {
    |w| >= 2 && (w[0] == '\'' || w[0] == '"') && w[|w| - 1] == w[0] && w[0] !in w[1..|w| - 1]
  }

  predicate DelimWord(w: string) {
    BareDelim(w) || QuotedDelim(w)
  }

  function DelimText(w: string): string {
    if QuotedDelim(w) then w[1..|w| - 1] else w
  }

  predicate LineOperator(k: nat)
    requires k < OPERATORS
  {
    Kind(k) !in {Newline, ArithOpen, ArithClose}
  }

  /** A word, or an operator on one line outside arithmetic. */
  ghost predicate LineToken(t: Token) {
    if t.kind == Word then LineWord(t.value) && t.io == -1
    else exists k: nat {:trigger Kind(k)} ::
      k < OPERATORS && LineOperator(k) && t.kind == Kind(k) && t.value == Literal(k)
  }

  /** Such tokens and EOF; every here-document operator has its delimiter. */
  ghost predicate LineCommand(ts: Toks) {
    && ts != [] && ts[|ts| - 1] == EOF_TOKEN
    && (forall i :: 0 <= i < |ts| - 1 ==> LineToken(ts[i]))
    && (forall i :: 0 <= i < |ts| - 1 && IsHeredoc(ts[i].kind) ==> ts[i + 1].kind == Word && DelimWord(ts[i + 1].value))
  }

  function Found(t: Token, w: string): I.Hd {
    I.Hd(DelimText(w), t.kind == HeredocStrip)
  }

  /** What the reader's scan is left with: it stops at a word with an unquoted
      `#`, delimiters aside. */
  function After(ts: Toks, c: I.Ctx): I.Ctx
    decreases |ts|
  {
    if |ts| <= 1 then c
    else if IsHeredoc(ts[0].kind) then After(ts[2..], c.(pending := c.pending + [Found(ts[0], ts[1].value)]))
    else if ts[0].kind == Word && OpenHash(ts[0].value, START) then c
    else After(ts[1..], AfterOne(ts[0], c))
  }

  /** What a token that is neither does to the scan. */
  function AfterOne(t: Token, c: I.Ctx): I.Ctx {
    if t.kind == LParen then c.(depth := c.depth + 1)
    else if t.kind == RParen && c.depth > 0 then c.(depth := c.depth - 1)
    else c
  }

  /** Here-documents before the first such word. */
  function Count(ts: Toks): nat
    decreases |ts|
  {
    if |ts| <= 1 then 0
    else if IsHeredoc(ts[0].kind) then 1 + Count(ts[2..])
    else if ts[0].kind == Word && OpenHash(ts[0].value, START) then 0
    else Count(ts[1..])
  }

  /** No here-document operator follows a word with an unquoted `#`, delimiters
      aside. */
  predicate AllSeen(ts: Toks)
    decreases |ts|
  {
    if |ts| <= 1 then true
    else if IsHeredoc(ts[0].kind) then AllSeen(ts[2..])
    else if ts[0].kind == Word && OpenHash(ts[0].value, START) then InTokens(ts[1..]) == []
    else AllSeen(ts[1..])
  }

  /** Nothing, or a blank. */
  predicate BlankAhead(r: string) {
    r == "" || r[0] == ' '
  }

  predicate Open(c: I.Ctx) {
    !c.sq && !c.dq
  }

  // ----------------------------------------------------- scanning a token

  lemma {:induction false} ScanBare(w: string, r: string, c: I.Ctx)
    requires Open(c) && forall i :: 0 <= i < |w| ==> Bare(w[i])
    ensures I.Scan(w + r, c) == I.Scan(r, c)
  {
    if w == "" {
      assert w + r == r;
    } else {
      var s := w + r;
      assert s[0] == w[0] && s[1..] == w[1..] + r && Bare(w[0]);
      ScanOther(s, c);
      ScanBare(w[1..], r, c);
    }
  }

  /** A byte the scan only passes over. */
  lemma ScanOther(s: string, c: I.Ctx)
    requires Open(c) && s != "" && s[0] !in "'\"\\#()"
    requires s[0] == '<' ==> At(s, 1) != '<'
    ensures I.Scan(s, c) == I.Scan(s[1..], c)
  {
  }

  lemma ScanParens(s: string, c: I.Ctx)
    requires Open(c) && s != "" && (s[0] == '(' || s[0] == ')')
    ensures I.Scan(s, c) == I.Scan(s[1..], if s[0] == '(' then c.(depth := c.depth + 1)
                                           else if c.depth > 0 then c.(depth := c.depth - 1)
                                           else c)
  {
    hide I.HdOp;
  }

  /** Digits are bare. */
  lemma DigitsBare(ds: string)
    requires AllDigits(ds)
    ensures forall i :: 0 <= i < |ds| ==> Bare(ds[i])
  {
  }

  /** Any operator but parentheses and here-documents is passed over. */
  lemma ScanOperator(k: nat, r: string, c: I.Ctx)
    requires k < OPERATORS && LineOperator(k) && Open(c) && BlankAhead(r)
    requires Kind(k) !in {LParen, RParen} && !IsHeredoc(Kind(k))
    ensures I.Scan(Literal(k) + r, c) == I.Scan(r, c)
  {
    hide I.Scan;
    var s := Literal(k) + r;
    assert s[0] == Literal(k)[0];
    if |Literal(k)| == 1 {
      Drop1(Literal(k)[0], r);
      assert s == [Literal(k)[0]] + r;
      ScanOther(s, c);
    } else {
      assert |Literal(k)| == 2;
      assert s == [Literal(k)[0], Literal(k)[1]] + r;
      Drop2(Literal(k)[0], Literal(k)[1], r);
      Drop1(Literal(k)[1], r);
      ScanOther(s, c);
      ScanOther(s[1..], c);
    }
  }

  lemma {:induction false} DelimBare(w: string, r: string)
    requires (forall i :: 0 <= i < |w| ==> Bare(w[i]) || w[i] == '#') && BlankAhead(r)
    ensures I.DelimLen(w + r) == |w|
  {
    if w == "" {
      assert w + r == r;
    } else {
      var s := w + r;
      assert s[0] == w[0] && s[1..] == w[1..] + r && (Bare(w[0]) || w[0] == '#');
      assert !I.EndsDelim(s);
      DelimBare(w[1..], r);
    }
  }

  lemma {:induction false} QuoteEnds(b: string, q: char, r: string)
    requires q !in b
    ensures IndexOfChar(b + ([q] + r), q) == |b|
  {
    if b == "" {
      assert b + ([q] + r) == [q] + r;
    } else {
      assert (b + ([q] + r))[1..] == b[1..] + ([q] + r);
      QuoteEnds(b[1..], q, r);
    }
  }

  lemma DelimOf(w: string, r: string)
    requires DelimWord(w) && BlankAhead(r)
    ensures I.ReadDelim(" " + (w + r)) == (Some(DelimText(w)), 1 + |w|)
  {
    hide I.DelimLen, IndexOfChar;
    var t := w + r;
    Drop1(' ', t);
    assert t[0] == w[0];
    if QuotedDelim(w) {
      var b := w[1..|w| - 1];
      QuoteEnds(b, w[0], r);
      assert t[1..] == b + ([w[0]] + r);
      assert t[1..][..|b|] == b;
    } else {
      DelimBare(w, r);
      assert Bare(w[0]) || w[0] == '#';
      assert t[..|w|] == w;
    }
    assert I.SkipBlanks(t) == 0;
  }

  /** The operator and its word are one here-document of the reader. */
  lemma ScanHeredoc(strip: bool, w: string, r: string, c: I.Ctx)
    requires Open(c) && DelimWord(w) && BlankAhead(r)
    ensures I.Scan((if strip then "<<-" else "<<") + (" " + (w + r)), c)
         == I.Scan(r, c.(pending := c.pending + [I.Hd(DelimText(w), strip)]))
  {
    hide I.Scan, I.ReadDelim, DelimWord, DelimText;
    var op := if strip then "<<-" else "<<";
    var tail := " " + (w + r);
    var s := op + tail;
    DelimOf(w, r);
    assert s[0] == '<' && s[1] == '<' && At(s, 2) == (if strip then '-' else ' ');
    assert s[|op|..] == tail;
    assert I.HdOp(s) == (Some(I.Hd(DelimText(w), strip)), |op| + 1 + |w|);
    P.ScanOperator(s, c);
    assert s[|op| + 1 + |w|..] == r;
  }

  // ------------------------------------------------------- scanning a word

  /** The reader and the tokenizer are in the same quotes. */
  predicate Same(c: I.Ctx, st: Scan) {
    c.sq == st.sq && c.dq == st.dq && st.sub == 0 && !(st.sq && st.dq)
  }

  function Unquoted(c: I.Ctx): I.Ctx {
    c.(sq := false, dq := false)
  }

  /** One step of the tokenizer's scan is one of the reader's. */
  lemma ScanStep(w: string, r: string, c: I.Ctx, st: Scan)
    requires w != "" && Same(c, st) && !AtWordEnd(w, st) && NoSubstitution(w)
    requires w != "\\" || st.sq
    requires !(st.Neutral() && w[0] == '#')
    ensures var (k, st') := Step(w, st);
            var d := c.(sq := st'.sq, dq := st'.dq);
            Same(d, st') && NoSubstitution(w[k..]) && w[k..] + r == (w + r)[k..]
                && I.Scan(w + r, c) == I.Scan(w[k..] + r, d)
  {
    hide I.HdOp, ArithAhead, DigitRun;
    var s := w + r;
    var (k, st') := Step(w, st);
    assert s[0] == w[0] && s[k..] == w[k..] + r;
    assert At(w, 0) == w[0];
    if st.Neutral() {
      NotOperator(w, st);
    }
    var d := c.(sq := st'.sq, dq := st'.dq);
    assert !st.sq && w[0] == '\\' ==> |w| > 1;
  }

  lemma NotOperator(w: string, st: Scan)
    requires w != "" && !AtWordEnd(w, st) && st.Neutral()
    ensures w[0] != '(' && w[0] != ')' && w[0] != '<'
  {
  }
  /** A closed word leaves the reader unquoted after it, or at its first
      unquoted `#`. */
  lemma {:induction false} ScanWord(w: string, r: string, c: I.Ctx, st: Scan)
    requires Same(c, st) && WordLen(w, st) == |w| && Closed(w, st) && NoSubstitution(w)
    ensures I.Scan(w + r, c) == if OpenHash(w, st) then Unquoted(c) else I.Scan(r, Unquoted(c))
    decreases |w|
  {
    hide I.Scan, Step, NoSubstitution, AtWordEnd;
    WordLenTurn(w, st);
    if w == "" {
      assert w + r == r;
    } else if st.Neutral() && w[0] == '#' {
      HashStops(w + r, c);
    } else {
      var (k, st') := Step(w, st);
      ScanStep(w, r, c, st);
      ScanWord(w[k..], r, c.(sq := st'.sq, dq := st'.dq), st');
    }
  }

  lemma HashStops(s: string, c: I.Ctx)
    requires Open(c) && s != "" && s[0] == '#'
    ensures I.Scan(s, c) == c
  {
    hide I.HdOp;
  }

  /** Digits glued in front of an operator are passed over. */
  lemma ScanIo(t: Token, r: string, c: I.Ctx)
    requires Open(c)
    ensures I.Scan(TokenText(t) + r, c) == I.Scan(t.value + r, c)
  {
    hide I.Scan;
    var ds := if t.io >= 0 then Dec(t.io) else "";
    DigitsBare(ds);
    Assoc(ds, t.value, r);
    ScanBare(ds, t.value + r, c);
  }

  lemma ScanToken(t: Token, r: string, c: I.Ctx)
    requires Open(c) && LineToken(t) && !IsHeredoc(t.kind) && BlankAhead(r)
    ensures I.Scan(TokenText(t) + r, c) ==
      if t.kind == Word && OpenHash(t.value, START) then c else I.Scan(r, AfterOne(t, c))
  {
    hide I.Scan, TokenText, OpenHash, WordLen, Closed;
    ScanIo(t, r, c);
    if t.kind == Word {
      ScanWord(t.value, r, c, START);
    } else {
      var k: nat :| k < OPERATORS && LineOperator(k) && t.kind == Kind(k) && t.value == Literal(k);
      if Kind(k) in {LParen, RParen} {
        assert t.value == "(" || t.value == ")";
        Drop1(t.value[0], r);
        assert t.value + r == [t.value[0]] + r;
        ScanParens(t.value + r, c);
      } else {
        ScanOperator(k, r, c);
      }
    }
  }

  lemma LineTail(ts: Toks)
    requires LineCommand(ts) && |ts| > 1
    ensures LineCommand(ts[1..])
    ensures IsHeredoc(ts[0].kind) ==> |ts| > 2 && DelimWord(ts[1].value) && ts[1].io == -1 && LineCommand(ts[2..])
  {
    hide LineToken, DelimWord;
    var rest := ts[1..];
    assert rest[|rest| - 1] == EOF_TOKEN;
    if IsHeredoc(ts[0].kind) {
      assert ts[1].kind == Word && |ts| > 2;
      assert LineToken(ts[1]);
      WordHasNoIo(ts[1]);
      assert ts[2..][|ts[2..]| - 1] == EOF_TOKEN;
    }
  }

  lemma WordHasNoIo(t: Token)
    requires LineToken(t) && t.kind == Word
    ensures t.io == -1
  {
  }

  lemma ScanSpace(r: string, c: I.Ctx)
    requires Open(c)
    ensures I.Scan(" " + r, c) == I.Scan(r, c)
  {
    hide I.Scan;
    Drop1(' ', r);
    ScanOther(" " + r, c);
  }

  /** The text after a token. */
  function Rest(ts: Toks): string {
    if |ts| <= 1 then "" else " " + Print(ts)
  }

  lemma PrintHead(ts: Toks)
    requires |ts| > 1
    ensures Print(ts) == TokenText(ts[0]) + Rest(ts[1..])
    ensures BlankAhead(Rest(ts[1..]))
  {
    hide TokenText;
    if |ts| == 2 {
      assert TokenText(ts[0]) + "" == TokenText(ts[0]);
    } else {
      Assoc(TokenText(ts[0]), " ", Print(ts[1..]));
    }
  }

  lemma HeredocText(t: Token)
    requires LineToken(t) && IsHeredoc(t.kind)
    ensures t.value == if t.kind == HeredocStrip then "<<-" else "<<"
  {
  }

  /** A here-document operator with its word. */
  lemma ScanHeredocToken(ts: Toks, c: I.Ctx)
    requires LineCommand(ts) && |ts| > 1 && IsHeredoc(ts[0].kind) && Open(c)
    ensures |ts| > 2
    ensures I.Scan(Print(ts), c)
         == I.Scan(Rest(ts[2..]), c.(pending := c.pending + [Found(ts[0], ts[1].value)]))
  {
    hide I.Scan, Print, LineCommand, LineToken, DelimWord, DelimText;
    LineTail(ts);
    FirstOfLine(ts);
    HeredocText(ts[0]);
    PrintHead(ts);
    var w, r := ts[1].value, Rest(ts[2..]);
    PrintHead(ts[1..]);
    assert ts[1..][1..] == ts[2..] && ts[1..][0] == ts[1];
    assert TokenText(ts[1]) == w;
    ScanIo(ts[0], " " + (w + r), c);
    ScanHeredoc(ts[0].kind == HeredocStrip, w, r, c);
  }

  lemma FirstOfLine(ts: Toks)
    requires LineCommand(ts) && |ts| > 1
    ensures LineToken(ts[0])
  {
  }

  /** The reader's scan of a one-line command, whatever its quoting, goes token
      by token up to a word with an unquoted `#`. */
  lemma {:induction false} ScanPrint(ts: Toks, c: I.Ctx)
    requires LineCommand(ts) && Open(c)
    ensures I.Scan(Print(ts), c) == After(ts, c)
    decreases |ts|, 0
  {
    hide I.Scan, TokenText, LineToken, LineCommand, OpenHash, Found;
    if |ts| <= 1 {
      P.ScanNothing(c);
    } else {
      LineTail(ts);
      FirstOfLine(ts);
      PrintHead(ts);
      if IsHeredoc(ts[0].kind) {
        ScanHeredocToken(ts, c);
        ScanRest(ts[2..], c.(pending := c.pending + [Found(ts[0], ts[1].value)]));
      } else {
        ScanToken(ts[0], Rest(ts[1..]), c);
        if !(ts[0].kind == Word && OpenHash(ts[0].value, START)) {
          ScanRest(ts[1..], AfterOne(ts[0], c));
        }
      }
    }
  }

  lemma {:induction false} ScanRest(ts: Toks, c: I.Ctx)
    requires LineCommand(ts) && Open(c)
    ensures I.Scan(Rest(ts), c) == After(ts, c)
    decreases |ts|, 1
  {
    hide I.Scan, LineCommand;
    if |ts| <= 1 {
      P.ScanNothing(c);
    } else {
      ScanSpace(Print(ts), c);
      ScanPrint(ts, c);
    }
  }

  // ----------------------------------------------------- the whole way

  /** The here-documents of the parser as the reader knows them. */
  function Known(rs: seq<Redir>): seq<I.Hd> {
    if rs == [] then []
    else [I.Hd(if rs[0].delim.Some? then rs[0].delim.value else "", rs[0].kind == HeredocStrip)] + Known(rs[1..])
  }

  /** The scan finds a prefix of the here-documents the tokens have, and leaves
      no quote or backslash open; it finds all exactly when `AllSeen`. */
  ghost predicate Finds(ts: Toks, c: I.Ctx) {
    var known := Known(InTokens(ts));
    && Count(ts) <= |known|
    && After(ts, c) == c.(depth := After(ts, c).depth, pending := c.pending + known[..Count(ts)])
    && (AllSeen(ts) <==> Count(ts) == |known|)
  }

  lemma {:induction false} AfterFinds(ts: Toks, c: I.Ctx)
    requires LineCommand(ts)
    ensures Finds(ts, c)
    decreases |ts|
  {
    hide Finds, LineCommand, LineToken, OpenHash, Found, After, AfterOne, Count, AllSeen, Known, InTokens;
    if |ts| <= 1 {
      EndFinds(ts, c);
    } else {
      LineTail(ts);
      if IsHeredoc(ts[0].kind) {
        AfterFinds(ts[2..], c.(pending := c.pending + [Found(ts[0], ts[1].value)]));
        HeredocFinds(ts, c);
      } else if ts[0].kind == Word && OpenHash(ts[0].value, START) {
        HashFinds(ts, c);
      } else {
        AfterFinds(ts[1..], AfterOne(ts[0], c));
        PlainFinds(ts, c);
      }
    }
  }

  lemma EndFinds(ts: Toks, c: I.Ctx)
    requires LineCommand(ts) && |ts| <= 1
    ensures Finds(ts, c)
  {
    hide LineCommand;
    OnlyEof(ts);
    assert c.pending + [] == c.pending;
  }

  lemma HeredocFinds(ts: Toks, c: I.Ctx)
    requires LineCommand(ts) && |ts| > 1 && IsHeredoc(ts[0].kind) && |ts| > 2 && DelimWord(ts[1].value)
    requires Finds(ts[2..], c.(pending := c.pending + [Found(ts[0], ts[1].value)]))
    ensures Finds(ts, c)
  {
    hide LineCommand, LineToken, OpenHash, Found, DelimWord, MakeRedir;
    FirstOfLine(ts);
    NotArith(ts[0]);
    var rest := InTokens(ts[2..]);
    KnownTarget(ts[0], ts[1].value, rest);
    TakeOne(c.pending, Found(ts[0], ts[1].value), Known(rest), Count(ts[2..]));
    hide Known;
  }

  lemma HashFinds(ts: Toks, c: I.Ctx)
    requires LineCommand(ts) && |ts| > 1 && ts[0].kind == Word && OpenHash(ts[0].value, START)
    ensures Finds(ts, c)
  {
    hide LineCommand, LineToken, OpenHash, Known;
    assert c.pending + [] == c.pending;
    KnownLength(InTokens(ts[1..]));
  }

  lemma PlainFinds(ts: Toks, c: I.Ctx)
    requires LineCommand(ts) && |ts| > 1 && !IsHeredoc(ts[0].kind)
    requires !(ts[0].kind == Word && OpenHash(ts[0].value, START)) && Finds(ts[1..], AfterOne(ts[0], c))
    ensures Finds(ts, c)
  {
    hide LineCommand, LineToken, OpenHash, Known;
    FirstOfLine(ts);
    NotArith(ts[0]);
  }

  lemma TakeOne<T>(p: seq<T>, x: T, rest: seq<T>, n: nat)
    requires n <= |rest|
    ensures (p + [x]) + rest[..n] == p + ([x] + rest)[..1 + n]
  {
  }

  lemma KnownTarget(t: Token, w: string, rest: seq<Redir>)
    requires IsHeredoc(t.kind) && DelimWord(w)
    ensures Known([MakeRedir(t.kind, t.io, w)] + rest) == [Found(t, w)] + Known(rest)
  {
    hide MakeRedir, DelimText;
    TargetDelim(t, w);
    Drop1(MakeRedir(t.kind, t.io, w), rest);
  }

  lemma OnlyEof(ts: Toks)
    requires LineCommand(ts) && |ts| <= 1
    ensures InTokens(ts) == []
  {
    assert ts == [EOF_TOKEN];
  }

  lemma NotArith(t: Token)
    requires LineToken(t)
    ensures t.kind != ArithOpen && t.kind != Eof
  {
  }

  lemma TargetDelim(t: Token, w: string)
    requires IsHeredoc(t.kind) && DelimWord(w)
    ensures MakeRedir(t.kind, t.io, w).delim == Some(DelimText(w)) && MakeRedir(t.kind, t.io, w).kind == t.kind
  {
    if QuotedDelim(w) {
      assert LastIndex(w, w[0]) == |w| - 1;
    } else {
      assert Bare(w[0]) || w[0] == '#';
    }
  }

  lemma {:induction false} KnownLength(rs: seq<Redir>)
    ensures |Known(rs)| == |rs|
  {
    if rs != [] {
      KnownLength(rs[1..]);
    }
  }

  lemma EofIsLast(ts: Toks)
    requires LineCommand(ts)
    ensures Left(ts, true)
  {
    forall i | 0 <= i < |ts| - 1 ensures ts[i].kind != Eof {
      NotArith(ts[i]);
    }
  }

  /** A line that leaves nothing open but here-documents is the whole command. */
  lemma OneLine(line: string, c: I.Ctx, lines: seq<string>)
    requires !c.sq && !c.dq && !c.bs && c.depth == 0
    ensures var o := I.Logical(line, c, lines, 0);
            o.text == line && o.hds == c.pending && |o.bodies| == |c.pending|
  {
    hide I.Drain;
    if c.pending != [] {
      var (bodies, roles) := I.Drain(lines, c.pending, 0);
      var d := c.(pending := []);
      assert !I.Needs(d);
      var o := I.Logical(line, d, lines[|roles|..], |bodies|);
      assert o == I.Outcome(line, [], [], [], d, lines[|roles|..]);
      assert bodies + [] == bodies && c.pending + [] == c.pending;
    }
  }

  /** The here-documents the reader finds in a one-line command are those of its
      tokens if and only if none follows a word with an unquoted `#`,
      delimiters aside. */
  lemma FoundExactly(ts: Toks)
    requires LineCommand(ts)
    ensures I.ScanLine(Print(ts), I.START).pending == Known(InTokens(ts)) <==> AllSeen(ts)
  {
    hide I.Scan, After, AllSeen, Count, LineCommand, Print, InTokens;
    ScanPrint(ts, I.START);
    AfterFinds(ts, I.START);
    var all := Known(InTokens(ts));
    assert [] + all[..Count(ts)] == all[..Count(ts)];
    assert all[..|all|] == all;
  }

  /** Main result, for every one-line command that leaves the reader no open
      parenthesis and every further input: the reader returns its text, which
      lexes to its tokens, and the bodies read are those of its here-document
      operators up to the first word with an unquoted `#`; when there is none
      before an operator, and the command parses, the walk hands the k-th body
      to the k-th operator, unless a group with a here-document contains
      another. */
  lemma HeredocsMeet(ts: Toks, more: seq<string>)
    requires Lexed(ts, 0) && LineCommand(ts) && After(ts, I.START).depth == 0
    ensures var o := I.ReadLogical([Print(ts)] + more).value;
            && o.text == Print(ts) && Tokenized(o.text) == ts
            && |o.bodies| == |o.hds| == Count(ts) <= |Known(InTokens(ts))|
            && o.hds == Known(InTokens(ts))[..Count(ts)]
            && (o.hds == Known(InTokens(ts)) <==> AllSeen(ts))
            && match Parse(ts)
               case Some(a) =>
                 AllSeen(ts) && NoCrossing(a) ==>
                   (var got := Fill(Walk(a), o.bodies);
                    |got| == |o.bodies| == |InTokens(ts)| && forall k :: 0 <= k < |got| ==>
                        got[k] == (InTokens(ts)[k], o.bodies[k]))
               case None => true
  {
    hide I.Logical, I.Scan, Lex, Parse, InTokens, NoCrossing, Walk, Fill, Visits, After, Count, AllSeen, Lexed,
        LineCommand;
    var lines := [Print(ts)] + more;
    Drop1(Print(ts), more);
    ScanPrint(ts, I.START);
    AfterFinds(ts, I.START);
    var c, all := After(ts, I.START), Known(InTokens(ts));
    assert I.ScanLine(Print(ts), I.START) == c;
    assert [] + all[..Count(ts)] == all[..Count(ts)] && all[..|all|] == all;
    OneLine(Print(ts), c, more);
    KnownLength(InTokens(ts));
    Relex(ts, 0, 0);
    EofIsLast(ts);
    if AllSeen(ts) {
      BodiesMeetOperators(ts, I.ReadLogical(lines).value.bodies);
    }
  }

  // ------------------------------------------------------------ a witness

  /** The reader takes `#` inside a word for a comment, the tokenizer does not:
      no body is read for the here-document after it. */
  lemma HashHidesHeredoc()
    ensures var ts := [W("a#"), Token(Heredoc, "<<", -1), W("E"), EOF_TOKEN];
            && Tokenized("a# << E") == ts && InTokens(ts) != []
            && I.ScanLine("a# << E", I.START).pending == []
  {
    hide Lex, Lexed, LexedWord, Print, I.ScanLine, InTokens;
    var ts := [W("a#"), Token(Heredoc, "<<", -1), W("E"), EOF_TOKEN];
    HashWords();
    HashLexed(ts);
    Relex(ts, 0, 0);
    HashScan();
    HashTokens(ts);
  }

  lemma HashTokens(ts: Toks)
    requires ts == [W("a#"), Token(Heredoc, "<<", -1), W("E"), EOF_TOKEN]
    ensures InTokens(ts) != []
  {
    hide MakeRedir, SkipArith;
    assert ts[1..] == [Token(Heredoc, "<<", -1), W("E"), EOF_TOKEN];
    assert InTokens(ts[1..]) != [];
  }

  lemma HashWords()
    ensures LexedWord("a#", false) && LexedWord("E", true) && LexedWord("E", false)
  {
    assert "a#"[1..] == "#" && "#"[1..] == "" && "E"[1..] == "";
    assert WordLen("#", START) == 1 && WordLen("", START) == 0;
    assert Closed("#", START);
  }

  lemma HashLexed(ts: Toks)
    requires ts == [W("a#"), Token(Heredoc, "<<", -1), W("E"), EOF_TOKEN]
    requires LexedWord("a#", false) && LexedWord("E", true)
    ensures Lexed(ts, 0) && Print(ts) == "a# << E"
  {
    hide LexedWord;
    HashTail(ts[1..]);
    assert ts[1..] == [Token(Heredoc, "<<", -1), W("E"), EOF_TOKEN];
    hide LexedToken;
  }

  lemma HashTail(ts: Toks)
    requires ts == [Token(Heredoc, "<<", -1), W("E"), EOF_TOKEN] && LexedWord("E", true)
    ensures Lexed(ts, 0) && Print(ts) == "<< E"
  {
    hide LexedWord;
    assert ts[1..] == [W("E"), EOF_TOKEN] && ts[1..][1..] == [EOF_TOKEN];
    assert Kind(11) == Heredoc && Literal(11) == "<<";
    assert LexedToken(ts[0], 0, false);
    assert Lexed(ts[1..], 0);
    assert Print(ts[1..]) == "E";
  }

  lemma HashScan()
    ensures I.ScanLine("a# << E", I.START).pending == []
  {
    hide I.HdOp;
    assert "a# << E"[1..] == "# << E";
    assert I.Scan("# << E", I.START) == I.START;
  }
}
