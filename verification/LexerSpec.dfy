/** What the tokenizer computes, as functions of the rest of the input. */
module LexerSpec {
  import opened Ascii
  import opened Decimal
  import opened Tokens

  /** `$((` at the head of `s`. */
  predicate ArithAhead(s: string) {
    At(s, 0) == '$' && At(s, 1) == '(' && At(s, 2) == '('
  }

  /** First byte of an operator literal other than `$((`. */
  predicate IsOperator(c: char) {
    c == ';' || c == '\n' || c == '(' || c == ')' || c == '|' || c == '&' || c == '<' || c == '>'
  }

  predicate IsOperatorStart(s: string) {
    if ArithAhead(s) then true
    else if IsDigit(At(s, 0)) then
      At(s, DigitRun(s)) == '<' || At(s, DigitRun(s)) == '>'
    else IsOperator(At(s, 0))
  }

  /** Operator row `k` matches at the head of `s`; `))` only inside `$((`. */
  predicate Matches(s: string, k: nat, depth: nat)
    requires k < OPERATORS
  {
    Literal(k) <= s && !(Kind(k) == ArithClose && depth == 0)
  }

  /** The first matching row of the operator table, OPERATORS if none. */
  function OperatorRow(s: string, depth: nat): (k: nat)
    ensures k <= OPERATORS
  {
    var c, d := At(s, 0), At(s, 1);
    if c == ';' then 0
    else if c == '\n' then 1
    else if ArithAhead(s) then 2
    else if c == '(' then 3
    else if c == ')' then (if d == ')' && depth != 0 then 4 else 5)
    else if c == '|' then (if d == '|' then 6 else 7)
    else if c == '&' then (if d == '&' then 8 else 9)
    else if c == '<' then
      (if d == '<' then (if At(s, 2) == '-' then 10 else 11) else if d == '&' then 12 else 13)
    else if c == '>' then (if d == '>' then 14 else if d == '&' then 15 else 16)
    else OPERATORS
  }

  function DepthAfter(k: TokenKind, depth: nat): nat {
    if k == ArithOpen then depth + 1
    else if k == ArithClose && depth > 0 then depth - 1
    else depth
  }

  /** A file descriptor before a redirection operator, -1 when no digits. */
  function IoNumber(s: string): int {
    if IsDigit(At(s, 0)) then Value(s[..DigitRun(s)], 0) else -1
  }

  /** Quote state of the word scanner. */
  datatype Scan = Scan(sq: bool, dq: bool, sub: nat) {
    predicate Neutral() { !sq && !dq && sub == 0 }
  }

  const START := Scan(false, false, 0)

  /** `$(` not followed by a third `(`, outside single quotes. */
  predicate CmdsubAhead(s: string, sq: bool) {
    !sq && At(s, 0) == '$' && At(s, 1) == '(' && At(s, 2) != '('
  }

  /** Bytes the scanner takes in its next step, and the state after it. */
  function Step(s: string, st: Scan): (r: (nat, Scan))
    requires s != ""
    ensures 1 <= r.0 <= |s| && r.0 <= 2
  {
    if st.sub == 0 && CmdsubAhead(s, st.sq) then (2, st.(sub := 1))
    else if s[0] == '\'' && !st.dq then (1, st.(sq := !st.sq))
    else if s[0] == '"' && !st.sq then (1, st.(dq := !st.dq))
    else if s[0] == '\\' && !st.sq then (if |s| > 1 then 2 else 1, st)
    else if st.sub > 0 && !st.sq && s[0] == '(' then (1, st.(sub := st.sub + 1))
    else if st.sub > 0 && !st.sq && s[0] == ')' then (1, st.(sub := st.sub - 1))
    else (1, st)
  }

  /** The scanner stops here: end of input, or an unquoted separator. */
  predicate AtWordEnd(s: string, st: Scan) {
    s == "" || (st.Neutral() && (IsSpace(s[0]) || IsOperatorStart(s)))
  }

  /** Length of the word at the head of `s`. */
  function WordLen(s: string, st: Scan): (n: nat)
    ensures n <= |s|
    ensures !AtWordEnd(s, st) ==> n > 0
  {
    if AtWordEnd(s, st) then 0
    else var (k, st') := Step(s, st); k + WordLen(s[k..], st')
  }

  /** One token and the span of input it was read from. */
  datatype Lexeme = Lexeme(tok: Token, start: nat, stop: nat)

  function OperatorLexeme(s: string, pos: nat, depth: nat): (x: Lexeme)
    requires IsOperatorStart(s)
    ensures x.start == pos < x.stop <= pos + |s|
    ensures x.tok.kind != Eof && x.tok.kind != Word
  {
    OperatorStartMatches(s, depth);
    var io := if IsDigit(At(s, 0)) then DigitRun(s) else 0;
    var k := OperatorRow(s[io..], depth);
    Lexeme(Token(Kind(k), Literal(k), IoNumber(s)), pos, pos + io + |Literal(k)|)
  }

  function WordLexeme(s: string, pos: nat): (x: Lexeme) {
    Lexeme(Token(Word, s[..WordLen(s, START)], -1), pos, pos + WordLen(s, START))
  }

  /** A token starts here: no blank, no comment. */
  predicate TokenAhead(s: string) {
    s != "" && s[0] != '#' && (s[0] == '\n' || !IsSpace(s[0]))
  }

  function FirstLexeme(s: string, pos: nat, depth: nat): (x: Lexeme)
    requires TokenAhead(s)
    ensures x.start == pos < x.stop <= pos + |s|
  {
    if IsOperatorStart(s) then OperatorLexeme(s, pos, depth) else WordLexeme(s, pos)
  }

  /** Bytes before the next token: one blank, or a comment. */
  function GapLen(s: string): (n: nat)
    requires s != "" && !TokenAhead(s)
    ensures 0 < n <= |s|
  {
    if s[0] == '#' then IndexOfChar(s, '\n') else 1
  }

  /** All tokens of `s`, whose first byte sits at offset `pos` of the input. */
  function Lex(s: string, pos: nat, depth: nat): (xs: seq<Lexeme>)
    ensures |xs| > 0
    decreases |s|
  {
    if s == "" then [Lexeme(EOF_TOKEN, pos, pos)]
    else if TokenAhead(s) then
      var x := FirstLexeme(s, pos, depth);
      [x] + Lex(s[x.stop - pos..], x.stop, DepthAfter(x.tok.kind, depth))
    else Lex(s[GapLen(s)..], pos + GapLen(s), depth)
  }

  lemma LexEnd(pos: nat, depth: nat)
    ensures Lex("", pos, depth) == [Lexeme(EOF_TOKEN, pos, pos)]
  {
  }

  lemma LexGap(s: string, pos: nat, depth: nat)
    requires s != "" && !TokenAhead(s)
    ensures Lex(s, pos, depth) == Lex(s[GapLen(s)..], pos + GapLen(s), depth)
  {
  }

  lemma LexToken(s: string, pos: nat, depth: nat)
    requires TokenAhead(s)
    ensures var x := FirstLexeme(s, pos, depth);
            Lex(s, pos, depth) == [x] + Lex(s[x.stop - pos..], x.stop, DepthAfter(x.tok.kind, depth))
  {
  }

  function TokensOf(xs: seq<Lexeme>): (ts: seq<Token>)
    ensures |ts| == |xs|
    ensures forall i :: 0 <= i < |xs| ==> ts[i] == xs[i].tok
  {
    seq(|xs|, i requires 0 <= i < |xs| => xs[i].tok)
  }

  lemma TokensCons(x: Lexeme, xs: seq<Lexeme>)
    ensures TokensOf([x] + xs) == [x.tok] + TokensOf(xs)
  {
  }

  /** The token list `lexer_tokenize` returns for a whole input. */
  function Tokenized(s: string): seq<Token> {
    TokensOf(Lex(s, 0, 0))
  }

  /** `OperatorRow` is the row a scan of the table stops at. */
  lemma RowIsFirstMatch(s: string, depth: nat)
    ensures var k := OperatorRow(s, depth);
            (k < OPERATORS ==> Matches(s, k, depth)) &&
            (forall j {:trigger Matches(s, j, depth)} :: 0 <= j < k && j < OPERATORS ==> !Matches(s, j, depth))
  {
    forall j: nat | j < OPERATORS
      ensures j < OperatorRow(s, depth) ==> !Matches(s, j, depth)
    {
      PrefixByBytes(s, j);
    }
    if OperatorRow(s, depth) < OPERATORS {
      PrefixByBytes(s, OperatorRow(s, depth));
    }
  }

  lemma PrefixByBytes(s: string, k: nat)
    requires k < OPERATORS
    ensures Literal(k) <= s <==> |Literal(k)| <= |s| && forall i :: 0 <= i < |Literal(k)| ==> Literal(k)[i] == At(s, i)
  {
  }

  /** Whatever starts an operator has a row: `read_operator` never fails. */
  lemma OperatorStartMatches(s: string, depth: nat)
    requires IsOperatorStart(s)
    ensures var io := if IsDigit(At(s, 0)) then DigitRun(s) else 0;
            var k := OperatorRow(s[io..], depth);
            k < OPERATORS && Literal(k) <= s[io..] && io + |Literal(k)| <= |s|
            && (io > 0 ==> IsRedir(Kind(k)))
  {
    var io := if IsDigit(At(s, 0)) then DigitRun(s) else 0;
    assert At(s[io..], 0) == At(s, io);
    RowIsFirstMatch(s[io..], depth);
  }
}
