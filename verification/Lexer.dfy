/** The tokenizer: a cursor over the input and the `$((` nesting depth that
    outlives one operator. Each method is tied to the function of `LexerSpec`
    that gives its result on the rest of the input. */
module Lexer {
  import opened Ascii
  import opened Decimal
  import opened Tokens
  import opened LexerSpec

  class Lexer {
    var arithDepth: nat

    constructor ()
      ensures arithDepth == 0
    {
      arithDepth := 0;
    }

    /** Scan of the operator table for the first byte of a literal. */
    method IsOperatorByte(c: char) returns (found: bool)
      ensures found == IsOperator(c)
    {
      var i := 0;
      while i < OPERATORS
        invariant 0 <= i <= OPERATORS
        invariant forall k {:trigger Literal(k)} :: 0 <= k < i ==> Literal(k)[0] == '$' || Literal(k)[0] != c
      {
        if Literal(i)[0] != '$' && Literal(i)[0] == c {
          return true;
        }
        i := i + 1;
      }
      assert Literal(0)[0] == ';' && Literal(1)[0] == '\n' && Literal(3)[0] == '(' && Literal(5)[0] == ')';
      assert Literal(7)[0] == '|' && Literal(9)[0] == '&' && Literal(13)[0] == '<' && Literal(16)[0] == '>';
      return false;
    }

    static method SkipDigits(input: string, from: nat) returns (i: nat)
      requires from <= |input|
      ensures i == from + DigitRun(input[from..])
      ensures i <= |input|
    {
      i := from;
      while i < |input| && IsDigit(input[i])
        invariant from <= i <= |input|
        invariant i + DigitRun(input[i..]) == from + DigitRun(input[from..])
      {
        assert input[i..][1..] == input[i + 1..];
        i := i + 1;
      }
    }

    /** True at `$((`, at digits followed by `<` or `>`, and at an operator byte. */
    method StartsOperator(input: string, pos: nat) returns (yes: bool)
      requires pos <= |input|
      ensures yes == IsOperatorStart(input[pos..])
    {
      var s := input[pos..];
      if At(input, pos) == '$' && At(input, pos + 1) == '(' && At(input, pos + 2) == '(' {
        return true;
      }
      if IsDigit(At(input, pos)) {
        var end := SkipDigits(input, pos);
        assert At(input, end) == At(s, end - pos);
        return At(input, end) == '<' || At(input, end) == '>';
      }
      yes := IsOperatorByte(At(input, pos));
    }

    /** First row of the operator table that matches at `at`. */
    static method FindRow(input: string, at: nat, depth: nat) returns (i: nat)
      requires at <= |input|
      ensures i == OperatorRow(input[at..], depth)
    {
      ghost var rest := input[at..];
      RowIsFirstMatch(rest, depth);
      i := 0;
      while i < OPERATORS
        invariant 0 <= i <= OperatorRow(rest, depth)
      {
        var lit := Literal(i);
        assert lit <= rest <==> at + |lit| <= |input| && input[at..at + |lit|] == lit;
        if at + |lit| <= |input| && input[at..at + |lit|] == lit && !(Kind(i) == ArithClose && depth == 0) {
          assert Matches(rest, i, depth);
          return;
        }
        assert !Matches(rest, i, depth);
        i := i + 1;
      }
    }

    /** Reads the operator at `pos`, with the digits before a redirection. */
    method ReadOperator(input: string, pos: nat) returns (tok: Token, next: nat)
      requires pos <= |input| && IsOperatorStart(input[pos..])
      modifies this
      ensures Lexeme(tok, pos, next) == OperatorLexeme(input[pos..], pos, old(arithDepth))
      ensures arithDepth == DepthAfter(tok.kind, old(arithDepth))
    {
      hide OperatorRow, Literal, Kind, Value, DigitRun, IsOperatorStart, Matches;
      var io: int, at: nat := -1, pos;
      if IsDigit(At(input, pos)) {
        at := SkipDigits(input, pos);
        Ahead(input, pos, at);
        RunOfDigits(input[pos..]);
        io := Value(input[pos..at], 0);
      }
      Ahead(input, pos, at);
      OperatorStartMatches(input[pos..], arithDepth);
      var row := FindRow(input, at, arithDepth);
      OpenBeforeClose(input[at..], arithDepth);
      if Kind(row) == ArithOpen {
        arithDepth := arithDepth + 1;
      } else if Kind(row) == ArithClose {
        arithDepth := arithDepth - 1;
      }
      return Token(Kind(row), Literal(row), io), at + |Literal(row)|;
    }

    /** One turn of the word loop: the bytes taken and the flags after them. */
    static method WordStep(input: string, scout: nat, inSquote: bool, inDquote: bool, subDepth: nat)
      returns (next: nat, sq: bool, dq: bool, sub: nat)
      requires scout < |input|
      ensures next <= |input|
      ensures (next - scout, Scan(sq, dq, sub)) == Step(input[scout..], Scan(inSquote, inDquote, subDepth))
    {
      next, sq, dq, sub := scout, inSquote, inDquote, subDepth;
      ghost var rest := input[scout..];
      assert At(rest, 1) == At(input, scout + 1) && At(rest, 2) == At(input, scout + 2);
      if sub == 0 && !sq && input[next] == '$' && At(input, next + 1) == '(' && At(input, next + 2) != '(' {
        return next + 2, sq, dq, 1;
      }
      if input[next] == '\'' && !dq {
        sq := !sq;
      } else if input[next] == '"' && !sq {
        dq := !dq;
      } else if input[next] == '\\' && !sq {
        if next + 1 < |input| {
          next := next + 1;
        }
      } else if sub > 0 && !sq {
        if input[next] == '(' {
          sub := sub + 1;
        } else if input[next] == ')' {
          sub := sub - 1;
        }
      }
      next := next + 1;
    }

    /** Reads the word at `pos`: quotes, escapes and `$(...)` hide separators. */
    method ReadWord(input: string, pos: nat) returns (tok: Token, next: nat)
      requires pos <= |input|
      ensures Lexeme(tok, pos, next) == WordLexeme(input[pos..], pos)
      ensures next <= |input|
    {
      hide WordLen, Step;
      next := pos;
      var inSquote, inDquote, subDepth: nat := false, false, 0;
      while next < |input|
        invariant pos <= next <= |input|
        invariant next + WordLen(input[next..], Scan(inSquote, inDquote, subDepth))
            == pos + WordLen(input[pos..], START)
      {
        if !(inSquote || inDquote || subDepth > 0) {
          var op := StartsOperator(input, next);
          if IsSpace(input[next]) || op {
            break;
          }
        }
        ghost var rest := input[next..];
        ghost var from := next;
        WordTurn(rest, Scan(inSquote, inDquote, subDepth));
        next, inSquote, inDquote, subDepth := WordStep(input, next, inSquote, inDquote, subDepth);
        assert rest[next - from..] == input[next..];
      }
      WordTurn(input[next..], Scan(inSquote, inDquote, subDepth));
      tok := Token(Word, input[pos..next], -1);
      assert input[pos..next] == input[pos..][..next - pos];
    }

    static method SkipBlanks(input: string, from: nat, ghost depth: nat) returns (i: nat)
      requires from <= |input|
      ensures from <= i <= |input|
      ensures i < |input| ==> input[i] == '\n' || !IsSpace(input[i])
      ensures Lex(input[i..], i, depth) == Lex(input[from..], from, depth)
    {
      hide Lex;
      i := from;
      while i < |input| && input[i] != '\n' && IsSpace(input[i])
        invariant from <= i <= |input|
        invariant Lex(input[i..], i, depth) == Lex(input[from..], from, depth)
      {
        LexGap(input[i..], i, depth);
        assert input[i..][1..] == input[i + 1..];
        i := i + 1;
      }
    }

    static method SkipComment(input: string, from: nat, ghost depth: nat) returns (i: nat)
      requires from < |input| && input[from] == '#'
      ensures from < i <= |input|
      ensures Lex(input[i..], i, depth) == Lex(input[from..], from, depth)
    {
      hide Lex, IndexOfChar;
      i := from;
      while i < |input| && input[i] != '\n'
        invariant from <= i <= |input|
        invariant i + IndexOfChar(input[i..], '\n') == from + IndexOfChar(input[from..], '\n')
        invariant i == from ==> input[i] == '#'
      {
        IndexTurn(input[i..], '\n');
        assert input[i..][1..] == input[i + 1..];
        i := i + 1;
      }
      IndexTurn(input[i..], '\n');
      LexGap(input[from..], from, depth);
      assert input[from..][i - from..] == input[i..];
    }

    /** Reads the token that starts at `pos`. */
    method ReadToken(input: string, pos: nat) returns (tok: Token, next: nat)
      requires pos <= |input| && TokenAhead(input[pos..])
      modifies this
      ensures pos < next <= |input|
      ensures Lex(input[pos..], pos, old(arithDepth)) == [Lexeme(tok, pos, next)] + Lex(input[next..], next, arithDepth)
    {
      hide Lex, OperatorLexeme, WordLexeme, IsOperatorStart;
      LexToken(input[pos..], pos, arithDepth);
      var op := StartsOperator(input, pos);
      if op {
        tok, next := ReadOperator(input, pos);
      } else {
        tok, next := ReadWord(input, pos);
        DepthAfterWord(input[pos..], pos, arithDepth);
      }
      assert input[pos..][next - pos..] == input[next..];
    }

    /** The whole token list, closed by an EOF token. */
    method Tokenize(input: string) returns (tokens: seq<Token>)
      modifies this
      ensures tokens == Tokenized(input)
    {
      hide Lex;
      arithDepth := 0;
      tokens := [];
      ghost var done: seq<Lexeme>, all := [], Lex(input, 0, 0);
      var i := 0;
      assert input[0..] == input;
      while i < |input|
        invariant 0 <= i <= |input|
        invariant done + Lex(input[i..], i, arithDepth) == all
        invariant tokens == TokensOf(done)
        decreases |input| - i
      {
        i := SkipBlanks(input, i, arithDepth);
        if i == |input| {
          break;
        }
        if input[i] == '#' {
          i := SkipComment(input, i, arithDepth);
          continue;
        }
        ghost var here, start := Lex(input[i..], i, arithDepth), i;
        var tok;
        tok, i := ReadToken(input, i);
        ghost var x := Lexeme(tok, start, i);
        assert done + here == (done + [x]) + Lex(input[i..], i, arithDepth);
        done := done + [x];
        tokens := tokens + [tok];
      }
      assert input[i..] == "";
      LexEnd(i, arithDepth);
      tokens := tokens + [EOF_TOKEN];
      assert all == done + [Lexeme(EOF_TOKEN, i, i)];
    }
  }

  lemma DepthAfterWord(s: string, pos: nat, depth: nat)
    ensures DepthAfter(WordLexeme(s, pos).tok.kind, depth) == depth
  {
  }

  lemma Ahead(input: string, pos: nat, at: nat)
    requires pos <= at <= |input|
    ensures input[at..] == input[pos..][at - pos..] && input[pos..at] == input[pos..][..at - pos]
    ensures At(input[pos..], 0) == At(input, pos)
  {
  }

  lemma WordTurn(s: string, st: Scan)
    ensures AtWordEnd(s, st) ==> WordLen(s, st) == 0
    ensures !AtWordEnd(s, st) ==> var (k, st') := Step(s, st); WordLen(s, st) == k + WordLen(s[k..], st')
  {
    hide Step, AtWordEnd;
  }

  lemma OpenBeforeClose(s: string, depth: nat)
    requires OperatorRow(s, depth) < OPERATORS
    ensures Kind(OperatorRow(s, depth)) == ArithClose ==> depth > 0
  {
  }
}
