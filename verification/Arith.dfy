/** The arithmetic evaluator: a cursor and an error flag over the expression,
    and the digit printer that writes its result. */
module Arith {
  import opened Ascii
  import opened Decimal
  import opened SeqFacts
  import opened Wrappers
  import opened ArithSpec

  class Evaluator {
    const s: string
    var i: nat
    var error: bool

    constructor (expr: string)
      ensures s == expr && i == 0 && !error && Valid() && Rest() == expr
    {
      s := expr;
      i := 0;
      error := false;
    }

    ghost predicate Valid()
      reads this
    {
      i <= |s|
    }

    /** The unread part of the expression. */
    ghost function Rest(): string
      requires Valid()
      reads this
    {
      s[i..]
    }

    /** The byte under the cursor, the terminator at the end. */
    function Peek(): (c: char)
      requires Valid()
      reads this
      ensures c == At(Rest(), 0)
    {
      At(s, i)
    }

    method Advance()
      requires Valid() && Rest() != ""
      modifies `i
      ensures Valid() && Rest() == old(Rest())[1..] && i == old(i) + 1
    {
      i := i + 1;
    }

    method SkipBlanks()
      requires Valid()
      modifies `i
      ensures Valid() && Rest() == SkipSpaces(old(Rest())) && i >= old(i)
    {
      while i < |s| && IsSpace(s[i])
        invariant old(i) <= i <= |s|
        invariant SkipSpaces(s[i..]) == SkipSpaces(old(Rest()))
      {
        assert s[i..][1..] == s[i + 1..];
        i := i + 1;
      }
    }

    method ReadDigits() returns (val: nat)
      requires Valid()
      modifies `i
      ensures Valid() && i >= old(i)
      ensures var n := DigitRun(old(Rest())); val == Value(old(Rest())[..n], 0) && Rest() == old(Rest())[n..]
    {
      hide DigitRun, Value;
      val := 0;
      ghost var from := Rest();
      ghost var todo, tail := from[..DigitRun(from)], from[DigitRun(from)..];
      assert from == todo + tail;
      while i < |s| && IsDigit(s[i])
        invariant old(i) <= i <= |s|
        invariant AllDigits(todo) && Rest() == todo + tail
        invariant Value(todo, val) == Value(from[..DigitRun(from)], 0)
      {
        assert todo != "" && todo[0] == s[i];
        ValueTurn(todo, val);
        val := val * 10 + (s[i] - '0') as nat;
        Advance();
        todo := todo[1..];
      }
      ValueTurn(todo, val);
    }

    /** The rest of a group whose `(` has been read. */
    method ParseGroup() returns (val: int)
      requires Valid() && !error
      modifies `i, `error
      ensures Valid() && i >= old(i)
      ensures var e := Expr(old(Rest())); var r := SkipSpaces(e.rest);
              Parse(val, Rest(), error) == if At(r, 0) == ')' then Parse(e.val, r[1..], e.error) else Parse(0, r, true)
      decreases |s| - i, 4
    {
      hide Expr, SkipSpaces;
      val := ParseExpr();
      SkipBlanks();
      if Peek() == ')' {
        Advance();
      } else {
        error := true;
        val := 0;
      }
    }

    /** An optional sign, then digits or a parenthesised expression. */
    method ParseFactor() returns (val: int)
      requires Valid() && !error
      modifies `i, `error
      ensures Valid() && i >= old(i)
      ensures Parse(val, Rest(), error) == Factor(old(Rest()))
      decreases |s| - i, 1
    {
      hide Expr, SkipSpaces;
      SkipBlanks();
      var sign := 1;
      if Peek() == '-' {
        sign := -1;
        Advance();
      }
      if Peek() == '(' {
        Advance();
        val := ParseGroup();
        return sign * val;
      }
      if !IsDigit(Peek()) {
        error := true;
        return 0;
      }
      val := ReadDigits();
      return sign * val;
    }

    /** Factors joined by `*`, `/` and `%`, left to right. */
    method ParseTerm() returns (val: int)
      requires Valid() && !error
      modifies `i, `error
      ensures Valid() && i >= old(i)
      ensures Parse(val, Rest(), error) == Term(old(Rest()))
      decreases |s| - i, 2
    {
      hide Factor, TermLoop, SkipSpaces, DigitRun, TruncDiv, TruncMod;
      ghost var goal := Term(old(Rest()));
      val := ParseFactor();
      TermLoopSkips(val, Rest(), error);
      SkipBlanks();
      while !error && IsMulOp(Peek())
        invariant old(i) <= i <= |s|
        invariant Rest() == SkipSpaces(Rest())
        invariant TermLoop(val, Rest(), error) == goal
        decreases |s| - i
      {
        TermLoopTurn(val, Rest());
        var op := Peek();
        Advance();
        var factor := ParseFactor();
        if op == '*' {
          val := val * factor;
        } else if factor == 0 {
          error := true;
          return 0;
        } else if op == '/' {
          val := TruncDiv(val, factor);
        } else {
          val := TruncMod(val, factor);
        }
        TermLoopSkips(val, Rest(), error);
        SkipBlanks();
      }
      TermLoopEnds(val, Rest(), error);
    }

    /** Terms joined by `+` and `-`, left to right. */
    method ParseExpr() returns (val: int)
      requires Valid() && !error
      modifies `i, `error
      ensures Valid() && i >= old(i)
      ensures Parse(val, Rest(), error) == Expr(old(Rest()))
      decreases |s| - i, 3
    {
      hide Expr, Term, ExprLoop, SkipSpaces;
      ghost var goal := Expr(old(Rest()));
      ExprStarts(Rest());
      val := ParseTerm();
      SkipBlanks();
      while !error && IsAddOp(Peek())
        invariant old(i) <= i <= |s|
        invariant Rest() == SkipSpaces(Rest())
        invariant ExprLoop(val, Rest(), error) == goal
        decreases |s| - i
      {
        ExprLoopTurn(val, Rest());
        var op := Peek();
        Advance();
        var term := ParseTerm();
        val := if op == '+' then val + term else val - term;
        SkipBlanks();
      }
      ExprLoopEnds(val, Rest(), error);
    }
  }

  lemma ValueTurn(ds: string, acc: nat)
    requires AllDigits(ds)
    ensures Value(ds, acc) == if ds == "" then acc else Value(ds[1..], acc * 10 + (ds[0] - '0') as nat)
  {
  }

  lemma TermLoopSkips(val: int, s: string, error: bool)
    ensures TermLoop(val, SkipSpaces(s), error) == TermLoop(val, s, error)
    ensures SkipSpaces(SkipSpaces(s)) == SkipSpaces(s)
  {
    SkipTwice(s);
  }

  lemma TermLoopTurn(val: int, s: string)
    requires s == SkipSpaces(s) && IsMulOp(At(s, 0))
    ensures var f := Factor(s[1..]);
            TermLoop(val, s, false) == if s[0] == '*' then TermLoop(val * f.val, f.rest, f.error)
                                       else if f.val == 0 then Parse(0, f.rest, true)
                                       else TermLoop(if s[0] == '/' then TruncDiv(val, f.val) else TruncMod(val, f.val),
                                                     f.rest, f.error)
  {
    hide Factor;
  }

  lemma TermLoopEnds(val: int, s: string, error: bool)
    requires s == SkipSpaces(s) && (error || !IsMulOp(At(s, 0)))
    ensures TermLoop(val, s, error) == Parse(val, s, error)
  {
  }

  lemma ExprStarts(s: string)
    ensures var t := Term(s);
            && Expr(s) == ExprLoop(t.val, SkipSpaces(t.rest), t.error)
            && SkipSpaces(SkipSpaces(t.rest)) == SkipSpaces(t.rest)
  {
    hide Term, ExprLoop, SkipSpaces;
    ExprLoopSkips(Term(s).val, Term(s).rest, Term(s).error);
  }

  lemma ExprLoopSkips(val: int, s: string, error: bool)
    ensures ExprLoop(val, SkipSpaces(s), error) == ExprLoop(val, s, error)
    ensures SkipSpaces(SkipSpaces(s)) == SkipSpaces(s)
  {
    SkipTwice(s);
  }

  /** One turn of the loop, the blanks after the term skipped. */
  lemma ExprLoopTurn(val: int, s: string)
    requires s == SkipSpaces(s) && IsAddOp(At(s, 0))
    ensures var t := Term(s[1..]);
            && ExprLoop(val, s, false)
               == ExprLoop(if s[0] == '+' then val + t.val else val - t.val, SkipSpaces(t.rest), t.error)
            && SkipSpaces(SkipSpaces(t.rest)) == SkipSpaces(t.rest)
  {
    hide Term, ExprLoop, SkipSpaces;
    var t := Term(s[1..]);
    ExprLoopUnfolds(val, s);
    ExprLoopSkips(if s[0] == '+' then val + t.val else val - t.val, t.rest, t.error);
  }

  lemma ExprLoopUnfolds(val: int, s: string)
    requires s == SkipSpaces(s) && IsAddOp(At(s, 0))
    ensures var t := Term(s[1..]);
            ExprLoop(val, s, false) == ExprLoop(if s[0] == '+' then val + t.val else val - t.val, t.rest, t.error)
  {
    hide Term;
  }

  lemma ExprLoopEnds(val: int, s: string, error: bool)
    requires s == SkipSpaces(s) && (error || !IsAddOp(At(s, 0)))
    ensures ExprLoop(val, s, error) == Parse(val, s, error)
  {
  }

  /** `arith_eval`: the whole text must be one expression. */
  method ArithEval(expr: string) returns (result: Option<int>)
    ensures result == Eval(expr)
  {
    hide Expr;
    var a := new Evaluator(expr);
    var val := a.ParseExpr();
    if a.error {
      return None;
    }
    a.SkipBlanks();
    result := if a.Peek() != '\0' || a.i < |a.s| then None else Some(val);
  }

  // ---------------------------------------------------------- digit printer

  function BaseDigit(d: nat): char
    requires d < 16
  {
    "0123456789ABCDEF"[d]
  }

  /** Numeral of `n` in `base`, most significant digit first. */
  function Numeral(n: nat, base: nat): (s: string)
    requires 2 <= base <= 16
    ensures s != ""
  {
    if n < base then [BaseDigit(n)] else Numeral(n / base, base) + [BaseDigit(n % base)]
  }

  lemma {:induction false} NumeralIsDec(n: nat)
    ensures Numeral(n, 10) == Dec(n)
  {
    assert forall d: nat :: d < 10 ==> BaseDigit(d) == Digit(d);
    if n >= 10 {
      NumeralIsDec(n / 10);
    }
  }

  function Pow2(k: nat): nat {
    if k == 0 then 1 else 2 * Pow2(k - 1)
  }

  /** A number below `2^k` has at most `k` digits in any base. */
  lemma {:induction false} NumeralLength(n: nat, base: nat, k: nat)
    requires 2 <= base <= 16 && 1 <= k && n < Pow2(k)
    ensures |Numeral(n, base)| <= k
  {
    if n >= base {
      QuotientHalves(n, base);
      NumeralLength(n / base, base, k - 1);
    }
  }

  lemma QuotientHalves(n: nat, base: nat)
    requires 2 <= base
    ensures n / base <= n / 2
  {
    var q := n / base;
    assert q * base <= n;
    assert q * 2 <= q * base;
  }

  lemma NumeralTurn(n: nat, base: nat)
    requires 2 <= base <= 16
    ensures Numeral(n, base) == (if n < base then [] else Numeral(n / base, base)) + [BaseDigit(n % base)]
  {
  }

  lemma TruncParts(val: int, base: nat)
    requires base > 0
    ensures Abs(TruncDiv(val, base)) == Abs(val) / base
    ensures Abs(TruncMod(val, base)) == Abs(val) % base
  {
    var q, r := Abs(val) / base, Abs(val) % base;
    EuclidParts(Abs(val), base);
    if val < 0 {
      assert TruncDiv(val, base) == -q;
      MinusTimes(base, q);
    } else {
      assert TruncDiv(val, base) == q;
    }
  }

  lemma EuclidParts(n: nat, base: nat)
    requires base > 0
    ensures n == base * (n / base) + n % base
  {
  }

  lemma MinusTimes(b: int, q: int)
    ensures b * -q == -(b * q)
  {
  }

  lemma WriteTurn(val: int, base: nat)
    requires 2 <= base <= 16
    ensures val >= base || val <= -(base as int) <==> Abs(val) >= base
    ensures Abs(val) >= base ==> Abs(TruncDiv(val, base)) < Abs(val)
    ensures Abs(TruncMod(val, base)) < base
    ensures Numeral(Abs(val), base)
         == (if Abs(val) < base then [] else Numeral(Abs(TruncDiv(val, base)), base))
            + [BaseDigit(Abs(TruncMod(val, base)))]
  {
    TurnSmaller(val, base);
    hide TruncDiv, TruncMod, Numeral, BaseDigit, Abs;
    TruncParts(val, base);
    NumeralTurn(Abs(val), base);
  }

  lemma TurnSmaller(val: int, base: nat)
    requires 2 <= base
    ensures val >= base || val <= -(base as int) <==> Abs(val) >= base
    ensures Abs(val) >= base ==> Abs(val) / base < Abs(val)
    ensures Abs(val) % base < base
  {
    hide TruncDiv, TruncMod;
    QuotientHalves(Abs(val), base);
  }

  /** Writes the digits of `val` at `buf[p..]`; dividends of either sign are
      divided toward zero, so the remainder carries the sign of `val`. */
  method WriteDigits(val: int, base: nat, buf: array<char>, p: nat) returns (end: nat)
    requires 2 <= base <= 16
    requires p + |Numeral(Abs(val), base)| <= buf.Length
    modifies buf
    ensures end == p + |Numeral(Abs(val), base)|
    ensures buf[p..end] == Numeral(Abs(val), base)
    ensures buf[..p] == old(buf[..p]) && buf[end..] == old(buf[end..])
    decreases Abs(val)
  {
    hide TruncDiv, TruncMod, Numeral, Abs, BaseDigit;
    WriteTurn(val, base);
    end := p;
    if val >= base || val <= -(base as int) {
      end := WriteDigits(TruncDiv(val, base), base, buf, p);
    }
    ghost var written := buf[p..end];
    var tmp := TruncMod(val, base);
    buf[end] := BaseDigit(Abs(tmp));
    end := end + 1;
    assert buf[p..end] == written + [buf[end - 1]];
  }

  const BUFFER: nat := 70

  /** The printed form in any base from 2 to 16; a minus sign only in base 10. */
  method ItoaBase(value: int, base: int) returns (s: Option<string>)
    requires -(Pow2(63) as int) <= value < Pow2(63)
    ensures s.None? <==> base < 2 || base > 16
    ensures s.Some? ==> s.value == (if value < 0 && base == 10 then "-" else "") + Numeral(Abs(value), base)
    ensures base == 10 ==> s == Some(Lltoa(value))
  {
    hide Numeral, Pow2, Lltoa, Abs;
    if base < 2 || base > 16 {
      return None;
    }
    ItoaFits(value, base);
    var buf := new char[BUFFER];
    var p := 0;
    if value < 0 && base == 10 {
      buf[0] := '-';
      p := 1;
    }
    ghost var sign := buf[..p];
    assert sign == if value < 0 && base == 10 then "-" else "";
    var end := WriteDigits(value, base, buf, p);
    ghost var text := buf[..end];
    assert text[..p] == buf[..p];
    Parts(text, p);
    buf[end] := '\0';
    assert buf[..end] == text;
    s := Some(buf[..end]);
  }

  lemma ItoaFits(value: int, base: nat)
    requires -(Pow2(63) as int) <= value < Pow2(63) && 2 <= base <= 16
    ensures |Numeral(Abs(value), base)| <= 64
    ensures base == 10 ==> Lltoa(value) == (if value < 0 then "-" else "") + Numeral(Abs(value), 10)
  {
    assert Abs(value) < Pow2(64);
    NumeralLength(Abs(value), base, 64);
    NumeralIsDec(Abs(value));
    if value >= 0 {
      assert "" + Dec(value) == Dec(value);
    }
  }
}
