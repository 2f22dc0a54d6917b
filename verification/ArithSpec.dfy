/** The arithmetic evaluator as functions of the rest of the expression, the
    language it accepts as syntax trees, and the proof that the two agree. */
module ArithSpec {
  import opened Ascii
  import opened Decimal
  import opened Wrappers
  import opened SeqFacts

  // ------------------------------------------------------- the evaluator

  /** Division rounding toward zero, and the remainder that goes with it. */
  function TruncDiv(a: int, b: int): int
    requires b != 0
  {
    if (a >= 0) == (b > 0) then Abs(a) / Abs(b) else -(Abs(a) / Abs(b))
  }

  function TruncMod(a: int, b: int): int
    requires b != 0
  {
    a - b * TruncDiv(a, b)
  }

  function Abs(a: int): nat {
    if a < 0 then -a else a
  }

  /** `q` is `a / b` as C has it: what remains is smaller than the divisor and
      has the sign of the dividend. */
  predicate RoundsToZero(a: int, b: int, q: int) {
    var r := a - b * q;
    && (if r < 0 then -r else r) < (if b < 0 then -b else b)
    && (r == 0 || (r > 0 <==> a > 0))
  }

  lemma DivModParts(n: nat, m: nat)
    requires m > 0
    ensures 0 <= m * (n / m) <= n < m * (n / m) + m
  {
  }

  lemma SignsOfProduct(m: int, q: int)
    ensures (-m) * q == -(m * q) && m * (-q) == -(m * q) && (-m) * (-q) == m * q
  {
  }

  /** Signs put on a division of naturals: `p` is the product of the quotient
      and the divisor there. */
  lemma SignedRounds(a: int, b: int, q: int, p: int)
    requires b != 0 && b * q == (if a < 0 then -p else p)
    requires 0 <= p <= (if a < 0 then -a else a) < p + if b < 0 then -b else b
    ensures RoundsToZero(a, b, q)
  {
  }

  /** Division in the evaluator rounds toward zero, and the remainder is what
      is left. */
  lemma TruncDivRounds(a: int, b: int)
    requires b != 0
    ensures RoundsToZero(a, b, TruncDiv(a, b)) && TruncMod(a, b) == a - b * TruncDiv(a, b)
  {
    var n: nat, m: nat := Abs(a), Abs(b);
    DivModParts(n, m);
    var k := n / m;
    assert TruncDiv(a, b) == if (a >= 0) == (b > 0) then k else -k;
    hide RoundsToZero, TruncDiv;
    SignsOfProduct(m, k);
    SignedRounds(a, b, TruncDiv(a, b), m * k);
  }

  /** No other quotient does. */
  lemma RoundsOnce(a: int, b: int, q: int, p: int)
    requires b != 0 && RoundsToZero(a, b, q) && RoundsToZero(a, b, p)
    ensures q == p
  {
    var r, t := a - b * q, a - b * p;
    assert b * (p - q) == r - t by { Distributes(b, p, q); }
    if p != q {
      var m, d := if b < 0 then -b else b, if p < q then q - p else p - q;
      SignsOfProduct(m, d);
      AtLeast(m, d);
    }
  }

  lemma Distributes(b: int, p: int, q: int)
    ensures b * (p - q) == b * p - b * q
  {
  }

  lemma AtLeast(m: int, d: int)
    requires m > 0 && d > 0
    ensures m * d >= m
  {
  }

  /** The quotient, by what it means. */
  ghost function Quotient(a: int, b: int): (q: int)
    requires b != 0
    ensures RoundsToZero(a, b, q)
  {
    TruncDivRounds(a, b);
    var q :| RoundsToZero(a, b, q);
    q
  }

  lemma QuotientIs(a: int, b: int)
    requires b != 0
    ensures Quotient(a, b) == TruncDiv(a, b) && a - b * Quotient(a, b) == TruncMod(a, b)
  {
    hide TruncDiv, TruncMod, RoundsToZero;
    TruncDivRounds(a, b);
    RoundsOnce(a, b, Quotient(a, b), TruncDiv(a, b));
  }

  function SkipSpaces(s: string): (r: string)
    ensures |r| <= |s|
    ensures r == "" || !IsSpace(r[0])
  {
    if s != "" && IsSpace(s[0]) then SkipSpaces(s[1..]) else s
  }

  /** Value so far, unread rest, and the sticky error flag. */
  datatype Parse = Parse(val: int, rest: string, error: bool)

  predicate IsMulOp(c: char) {
    c == '*' || c == '/' || c == '%'
  }

  predicate IsAddOp(c: char) {
    c == '+' || c == '-'
  }

  function Factor(s: string): (r: Parse)
    ensures |r.rest| <= |s|
    decreases |s|, 1
  {
    var s1 := SkipSpaces(s);
    var neg := At(s1, 0) == '-';
    var s2 := if neg then s1[1..] else s1;
    if At(s2, 0) == '(' then
      var e := Expr(s2[1..]);
      var s3 := SkipSpaces(e.rest);
      if At(s3, 0) == ')' then Parse(if neg then -e.val else e.val, s3[1..], e.error)
      else Parse(0, s3, true)
    else if IsDigit(At(s2, 0)) then
      var n := DigitRun(s2);
      var v: int := Value(s2[..n], 0);
      Parse(if neg then -v else v, s2[n..], false)
    else Parse(0, s2, true)
  }

  function Term(s: string): (r: Parse)
    ensures |r.rest| <= |s|
    decreases |s|, 3
  {
    var f := Factor(s);
    TermLoop(f.val, f.rest, f.error)
  }

  function TermLoop(val: int, s: string, error: bool): (r: Parse)
    ensures |r.rest| <= |s|
    decreases |s|, 2
  {
    var s1 := SkipSpaces(s);
    if !error && IsMulOp(At(s1, 0)) then
      var f := Factor(s1[1..]);
      if s1[0] == '*' then TermLoop(val * f.val, f.rest, f.error)
      else if f.val == 0 then Parse(0, f.rest, true)
      else if s1[0] == '/' then TermLoop(TruncDiv(val, f.val), f.rest, f.error)
      else TermLoop(TruncMod(val, f.val), f.rest, f.error)
    else Parse(val, s1, error)
  }

  function Expr(s: string): (r: Parse)
    ensures |r.rest| <= |s|
    decreases |s|, 5
  {
    var t := Term(s);
    ExprLoop(t.val, t.rest, t.error)
  }

  function ExprLoop(val: int, s: string, error: bool): (r: Parse)
    ensures |r.rest| <= |s|
    decreases |s|, 4
  {
    var s1 := SkipSpaces(s);
    if !error && IsAddOp(At(s1, 0)) then
      var t := Term(s1[1..]);
      ExprLoop(if s1[0] == '+' then val + t.val else val - t.val, t.rest, t.error)
    else Parse(val, s1, error)
  }

  /** Result of `arith_eval`: None where it reports an error. */
  function Eval(s: string): Option<int> {
    var e := Expr(s);
    if e.error || SkipSpaces(e.rest) != "" then None else Some(e.val)
  }

  // ------------------------------------------------------- the language

  /** Concrete syntax, blanks included, products and sums nested to the left. */
  datatype Fac = Num(pre: string, neg: bool, ds: string) | Par(pre: string, neg: bool, body: Exp, post: string)
  datatype Ter = One(f: Fac) | Mul(l: Ter, mid: string, op: char, r: Fac)
  datatype Exp = Uni(t: Ter) | Add(l: Exp, mid: string, op: char, r: Ter)

  predicate Blank(s: string) {
    forall i :: 0 <= i < |s| ==> IsSpace(s[i])
  }

  predicate FacOk(f: Fac) {
    match f
    case Num(pre, _, ds) => Blank(pre) && ds != "" && AllDigits(ds)
    case Par(pre, _, e, post) => Blank(pre) && Blank(post) && ExpOk(e)
  }

  predicate TerOk(t: Ter) {
    match t
    case One(f) => FacOk(f)
    case Mul(l, mid, op, r) => TerOk(l) && Blank(mid) && IsMulOp(op) && FacOk(r)
  }

  predicate ExpOk(e: Exp) {
    match e
    case Uni(t) => TerOk(t)
    case Add(l, mid, op, r) => ExpOk(l) && Blank(mid) && IsAddOp(op) && TerOk(r)
  }

  function FacText(f: Fac): string {
    f.pre + (if f.neg then "-" else "") +
    match f
    case Num(_, _, ds) => ds
    case Par(_, _, e, post) => "(" + (ExpText(e) + (post + ")"))
  }

  function TerText(t: Ter): string {
    match t
    case One(f) => FacText(f)
    case Mul(l, mid, op, r) => TerText(l) + (mid + ([op] + FacText(r)))
  }

  function ExpText(e: Exp): string {
    match e
    case Uni(t) => TerText(t)
    case Add(l, mid, op, r) => ExpText(l) + (mid + ([op] + TerText(r)))
  }

  /** Meaning of the operators on numbers: None is a division by zero. */
  ghost function Apply(op: char, a: Option<int>, b: Option<int>): Option<int> {
    if a.None? || b.None? then None
    else if op == '+' then Some(a.value + b.value)
    else if op == '-' then Some(a.value - b.value)
    else if op == '*' then Some(a.value * b.value)
    else if b.value == 0 then None
    else if op == '/' then Some(Quotient(a.value, b.value))
    else Some(a.value - b.value * Quotient(a.value, b.value))
  }

  lemma ApplyIs(op: char, a: int, b: int)
    ensures Apply(op, Some(a), Some(b))
         == if op == '+' then Some(a + b)
            else if op == '-' then Some(a - b)
            else if op == '*' then Some(a * b)
            else if b == 0 then None
            else if op == '/' then Some(TruncDiv(a, b))
            else Some(TruncMod(a, b))
  {
    hide TruncDiv, TruncMod, Quotient;
    if b != 0 {
      QuotientIs(a, b);
    }
  }

  lemma ApplyNone(op: char, a: int)
    ensures Apply(op, Some(a), None) == None
  {
  }

  function Signed(neg: bool, a: Option<int>): Option<int> {
    if neg && a.Some? then Some(-a.value) else a
  }

  ghost function FacVal(f: Fac): Option<int>
    requires FacOk(f)
  {
    match f
    case Num(_, neg, ds) => Signed(neg, Some(Value(ds, 0)))
    case Par(_, neg, e, _) => Signed(neg, ExpVal(e))
  }

  ghost function TerVal(t: Ter): Option<int>
    requires TerOk(t)
  {
    match t
    case One(f) => FacVal(f)
    case Mul(l, _, op, r) => Apply(op, TerVal(l), FacVal(r))
  }

  ghost function ExpVal(e: Exp): Option<int>
    requires ExpOk(e)
  {
    match e
    case Uni(t) => TerVal(t)
    case Add(l, _, op, r) => Apply(op, ExpVal(l), TerVal(r))
  }

  // ------------------------------------- every sentence is evaluated correctly

  lemma {:induction false} SkipBlank(w: string, s: string)
    requires Blank(w)
    ensures SkipSpaces(w + s) == SkipSpaces(s)
  {
    if w == "" {
      assert w + s == s;
    } else {
      assert (w + s)[1..] == w[1..] + s;
      SkipBlank(w[1..], s);
    }
  }

  /** What may follow a factor: anything that does not extend its digits. */
  predicate AfterFac(s: string) {
    s == "" || !IsDigit(s[0])
  }

  /** What may follow a sum: additionally, no product operator. */
  predicate AfterExp(s: string) {
    AfterFac(s) && !IsMulOp(At(SkipSpaces(s), 0))
  }

  function SignedValue(neg: bool, ds: string): int
    requires AllDigits(ds)
  {
    var v: int := Value(ds, 0);
    if neg then -v else v
  }

  lemma NumNode(f: Fac)
    requires f.Num? && Blank(f.pre) && f.ds != "" && AllDigits(f.ds)
    ensures FacOk(f) && FacVal(f) == Some(SignedValue(f.neg, f.ds))
  {
    hide Value, Blank, AllDigits;
  }

  /** A factor that is not a group is a number, or an error. */
  lemma FactorNumber(s: string, s1: string, s2: string, neg: bool)
    requires s1 == SkipSpaces(s)
    requires neg == (At(s1, 0) == '-') && s2 == (if neg then s1[1..] else s1) && At(s2, 0) != '('
    ensures if IsDigit(At(s2, 0))
            then AllDigits(s2[..DigitRun(s2)]) && Factor(s)
                == Parse(SignedValue(neg, s2[..DigitRun(s2)]), s2[DigitRun(s2)..], false)
            else Factor(s).error
  {
    hide Expr, SkipSpaces, DigitRun, Value, AllDigits;
    RunOfDigits(s2);
  }

  lemma {:induction false} FacComplete(f: Fac, rest: string)
    requires FacOk(f) && AfterFac(rest)
    ensures var r := Factor(FacText(f) + rest);
            match FacVal(f) case Some(v) => r == Parse(v, rest, false) case None => r.error
    decreases f
  {
    hide Factor, Expr, SkipSpaces;
    var sign := if f.neg then "-" else "";
    match f {
      case Num(pre, neg, ds) =>
        assert FacText(f) + rest == pre + (sign + (ds + rest));
        SkipBlank(pre, sign + (ds + rest));
        NumNode(f);
        NumComplete(pre + (sign + (ds + rest)), neg, ds, rest);
      case Par(pre, neg, e, post) =>
        var inner := ExpText(e) + (post + (")" + rest));
        assert FacText(f) + rest == pre + (sign + ("(" + inner));
        SkipBlank(pre, sign + ("(" + inner));
        SkipBlank(post, ")" + rest);
        CloseFollows(post, rest);
        ExpComplete(e, post + (")" + rest));
        ParComplete(pre + (sign + ("(" + inner)), neg, e, post, rest);
    }
  }

  lemma CloseFollows(post: string, rest: string)
    requires Blank(post)
    ensures AfterExp(post + (")" + rest)) && SkipSpaces(post + (")" + rest)) == ")" + rest
  {
    SkipBlank(post, ")" + rest);
    assert post + (")" + rest) != "" && (post + (")" + rest))[0] == if post == "" then ')' else post[0];
  }

  lemma NumComplete(s: string, neg: bool, ds: string, rest: string)
    requires ds != "" && AllDigits(ds) && AfterFac(rest)
    requires SkipSpaces(s) == SkipSpaces((if neg then "-" else "") + (ds + rest))
    ensures Factor(s) == Parse(SignedValue(neg, ds), rest, false)
  {
    hide Factor, SignedValue, DigitRun;
    var s2 := ds + rest;
    var s1 := (if neg then "-" else "") + s2;
    assert s2[0] == ds[0] && IsDigit(s2[0]);
    DigitRunAppend(ds, rest);
    hide AllDigits;
    assert s1[0] == (if neg then '-' else s2[0]) && SkipSpaces(s) == s1;
    assert neg ==> s1[1..] == s2;
    assert !neg ==> s1 == s2;
    FactorNumber(s, s1, s2, neg);
    assert s2[..|ds|] == ds && s2[|ds|..] == rest;
  }

  lemma ParComplete(s: string, neg: bool, e: Exp, post: string, rest: string)
    requires ExpOk(e) && Blank(post)
    requires var inner := ExpText(e) + (post + (")" + rest));
      && SkipSpaces(s) == SkipSpaces((if neg then "-" else "") + ("(" + inner))
      && (match ExpVal(e)
          case Some(v) => Expr(inner) == ExprLoop(v, post + (")" + rest), false)
          case None => Expr(inner).error)
    ensures match Signed(neg, ExpVal(e))
            case Some(v) => Factor(s) == Parse(v, rest, false)
            case None => Factor(s).error
  {
    hide Expr, ExprLoop;
    var inner := ExpText(e) + (post + (")" + rest));
    var s2 := "(" + inner;
    var s1 := (if neg then "-" else "") + s2;
    assert s1[0] == (if neg then '-' else '(') && SkipSpaces(s) == s1;
    assert neg ==> s1[1..] == s2;
    assert !neg ==> s1 == s2;
    assert s2[1..] == inner;
    if ExpVal(e).Some? {
      LoopStopsAtClose(ExpVal(e).value, post, rest);
      assert (")" + rest)[1..] == rest;
    }
  }

  lemma LoopStopsAtClose(v: int, post: string, rest: string)
    requires Blank(post)
    ensures ExprLoop(v, post + (")" + rest), false) == Parse(v, ")" + rest, false)
    ensures SkipSpaces(")" + rest) == ")" + rest
  {
    CloseFollows(post, rest);
  }

  lemma {:induction false} TerComplete(t: Ter, rest: string)
    requires TerOk(t) && AfterFac(rest)
    ensures var r := Term(TerText(t) + rest);
            match TerVal(t) case Some(v) => r == TermLoop(v, rest, false) case None => r.error
    decreases t
  {
    match t {
      case One(f) =>
        hide Factor, TermLoop;
        FacComplete(f, rest);
        var r := Factor(FacText(f) + rest);
        if r.error {
          LoopError(r.val, r.rest);
        }
      case Mul(l, mid, op, r) =>
        hide Factor, Term, TermLoop, SkipSpaces;
        var s1 := [op] + (FacText(r) + rest);
        var after := mid + s1;
        assert TerText(t) + rest == TerText(l) + after;
        SkipBlank(mid, s1);
        OpStarts(s1);
        TerComplete(l, after);
        FacComplete(r, rest);
        assert s1[1..] == FacText(r) + rest;
        if TerVal(l).Some? {
          ProductStep(TerVal(l).value, after, s1, r, rest);
        }
    }
  }

  lemma OpStarts(s: string)
    requires s != "" && (IsMulOp(s[0]) || IsAddOp(s[0]))
    ensures SkipSpaces(s) == s
  {
  }

  lemma ProductStep(v: int, s: string, s1: string, r: Fac, rest: string)
    requires s1 == SkipSpaces(s) && s1 != "" && IsMulOp(s1[0]) && s1[1..] == FacText(r) + rest && FacOk(r)
    requires var p := Factor(s1[1..]);
             match FacVal(r) case Some(w) => p == Parse(w, rest, false) case None => p.error
    ensures var p := TermLoop(v, s, false);
            match Apply(s1[0], Some(v), FacVal(r)) case Some(w) => p == TermLoop(w, rest, false) case None => p.error
  {
    hide Factor, Apply, TruncDiv, TruncMod;
    var p := Factor(s1[1..]);
    ApplyIs(s1[0], v, p.val);
    ApplyNone(s1[0], v);
    LoopError(v * p.val, p.rest);
    if p.val != 0 {
      LoopError(TruncDiv(v, p.val), p.rest);
      LoopError(TruncMod(v, p.val), p.rest);
    }
  }

  lemma TermStops(v: int, rest: string)
    requires AfterExp(rest)
    ensures TermLoop(v, rest, false) == Parse(v, SkipSpaces(rest), false)
  {
  }

  lemma ExprResumes(v: int, rest: string)
    ensures ExprLoop(v, SkipSpaces(rest), false) == ExprLoop(v, rest, false)
  {
    SkipTwice(rest);
  }

  lemma ExprFailed(v: int, s: string)
    ensures ExprLoop(v, s, true).error
  {
  }

  lemma {:induction false} ExpComplete(e: Exp, rest: string)
    requires ExpOk(e) && AfterExp(rest)
    ensures var r := Expr(ExpText(e) + rest);
            match ExpVal(e) case Some(v) => r == ExprLoop(v, rest, false) case None => r.error
    decreases e
  {
    match e {
      case Uni(t) =>
        hide TermLoop, Term, ExprLoop;
        TerComplete(t, rest);
        var r := Term(TerText(t) + rest);
        if r.error {
          ExprFailed(r.val, r.rest);
        } else {
          TermStops(r.val, rest);
        }
        if TerVal(t).Some? {
          TermStops(TerVal(t).value, rest);
          ExprResumes(TerVal(t).value, rest);
        }
      case Add(l, mid, op, r) =>
        hide TermLoop, Term, Expr, ExprLoop;
        var s1 := [op] + (TerText(r) + rest);
        var after := mid + s1;
        assert ExpText(e) + rest == ExpText(l) + after;
        SkipBlank(mid, s1);
        ExpComplete(l, after);
        TerComplete(r, rest);
        if ExpVal(l).Some? {
          assert s1[1..] == TerText(r) + rest;
          SumStep(ExpVal(l).value, after, s1, r, rest);
        }
    }
  }

  lemma SumStep(v: int, s: string, s1: string, r: Ter, rest: string)
    requires s1 == SkipSpaces(s) && s1 != "" && IsAddOp(s1[0]) && s1[1..] == TerText(r) + rest
    requires TerOk(r) && AfterExp(rest)
    requires var p := Term(TerText(r) + rest);
             match TerVal(r) case Some(w) => p == TermLoop(w, rest, false) case None => p.error
    ensures var p := ExprLoop(v, s, false);
            match Apply(s1[0], Some(v), TerVal(r)) case Some(w) => p == ExprLoop(w, rest, false) case None => p.error
  {
    hide TermLoop, Term, Apply, TruncDiv, TruncMod;
    var p := Term(s1[1..]);
    ApplyIs(s1[0], v, p.val);
    ApplyNone(s1[0], v);
    ExprFailed(if s1[0] == '+' then v + p.val else v - p.val, p.rest);
    if TerVal(r).Some? {
      TermStops(TerVal(r).value, rest);
      ApplyIs(s1[0], v, TerVal(r).value);
      ExprResumes(Apply(s1[0], Some(v), TerVal(r)).value, rest);
    }
  }

  lemma SkipTwice(s: string)
    ensures SkipSpaces(SkipSpaces(s)) == SkipSpaces(s)
  {
  }

  // ----------------------------------------- only sentences are evaluated

  lemma {:induction false} LeadingBlanks(s: string) returns (w: string)
    ensures Blank(w) && s == w + SkipSpaces(s)
  {
    if s != "" && IsSpace(s[0]) {
      var w' := LeadingBlanks(s[1..]);
      w := [s[0]] + w';
    } else {
      w := "";
    }
  }

  /** What an accepted factor looks like after its blanks and sign. */
  lemma FactorForm(s: string, s2: string)
    requires !Factor(s).error
    requires var s1 := SkipSpaces(s); s2 == if At(s1, 0) == '-' then s1[1..] else s1
    ensures s2 != ""
    ensures s2[0] == '(' ==>
      !Expr(s2[1..]).error && At(SkipSpaces(Expr(s2[1..]).rest), 0) == ')'
      && Factor(s).rest == SkipSpaces(Expr(s2[1..]).rest)[1..]
      && Factor(s).val == if At(SkipSpaces(s), 0) == '-' then -Expr(s2[1..]).val else Expr(s2[1..]).val
  {
    hide Expr, SkipSpaces;
  }

  lemma {:induction false} FacSound(s: string) returns (f: Fac)
    requires !Factor(s).error
    ensures FacOk(f) && s == FacText(f) + Factor(s).rest && FacVal(f) == Some(Factor(s).val)
    decreases |s|, 1
  {
    hide Factor, Expr, SkipSpaces, DigitRun, FacText, Blank, AllDigits, Value, ExpText, ExpVal, ExpOk;
    var pre := LeadingBlanks(s);
    var s1 := SkipSpaces(s);
    var neg := At(s1, 0) == '-';
    var s2 := if neg then s1[1..] else s1;
    FactorForm(s, s2);
    if s2[0] == '(' {
      var e, w := ExpSound(s2[1..]);
      var rest := Expr(s2[1..]).rest;
      var w' := LeadingBlanks(rest);
      f := Par(pre, neg, e, w + w');
      BlankConcat(w, w');
      SignText(s1, s2, neg);
      ParText(f, s, s1, s2, w, w', rest);
    } else {
      f := NumSound(s, pre, s1, s2, neg);
    }
  }

  lemma NumSound(s: string, pre: string, s1: string, s2: string, neg: bool) returns (f: Fac)
    requires !Factor(s).error && Blank(pre) && s == pre + s1 && s1 == SkipSpaces(s)
    requires neg == (At(s1, 0) == '-') && s2 == (if neg then s1[1..] else s1) && At(s2, 0) != '('
    ensures FacOk(f) && s == FacText(f) + Factor(s).rest && FacVal(f) == Some(Factor(s).val)
  {
    hide Factor, Expr, SkipSpaces, DigitRun, FacText, Blank, AllDigits, Value, FacVal, FacOk, At;
    NumForm(s, s1, s2, neg);
    var n := DigitRun(s2);
    f := Num(pre, neg, s2[..n]);
    NumNode(f);
    SignText(s1, s2, neg);
    NumText(f, s, s2, s2[n..]);
  }

  lemma NumForm(s: string, s1: string, s2: string, neg: bool)
    requires !Factor(s).error && s1 == SkipSpaces(s)
    requires neg == (At(s1, 0) == '-') && s2 == (if neg then s1[1..] else s1) && At(s2, 0) != '('
    ensures var n := DigitRun(s2);
            && 0 < n <= |s2| && AllDigits(s2[..n]) && s2[..n] != "" && s2 == s2[..n] + s2[n..]
            && Factor(s).rest == s2[n..] && Factor(s).val == SignedValue(neg, s2[..n])
  {
    hide Factor, SkipSpaces, SignedValue, DigitRun, AllDigits;
    FactorNumber(s, s1, s2, neg);
    DigitsAhead(s2);
  }

  lemma DigitsAhead(s: string)
    ensures var n := DigitRun(s);
            n <= |s| && AllDigits(s[..n]) && s == s[..n] + s[n..] && (IsDigit(At(s, 0)) ==> 0 < n && s[..n] != "")
  {
    hide DigitRun, AllDigits, At, IsDigit;
    RunOfDigits(s);
    DigitTaken(s);
    Parts(s, DigitRun(s));
  }

  lemma DigitTaken(s: string)
    ensures IsDigit(At(s, 0)) ==> DigitRun(s) > 0
  {
  }

  lemma BlankConcat(w: string, w': string)
    requires Blank(w) && Blank(w')
    ensures Blank(w + w')
  {
  }

  lemma SignText(s1: string, s2: string, neg: bool)
    requires neg == (At(s1, 0) == '-') && s2 == if neg then s1[1..] else s1
    ensures s1 == (if neg then "-" else "") + s2
  {
  }

  lemma NumText(f: Fac, s: string, s2: string, r: string)
    requires f.Num? && s2 == f.ds + r
    requires s == f.pre + ((if f.neg then "-" else "") + s2)
    ensures s == FacText(f) + r
  {
    assert FacText(f) == f.pre + ((if f.neg then "-" else "") + f.ds);
  }

  lemma ParText(f: Fac, s: string, s1: string, s2: string, w: string, w': string, rest: string)
    requires f.Par? && f.post == w + w'
    requires s == f.pre + s1 && s1 == (if f.neg then "-" else "") + s2
    requires At(s2, 0) == '(' && s2[1..] == ExpText(f.body) + (w + rest)
    requires rest == w' + SkipSpaces(rest) && At(SkipSpaces(rest), 0) == ')'
    ensures s == FacText(f) + SkipSpaces(rest)[1..]
  {
    hide ExpText, SkipSpaces;
    var end := SkipSpaces(rest);
    assert end == ")" + end[1..];
    assert s2 == "(" + (ExpText(f.body) + ((w + w') + ")")) + end[1..];
  }

  lemma {:induction false} TerSound(s: string) returns (t: Ter, w: string)
    requires !Term(s).error
    ensures TerOk(t) && Blank(w) && s == TerText(t) + (w + Term(s).rest) && TerVal(t) == Some(Term(s).val)
    decreases |s|, 3
  {
    var f := Factor(s);
    LoopError(f.val, f.rest);
    var fac := FacSound(s);
    t, w := TerLoopSound(One(fac), f.rest);
    assert s == FacText(fac) + f.rest;
  }

  lemma LoopError(val: int, s: string)
    ensures TermLoop(val, s, true).error && ExprLoop(val, s, true).error
  {
  }

  lemma {:induction false} TerLoopSound(l: Ter, s: string) returns (t: Ter, w: string)
    requires TerOk(l) && TerVal(l).Some? && !TermLoop(TerVal(l).value, s, false).error
    ensures var r := TermLoop(TerVal(l).value, s, false);
            TerOk(t) && Blank(w) && TerText(l) + s == TerText(t) + (w + r.rest) && TerVal(t) == Some(r.val)
    decreases |s|, 2
  {
    hide TermLoop, Factor, SkipSpaces, TerText, FacText, TerOk, FacOk, TerVal, FacVal, Blank, Apply;
    var mid := LeadingBlanks(s);
    var s1 := SkipSpaces(s);
    if IsMulOp(At(s1, 0)) {
      var f := Factor(s1[1..]);
      MulStep(TerVal(l).value, s, s1);
      var fac := FacSound(s1[1..]);
      var l' := Mul(l, mid, s1[0], fac);
      MulNode(l, mid, s1[0], fac);
      JoinText(TerText(l), s, mid, s1[0], FacText(fac), f.rest);
      t, w := TerLoopSound(l', f.rest);
    } else {
      ProductEnds(TerVal(l).value, s, s1);
      t, w := l, mid;
    }
  }

  lemma ProductEnds(v: int, s: string, s1: string)
    requires s1 == SkipSpaces(s) && !IsMulOp(At(s1, 0))
    ensures TermLoop(v, s, false) == Parse(v, s1, false)
  {
  }

  lemma MulNode(l: Ter, mid: string, op: char, fac: Fac)
    requires TerOk(l) && Blank(mid) && IsMulOp(op) && FacOk(fac)
    ensures var t := Mul(l, mid, op, fac);
            TerOk(t) && TerText(t) == TerText(l) + (mid + ([op] + FacText(fac)))
                && TerVal(t) == Apply(op, TerVal(l), FacVal(fac))
  {
    hide Apply, Blank, FacText, FacVal, FacOk;
  }

  lemma JoinText(l: string, s: string, mid: string, op: char, r: string, rest: string)
    requires s == mid + SkipSpaces(s) && SkipSpaces(s) == [op] + (r + rest)
    ensures l + s == (l + (mid + ([op] + r))) + rest
  {
  }

  lemma MulStep(v: int, s: string, s1: string)
    requires s1 == SkipSpaces(s) && IsMulOp(At(s1, 0)) && !TermLoop(v, s, false).error
    ensures var f := Factor(s1[1..]);
            !f.error && var w := Apply(s1[0], Some(v), Some(f.val));
            w.Some? && TermLoop(v, s, false) == TermLoop(w.value, f.rest, false)
  {
    hide Factor, Apply, TruncDiv, TruncMod;
    var f := Factor(s1[1..]);
    ApplyIs(s1[0], v, f.val);
    LoopError(v * f.val, f.rest);
    if f.val != 0 {
      LoopError(TruncDiv(v, f.val), f.rest);
      LoopError(TruncMod(v, f.val), f.rest);
    }
  }

  lemma {:induction false} ExpSound(s: string) returns (e: Exp, w: string)
    requires !Expr(s).error
    ensures ExpOk(e) && Blank(w) && s == ExpText(e) + (w + Expr(s).rest) && ExpVal(e) == Some(Expr(s).val)
    decreases |s|, 5
  {
    hide Term, ExprLoop, TermLoop;
    var t := Term(s);
    LoopError(t.val, t.rest);
    var ter, w0 := TerSound(s);
    e, w := ExpLoopSound(Uni(ter), w0, t.rest);
  }

  lemma {:induction false} ExpLoopSound(l: Exp, w0: string, s: string) returns (e: Exp, w: string)
    requires ExpOk(l) && ExpVal(l).Some? && Blank(w0) && !ExprLoop(ExpVal(l).value, s, false).error
    ensures var r := ExprLoop(ExpVal(l).value, s, false);
            ExpOk(e) && Blank(w) && ExpText(l) + (w0 + s) == ExpText(e) + (w + r.rest) && ExpVal(e) == Some(r.val)
    decreases |s|, 4
  {
    var mid := LeadingBlanks(s);
    var s1 := SkipSpaces(s);
    hide Term, ExprLoop, SkipSpaces;
    if IsAddOp(At(s1, 0)) {
      var t := Term(s1[1..]);
      AddStep(ExpVal(l).value, s, s1);
      var ter, w1 := TerSound(s1[1..]);
      var l' := Add(l, w0 + mid, s1[0], ter);
      JoinText(ExpText(l) + w0, s, mid, s1[0], TerText(ter), w1 + t.rest);
      Regroup(ExpText(l), w0, mid, [s1[0]] + TerText(ter), w1 + t.rest, s);
      e, w := ExpLoopSound(l', w1, t.rest);
    } else {
      SumEnds(ExpVal(l).value, s, s1);
      e, w := l, w0 + mid;
    }
  }

  lemma SumEnds(v: int, s: string, s1: string)
    requires s1 == SkipSpaces(s) && !IsAddOp(At(s1, 0))
    ensures ExprLoop(v, s, false) == Parse(v, s1, false)
  {
  }

  lemma Regroup(l: string, w0: string, mid: string, r: string, rest: string, s: string)
    requires (l + w0) + s == ((l + w0) + (mid + r)) + rest
    ensures l + (w0 + s) == (l + ((w0 + mid) + r)) + rest
  {
    assert l + (w0 + s) == (l + w0) + s;
  }

  lemma AddStep(v: int, s: string, s1: string)
    requires s1 == SkipSpaces(s) && IsAddOp(At(s1, 0)) && !ExprLoop(v, s, false).error
    ensures var t := Term(s1[1..]);
            !t.error && var w := Apply(s1[0], Some(v), Some(t.val));
            w.Some? && ExprLoop(v, s, false) == ExprLoop(w.value, t.rest, false)
  {
    hide Term, Apply, TruncDiv, TruncMod;
    var t := Term(s1[1..]);
    ApplyIs(s1[0], v, t.val);
    LoopError(v + t.val, t.rest);
    LoopError(v - t.val, t.rest);
  }

  // --------------------------------------------------------- the theorems

  /** `s` is a sentence: an expression and trailing blanks. */
  ghost predicate Reads(s: string, e: Exp, w: string) {
    ExpOk(e) && Blank(w) && s == ExpText(e) + w
  }

  /** On a sentence the evaluator computes the value of its syntax tree, and
      reports an error exactly when some divisor is zero. */
  lemma EvalComplete(s: string, e: Exp, w: string)
    requires Reads(s, e, w)
    ensures Eval(s) == ExpVal(e)
  {
    hide Expr;
    SkipBlank(w, "");
    assert w + "" == w;
    assert AfterExp(w);
    ExpComplete(e, w);
    if ExpVal(e).Some? {
      assert ExprLoop(ExpVal(e).value, w, false) == Parse(ExpVal(e).value, "", false);
    }
  }

  /** The evaluator succeeds with `v` exactly on sentences of value `v`. */
  lemma EvalCorrect(s: string, v: int)
    ensures Eval(s) == Some(v) <==> exists e, w :: Reads(s, e, w) && ExpVal(e) == Some(v)
  {
    if Eval(s) == Some(v) {
      var e, w := ExpSound(s);
      var w' := LeadingBlanks(Expr(s).rest);
      assert s == ExpText(e) + (w + w');
      assert Reads(s, e, w + w');
    }
    forall e, w | Reads(s, e, w) && ExpVal(e) == Some(v) ensures Eval(s) == Some(v) {
      EvalComplete(s, e, w);
    }
  }

  /** The grammar is unambiguous as far as values go. */
  lemma ValueUnique(s: string, e1: Exp, w1: string, e2: Exp, w2: string)
    requires Reads(s, e1, w1) && Reads(s, e2, w2)
    ensures ExpVal(e1) == ExpVal(e2)
  {
    EvalComplete(s, e1, w1);
    EvalComplete(s, e2, w2);
  }

  // ------------------------------------- abstract trees, fewest parentheses

  datatype Tree = Lit(n: nat) | Minus(t: Tree) | Bin(op: char, l: Tree, r: Tree)

  predicate TreeOk(t: Tree) {
    match t
    case Lit(_) => true
    case Minus(x) => TreeOk(x)
    case Bin(op, l, r) => (IsAddOp(op) || IsMulOp(op)) && TreeOk(l) && TreeOk(r)
  }

  ghost function TreeVal(t: Tree): Option<int> {
    match t
    case Lit(n) => Some(n)
    case Minus(x) => Signed(true, TreeVal(x))
    case Bin(op, l, r) => Apply(op, TreeVal(l), TreeVal(r))
  }

  /** Parentheses only where precedence or left associativity needs them. */
  function AsFac(t: Tree): (f: Fac)
    requires TreeOk(t)
    ensures FacOk(f) && FacVal(f) == TreeVal(t)
    decreases t, 0
  {
    match t
    case Lit(n) =>
      ValueOfDec(n);
      Num("", false, Dec(n))
    case Minus(Lit(n)) =>
      ValueOfDec(n);
      Num("", true, Dec(n))
    case Minus(x) => Par("", true, AsExp(x), "")
    case Bin(op, l, r) =>
      if IsMulOp(op) then
        var m := Mul(AsTer(l), "", op, AsFac(r));
        assert TerOk(m) && TerVal(m) == TreeVal(t);
        var e := Uni(m);
        assert ExpOk(e) && ExpVal(e) == TreeVal(t);
        Par("", false, e, "")
      else
        var e := Add(AsExp(l), "", op, AsTer(r));
        assert ExpOk(e) && ExpVal(e) == TreeVal(t);
        Par("", false, e, "")
  }

  function AsTer(t: Tree): (x: Ter)
    requires TreeOk(t)
    ensures TerOk(x) && TerVal(x) == TreeVal(t)
    decreases t, 1
  {
    if t.Bin? && IsMulOp(t.op) then Mul(AsTer(t.l), "", t.op, AsFac(t.r)) else One(AsFac(t))
  }

  function AsExp(t: Tree): (e: Exp)
    requires TreeOk(t)
    ensures ExpOk(e) && ExpVal(e) == TreeVal(t)
    decreases t, 2
  {
    if t.Bin? && IsAddOp(t.op) then Add(AsExp(t.l), "", t.op, AsTer(t.r)) else Uni(AsTer(t))
  }

  function Show(t: Tree): string
    requires TreeOk(t)
  {
    ExpText(AsExp(t))
  }

  /** Printing any tree and evaluating the text gives the tree's value; the
      evaluator fails exactly when some divisor of the tree is zero. */
  lemma EvalShow(t: Tree)
    requires TreeOk(t)
    ensures Eval(Show(t)) == TreeVal(t)
  {
    assert Show(t) + "" == Show(t);
    EvalComplete(Show(t), AsExp(t), "");
  }

  // ------------------------------------------------------ printed numbers

  /** What `ft_lltoa` prints. */
  function Lltoa(n: int): string {
    if n < 0 then "-" + Dec(-n) else Dec(n)
  }

  /** What arithmetic, `$?` and `$$` print: a decimal numeral without leading
      zeros, after `-` for a negative number, and no other text. */
  lemma LltoaExactly(s: string, n: int)
    ensures s == Lltoa(n) <==> if n < 0 then s != "" && s[0] == '-' && Canonical(s[1..], -n) else Canonical(s, n)
  {
    hide Canonical, Dec;
    var m := if n < 0 then -n else n;
    DecCanonical(m);
    if n >= 0 && Canonical(s, n) {
      CanonicalIsDec(s, n);
    } else if n < 0 && s != "" && s[0] == '-' {
      assert s == "-" + s[1..];
      if Canonical(s[1..], m) {
        CanonicalIsDec(s[1..], m);
      }
    }
    if n < 0 && s == Lltoa(n) {
      assert s[1..] == Dec(m);
    }
  }

  /** The result of an expansion can be used as an operand again. */
  lemma EvalLltoa(n: int)
    ensures Eval(Lltoa(n)) == Some(n)
  {
    var f := Num("", n < 0, Dec(Abs(n)));
    ValueOfDec(Abs(n));
    assert FacVal(f) == Some(n);
    FactorAlone(f);
    assert FacText(f) == Lltoa(n) == Lltoa(n) + "";
    EvalComplete(Lltoa(n), Uni(One(f)), "");
  }

  lemma FactorAlone(f: Fac)
    requires FacOk(f)
    ensures var e := Uni(One(f)); ExpOk(e) && ExpVal(e) == FacVal(f) && ExpText(e) == FacText(f)
  {
    var t := One(f);
    assert TerOk(t);
    assert TerVal(t) == FacVal(f);
    assert TerText(t) == FacText(f);
  }
}
