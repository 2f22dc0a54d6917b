/** Decimal numerals: what `atoi` reads and what the digit printer writes. */
module Decimal {
  import opened Ascii

  predicate AllDigits(s: string) {
    forall i :: 0 <= i < |s| ==> IsDigit(s[i])
  }

  /** Length of the longest prefix of digits. */
  function DigitRun(s: string): (n: nat)
    ensures n <= |s| && (n < |s| ==> !IsDigit(s[n]))
    ensures forall i :: 0 <= i < n ==> IsDigit(s[i])
  {
    if s != "" && IsDigit(s[0]) then 1 + DigitRun(s[1..]) else 0
  }

  lemma RunOfDigits(s: string)
    ensures AllDigits(s[..DigitRun(s)])
  {
  }

  /** The value of a digit string, continuing from `acc`. */
  function Value(s: string, acc: nat): nat
    requires AllDigits(s)
  {
    if s == "" then acc else Value(s[1..], acc * 10 + (s[0] - '0') as nat)
  }

  function Digit(d: nat): (c: char)
    requires d < 10
    ensures IsDigit(c) && (c - '0') as nat == d
  {
    '0' + d as char
  }

  /** Decimal rendering of a natural number, no leading zeros. */
  function Dec(n: nat): (s: string)
    ensures s != "" && AllDigits(s)
  {
    if n < 10 then [Digit(n)] else Dec(n / 10) + [Digit(n % 10)]
  }

  lemma {:induction false} ValueSnoc(s: string, c: char, acc: nat)
    requires AllDigits(s) && IsDigit(c)
    ensures AllDigits(s + [c])
    ensures Value(s + [c], acc) == Value(s, acc) * 10 + (c - '0') as nat
  {
    if s == "" {
      assert s + [c] == [c];
    } else {
      assert (s + [c])[1..] == s[1..] + [c];
      ValueSnoc(s[1..], c, acc * 10 + (s[0] - '0') as nat);
    }
  }

  /** Reading back a printed number gives the number. */
  lemma {:induction false} ValueOfDec(n: nat)
    ensures Value(Dec(n), 0) == n
  {
    if n >= 10 {
      ValueOfDec(n / 10);
      ValueSnoc(Dec(n / 10), Digit(n % 10), 0);
    }
  }

  /** A digit run followed by something else is measured exactly. */
  lemma {:induction false} DigitRunAppend(ds: string, t: string)
    requires AllDigits(ds)
    requires t == "" || !IsDigit(t[0])
    ensures DigitRun(ds + t) == |ds|
  {
    if ds == "" {
      assert ds + t == t;
    } else {
      assert (ds + t)[1..] == ds[1..] + t;
      DigitRunAppend(ds[1..], t);
    }
  }

  /** Digits without a leading zero, of value `n`. */
  predicate Canonical(s: string, n: nat) {
    s != "" && AllDigits(s) && Value(s, 0) == n && (|s| > 1 ==> s[0] != '0')
  }

  lemma {:induction false} DecCanonical(n: nat)
    ensures Canonical(Dec(n), n) && (n > 0 ==> Dec(n)[0] != '0')
  {
    ValueOfDec(n);
    if n >= 10 {
      DecCanonical(n / 10);
    }
  }

  /** A number is printed in the one way without leading zeros. */
  lemma {:induction false} CanonicalIsDec(s: string, n: nat)
    requires Canonical(s, n)
    ensures s == Dec(n)
    decreases |s|
  {
    if |s| == 1 {
      assert s == "" + [s[0]] && Value("", 0) == 0;
      ValueSnoc("", s[0], 0);
      assert Digit(n) == s[0];
    } else {
      var t, c := s[..|s| - 1], s[|s| - 1];
      assert s == t + [c];
      assert AllDigits(t) && t[0] == s[0];
      ValueSnoc(t, c, 0);
      var m := Value(t, 0);
      CanonicalIsDec(t, m);
      DecCanonical(m);
      assert m > 0 by {
        assert Dec(0)[0] == '0';
      }
      assert n / 10 == m && n % 10 == (c - '0') as nat;
    }
  }
}
