/** When a word cannot be expanded, and where the evaluator is then handed no
    text at all. */
module ExpansionFails {
  import opened Ascii
  import opened Wrappers
  import opened ArithSpec
  import opened FieldSplitSpec
  import opened ExpanderSpec
  import opened SeqFacts

  /** The text inside `$((` and `))` does not expand; the C code then hands a
      null pointer to the evaluator. */
  predicate NestedFails(env: Env, s: string, st: State)
    requires |s| >= 3
  {
    var body := s[3..];
    var n := FindArith(body, 1);
    n.Some? && !ExpandWord(env, body[..n.value - 2], true, NONE, st).ok
  }

  /** What `$` starts fails exactly when it is unterminated, or an arithmetic
      expansion whose text does not expand or does not evaluate. */
  lemma DollarFailsExactly(env: Env, s: string, dq: bool, st: State)
    requires At(s, 0) == '$'
    ensures !Dollar(env, s, dq, st).ok <==>
      if At(s, 1) == '(' && At(s, 2) == '(' then
        var body := s[3..];
        var n := FindArith(body, 1);
        n.None? || NestedFails(env, s, st) || Eval(Text(ExpandWord(env, body[..n.value - 2], true, NONE, st).out)).None?
      else
        At(s, 1) == '(' && FindClose(s[2..], 1, false, false).None?
  {
    hide ExpandWord, FindArith, FindClose, Eval, Special, NameLen, IndexOfChar;
  }

  lemma Tail2(s: string, a: nat, b: nat)
    requires a + b <= |s|
    ensures s[a..][b..] == s[a + b..] && s[|s|..] == ""
  {
  }

  /** What is left is a tail of the word. */
  predicate IsTail(r: string, s: string) {
    |r| <= |s| && r == s[|s| - |r|..]
  }

  lemma TailAt(s: string, k: nat)
    requires k <= |s|
    ensures IsTail(s[k..], s) && IsTail("", s)
  {
  }

  lemma BracedTail(env: Env, s: string, dq: bool, st: State)
    requires At(s, 0) == '$' && At(s, 1) == '{'
    ensures IsTail(Braced(env, s, dq, st).rest, s)
  {
    hide IndexOfChar, Special, Lookup, IsTail;
    var n := IndexOfChar(s[2..], '}');
    TailAt(s, 1);
    if n < |s[2..]| {
      Tail2(s, 2, n + 1);
      TailAt(s, 2 + (n + 1));
    }
  }

  lemma CmdsubTail(env: Env, s: string, dq: bool, st: State)
    requires At(s, 0) == '$' && At(s, 1) == '('
    ensures IsTail(Cmdsub(env, s, dq, st).rest, s)
  {
    hide FindClose, IsTail;
    var n := FindClose(s[2..], 1, false, false);
    TailAt(s, 2);
    if n.Some? {
      Tail2(s, 2, n.value + 1);
      TailAt(s, 2 + (n.value + 1));
    }
  }

  lemma ArithmeticTail(env: Env, s: string, dq: bool, st: State)
    requires At(s, 0) == '$' && At(s, 1) == '(' && At(s, 2) == '('
    ensures IsTail(Arithmetic(env, s, dq, st).rest, s)
  {
    hide FindArith, ExpandWord, Eval, IsTail;
    var n := FindArith(s[3..], 1);
    TailAt(s, 3);
    if n.Some? {
      Tail2(s, 3, n.value);
      TailAt(s, 3 + n.value);
    }
  }

  lemma DollarTail(env: Env, s: string, dq: bool, st: State)
    requires At(s, 0) == '$'
    ensures IsTail(Dollar(env, s, dq, st).rest, s)
  {
    hide Arithmetic, Cmdsub, Braced, Special, NameLen, Lookup, IsTail;
    TailAt(s, 1);
    if At(s, 1) == '(' && At(s, 2) == '(' {
      ArithmeticTail(env, s, dq, st);
    } else if At(s, 1) == '(' {
      CmdsubTail(env, s, dq, st);
    } else if At(s, 1) == '{' {
      BracedTail(env, s, dq, st);
    } else if |s| > 1 {
      TailAt(s, 2);
      TailAt(s, 1 + NameLen(s[1..]));
    }
  }

  lemma TildeTail(env: Env, s: string, st: State)
    requires At(s, 0) == '~'
    ensures IsTail(Tilde(env, s, st).rest, s) && Tilde(env, s, st).ok
  {
    hide IndexOfChar;
  }

  lemma StepTail(env: Env, s: string, first: bool, q: Quotes, st: State)
    requires s != ""
    ensures var (a, _) := WordStep(env, s, first, q, st);
            IsTail(a.rest, s) && (!a.ok ==> s[0] == '$' && a == Dollar(env, s, q.dq, st))
  {
    hide Dollar, Tilde, IsTail;
    TailAt(s, 1);
    if s[0] == '$' {
      DollarTail(env, s, q.dq, st);
    } else if s[0] == '~' {
      TildeTail(env, s, st);
    }
    if |s| > 1 {
      TailAt(s, 2);
    }
  }

  /** Expansion of the `$` at `i` fails. */
  ghost predicate FailsAt(env: Env, s: string, i: nat, dq: bool, t: State) {
    i < |s| && s[i] == '$' && !Dollar(env, s[i..], dq, t).ok
  }

  /** A word fails only at a `$` it comes to. */
  lemma {:induction false} FailsAtDollar(env: Env, s: string, first: bool, q: Quotes, st: State)
    requires !ExpandWord(env, s, first, q, st).ok
    ensures exists i, dq, t :: FailsAt(env, s, i, dq, t)
    decreases |s|
  {
    hide Dollar, Tilde, WordStep;
    var (a, q') := WordStep(env, s, first, q, st);
    StepTail(env, s, first, q, st);
    if a.ok {
      FailsAtDollar(env, a.rest, false, q', a.st);
      var i, dq, t :| FailsAt(env, a.rest, i, dq, t);
      Tail2(s, |s| - |a.rest|, i);
      assert FailsAt(env, s, |s| - |a.rest| + i, dq, t);
    } else {
      assert s[0..] == s;
      assert FailsAt(env, s, 0, q.dq, st);
    }
  }

  /** `$(( $( ))`: the inner text, `$(` without its end, does not expand. */
  lemma NestedWitness(env: Env, st: State)
    ensures NestedFails(env, "$(( $( ))", st) && !Dollar(env, "$(( $( ))", true, st).ok
  {
    hide Arithmetic;
    InnerCut();
    InnerFails(env, st);
    var s := "$(( $( ))";
    assert s[3..] == " $( ))" && s[3..][..4] == " $( ";
    DollarFailsExactly(env, s, true, st);
  }

  lemma InnerCut()
    ensures FindArith(" $( ))", 1) == Some(6)
  {
    hide FindArith;
    CutEnd();
    assert [' '] + "))" == " ))" && ['('] + " ))" == "( ))" && ['$'] + "( ))" == "$( ))" && [' '] + "$( ))" == " $( ))";
    CutByte(' ', "))", 2);
    CutByte('(', " ))", 3);
    CutByte('$', "( ))", 4);
    CutByte(' ', "$( ))", 5);
  }

  lemma CutEnd()
    ensures FindArith("))", 1) == Some(2)
  {
  }

  lemma CutTurn(s: string)
    requires s != "" && s[0] != ')' && !(s[0] == '(' && At(s, 1) == '(')
    ensures var n := FindArith(s[1..], 1); FindArith(s, 1) == if n.None? then None else Some(1 + n.value)
  {
  }

  lemma CutByte(x: char, s: string, n: nat)
    requires x != ')' && (x == '(' ==> At(s, 0) != '(') && FindArith(s, 1) == Some(n)
    ensures FindArith([x] + s, 1) == Some(n + 1)
  {
    var all := [x] + s;
    CutTurn(all);
    hide FindArith;
    Drop1(x, s);
    assert At(all, 1) == At(s, 0);
  }

  lemma InnerFails(env: Env, st: State)
    ensures !ExpandWord(env, " $( ", true, NONE, st).ok
  {
    var s, t := " $( ", "$( ";
    assert s[1..] == t && t[2..] == " " && " "[1..] == "";
    assert FindClose(" ", 1, false, false) == None;
    assert !Dollar(env, t, false, st).ok;
    assert !ExpandWord(env, t, false, NONE, st).ok;
  }
}
