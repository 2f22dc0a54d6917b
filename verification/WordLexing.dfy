/** The tokenizer keeps every well-formed word in one piece. */
module WordLexing {
  import opened Ascii
  import opened Decimal
  import opened LexerSpec
  import opened LexerNormalForm
  import opened SeqFacts
  import opened WordGrammar

  /** The scanner goes over `v`, whatever state it leaves `r` to. */
  ghost predicate Passes(v: string, r: string, st: Scan, next: Scan) {
    WordLen(v + r, st) == |v| + WordLen(r, next) && (Closed(r, next) ==> Closed(v + r, st))
  }

  lemma PassNone(r: string, st: Scan)
    ensures Passes("", r, st, st)
  {
    assert "" + r == r;
  }

  lemma PassThen(a: string, b: string, r: string, s0: Scan, s1: Scan, s2: Scan)
    requires Passes(a, b + r, s0, s1) && Passes(b, r, s1, s2)
    ensures Passes(a + b, r, s0, s2)
  {
    Assoc(a, b, r);
  }

  /** One step of the scanner over `v`. */
  lemma PassStep(v: string, r: string, st: Scan, next: Scan)
    requires v != "" && !AtWordEnd(v + r, st) && LexerSpec.Step(v + r, st) == (|v|, next)
    requires v + r == "\\" ==> st.sq
    ensures Passes(v, r, st, next)
  {
    hide LexerSpec.Step, AtWordEnd;
    assert (v + r)[|v|..] == r;
  }

  /** A byte without meaning to the scanner, inside quotes or a substitution. */
  lemma PassByte(c: char, r: string, st: Scan)
    requires !st.Neutral() && (if st.sq then c != '\'' else c != '"' && c != '\\' && (st.dq || c != '\''))
    requires st.sub > 0 && !st.sq ==> c != '(' && c != ')'
    requires c == '$' && st.sub == 0 && !st.sq ==> At(r, 0) != '(' || At(r, 1) == '('
    ensures Passes([c], r, st, st)
  {
    Drop1(c, r);
    assert At([c] + r, 1) == At(r, 0) && At([c] + r, 2) == At(r, 1);
    PassStep([c], r, st, st);
  }

  lemma PassEscape(c: char, r: string, st: Scan)
    requires !st.sq
    ensures Passes(['\\', c], r, st, st)
  {
    Drop2('\\', c, r);
    PassStep(['\\', c], r, st, st);
  }

  lemma PassQuote(c: char, r: string, st: Scan)
    requires (c == '\'' && !st.dq) || (c == '"' && !st.sq)
    ensures Passes([c], r, st, if c == '\'' then st.(sq := !st.sq) else st.(dq := !st.dq))
  {
    Drop1(c, r);
    PassStep([c], r, st, if c == '\'' then st.(sq := !st.sq) else st.(dq := !st.dq));
  }

  lemma PassParen(c: char, r: string, st: Scan)
    requires (c == '(' || c == ')') && st.sub > 0 && !st.sq
    ensures Passes([c], r, st, st.(sub := if c == '(' then st.sub + 1 else st.sub - 1))
  {
    Drop1(c, r);
    PassStep([c], r, st, st.(sub := if c == '(' then st.sub + 1 else st.sub - 1));
  }

  lemma PassSubstitution(r: string, st: Scan)
    requires !st.sq && st.sub == 0 && At(r, 0) != '('
    ensures Passes("$(", r, st, st.(sub := 1))
  {
    var s := "$(" + r;
    assert At(s, 2) == At(r, 0);
    PassStep("$(", r, st, st.(sub := 1));
  }

  /** Bytes between single quotes. */
  lemma {:induction false} PassSingle(s: string, r: string, st: Scan)
    requires st.sq && '\'' !in s
    ensures Passes(s, r, st, st)
  {
    hide Passes;
    if s == "" {
      PassNone(r, st);
    } else {
      PassByte(s[0], s[1..] + r, st);
      PassSingle(s[1..], r, st);
      PassThen([s[0]], s[1..], r, st, st, st);
      assert [s[0]] + s[1..] == s;
    }
  }

  /** Opening byte, body, closing byte, and what follows. */
  lemma PassBetween(a: string, b: string, c: string, d: string, r: string, s0: Scan, s1: Scan, s2: Scan)
    requires Passes(a, b + (c + d) + r, s0, s1) && Passes(b, (c + d) + r, s1, s1) && Passes(c, d + r, s1, s0)
    requires Passes(d, r, s0, s2)
    ensures Passes(a + (b + (c + d)), r, s0, s2)
  {
    hide Passes;
    PassThen(c, d, r, s1, s0, s2);
    PassThen(b, c + d, r, s1, s1, s2);
    PassThen(a, b + (c + d), r, s0, s1, s2);
  }

  // -------------------------------------------------- inside a substitution

  lemma {:induction false} DqPasses(d: Dq, r: string, st: Scan, dq: bool)
    requires DqOk(d) && DqLexes(d, dq) && !st.sq && st.dq == !dq && st.sub > 0
    ensures Passes(DqText(d), r, st, st)
    decreases d
  {
    hide Passes;
    match d {
      case DEnd => PassNone(r, st);
      case DByte(c, t) =>
        PassByte(c, DqText(t) + r, st);
        DqPasses(t, r, st, dq);
        PassThen([c], DqText(t), r, st, st, st);
      case DEscape(c, t) =>
        PassEscape(c, DqText(t) + r, st);
        DqPasses(t, r, st, dq);
        PassThen(['\\', c], DqText(t), r, st, st, st);
      case DParen(i, t) =>
        var deep := st.(sub := st.sub + 1);
        PassParen('(', DqText(i) + (")" + DqText(t)) + r, st);
        DqPasses(i, (")" + DqText(t)) + r, deep, dq);
        PassParen(')', DqText(t) + r, deep);
        DqPasses(t, r, st, dq);
        PassBetween("(", DqText(i), ")", DqText(t), r, st, deep, st);
    }
  }

  lemma {:induction false} TextPasses(t: Script, r: string, st: Scan)
    requires TextOk(t) && TextLexes(t, st.dq) && !st.sq && st.sub > 0
    ensures Passes(Source(t), r, st, st)
    decreases t
  {
    hide Passes;
    match t {
      case End => PassNone(r, st);
      case Byte(c, u) =>
        PassByte(c, Source(u) + r, st);
        TextPasses(u, r, st);
        PassThen([c], Source(u), r, st, st, st);
      case Escape(c, u) =>
        PassEscape(c, Source(u) + r, st);
        TextPasses(u, r, st);
        PassThen(['\\', c], Source(u), r, st, st, st);
      case Single(s, u) =>
        var inside := st.(sq := true);
        PassQuote('\'', s + ("'" + Source(u)) + r, st);
        PassSingle(s, ("'" + Source(u)) + r, inside);
        PassQuote('\'', Source(u) + r, inside);
        TextPasses(u, r, st);
        PassBetween("'", s, "'", Source(u), r, st, inside, st);
      case Double(d, u) =>
        var inside := st.(dq := !st.dq);
        PassQuote('"', DqText(d) + ("\"" + Source(u)) + r, st);
        DqPasses(d, ("\"" + Source(u)) + r, inside, st.dq);
        PassQuote('"', Source(u) + r, inside);
        TextPasses(u, r, st);
        PassBetween("\"", DqText(d), "\"", Source(u), r, st, inside, st);
      case Paren(i, u) =>
        var deep := st.(sub := st.sub + 1);
        PassParen('(', Source(i) + (")" + Source(u)) + r, st);
        TextPasses(i, (")" + Source(u)) + r, deep);
        PassParen(')', Source(u) + r, deep);
        TextPasses(u, r, st);
        PassBetween("(", Source(i), ")", Source(u), r, st, deep, st);
    }
  }

  // --------------------------------------------------- inside double quotes

  const INSIDE := Scan(false, true, 0)

  /** `$` and `{`, or what else opens, byte by byte. */
  lemma PassTwo(a: char, b: char, r: string, st: Scan)
    requires Passes([a], [b] + r, st, st) && Passes([b], r, st, st)
    ensures Passes([a, b], r, st, st)
  {
    hide Passes;
    PassThen([a], [b], r, st, st, st);
    assert [a] + [b] == [a, b];
  }

  /** A part of a word and the rest of the word. */
  lemma PassPart(v: string, w: Word, r: string, st: Scan)
    requires Passes(v, WordText(w) + r, st, st) && Passes(WordText(w), r, st, st)
    ensures Passes(v + WordText(w), r, st, st)
  {
    hide Passes;
    PassThen(v, WordText(w), r, st, st, st);
  }

  lemma {:induction false} NameInside(n: string, r: string)
    requires forall i :: 0 <= i < |n| ==> IsNameChar(n[i])
    ensures Passes(n, r, INSIDE, INSIDE)
  {
    hide Passes;
    if n == "" {
      PassNone(r, INSIDE);
    } else {
      PassByte(n[0], n[1..] + r, INSIDE);
      NameInside(n[1..], r);
      PassThen([n[0]], n[1..], r, INSIDE, INSIDE, INSIDE);
      assert [n[0]] + n[1..] == n;
    }
  }

  lemma DollarInside(r: string)
    requires At(r, 0) != '(' || At(r, 1) == '('
    ensures Passes("$", r, INSIDE, INSIDE)
  {
    PassByte('$', r, INSIDE);
  }

  lemma OpensInside(r: string)
    ensures Passes("${", r, INSIDE, INSIDE) && Passes("}", r, INSIDE, INSIDE)
  {
    hide Passes;
    Drop1('{', r);
    DollarInside(['{'] + r);
    PassByte('{', r, INSIDE);
    PassTwo('$', '{', r, INSIDE);
    PassByte('}', r, INSIDE);
  }

  lemma ValueInside(n: string, braces: bool, r: string)
    requires IsIdentifier(n)
    ensures Passes(if braces then "${" + (n + "}") else "$" + n, r, INSIDE, INSIDE)
  {
    hide Passes;
    if braces {
      OpensInside(n + "}" + r);
      NameInside(n, "}" + r);
      OpensInside(r);
      PassThen(n, "}", r, INSIDE, INSIDE, INSIDE);
      PassThen("${", n + "}", r, INSIDE, INSIDE, INSIDE);
    } else {
      assert At(n + r, 0) == n[0];
      DollarInside(n + r);
      NameInside(n, r);
      PassThen("$", n, r, INSIDE, INSIDE, INSIDE);
    }
  }

  lemma SpecialInside(c: char, braces: bool, r: string)
    requires c in "?$0" && (c == '$' && !braces ==> At(r, 0) != '(')
    ensures Passes(if braces then "${" + ([c] + "}") else ['$', c], r, INSIDE, INSIDE)
  {
    hide Passes;
    if braces {
      OpensInside([c] + "}" + r);
      assert At("}" + r, 0) == '}';
      PassByte(c, "}" + r, INSIDE);
      OpensInside(r);
      PassThen([c], "}", r, INSIDE, INSIDE, INSIDE);
      PassThen("${", [c] + "}", r, INSIDE, INSIDE, INSIDE);
    } else {
      assert At([c] + r, 0) == c;
      DollarInside([c] + r);
      PassByte(c, r, INSIDE);
      PassTwo('$', c, r, INSIDE);
    }
  }

  lemma OutputPasses(t: Script, r: string, st: Scan)
    requires TextOk(t) && !t.Paren? && TextLexes(t, st.dq) && !st.sq && st.sub == 0
    ensures Passes("$(" + (Source(t) + ")"), r, st, st)
  {
    hide Passes;
    var inner := st.(sub := 1);
    NoParenFirst(t, ")" + r);
    Assoc(Source(t), ")", r);
    PassSubstitution(Source(t) + ")" + r, st);
    TextPasses(t, ")" + r, inner);
    PassParen(')', r, inner);
    PassThen(Source(t), ")", r, inner, inner, st);
    PassThen("$(", Source(t) + ")", r, st, inner, st);
  }

  lemma NoParenFirst(t: Script, r: string)
    requires TextOk(t) && !t.Paren? && At(r, 0) != '('
    ensures At(Source(t) + r, 0) != '('
  {
    if t.End? {
      assert Source(t) + r == r;
    } else {
      assert (Source(t) + r)[0] == Source(t)[0];
    }
  }

  lemma FirstOf(a: string, r: string)
    ensures At(a + r, 0) == if a == "" then At(r, 0) else a[0]
  {
    if a == "" {
      assert a + r == r;
    }
  }

  lemma {:induction false} WordInside(w: Word, r: string)
    requires WordOk(w, true) && WordLexes(w, true) && At(r, 0) != '('
    ensures Passes(WordText(w), r, INSIDE, INSIDE)
    decreases w, 1
  {
    hide Passes, Paired;
    if w.Done? {
      PassNone(r, INSIDE);
    } else {
      WordInside(w.rest, r);
      FirstOf(WordText(w.rest), r);
      PartInside(w, WordText(w.rest) + r);
      PassPart(Part(w), w.rest, r, INSIDE);
      PartAndRest(w);
    }
  }

  lemma PartInside(w: Word, r: string)
    requires WordOk(w, true) && WordLexes(w, true) && !w.Done?
    requires w.Special? && w.c == '$' && !w.braces ==> At(r, 0) != '('
    requires w.Lone? ==> At(r, 0) != '('
    ensures Passes(Part(w), r, INSIDE, INSIDE)
    decreases w, 0
  {
    hide Passes, Paired, WordText;
    match w {
      case Plain(c, _) => PassByte(c, r, INSIDE);
      case Escaped(c, _) => PassEscape(c, r, INSIDE);
      case Var(n, braces, _) => ValueInside(n, braces, r);
      case Special(c, braces, _) => SpecialInside(c, braces, r);
      case Lone(_) => DollarInside(r);
      case Output(t, _) => OutputPasses(t, r, INSIDE);
      case Result(e, _) => ResultInside(e, r);
    }
  }

  lemma ResultInside(e: Word, r: string)
    requires WordOk(e, false) && WordLexes(e, true)
    ensures Passes("$((" + (WordText(e) + "))"), r, INSIDE, INSIDE)
    decreases e, 2
  {
    hide Passes, WordText;
    NoQuotesIn(e);
    WordInside(e, "))" + r);
    PassByte(')', r, INSIDE);
    PassByte(')', ")" + r, INSIDE);
    PassTwo(')', ')', r, INSIDE);
    PassThen(WordText(e), "))", r, INSIDE, INSIDE, INSIDE);
    var body := WordText(e) + "))" + r;
    PassByte('(', body, INSIDE);
    PassByte('(', "(" + body, INSIDE);
    PassTwo('(', '(', body, INSIDE);
    assert At("((" + body, 0) == '(' && At("((" + body, 1) == '(';
    DollarInside("((" + body);
    PassThen("$", "((", body, INSIDE, INSIDE, INSIDE);
    assert "$" + "((" == "$((";
    Assoc(WordText(e), "))", r);
    PassThen("$((", WordText(e) + "))", r, INSIDE, INSIDE, INSIDE);
  }

  /** Without quotes it makes no difference where a word stands. */
  lemma {:induction false} NoQuotesIn(e: Word)
    requires WordOk(e, false) && WordLexes(e, true)
    ensures WordOk(e, true)
  {
    if !e.Done? {
      NoQuotesIn(e.rest);
    }
  }

  // ---------------------------------------------------------- outside quotes

  /** Digits at the head of `s` do not belong to a redirection. */
  predicate NoRedirAhead(s: string) {
    At(s, DigitRun(s)) != '<' && At(s, DigitRun(s)) != '>'
  }

  lemma NoRedirCons(c: char, s: string)
    requires NoRedirAhead(s) && c != '<' && c != '>'
    ensures NoRedirAhead([c] + s)
  {
    Drop1(c, s);
  }

  lemma {:induction false} NoRedirInWord(w: Word)
    requires WordOk(w, false) && WordLexes(w, false)
    ensures NoRedirAhead(WordText(w))
  {
    hide NoRedirAhead, Paired;
    if w.Done? {
      NoRedirEnd();
    } else if w.Plain? {
      NoRedirInWord(w.rest);
      NoRedirCons(w.c, WordText(w.rest));
    } else {
      NoRedirOther(WordText(w));
    }
  }

  lemma NoRedirEnd()
    ensures NoRedirAhead("")
  {
    assert DigitRun("") == 0;
  }

  lemma NoRedirOther(s: string)
    requires s != "" && s[0] in "\\'$\""
    ensures NoRedirAhead(s)
  {
  }

  lemma PassPlain(c: char, r: string)
    requires WordByte(c) && c !in "'\"\\" && (c == '$' ==> At(r, 0) != '(') && NoRedirAhead(r)
    ensures Passes([c], r, START, START)
  {
    Drop1(c, r);
    NoRedirCons(c, r);
    assert At([c] + r, 1) == At(r, 0);
    PassStep([c], r, START, START);
  }

  lemma {:induction false} NameOutside(n: string, r: string)
    requires forall i :: 0 <= i < |n| ==> IsNameChar(n[i])
    requires NoRedirAhead(r)
    ensures Passes(n, r, START, START) && NoRedirAhead(n + r)
  {
    hide Passes, NoRedirAhead;
    if n == "" {
      PassNone(r, START);
      assert n + r == r;
    } else {
      NameOutside(n[1..], r);
      PassPlain(n[0], n[1..] + r);
      NoRedirCons(n[0], n[1..] + r);
      PassThen([n[0]], n[1..], r, START, START, START);
      assert [n[0]] + n[1..] == n && [n[0]] + (n[1..] + r) == n + r;
    }
  }

  lemma OpensOutside(r: string)
    requires NoRedirAhead(r)
    ensures Passes("${", r, START, START) && Passes("}", r, START, START) && NoRedirAhead("}" + r)
  {
    hide Passes, NoRedirAhead;
    Drop1('{', r);
    NoRedirCons('{', r);
    NoRedirCons('}', r);
    PassPlain('$', ['{'] + r);
    PassPlain('{', r);
    PassTwo('$', '{', r, START);
    PassPlain('}', r);
  }

  lemma ValueOutside(n: string, braces: bool, r: string)
    requires IsIdentifier(n) && NoRedirAhead(r)
    ensures Passes(if braces then "${" + (n + "}") else "$" + n, r, START, START)
  {
    hide Passes, NoRedirAhead;
    if braces {
      OpensOutside(r);
      NameOutside(n, "}" + r);
      Assoc(n, "}", r);
      OpensOutside(n + "}" + r);
      PassThen(n, "}", r, START, START, START);
      PassThen("${", n + "}", r, START, START, START);
    } else {
      assert At(n + r, 0) == n[0];
      NameOutside(n, r);
      PassPlain('$', n + r);
      PassThen("$", n, r, START, START, START);
    }
  }

  lemma SpecialOutside(c: char, braces: bool, r: string)
    requires c in "?$0" && (c == '$' && !braces ==> At(r, 0) != '(') && NoRedirAhead(r)
    ensures Passes(if braces then "${" + ([c] + "}") else ['$', c], r, START, START)
  {
    hide Passes, NoRedirAhead;
    if braces {
      OpensOutside(r);
      assert At("}" + r, 0) == '}';
      PassPlain(c, "}" + r);
      NoRedirCons(c, "}" + r);
      Assoc([c], "}", r);
      OpensOutside([c] + "}" + r);
      PassThen([c], "}", r, START, START, START);
      PassThen("${", [c] + "}", r, START, START, START);
    } else {
      assert At([c] + r, 0) == c;
      NoRedirCons(c, r);
      PassPlain('$', [c] + r);
      PassPlain(c, r);
      PassTwo('$', c, r, START);
    }
  }

  lemma PassAround(q: char, b: string, r: string, inside: Scan)
    requires q == '\'' || q == '"'
    requires inside == if q == '\'' then START.(sq := true) else START.(dq := true)
    requires Passes(b, [q] + r, inside, inside)
    ensures Passes([q] + (b + [q]), r, START, START)
  {
    hide Passes;
    PassQuote(q, r, inside);
    PassThen(b, [q], r, inside, inside, START);
    PassQuote(q, b + [q] + r, START);
    PassThen([q], b + [q], r, START, inside, START);
  }

  lemma PartOutside(w: Word, r: string)
    requires WordOk(w, false) && WordLexes(w, false) && !w.Done? && NoRedirAhead(r)
    requires w.Special? && w.c == '$' && !w.braces ==> At(r, 0) != '('
    requires w.Lone? ==> At(r, 0) != '('
    ensures Passes(Part(w), r, START, START)
  {
    hide Passes, Paired, WordText, NoRedirAhead;
    match w {
      case Plain(c, _) => PassPlain(c, r);
      case Escaped(c, _) => PassEscape(c, r, START);
      case Literal(s, _) =>
        PassSingle(s, "'" + r, START.(sq := true));
        PassAround('\'', s, r, START.(sq := true));
      case Var(n, braces, _) => ValueOutside(n, braces, r);
      case Special(c, braces, _) => SpecialOutside(c, braces, r);
      case Lone(_) => PassPlain('$', r);
      case Output(t, _) => OutputPasses(t, r, START);
      case Quoted(i, _) =>
        WordInside(i, "\"" + r);
        PassAround('"', WordText(i), r, INSIDE);
    }
  }

  lemma {:induction false} WordOutside(w: Word)
    requires WordOk(w, false) && WordLexes(w, false)
    ensures Passes(WordText(w), "", START, START)
  {
    hide Passes, Paired, NoRedirAhead;
    if w.Done? {
      PassNone("", START);
    } else {
      WordOutside(w.rest);
      NoRedirInWord(w.rest);
      assert WordText(w.rest) + "" == WordText(w.rest);
      PartOutside(w, WordText(w.rest));
      PassPart(Part(w), w.rest, "", START);
      PartAndRest(w);
    }
  }

  /** Main result: every well-formed word, unless it is empty or starts like a
      comment, is one word to the tokenizer. */
  lemma WordLexed(w: Word)
    requires WordOk(w, false) && WordLexes(w, false) && WordText(w) != "" && WordText(w)[0] != '#'
    ensures LexedWord(WordText(w), false)
  {
    hide LexerSpec.Step, WordText;
    WordOutside(w);
    var v := WordText(w);
    assert v + "" == v;
    assert Closed("", START) && WordLen("", START) == 0;
    assert AtWordEnd(v, START) ==> WordLen(v, START) == 0;
  }
}
