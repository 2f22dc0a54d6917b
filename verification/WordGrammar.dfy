/** Words as they are written: plain bytes, escapes, quotes, variables, command
    substitutions and arithmetic. */
module WordGrammar {
  import opened Ascii
  import opened SeqFacts

  /** Text between double quotes inside a command substitution. */
  datatype Dq = DEnd | DByte(c: char, rest: Dq) | DEscape(c: char, rest: Dq) | DParen(inner: Dq, rest: Dq)

  /** Text of a command substitution: quotes closed, parentheses in pairs. */
  datatype Script =
    | End
    | Byte(c: char, rest: Script)
    | Escape(c: char, rest: Script)
    | Single(s: string, rest: Script)
    | Double(d: Dq, rest: Script)
    | Paren(inner: Script, rest: Script)

  /** A word, or what stands between double quotes or in an arithmetic
      expansion: `Var` and `Special` are `$x` or, with braces, `${x}`. */
  datatype Word =
    | Done
    | Plain(c: char, rest: Word)
    | Escaped(c: char, rest: Word)
    | Literal(s: string, rest: Word)
    | Var(name: string, braces: bool, rest: Word)
    | Special(c: char, braces: bool, rest: Word)
    | Lone(rest: Word)
    | Output(t: Script, rest: Word)
    | Result(e: Word, rest: Word)
    | Quoted(inner: Word, rest: Word)

  function DqText(d: Dq): string {
    match d
    case DEnd => ""
    case DByte(c, r) => [c] + DqText(r)
    case DEscape(c, r) => ['\\', c] + DqText(r)
    case DParen(i, r) => "(" + (DqText(i) + (")" + DqText(r)))
  }

  function Source(t: Script): string {
    match t
    case End => ""
    case Byte(c, r) => [c] + Source(r)
    case Escape(c, r) => ['\\', c] + Source(r)
    case Single(s, r) => "'" + (s + ("'" + Source(r)))
    case Double(d, r) => "\"" + (DqText(d) + ("\"" + Source(r)))
    case Paren(i, r) => "(" + (Source(i) + (")" + Source(r)))
  }

  function WordText(w: Word): string {
    match w
    case Done => ""
    case Plain(c, r) => [c] + WordText(r)
    case Escaped(c, r) => ['\\', c] + WordText(r)
    case Literal(s, r) => "'" + (s + ("'" + WordText(r)))
    case Var(n, braces, r) => if braces then "${" + (n + ("}" + WordText(r))) else "$" + (n + WordText(r))
    case Special(c, braces, r) => if braces then "${" + ([c] + ("}" + WordText(r))) else ['$', c] + WordText(r)
    case Lone(r) => "$" + WordText(r)
    case Output(t, r) => "$(" + (Source(t) + (")" + WordText(r)))
    case Result(e, r) => "$((" + (WordText(e) + ("))" + WordText(r)))
    case Quoted(i, r) => "\"" + (WordText(i) + ("\"" + WordText(r)))
  }

  /** The text of a word's first part. */
  function Part(w: Word): string
    requires !w.Done?
  {
    match w
    case Plain(c, _) => [c]
    case Escaped(c, _) => ['\\', c]
    case Literal(s, _) => "'" + (s + "'")
    case Var(n, braces, _) => if braces then "${" + (n + "}") else "$" + n
    case Special(c, braces, _) => if braces then "${" + ([c] + "}") else ['$', c]
    case Lone(_) => "$"
    case Output(t, _) => "$(" + (Source(t) + ")")
    case Result(e, _) => "$((" + (WordText(e) + "))")
    case Quoted(i, _) => "\"" + (WordText(i) + "\"")
  }

  lemma PartAndRest(w: Word)
    requires !w.Done?
    ensures WordText(w) == Part(w) + WordText(w.rest)
  {
    match w {
      case Plain(_, _) =>
      case Escaped(_, _) =>
      case Literal(s, r) => ThreeParts("'", s, "'", WordText(r));
      case Var(n, braces, r) =>
        if braces {
          ThreeParts("${", n, "}", WordText(r));
        } else {
          Assoc("$", n, WordText(r));
        }
      case Special(c, braces, r) => ThreeParts("${", [c], "}", WordText(r));
      case Lone(_) =>
      case Output(t, r) => ThreeParts("$(", Source(t), ")", WordText(r));
      case Result(e, r) => ThreeParts("$((", WordText(e), "))", WordText(r));
      case Quoted(i, r) => ThreeParts("\"", WordText(i), "\"", WordText(r));
    }
  }

  lemma ThreeParts(a: string, b: string, c: string, d: string)
    ensures a + (b + (c + d)) == (a + (b + c)) + d
  {
    Assoc(b, c, d);
    Assoc(a, b + c, d);
  }

  /** A script and what follows, its first byte apart. */
  lemma ScriptShape(t: Script, r: string)
    ensures Source(t) + r ==
      match t
      case End => r
      case Byte(c, u) => [c] + (Source(u) + r)
      case Escape(c, u) => ['\\', c] + (Source(u) + r)
      case Single(s, u) => ['\''] + ((s + ("'" + Source(u))) + r)
      case Double(d, u) => ['"'] + ((DqText(d) + ("\"" + Source(u))) + r)
      case Paren(i, u) => ['('] + (Source(i) + ([')'] + (Source(u) + r)))
  {
    match t {
      case End =>
      case Byte(c, u) => Assoc([c], Source(u), r);
      case Escape(c, u) => Assoc(['\\', c], Source(u), r);
      case Single(s, u) => Assoc("'", s + ("'" + Source(u)), r);
      case Double(d, u) => Assoc("\"", DqText(d) + ("\"" + Source(u)), r);
      case Paren(i, u) =>
        Assoc("(", Source(i) + (")" + Source(u)), r);
        Assoc(Source(i), ")" + Source(u), r);
        Assoc(")", Source(u), r);
    }
  }

  // ------------------------------------------------------- well-formed words

  predicate DqOk(d: Dq) {
    match d
    case DEnd => true
    case DByte(c, r) => c != '"' && c != '\\' && DqOk(r)
    case DEscape(_, r) => DqOk(r)
    case DParen(i, r) => DqOk(i) && DqOk(r)
  }

  predicate TextOk(t: Script) {
    match t
    case End => true
    case Byte(c, r) => c !in "'\"\\()" && TextOk(r)
    case Escape(_, r) => TextOk(r)
    case Single(s, r) => '\'' !in s && TextOk(r)
    case Double(d, r) => DqOk(d) && TextOk(r)
    case Paren(i, r) => TextOk(i) && TextOk(r)
  }

  /** No two equal parentheses in a row, nor a closing one at the end. */
  predicate NoPairs(s: string) {
    && (forall i :: 0 <= i < |s| - 1 ==> s[i] == s[i + 1] ==> s[i] != '(' && s[i] != ')')
    && (s != "" ==> s[|s| - 1] != ')')
  }

  /** Text of an arithmetic expansion: `((` and `))` in pairs. */
  datatype Sum = SumEnd | SumByte(c: char, rest: Sum) | SumPair(inner: Sum, rest: Sum)

  function SumText(a: Sum): string {
    match a
    case SumEnd => ""
    case SumByte(c, r) => [c] + SumText(r)
    case SumPair(i, r) => "((" + (SumText(i) + ("))" + SumText(r)))
  }

  /** Before the byte `next`: no other two equal parentheses in a row. */
  predicate SumOk(a: Sum, next: char) {
    match a
    case SumEnd => true
    case SumByte(c, r) =>
      (c == '(' || c == ')' ==> c != (if SumText(r) == "" then next else SumText(r)[0])) && SumOk(r, next)
    case SumPair(i, r) => SumOk(i, ')') && SumOk(r, next)
  }

  ghost predicate Paired(s: string) {
    exists a :: SumText(a) == s && SumOk(a, ')')
  }

  function SumBytes(s: string): Sum {
    if s == "" then SumEnd else SumByte(s[0], SumBytes(s[1..]))
  }

  lemma {:induction false} SinglesPaired(s: string)
    requires NoPairs(s)
    ensures SumText(SumBytes(s)) == s && SumOk(SumBytes(s), ')') && Paired(s)
  {
    if s != "" {
      var t := s[1..];
      assert NoPairs(t) by {
        assert forall i :: 0 <= i < |t| ==> t[i] == s[i + 1];
      }
      SinglesPaired(t);
      assert t != "" ==> t[0] == s[1];
    }
  }

  /** What may follow a `$` that stands for itself. */
  predicate AfterLone(s: string) {
    s == "" || (!IsNameStart(s[0]) && s[0] !in "?$0{(")
  }

  /** A word outside or, with `dq`, inside double quotes. */
  ghost predicate WordOk(w: Word, dq: bool) {
    match w
    case Done => true
    case Plain(c, r) => c !in "\"\\$" && (dq || c != '\'') && WordOk(r, dq)
    case Escaped(_, r) => WordOk(r, dq)
    case Literal(s, r) => !dq && '\'' !in s && WordOk(r, dq)
    case Var(n, braces, r) =>
      IsIdentifier(n) && (braces || WordText(r) == "" || !IsNameChar(WordText(r)[0])) && WordOk(r, dq)
    case Special(c, _, r) => c in "?$0" && WordOk(r, dq)
    case Lone(r) => AfterLone(WordText(r)) && WordOk(r, dq)
    case Output(t, r) => TextOk(t) && !t.Paren? && WordOk(r, dq)
    case Result(e, r) => WordOk(e, false) && Paired(WordText(e)) && At(WordText(e), 0) != '~' && WordOk(r, dq)
    case Quoted(i, r) => !dq && WordOk(i, true) && WordOk(r, dq)
  }

  // ------------------------------------------------- words of a command line

  /** The tokenizer counts every parenthesis inside a substitution; with `dq`,
      for one that stands in double quotes. */
  predicate DqLexes(d: Dq, dq: bool) {
    match d
    case DEnd => true
    case DByte(c, r) => c != '(' && c != ')' && (dq ==> c != '\'') && DqLexes(r, dq)
    case DEscape(_, r) => DqLexes(r, dq)
    case DParen(i, r) => DqLexes(i, dq) && DqLexes(r, dq)
  }

  predicate TextLexes(t: Script, dq: bool) {
    match t
    case End => true
    case Byte(_, r) => TextLexes(r, dq)
    case Escape(_, r) => TextLexes(r, dq)
    case Single(_, r) => !dq && TextLexes(r, dq)
    case Double(d, r) => DqLexes(d, dq) && TextLexes(r, dq)
    case Paren(i, r) => TextLexes(i, dq) && TextLexes(r, dq)
  }

  /** A byte that does not end a word outside quotes. */
  predicate WordByte(c: char) {
    c !in " \t\n\r;()|&<>" && c != 11 as char && c != 12 as char
  }

  /** The tokenizer keeps the word in one piece: arithmetic only in double
      quotes, and no `$$` before a parenthesis. */
  predicate WordLexes(w: Word, dq: bool) {
    match w
    case Done => true
    case Plain(c, r) => (dq || WordByte(c)) && WordLexes(r, dq)
    case Escaped(_, r) => WordLexes(r, dq)
    case Literal(_, r) => !dq && WordLexes(r, dq)
    case Var(_, _, r) => WordLexes(r, dq)
    case Special(c, braces, r) => (c == '$' && !braces ==> At(WordText(r), 0) != '(') && WordLexes(r, dq)
    case Lone(r) => WordLexes(r, dq)
    case Output(t, r) => TextLexes(t, dq) && WordLexes(r, dq)
    case Result(e, r) => dq && WordLexes(e, true) && WordLexes(r, dq)
    case Quoted(i, r) => !dq && WordLexes(i, true) && WordLexes(r, dq)
  }
}
