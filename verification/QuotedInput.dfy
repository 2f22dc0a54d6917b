/** Quoted strings through the whole shell front end, the line reader included:
    newlines in a string spread it over physical lines. */
module QuotedInput {
  import opened Ascii
  import opened Wrappers
  import opened SeqFacts
  import opened Quoting
  import I = InputSpec
  import LexerSpec
  import AliasSpec
  import ParserSpec
  import ExpanderSpec

  /** The physical lines of a text. */
  function LinesOf(t: string): (lines: seq<string>)
    ensures lines != []
    decreases |t|
  {
    var n := IndexOfChar(t, '\n');
    if n == |t| then [t] else [t[..n]] + LinesOf(t[n + 1..])
  }

  const QUOTED: I.Ctx := I.Ctx(true, false, 0, false, [])

  /** Scanned line by line from `c`, the text leaves a single quote open at each
      line break and nothing at its end. */
  ghost predicate Spans(u: string, c: I.Ctx)
    decreases |u|
  {
    var n := IndexOfChar(u, '\n');
    var d := I.Scan(u[..n], c);
    if n == |u| then d == I.START else d == QUOTED && Spans(u[n + 1..], QUOTED)
  }

  // --------------------------------------------------------- the reader

  /** The reader joins the lines of such a text and stops after them. */
  lemma {:induction false} ReadsSpan(head: string, u: string, c: I.Ctx, more: seq<string>)
    requires Spans(u, c)
    ensures var n := IndexOfChar(u, '\n');
            var o := I.Logical(head + u[..n], I.Scan(u[..n], c), LinesOf(u)[1..] + more, 0);
            o.text == head + u && o.rest == more && o.bodies == []
    decreases |u|
  {
    hide I.Scan, I.Logical, IndexOfChar, Spans, LinesOf;
    var n := IndexOfChar(u, '\n');
    SpansTurn(u, c);
    LinesTurn(u);
    if n == |u| {
      StopsAtStart(head + u, more);
      assert u[..n] == u && [u][1..] + more == more;
    } else {
      var next := u[n + 1..];
      var k := IndexOfChar(next, '\n');
      ReadsSpan(head + u[..n] + "\n", next, QUOTED, more);
      FirstLine(next);
      Drop1(u[..n], LinesOf(next));
      var lines := LinesOf(next) + more;
      FirstOfJoin(LinesOf(next), more);
      ScanQuotedLine(lines[0]);
      AroundBreak(head, u, n);
      QuotedJoins(head + u[..n], lines);
    }
  }

  lemma LinesTurn(t: string)
    ensures var n := IndexOfChar(t, '\n');
            LinesOf(t) == if n == |t| then [t] else [t[..n]] + LinesOf(t[n + 1..])
  {
    hide IndexOfChar;
  }

  lemma StopsAtStart(line: string, more: seq<string>)
    ensures var o := I.Logical(line, I.START, more, 0);
            o.text == line && o.rest == more && o.bodies == []
  {
  }

  lemma FirstOfJoin<T>(a: seq<T>, b: seq<T>)
    requires a != []
    ensures (a + b)[0] == a[0] && (a + b)[1..] == a[1..] + b
  {
  }

  lemma ScanQuotedLine(line: string)
    ensures I.ScanLine(line, QUOTED) == I.Scan(line, QUOTED)
  {
    hide I.Scan;
  }

  lemma AroundBreak(head: string, u: string, n: nat)
    requires n < |u| && u[n] == '\n'
    ensures (head + u[..n] + "\n") + u[n + 1..] == head + u
  {
  }

  lemma FirstLine(t: string)
    ensures LinesOf(t)[0] == t[..IndexOfChar(t, '\n')]
  {
    hide IndexOfChar;
    var n := IndexOfChar(t, '\n');
    assert n == |t| ==> t[..n] == t;
  }

  lemma QuotedJoins(line: string, lines: seq<string>)
    requires lines != []
    ensures var o := I.Logical(line + "\n" + lines[0], I.ScanLine(lines[0], QUOTED), lines[1..], 0);
            I.Logical(line, QUOTED, lines, 0) == o.(roles := [I.Joined] + o.roles)
  {
    hide I.ScanLine;
  }

  // ---------------------------------------------------- scanning a byte

  lemma SpansNewline(r: string)
    requires Spans(r, QUOTED)
    ensures Spans("\n" + r, QUOTED)
  {
    var u := "\n" + r;
    Drop1('\n', r);
    assert IndexOfChar(u, '\n') == 0 && u[..0] == "";
  }

  lemma SpansTurn(u: string, c: I.Ctx)
    ensures var n := IndexOfChar(u, '\n');
            var d := I.Scan(u[..n], c);
            Spans(u, c) == if n == |u| then d == I.START else d == QUOTED && Spans(u[n + 1..], QUOTED)
  {
    hide I.Scan, IndexOfChar;
  }

  /** One byte before a text moves its first line break by one. */
  lemma BreakAfter(x: char, r: string)
    requires x != '\n'
    ensures IndexOfChar([x] + r, '\n') == 1 + IndexOfChar(r, '\n')
  {
    IndexTurn([x] + r, '\n');
    hide IndexOfChar;
    Drop1(x, r);
  }

  lemma SliceAfter(x: char, r: string, n: nat)
    requires n <= |r|
    ensures ([x] + r)[..n + 1] == [x] + r[..n]
    ensures n < |r| ==> ([x] + r)[n + 2..] == r[n + 1..]
  {
  }

  /** A byte that is no line break and takes the scan from `c` to `d`. */
  lemma SpansByte(x: char, r: string, c: I.Ctx, d: I.Ctx)
    requires x != '\n' && Spans(r, d)
    requires I.Scan([x] + r[..IndexOfChar(r, '\n')], c) == I.Scan(r[..IndexOfChar(r, '\n')], d)
    ensures Spans([x] + r, c)
  {
    hide I.Scan, Spans, IndexOfChar;
    SpansTurn(r, d);
    SpansTurn([x] + r, c);
    BreakAfter(x, r);
    SliceAfter(x, r, IndexOfChar(r, '\n'));
  }

  lemma ScanQuote(r: string)
    ensures I.Scan("'" + r, QUOTED) == I.Scan(r, I.START) && I.Scan("'" + r, I.START) == I.Scan(r, QUOTED)
  {
    hide I.HdOp;
    Drop1('\'', r);
    assert ("'" + r)[0] == '\'';
    assert QUOTED.(sq := false) == I.START && I.START.(sq := true) == QUOTED;
  }

  lemma ScanInside(x: char, r: string)
    requires x != '\''
    ensures I.Scan([x] + r, QUOTED) == I.Scan(r, QUOTED)
  {
    hide I.HdOp;
    Drop1(x, r);
  }

  lemma ScanBlank(r: string)
    ensures I.Scan(" " + r, I.START) == I.Scan(r, I.START)
  {
    hide I.HdOp;
    Drop1(' ', r);
  }

  lemma ScanEscape(r: string)
    ensures I.Scan("\\'" + r, I.START) == I.Scan(r, I.START)
  {
    hide I.HdOp;
    Drop2('\\', '\'', r);
    assert "\\'" + r == ['\\', '\''] + r;
  }

  /** An escaped quote outside quotes. */
  lemma SpansEscape(r: string)
    requires Spans(r, I.START)
    ensures Spans("\\'" + r, I.START)
  {
    hide I.Scan, Spans, IndexOfChar;
    var q := ['\''] + r;
    var n := IndexOfChar(r, '\n');
    BreakAfter('\'', r);
    BreakAfter('\\', q);
    SliceAfter('\'', r, n);
    SliceAfter('\\', q, n + 1);
    EscapeParts(r);
    EscapeParts(r[..n]);
    ScanEscape(r[..n]);
    SpansTurn(r, I.START);
    SpansTurn(['\\'] + q, I.START);
  }

  lemma EscapeParts(r: string)
    ensures "\\'" + r == ['\\'] + (['\''] + r)
  {
  }

  // ------------------------------------------------------ quoted strings

  lemma OpenQuote(r: string)
    requires Spans(r, QUOTED)
    ensures Spans("'" + r, I.START)
  {
    ScanQuote(r[..IndexOfChar(r, '\n')]);
    SpansByte('\'', r, I.START, QUOTED);
  }

  lemma CloseQuote(r: string)
    requires Spans(r, I.START)
    ensures Spans("'" + r, QUOTED)
  {
    ScanQuote(r[..IndexOfChar(r, '\n')]);
    SpansByte('\'', r, QUOTED, I.START);
  }

  /** The body of a quoted string, whatever its bytes, up to its closing quote. */
  lemma {:induction false} BodySpans(s: string, r: string)
    requires Spans(r, I.START)
    ensures Spans(QuoteBody(s) + ("'" + r), QUOTED)
  {
    hide Spans, I.Scan;
    if s == "" {
      CloseQuote(r);
      assert "" + ("'" + r) == "'" + r;
    } else {
      var tail := QuoteBody(s[1..]) + ("'" + r);
      BodySpans(s[1..], r);
      if s[0] == '\'' {
        OpenQuote(tail);
        SpansEscape("'" + tail);
        CloseQuote("\\'" + ("'" + tail));
        assert QuoteBody(s) + ("'" + r) == "'" + ("\\'" + ("'" + tail));
      } else {
        assert QuoteBody(s) + ("'" + r) == [s[0]] + tail;
        if s[0] == '\n' {
          SpansNewline(tail);
        } else {
          ScanInside(s[0], tail[..IndexOfChar(tail, '\n')]);
          SpansByte(s[0], tail, QUOTED, QUOTED);
        }
      }
    }
  }

  /** What follows the body of the first string. */
  function JoinRest(ss: seq<string>): string
    requires ss != []
  {
    if |ss| == 1 then "" else " " + Join(ss[1..])
  }

  lemma JoinTurn(ss: seq<string>)
    requires ss != []
    ensures Join(ss) == "'" + (QuoteBody(ss[0]) + ("'" + JoinRest(ss)))
  {
    hide QuoteBody;
  }

  lemma {:induction false} JoinSpans(ss: seq<string>)
    ensures Spans(Join(ss), I.START)
    decreases |ss|, 1
  {
    if ss == [] {
      NothingSpans();
    } else {
      RestSpans(ss);
      hide Spans, I.Scan, QuoteBody, IndexOfChar, JoinRest, Join;
      JoinTurn(ss);
      BodySpans(ss[0], JoinRest(ss));
      OpenQuote(QuoteBody(ss[0]) + ("'" + JoinRest(ss)));
    }
  }

  lemma {:induction false} RestSpans(ss: seq<string>)
    requires ss != []
    ensures Spans(JoinRest(ss), I.START)
    decreases |ss|, 0
  {
    hide Spans, I.Scan, IndexOfChar, Join;
    NothingSpans();
    if |ss| > 1 {
      var t := Join(ss[1..]);
      JoinSpans(ss[1..]);
      ScanBlank(t[..IndexOfChar(t, '\n')]);
      SpansByte(' ', t, I.START, I.START);
    }
  }

  lemma NothingSpans()
    ensures Spans("", I.START)
  {
  }

  /** Main result: write any non-empty list of strings in quotes, however many
      lines they take, and read the lines with anything after them: the reader
      takes exactly these lines and returns the text, and tokenizer, alias
      pass, parser and expansion give the strings back. */
  lemma QuotedLinesSurvive(ss: seq<string>, more: seq<string>, table: AliasSpec.Table, env: ExpanderSpec.Env,
                           st: ExpanderSpec.State)
    requires ss != []
    ensures var o := I.ReadLogical(LinesOf(Join(ss)) + more).value;
            var tree := ParserSpec.Parse(AliasSpec.Aliased(table, LexerSpec.Tokenized(o.text)));
            && o.rest == more && o.bodies == []
            && tree.Some? && tree.value.Cmd?
            && ExpanderSpec.Argv(env, tree.value.cmd.argv, st) == (Some(ss), st)
  {
    hide I.Logical, I.Scan, Spans, ParserSpec.Parse, AliasSpec.Aliased, ExpanderSpec.Argv, LexerSpec.Lex;
    var t := Join(ss);
    JoinSpans(ss);
    ReadsSpan("", t, I.START, more);
    FirstLine(t);
    var lines := LinesOf(t) + more;
    var n := IndexOfChar(t, '\n');
    assert lines[0] == t[..n] && lines[1..] == LinesOf(t)[1..] + more;
    assert "" + t[..n] == t[..n] && "" + t == t;
    assert I.ScanLine(t[..n], I.START) == I.Scan(t[..n], I.START);
    QuotingSurvives(ss, table, env, st);
  }
}
