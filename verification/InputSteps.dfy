/** Which text a here-document gets from the lines after its operator. */
module InputSteps {
  import opened Wrappers
  import opened SeqFacts
  import opened InputSpec

  /** Leading tabs, and a text that does not start with one. */
  predicate Tabbed(tabs: string, text: string) {
    (forall i :: 0 <= i < |tabs| ==> tabs[i] == '\t') && (text == "" || text[0] != '\t')
  }

  lemma {:induction false} TabsStripped(tabs: string, text: string)
    requires Tabbed(tabs, text)
    ensures StripTabs(tabs + text) == text
  {
    if tabs == "" {
      assert tabs + text == text;
    } else {
      assert (tabs + text)[0] == '\t' && (tabs + text)[1..] == tabs[1..] + text;
      TabsStripped(tabs[1..], text);
    }
  }

  /** Each line with a newline after it. */
  function Lines(ls: seq<string>): string {
    if ls == [] then "" else ls[0] + ("\n" + Lines(ls[1..]))
  }

  /** `line` is `text` to the here-document: with `<<-` behind leading tabs,
      else as it is. */
  ghost predicate Reads(hd: Hd, line: string, text: string) {
    if hd.strip then exists tabs :: Tabbed(tabs, text) && line == tabs + text else line == text
  }

  lemma ReadsStripped(hd: Hd, line: string, text: string)
    requires Reads(hd, line, text)
    ensures Stripped(line, hd) == text
  {
    if hd.strip {
      var tabs :| Tabbed(tabs, text) && line == tabs + text;
      TabsStripped(tabs, text);
    }
  }

  /** Main result: the body is the lines up to the first that is the delimiter,
      each with its newline and, with `<<-`, without its leading tabs; without
      such a line it is all lines there are. */
  lemma {:induction false} BodyRead(hd: Hd, lines: seq<string>, texts: seq<string>, n: nat, k: nat)
    requires |texts| == |lines| && n <= |lines|
    requires forall i :: 0 <= i < |lines| ==> Reads(hd, lines[i], texts[i])
    requires (forall i :: 0 <= i < n ==> texts[i] != hd.delim) && (n < |lines| ==> texts[n] == hd.delim)
    ensures var (body, roles) := Collect(lines, hd, k);
            && body == Lines(texts[..n])
            && |roles| == (if n < |lines| then n + 1 else n)
            && forall i :: 0 <= i < |roles| ==> roles[i] == if i < n then Body(k) else End(k)
    decreases n
  {
    hide Stripped, Reads;
    if lines == [] {
      assert texts[..n] == [];
    } else {
      ReadsStripped(hd, lines[0], texts[0]);
      if n == 0 {
        assert texts[..n] == [];
      } else {
        BodyRead(hd, lines[1..], texts[1..], n - 1, k);
        assert texts[..n][1..] == texts[1..][..n - 1];
        Assoc(texts[0], "\n", Lines(texts[1..][..n - 1]));
      }
    }
  }

  /** A final backslash and the newline after it go: the next line is glued. */
  lemma BackslashGlues(line: string, next: string, lines: seq<string>, c: Ctx, k: nat)
    requires c.bs
    ensures var o := Logical(line + "\\", c, [next] + lines, k);
            var p := Logical(line + next, ScanLine(line + next, START), lines, k);
            && o.text == p.text && o.bodies == p.bodies && o.roles == [Glued] + p.roles && o.hds == p.hds
            && o.ctx == p.ctx && o.rest == p.rest
  {
    hide Scan;
    assert (line + "\\")[..|line + "\\"| - 1] == line;
    assert ([next] + lines)[0] == next && ([next] + lines)[1..] == lines;
  }

  /** With a quote, a parenthesis or nothing but a backslash-free line open, the
      next line is joined with a newline. */
  lemma OpenJoins(line: string, next: string, lines: seq<string>, c: Ctx, k: nat)
    requires !c.bs && c.pending == [] && (c.sq || c.dq || c.depth > 0)
    ensures var o := Logical(line, c, [next] + lines, k);
            var p := Logical(line + ("\n" + next), ScanLine(next, c), lines, k);
            && o.text == p.text && o.bodies == p.bodies && o.roles == [Joined] + p.roles && o.hds == p.hds
            && o.ctx == p.ctx && o.rest == p.rest
  {
    hide Scan;
    assert line + "\n" + next == line + ("\n" + next);
    assert ([next] + lines)[0] == next && ([next] + lines)[1..] == lines;
  }

  /** With nothing open the line is complete. */
  lemma NothingOpen(line: string, lines: seq<string>, c: Ctx, k: nat)
    requires !c.bs && c.pending == [] && !c.sq && !c.dq && c.depth == 0
    ensures Logical(line, c, lines, k) == Outcome(line, [], [], [], c, lines)
  {
  }
}
