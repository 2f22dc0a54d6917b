/** When every here-document operator of a command gets exactly one body. */
module InputOperators {
  import opened Ascii
  import opened Wrappers
  import opened SeqFacts
  import opened InputSpec
  import opened InputProofs
  import opened InputRereads

  /** The operators of a text of several lines, by position, each line scanned
      with what the lines before leave open. */
  function TextOps(t: string, c: Ctx, base: nat): seq<nat>
    decreases |t|
  {
    var n := IndexOfChar(t, '\n');
    LineOps(t[..n], c, base) + if n == |t| then [] else TextOps(t[n + 1..], ScanLine(t[..n], c), base + n + 1)
  }

  /** What follows a line: nothing, or a line break and more. */
  function TailOps(tail: string, c: Ctx, base: nat): seq<nat> {
    if tail == "" then [] else TextOps(tail[1..], c, base + 1)
  }

  predicate IsTail(tail: string) {
    tail == "" || tail[0] == '\n'
  }

  lemma {:induction false} FirstBreak(line: string, tail: string)
    requires '\n' !in line && IsTail(tail)
    ensures IndexOfChar(line + tail, '\n') == |line|
  {
    hide IndexOfChar;
    var n := IndexOfChar(line + tail, '\n');
    assert forall i :: 0 <= i < |line| ==> (line + tail)[i] == line[i];
    assert tail != "" ==> (line + tail)[|line|] == '\n';
  }

  lemma OpsByLine(line: string, tail: string, c: Ctx, base: nat)
    requires '\n' !in line && IsTail(tail)
    ensures TextOps(line + tail, c, base) == LineOps(line, c, base) + TailOps(tail, ScanLine(line, c), base + |line|)
  {
    hide LineOps, ScanLine, IndexOfChar;
    FirstBreak(line, tail);
    var t := line + tail;
    assert t[..|line|] == line;
    assert tail != "" ==> t[|line| + 1..] == tail[1..];
  }

  // ------------------------------------- waiting here-documents do not matter

  lemma {:induction false} SameQuotes(s: string, c: Ctx, d: Ctx)
    requires c.sq == d.sq && c.dq == d.dq
    ensures Scan(s, c).sq == Scan(s, d).sq && Scan(s, c).dq == Scan(s, d).dq
    decreases |s|
  {
    hide HdOp;
    if s == "" || (!c.sq && s[0] == '\\' && |s| == 1) || (!c.sq && !c.dq && s[0] == '#') {
    } else if !c.sq && s[0] == '\\' {
      SameQuotes(s[2..], c, d);
    } else if !c.dq && s[0] == '\'' {
      SameQuotes(s[1..], c.(sq := !c.sq), d.(sq := !d.sq));
    } else if !c.sq && s[0] == '"' {
      SameQuotes(s[1..], c.(dq := !c.dq), d.(dq := !d.dq));
    } else if !c.sq && !c.dq && s[0] == '<' && At(s, 1) == '<' {
      var (hd, n) := HdOp(s);
      SameQuotes(s[n..], if hd.Some? then c.(pending := c.pending + [hd.value]) else c,
                 if hd.Some? then d.(pending := d.pending + [hd.value]) else d);
    } else {
      SameQuotes(s[1..], Nested(s[0], c), Nested(s[0], d));
    }
  }

  /** The context after a byte that is no quote, escape or operator. */
  function Nested(x: char, c: Ctx): Ctx {
    if c.sq || c.dq then c
    else if x == '(' then c.(depth := c.depth + 1)
    else if x == ')' && c.depth > 0 then c.(depth := c.depth - 1)
    else c
  }

  lemma {:induction false} SameOps(s: string, c: Ctx, d: Ctx, base: nat)
    requires c.sq == d.sq && c.dq == d.dq
    ensures OpsAt(s, c, base) == OpsAt(s, d, base)
    decreases |s|
  {
    hide HdOp;
    if s == "" || (!c.sq && s[0] == '\\' && |s| == 1) || (!c.sq && !c.dq && s[0] == '#') {
    } else if !c.sq && s[0] == '\\' {
      SameOps(s[2..], c, d, base + 2);
    } else if !c.dq && s[0] == '\'' {
      SameOps(s[1..], c.(sq := !c.sq), d.(sq := !d.sq), base + 1);
    } else if !c.sq && s[0] == '"' {
      SameOps(s[1..], c.(dq := !c.dq), d.(dq := !d.dq), base + 1);
    } else if !c.sq && !c.dq && s[0] == '<' && At(s, 1) == '<' {
      SameOps(s[HdOp(s).1..], c, d, base + HdOp(s).1);
    } else {
      SameOps(s[1..], c, d, base + 1);
    }
  }

  lemma {:induction false} SameTextOps(t: string, c: Ctx, d: Ctx, base: nat)
    requires c.sq == d.sq && c.dq == d.dq
    ensures TextOps(t, c, base) == TextOps(t, d, base)
    decreases |t|
  {
    hide IndexOfChar, OpsAt, Scan;
    var n := IndexOfChar(t, '\n');
    SameOps(t[..n], c.(bs := false), d.(bs := false), base);
    SameQuotes(t[..n], c.(bs := false), d.(bs := false));
    if n < |t| {
      SameTextOps(t[n + 1..], ScanLine(t[..n], c), ScanLine(t[..n], d), base + n + 1);
    }
  }

  // -------------------------------------------------- in the order of the text

  lemma LineOpsIn(line: string, c: Ctx, base: nat)
    ensures Increasing(LineOps(line, c, base))
    ensures forall i :: 0 <= i < |LineOps(line, c, base)| ==> base <= LineOps(line, c, base)[i] < base + |line|
  {
    hide OpsAt;
    OpsInside(line, c.(bs := false), base);
  }

  lemma {:induction false} TextOpsIn(t: string, c: Ctx, base: nat)
    ensures Increasing(TextOps(t, c, base))
    ensures forall i :: 0 <= i < |TextOps(t, c, base)| ==> base <= TextOps(t, c, base)[i]
    decreases |t|
  {
    hide IndexOfChar, LineOps, ScanLine;
    var n := IndexOfChar(t, '\n');
    LineOpsIn(t[..n], c, base);
    if n < |t| {
      TextOpsIn(t[n + 1..], ScanLine(t[..n], c), base + n + 1);
    }
  }

  // ------------------------------------------------------- the whole reading

  ghost predicate Physical(lines: seq<string>) {
    forall i :: 0 <= i < |lines| ==> '\n' !in lines[i]
  }

  /** A text left to be glued to nothing but such texts ends in a backslash. */
  lemma {:induction false} EndsOpen(line: string, c: Ctx, lines: seq<string>, k: nat)
    requires c.bs && NoMoreGlue(line, c, lines, k)
    ensures Logical(line, c, lines, k).ctx.bs
    decreases |lines|
  {
    hide ScanLine, StripBs;
    if lines != [] {
      var glued := StripBs(line) + lines[0];
      EndsOpen(glued, ScanLine(glued, START), lines[1..], k);
    }
  }

  /** Without such glues the reading adds lines to its text, and reads the
      bodies of the waiting here-documents and then of those it comes to. */
  lemma {:induction false} ServesInOrder(line: string, c: Ctx, pend: seq<nat>, lines: seq<string>, k: nat)
    requires Physical(lines) && NoMoreGlue(line, c, lines, k) && !Logical(line, c, lines, k).ctx.bs
    requires |pend| == |c.pending|
    ensures var o := Logical(line, c, lines, k);
            && line <= o.text && IsTail(o.text[|line|..])
            && Served(line, c, pend, lines, k) == pend + TailOps(o.text[|line|..], c, |line|)
    decreases |lines|, |c.pending|, 1
  {
    hide ScanLine, LineOps, Drain, TextOps;
    if c.bs {
      EndsOpen(line, c, lines, k);
    } else if !Needs(c) {
      assert pend + [] == pend;
    } else if c.pending != [] {
      var (bodies, roles) := Drain(lines, c.pending, k);
      var d := c.(pending := []);
      ServesInOrder(line, d, [], lines[|roles|..], k + |bodies|);
      var tail := Logical(line, c, lines, k).text[|line|..];
      if tail != "" {
        SameTextOps(tail[1..], c, d, |line| + 1);
      }
      assert pend + ([] + TailOps(tail, d, |line|)) == pend + TailOps(tail, d, |line|);
    } else if lines == [] {
      assert pend + [] == pend;
    } else {
      ServesJoined(line, c, lines, k);
      assert pend == [] && [] + Served(line, c, pend, lines, k) == Served(line, c, pend, lines, k);
    }
  }

  lemma {:induction false} ServesJoined(line: string, c: Ctx, lines: seq<string>, k: nat)
    requires Physical(lines) && NoMoreGlue(line, c, lines, k) && !Logical(line, c, lines, k).ctx.bs
    requires Needs(c) && !c.bs && c.pending == [] && lines != []
    ensures var o := Logical(line, c, lines, k);
            && line <= o.text && IsTail(o.text[|line|..])
            && Served(line, c, [], lines, k) == TailOps(o.text[|line|..], c, |line|)
    decreases |lines|, 0, 0
  {
    hide LineOps, Drain, TextOps, ScanLine;
    var next := line + "\n" + lines[0];
    var d, ops := ScanLine(lines[0], c), LineOps(lines[0], c, |line| + 1);
    LineOpsCount(lines[0], c, |line| + 1);
    ServesInOrder(next, d, ops, lines[1..], k);
    var text := Logical(line, c, lines, k).text;
    var tail := text[|next|..];
    assert text == next + tail;
    assert text[|line|..] == "\n" + (lines[0] + tail);
    Drop1('\n', lines[0] + tail);
    OpsByLine(lines[0], tail, c, |line| + 1);
  }

  lemma LineOpsCount(line: string, c: Ctx, base: nat)
    requires c.pending == []
    ensures |LineOps(line, c, base)| == |ScanLine(line, c).pending|
  {
    hide OpsAt, Scan;
    OpsCount(line, c.(bs := false), c.(bs := false), base);
  }

  /** For every stream whose first line and whose end are no continuation: when
      no line is glued later, each operator of the text read gets exactly one
      body, in order. */
  lemma OneBodyEach(lines: seq<string>)
    requires lines != [] && Physical(lines) && !ScanLine(lines[0], START).bs && !ReadLogical(lines).value.ctx.bs
    requires NoMoreGlue(lines[0], ScanLine(lines[0], START), lines[1..], 0)
    ensures ServedBy(lines) == TextOps(ReadLogical(lines).value.text, START, 0)
  {
    hide Logical, Served, ScanLine, LineOps, TextOps, NoMoreGlue;
    var line, o := lines[0], ReadLogical(lines).value;
    LineOpsCount(line, START, 0);
    ServesInOrder(line, ScanLine(line, START), LineOps(line, START, 0), lines[1..], 0);
    assert o.text == line + o.text[|line|..];
    OpsByLine(line, o.text[|line|..], START, 0);
  }

  /** Main result: when the first line opens a here-document and neither it nor
      the end of the command is a continuation, each operator of the text read
      gets exactly one body, in order, if and only if no line is glued after
      the first. */
  lemma OneBodyEachExactly(lines: seq<string>)
    requires lines != [] && Physical(lines) && !ReadLogical(lines).value.ctx.bs
    requires var c := ScanLine(lines[0], START); !c.bs && c.pending != []
    ensures ServedBy(lines) == TextOps(ReadLogical(lines).value.text, START, 0)
            <==> NoMoreGlue(lines[0], ScanLine(lines[0], START), lines[1..], 0)
  {
    hide Logical, Served, ScanLine, LineOps, TextOps, NoMoreGlue;
    FirstReadAgain(lines);
    if NoMoreGlue(lines[0], ScanLine(lines[0], START), lines[1..], 0) {
      OneBodyEach(lines);
    } else {
      TextOpsIn(ReadLogical(lines).value.text, START, 0);
    }
  }
}
