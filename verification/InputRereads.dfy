/** Which operator each here-document body is read for: exactly when the reader
    reads two bodies for one operator. */
module InputRereads {
  import opened Ascii
  import opened Wrappers
  import opened SeqFacts
  import opened InputSpec
  import opened InputProofs

  // ------------------------------------------------ operators by position

  /** The positions at which a scan queues a here-document, from `base`. */
  function OpsAt(s: string, c: Ctx, base: nat): seq<nat>
    decreases |s|
  {
    if s == "" then []
    else if !c.sq && s[0] == '\\' then
      if |s| == 1 then [] else OpsAt(s[2..], c, base + 2)
    else if !c.dq && s[0] == '\'' then OpsAt(s[1..], c.(sq := !c.sq), base + 1)
    else if !c.sq && s[0] == '"' then OpsAt(s[1..], c.(dq := !c.dq), base + 1)
    else if c.sq || c.dq then OpsAt(s[1..], c, base + 1)
    else if s[0] == '#' then []
    else if s[0] == '<' && At(s, 1) == '<' then
      var (hd, n) := HdOp(s);
      (if hd.Some? then [base] else []) + OpsAt(s[n..], c, base + n)
    else OpsAt(s[1..], c, base + 1)
  }

  /** `<<` stands at position `p` of the text. */
  predicate HasOp(text: string, p: nat) {
    p + 2 <= |text| && text[p] == '<' && text[p + 1] == '<'
  }

  predicate Increasing(s: seq<nat>) {
    forall i, j :: 0 <= i < j < |s| ==> s[i] < s[j]
  }

  predicate Distinct(s: seq<nat>) {
    forall i, j :: 0 <= i < j < |s| ==> s[i] != s[j]
  }

  /** One position for each here-document queued; the quotes and the nesting of
      the two scans agree. */
  lemma {:induction false} OpsCount(s: string, c: Ctx, d: Ctx, base: nat)
    requires c.sq == d.sq && c.dq == d.dq
    ensures |Scan(s, c).pending| == |c.pending| + |OpsAt(s, d, base)|
    decreases |s|
  {
    hide HdOp;
    if s == "" || (!c.sq && s[0] == '\\' && |s| == 1) || (!c.sq && !c.dq && s[0] == '#') {
    } else if !c.sq && s[0] == '\\' {
      OpsCount(s[2..], c, d, base + 2);
    } else if !c.dq && s[0] == '\'' {
      OpsCount(s[1..], c.(sq := !c.sq), d.(sq := !d.sq), base + 1);
    } else if !c.sq && s[0] == '"' {
      OpsCount(s[1..], c.(dq := !c.dq), d.(dq := !d.dq), base + 1);
    } else if c.sq || c.dq {
      OpsCount(s[1..], c, d, base + 1);
    } else if s[0] == '(' {
      OpsCount(s[1..], c.(depth := c.depth + 1), d, base + 1);
    } else if s[0] == ')' && c.depth > 0 {
      OpsCount(s[1..], c.(depth := c.depth - 1), d, base + 1);
    } else if s[0] == '<' && At(s, 1) == '<' {
      var (hd, n) := HdOp(s);
      OpsCount(s[n..], if hd.Some? then c.(pending := c.pending + [hd.value]) else c, d, base + n);
    } else {
      OpsCount(s[1..], c, d, base + 1);
    }
  }

  /** The operators of the rest of a text are operators of the text. */
  ghost predicate Inside(ops: seq<nat>, s: string, base: nat) {
    Increasing(ops) && forall i :: 0 <= i < |ops| ==> ops[i] >= base && HasOp(s, ops[i] - base)
  }

  lemma InsideRest(ops: seq<nat>, s: string, base: nat, n: nat)
    requires n <= |s| && Inside(ops, s[n..], base + n)
    ensures Inside(ops, s, base)
    ensures forall i :: 0 <= i < |ops| ==> ops[i] >= base + n
  {
  }

  lemma {:induction false} OpsInside(s: string, c: Ctx, base: nat)
    ensures Inside(OpsAt(s, c, base), s, base)
    decreases |s|
  {
    hide HdOp, Inside;
    if s == "" || (!c.sq && s[0] == '\\' && |s| == 1) || (!c.sq && !c.dq && s[0] == '#') {
      NoneInside(s, base);
    } else if !c.sq && s[0] == '\\' {
      OpsInside(s[2..], c, base + 2);
      InsideRest(OpsAt(s[2..], c, base + 2), s, base, 2);
    } else if !c.sq && !c.dq && s[0] == '<' && At(s, 1) == '<' {
      var (hd, n) := HdOp(s);
      var rest := OpsAt(s[n..], c, base + n);
      OpsInside(s[n..], c, base + n);
      InsideRest(rest, s, base, n);
      OperatorInside(rest, s, base, n);
      assert [] + rest == rest;
    } else {
      var d := if !c.dq && s[0] == '\'' then c.(sq := !c.sq) else if !c.sq && s[0] == '"' then c.(dq := !c.dq) else c;
      OpsInside(s[1..], d, base + 1);
      InsideRest(OpsAt(s[1..], d, base + 1), s, base, 1);
    }
  }

  lemma NoneInside(s: string, base: nat)
    ensures Inside([], s, base)
  {
  }

  lemma OperatorInside(rest: seq<nat>, s: string, base: nat, n: nat)
    requires Inside(rest, s, base) && HasOp(s, 0) && n > 0 && forall i :: 0 <= i < |rest| ==> rest[i] >= base + n
    ensures Inside([base] + rest, s, base)
  {
  }

  // ---------------------------------------------- operators of a reading

  function LineOps(line: string, c: Ctx, base: nat): seq<nat> {
    OpsAt(line, c.(bs := false), base)
  }

  /** The position in the text of the operator each body is read for, in the
      order of reading; `pend` are those of the waiting here-documents. */
  function Served(line: string, c: Ctx, pend: seq<nat>, lines: seq<string>, k: nat): seq<nat>
    decreases |lines|, |c.pending|
  {
    if !Needs(c) then []
    else if c.bs then
      if lines == [] then []
      else
        var glued := StripBs(line) + lines[0];
        Served(glued, ScanLine(glued, START), LineOps(glued, START, 0), lines[1..], k)
    else if c.pending != [] then
      var (bodies, roles) := Drain(lines, c.pending, k);
      pend + Served(line, c.(pending := []), [], lines[|roles|..], k + |bodies|)
    else if lines == [] then []
    else Served(line + "\n" + lines[0], ScanLine(lines[0], c), LineOps(lines[0], c, |line| + 1), lines[1..], k)
  }

  /** At every glue whose text is not continued by another backslash, scanning
      afresh finds no operator whose body has been read: what the reader could
      check before each such step. */
  ghost predicate GluesFresh(line: string, c: Ctx, pend: seq<nat>, lines: seq<string>, k: nat, served: set<nat>)
    decreases |lines|, |c.pending|
  {
    if !Needs(c) then true
    else if c.bs then
      lines == [] ||
      (var glued := StripBs(line) + lines[0];
       var c' := ScanLine(glued, START);
       var ops := LineOps(glued, START, 0);
       (c'.bs || Apart(ops, served)) && GluesFresh(glued, c', ops, lines[1..], k, served))
    else if c.pending != [] then
      var (bodies, roles) := Drain(lines, c.pending, k);
      GluesFresh(line, c.(pending := []), [], lines[|roles|..], k + |bodies|, served + Elements(pend))
    else
      lines == [] ||
      GluesFresh(line + "\n" + lines[0], ScanLine(lines[0], c), LineOps(lines[0], c, |line| + 1), lines[1..], k, served)
  }

  function Elements(s: seq<nat>): set<nat> {
    set x | x in s
  }

  ghost predicate Apart(s: seq<nat>, served: set<nat>) {
    forall i :: 0 <= i < |s| ==> s[i] !in served
  }

  /** The positions known at a moment of the reading are operators of the line
      read so far, in order; those waiting have not been served. */
  ghost predicate Known(line: string, c: Ctx, pend: seq<nat>, served: set<nat>) {
    && |pend| == |c.pending| && Increasing(pend)
    && (forall i :: 0 <= i < |pend| ==> HasOp(line, pend[i]))
    && (forall p :: p in served ==> HasOp(line, p))
    && (!c.bs ==> Apart(pend, served))
  }

  lemma KnownAtStart(line: string)
    ensures Known(line, ScanLine(line, START), LineOps(line, START, 0), {})
  {
    hide Scan, OpsAt;
    OpsCount(line, START.(bs := false), START.(bs := false), 0);
    OpsInside(line, START.(bs := false), 0);
  }

  /** Gluing keeps the operators of the line: none ends in a backslash. */
  lemma KnownGlued(line: string, c: Ctx, pend: seq<nat>, served: set<nat>, next: string)
    requires Known(line, c, pend, served)
    ensures var glued := StripBs(line) + next;
            var c' := ScanLine(glued, START);
            var ops := LineOps(glued, START, 0);
            && (forall p :: p in served ==> HasOp(glued, p))
            && (c'.bs || Apart(ops, served) ==> Known(glued, c', ops, served))
            && |ops| == |c'.pending|
  {
    hide Scan, OpsAt;
    KnownAtStart(StripBs(line) + next);
  }

  lemma KnownJoined(line: string, c: Ctx, served: set<nat>, next: string)
    requires Known(line, c, [], served) && c.pending == []
    ensures Known(line + "\n" + next, ScanLine(next, c), LineOps(next, c, |line| + 1), served)
  {
    hide Scan, OpsAt;
    var d := c.(bs := false);
    var ops := OpsAt(next, d, |line| + 1);
    OpsCount(next, d, d, |line| + 1);
    OpsInside(next, d, |line| + 1);
    forall i | 0 <= i < |ops| ensures HasOp(line + "\n" + next, ops[i]) && ops[i] !in served {
      assert HasOp(next, ops[i] - (|line| + 1));
    }
  }

  lemma KnownDrained(line: string, c: Ctx, pend: seq<nat>, served: set<nat>)
    requires Known(line, c, pend, served)
    ensures Known(line, c.(pending := []), [], served + Elements(pend))
  {
  }

  // ----------------------------------------------------- read once, exactly

  lemma DrainedApart(pend: seq<nat>, rest: seq<nat>, served: set<nat>)
    requires Increasing(pend) && Apart(pend, served)
    ensures (Distinct(pend + rest) && Apart(pend + rest, served))
       <==> (Distinct(rest) && Apart(rest, served + Elements(pend)))
  {
    var all := pend + rest;
    if Distinct(all) && Apart(all, served) {
      forall i | 0 <= i < |rest| ensures rest[i] !in served + Elements(pend) {
        assert all[|pend| + i] == rest[i];
        forall j | 0 <= j < |pend| ensures pend[j] != rest[i] {
          assert all[j] != all[|pend| + i];
        }
      }
      forall i, j | 0 <= i < j < |rest| ensures rest[i] != rest[j] {
        assert all[|pend| + i] != all[|pend| + j];
      }
    }
    if Distinct(rest) && Apart(rest, served + Elements(pend)) {
      forall i, j | 0 <= i < j < |all| ensures all[i] != all[j] {
        if i < |pend| <= j {
          assert all[i] in Elements(pend) && rest[j - |pend|] !in Elements(pend);
        }
      }
    }
  }

  /** From any moment of a reading. */
  lemma {:induction false} ServedOnce(line: string, c: Ctx, pend: seq<nat>, lines: seq<string>, k: nat,
                                      served: set<nat>)
    requires Known(line, c, pend, served)
    ensures var ps := Served(line, c, pend, lines, k);
            (Distinct(ps) && Apart(ps, served)) <==> GluesFresh(line, c, pend, lines, k, served)
    decreases |lines|, |c.pending|
  {
    hide Known, ScanLine, LineOps, Drain, StripBs, Distinct, Apart, Elements;
    if !Needs(c) || (c.bs && lines == []) || (!c.bs && c.pending == [] && lines == []) {
      NothingServed(served);
    } else if c.bs {
      var glued := StripBs(line) + lines[0];
      var c', ops := ScanLine(glued, START), LineOps(glued, START, 0);
      KnownGlued(line, c, pend, served, lines[0]);
      if c'.bs || Apart(ops, served) {
        ServedOnce(glued, c', ops, lines[1..], k, served);
      } else {
        NotApart(glued, c', ops, lines[1..], k, served);
      }
    } else if c.pending != [] {
      var (bodies, roles) := Drain(lines, c.pending, k);
      KnownDrained(line, c, pend, served);
      ServedOnce(line, c.(pending := []), [], lines[|roles|..], k + |bodies|, served + Elements(pend));
      PendApart(line, c, pend, served);
      DrainedApart(pend, Served(line, c.(pending := []), [], lines[|roles|..], k + |bodies|), served);
    } else {
      PendNone(line, c, pend, served);
      KnownJoined(line, c, served, lines[0]);
      ServedOnce(line + "\n" + lines[0], ScanLine(lines[0], c), LineOps(lines[0], c, |line| + 1), lines[1..], k,
                 served);
    }
  }

  lemma NothingServed(served: set<nat>)
    ensures Distinct([]) && Apart([], served)
  {
  }

  lemma PendApart(line: string, c: Ctx, pend: seq<nat>, served: set<nat>)
    requires Known(line, c, pend, served) && !c.bs
    ensures Increasing(pend) && Apart(pend, served)
  {
  }

  lemma PendNone(line: string, c: Ctx, pend: seq<nat>, served: set<nat>)
    requires Known(line, c, pend, served) && c.pending == []
    ensures pend == []
  {
  }

  /** Operators found again are read for again at once. */
  lemma NotApart(line: string, c: Ctx, pend: seq<nat>, lines: seq<string>, k: nat, served: set<nat>)
    requires !c.bs && |pend| == |c.pending| && !Apart(pend, served)
    ensures !Apart(Served(line, c, pend, lines, k), served)
  {
    hide Drain, ScanLine, LineOps;
    var i :| 0 <= i < |pend| && pend[i] in served;
    var (bodies, roles) := Drain(lines, c.pending, k);
    var rest := Served(line, c.(pending := []), [], lines[|roles|..], k + |bodies|);
    assert Served(line, c, pend, lines, k) == pend + rest;
    assert (pend + rest)[i] in served;
  }

  lemma StripKeeps(line: string, p: nat)
    requires HasOp(line, p)
    ensures HasOp(StripBs(line), p)
  {
  }

  /** Positions served are operators of the text returned, one for each body. */
  lemma {:induction false} ServedAre(line: string, c: Ctx, pend: seq<nat>, lines: seq<string>, k: nat, p: nat)
    requires |pend| == |c.pending| && forall i :: 0 <= i < |pend| ==> HasOp(line, pend[i])
    ensures var o := Logical(line, c, lines, k);
            var ps := Served(line, c, pend, lines, k);
            |ps| == |o.hds| == |o.bodies| && (HasOp(line, p) || p in ps ==> HasOp(o.text, p))
    decreases |lines|, |c.pending|
  {
    hide ScanLine, LineOps, Drain, StripBs, HasOp;
    if !Needs(c) || (!c.bs && c.pending == [] && lines == []) {
    } else if c.bs && lines == [] {
      if HasOp(line, p) {
        StripKeeps(line, p);
      }
    } else if c.bs {
      var glued := StripBs(line) + lines[0];
      KnownAtStart(glued);
      StartFacts(glued);
      if HasOp(line, p) {
        StripKeeps(line, p);
        Extends(StripBs(line), lines[0], p);
      }
      ServedAre(glued, ScanLine(glued, START), LineOps(glued, START, 0), lines[1..], k, p);
    } else if c.pending != [] {
      var (bodies, roles) := Drain(lines, c.pending, k);
      ServedAre(line, c.(pending := []), [], lines[|roles|..], k + |bodies|, p);
    } else {
      var next := line + "\n" + lines[0];
      NextFacts(line, c, lines[0]);
      if HasOp(line, p) {
        Extends(line, "\n", p);
        Extends(line + "\n", lines[0], p);
      }
      ServedAre(next, ScanLine(lines[0], c), LineOps(lines[0], c, |line| + 1), lines[1..], k, p);
    }
  }

  lemma StartFacts(line: string)
    ensures var ops := LineOps(line, START, 0);
            |ops| == |ScanLine(line, START).pending| && forall i :: 0 <= i < |ops| ==> HasOp(line, ops[i])
  {
    hide ScanLine, LineOps;
    KnownAtStart(line);
  }

  lemma NextFacts(line: string, c: Ctx, next: string)
    requires c.pending == []
    ensures var ops := LineOps(next, c, |line| + 1);
            |ops| == |ScanLine(next, c).pending| && forall i :: 0 <= i < |ops| ==> HasOp(line + "\n" + next, ops[i])
  {
    hide ScanLine, LineOps;
    KnownJoined(line, c, {}, next);
  }

  lemma Extends(line: string, more: string, p: nat)
    requires HasOp(line, p)
    ensures HasOp(line + more, p)
  {
  }

  /** The positions served by a whole reading. */
  function ServedBy(lines: seq<string>): seq<nat>
    requires lines != []
  {
    Served(lines[0], ScanLine(lines[0], START), LineOps(lines[0], START, 0), lines[1..], 0)
  }

  /** Main result, for every stream of lines: each body is read for an operator
      of the text returned, and no operator has two bodies if and only if no
      glue, once bodies have been read, scans such an operator again. */
  lemma ReadOnceExactly(lines: seq<string>)
    requires lines != []
    ensures var o := ReadLogical(lines).value;
            var ps := ServedBy(lines);
            && |ps| == |o.bodies| == |o.hds|
            && (forall i :: 0 <= i < |ps| ==> HasOp(o.text, ps[i]))
            && (Distinct(ps) <==>
                GluesFresh(lines[0], ScanLine(lines[0], START), LineOps(lines[0], START, 0), lines[1..], 0, {}))
  {
    hide Logical, Served, GluesFresh, Known, ScanLine, LineOps, Distinct;
    var c, ops := ScanLine(lines[0], START), LineOps(lines[0], START, 0);
    KnownAtStart(lines[0]);
    ServedOnce(lines[0], c, ops, lines[1..], 0, {});
    StartFacts(lines[0]);
    var ps := ServedBy(lines);
    assert Apart(ps, {});
    ServedAre(lines[0], c, ops, lines[1..], 0, 0);
    forall i | 0 <= i < |ps| ensures HasOp(ReadLogical(lines).value.text, ps[i]) {
      ServedAre(lines[0], c, ops, lines[1..], 0, ps[i]);
    }
  }

  // ------------------------------------------- when an operator comes first

  /** At a glue: what is read for next are the operators of the glued text, one
      body each, whatever was read before; so bodies are read at this step
      exactly when scanning afresh finds an operator. */
  lemma GlueReads(line: string, c: Ctx, lines: seq<string>, k: nat)
    requires c.bs && lines != []
    ensures var glued := StripBs(line) + lines[0];
            var c' := ScanLine(glued, START);
            var o := Logical(line, c, lines, k);
            !c'.bs ==>
              c'.pending <= o.hds
              && (c'.pending != [] ==>
                    (var (bodies, roles) := Drain(lines[1..], c'.pending, k);
                     [Glued] + roles <= o.roles && bodies <= o.bodies && |bodies| == |c'.pending|))
  {
    hide ScanLine, Drain, StripBs;
    var glued := StripBs(line) + lines[0];
    var c' := ScanLine(glued, START);
    assert Needs(c);
    if !c'.bs && c'.pending != [] {
      var (bodies, roles) := Drain(lines[1..], c'.pending, k);
      LogicalDrains(glued, c', lines[1..], k);
      var o := Logical(glued, c', lines[1..], k);
      var after := Logical(glued, c'.(pending := []), lines[1..][|roles|..], k + |bodies|);
      assert o.roles == roles + after.roles;
      Assoc([Glued], roles, after.roles);
    }
  }

  /** A delimiter found is found, if longer, whatever follows. */
  lemma HdOpAgain(s: string, more: string)
    requires |s| >= 2 && HdOp(s).0.Some?
    ensures HdOp(s + more).0.Some?
  {
    hide DelimLen;
    var from := if At(s, 2) == '-' then 3 else 2;
    DelimNotEmpty(s[from..]);
    assert (s + more)[from..] == s[from..] + more;
    DelimAgain(s[from..], more);
    assert At(s + more, 2) == At(s, 2);
  }

  lemma DelimNotEmpty(s: string)
    requires ReadDelim(s).0.Some?
    ensures SkipBlanks(s) < |s|
  {
  }

  lemma {:induction false} BlanksAgain(s: string, more: string)
    requires SkipBlanks(s) < |s|
    ensures SkipBlanks(s + more) == SkipBlanks(s)
  {
    assert (s + more)[0] == s[0] && (s + more)[1..] == s[1..] + more;
    if IsBlank(s[0]) {
      BlanksAgain(s[1..], more);
    }
  }

  lemma DelimAgain(s: string, more: string)
    requires SkipBlanks(s) < |s| && ReadDelim(s).0.Some?
    ensures ReadDelim(s + more).0.Some?
  {
    BlanksAgain(s, more);
    var t := s[SkipBlanks(s)..];
    assert (s + more)[SkipBlanks(s)..] == t + more;
    assert (t + more)[0] == t[0];
    if t == "\\" {
      assert DelimLen(t) == 0;
    } else {
      assert !EndsDelim(t) ==> !EndsDelim(t + more);
    }
  }

  /** The first operator of a text is found again in every longer text. */
  lemma {:induction false} FirstAgain(s: string, more: string, c: Ctx, base: nat)
    requires OpsAt(s, c, base) != []
    ensures OpsAt(s + more, c, base) != [] && OpsAt(s + more, c, base)[0] == OpsAt(s, c, base)[0]
    decreases |s|
  {
    hide HdOp;
    var t := s + more;
    assert t[0] == s[0] && t[1..] == s[1..] + more;
    if !c.sq && s[0] == '\\' {
      assert t[2..] == s[2..] + more;
      FirstAgain(s[2..], more, c, base + 2);
    } else if !c.dq && s[0] == '\'' {
      FirstAgain(s[1..], more, c.(sq := !c.sq), base + 1);
    } else if !c.sq && s[0] == '"' {
      FirstAgain(s[1..], more, c.(dq := !c.dq), base + 1);
    } else if c.sq || c.dq {
      FirstAgain(s[1..], more, c, base + 1);
    } else if s[0] == '<' && At(s, 1) == '<' {
      if HdOp(s).0.Some? {
        HdOpAgain(s, more);
      } else {
        var n := HdOp(s).1;
        NoDelimAgain(s, more, c, base);
        assert t[n..] == s[n..] + more;
        FirstAgain(s[n..], more, c, base + n);
      }
    } else {
      assert |s| > 1 ==> At(t, 1) == At(s, 1);
      FirstAgain(s[1..], more, c, base + 1);
    }
  }

  lemma NoDelimAgain(s: string, more: string, c: Ctx, base: nat)
    requires |s| >= 2 && HdOp(s).0.None? && OpsAt(s[HdOp(s).1..], c, base + HdOp(s).1) != []
    ensures HdOp(s + more) == HdOp(s)
  {
    hide ReadDelim, SkipBlanks, OpsAt;
    var from := if At(s, 2) == '-' then 3 else 2;
    var u := s[from..];
    DelimAfterBlanks(u);
    assert u[ReadDelim(u).1..] == s[HdOp(s).1..];
    StopsHere(u, c, base + HdOp(s).1);
    assert (s + more)[from..] == u + more && At(s + more, 2) == At(s, 2);
    DelimStops(u, more);
  }

  lemma DelimAfterBlanks(u: string)
    ensures ReadDelim(u).0.None? ==> ReadDelim(u).1 == SkipBlanks(u)
  {
    hide DelimLen;
  }

  lemma DelimStops(u: string, more: string)
    requires SkipBlanks(u) < |u| && u[SkipBlanks(u)] in " \t;|&()<>"
    ensures ReadDelim(u + more) == (None, SkipBlanks(u))
  {
    hide SkipBlanks;
    BlanksAgain(u, more);
    var t := (u + more)[SkipBlanks(u)..];
    assert t[0] == u[SkipBlanks(u)];
    assert DelimLen(t) == 0;
  }

  /** No delimiter, and an operator further on: the byte after the blanks stops
      the delimiter. */
  lemma StopsHere(u: string, c: Ctx, base: nat)
    requires ReadDelim(u).0.None? && OpsAt(u[SkipBlanks(u)..], c, base) != []
    ensures SkipBlanks(u) < |u| && ReadDelim(u).1 == SkipBlanks(u) && u[SkipBlanks(u)] in " \t;|&()<>"
  {
    var t := u[SkipBlanks(u)..];
    assert t != "\\";
  }

  // --------------------------------------------------- the rest of the reading

  /** No line is glued from here on, but to texts continued by another
      backslash. */
  ghost predicate NoMoreGlue(line: string, c: Ctx, lines: seq<string>, k: nat)
    decreases |lines|, |c.pending|
  {
    if !Needs(c) then true
    else if c.bs then
      lines == [] ||
      (var glued := StripBs(line) + lines[0];
       ScanLine(glued, START).bs && NoMoreGlue(glued, ScanLine(glued, START), lines[1..], k))
    else if c.pending != [] then
      var (bodies, roles) := Drain(lines, c.pending, k);
      NoMoreGlue(line, c.(pending := []), lines[|roles|..], k + |bodies|)
    else
      lines == [] || NoMoreGlue(line + "\n" + lines[0], ScanLine(lines[0], c), lines[1..], k)
  }

  /** The reading has gone on from `first`. */
  predicate GrownFrom(first: string, line: string, c: Ctx) {
    (line == first && !c.bs) || first + "\n" <= line
  }

  lemma {:induction false} AlwaysAgain(first: string, p: nat, line: string, c: Ctx, pend: seq<nat>,
                                       lines: seq<string>, k: nat, served: set<nat>)
    requires LineOps(first, START, 0) != [] && p == LineOps(first, START, 0)[0] && p in served
    requires GrownFrom(first, line, c)
    ensures GluesFresh(line, c, pend, lines, k, served) <==> NoMoreGlue(line, c, lines, k)
    decreases |lines|, |c.pending|
  {
    hide ScanLine, LineOps, Drain, Apart;
    if !Needs(c) || (c.bs && lines == []) || (!c.bs && c.pending == [] && lines == []) {
    } else if c.bs {
      var glued := StripBs(line) + lines[0];
      var c' := ScanLine(glued, START);
      GrownGlued(first, p, line, c, lines[0], served);
      AlwaysAgain(first, p, glued, c', LineOps(glued, START, 0), lines[1..], k, served);
    } else if c.pending != [] {
      var (bodies, roles) := Drain(lines, c.pending, k);
      AlwaysAgain(first, p, line, c.(pending := []), [], lines[|roles|..], k + |bodies|, served + Elements(pend));
    } else {
      var next := line + "\n" + lines[0];
      assert first + "\n" <= next;
      AlwaysAgain(first, p, next, ScanLine(lines[0], c), LineOps(lines[0], c, |line| + 1), lines[1..], k, served);
    }
  }

  lemma GrownGlued(first: string, p: nat, line: string, c: Ctx, next: string, served: set<nat>)
    requires LineOps(first, START, 0) != [] && p == LineOps(first, START, 0)[0] && p in served
    requires GrownFrom(first, line, c) && c.bs
    ensures var glued := StripBs(line) + next;
            first + "\n" <= glued && !Apart(LineOps(glued, START, 0), served)
  {
    hide OpsAt;
    var glued := StripBs(line) + next;
    assert first + "\n" <= StripBs(line);
    assert first <= glued;
    var more := glued[|first|..];
    assert glued == first + more;
    FirstAgain(first, more, START.(bs := false), 0);
    assert LineOps(glued, START, 0)[0] in served;
  }

  /** Main result: when the first line, ending in no backslash, opens a
      here-document, no operator has two bodies if and only if no line is glued
      after it (but to a text continued by another backslash): every such glue
      reads for the first operator again. */
  lemma FirstReadAgain(lines: seq<string>)
    requires lines != []
    requires var c := ScanLine(lines[0], START); !c.bs && c.pending != []
    ensures Distinct(ServedBy(lines)) <==> NoMoreGlue(lines[0], ScanLine(lines[0], START), lines[1..], 0)
  {
    hide Logical, Served, ScanLine, LineOps, Distinct, Drain;
    var first, rest := lines[0], lines[1..];
    var c, ops := ScanLine(first, START), LineOps(first, START, 0);
    ReadOnceExactly(lines);
    StartFacts(first);
    var (bodies, roles) := Drain(rest, c.pending, 0);
    assert ops[0] in {} + Elements(ops);
    AlwaysAgain(first, ops[0], first, c.(pending := []), [], rest[|roles|..], |bodies|, {} + Elements(ops));
  }
}
