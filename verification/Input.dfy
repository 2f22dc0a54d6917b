/** The logical-line reader: a stream of physical lines, a scanning context
    updated in place, and the queue of here-document bodies. */
module Input {
  import opened Ascii
  import opened Wrappers
  import opened SeqFacts
  import opened InputSpec

  /** Scanning state, one for each logical line. */
  class LineContext {
    var inSq: bool
    var inDq: bool
    var parenDepth: nat
    var trailingBs: bool
    var pending: seq<Hd>

    constructor ()
      ensures Abs() == START
    {
      inSq, inDq, parenDepth, trailingBs, pending := false, false, 0, false, [];
    }

    ghost function Abs(): Ctx
      reads this
    {
      Ctx(inSq, inDq, parenDepth, trailingBs, pending)
    }

    method Reset()
      modifies this
      ensures Abs() == START
    {
      inSq, inDq, parenDepth, trailingBs, pending := false, false, 0, false, [];
    }

    method NeedsContinuation() returns (b: bool)
      ensures b == Needs(Abs())
    {
      b := inSq || inDq || trailingBs || parenDepth > 0 || pending != [];
    }

    /** At `<<` in `line`: queues the here-document; where scanning goes on. */
    method ScanHeredocOp(line: string, at: nat) returns (next: nat)
      requires at + 2 <= |line|
      modifies this
      ensures at + 2 <= next <= |line|
      ensures var (hd, n) := HdOp(line[at..]);
              && next == at + n
              && Abs() == (if hd.Some? then old(Abs()).(pending := old(pending) + [hd.value]) else old(Abs()))
    {
      hide ReadDelim;
      var strip := At(line, at + 2) == '-';
      var from := if strip then at + 3 else at + 2;
      assert line[at..][from - at..] == line[from..];
      var delim;
      delim, next := ReadHdDelim(line, from);
      if delim.Some? {
        pending := pending + [Hd(delim.value, strip)];
      }
    }

    method ScanLineInto(line: string)
      modifies this
      ensures Abs() == ScanLine(line, old(Abs()))
    {
      hide Scan, HdOp;
      trailingBs := false;
      ghost var start := Abs();
      var p := 0;
      assert line[0..] == line;
      while p < |line|
        invariant 0 <= p <= |line|
        invariant Scan(line[p..], Abs()) == Scan(line, start)
        decreases |line| - p
      {
        ScanTurn(line, p, Abs());
        var c := line[p];
        if !inSq && c == '\\' {
          if p + 1 == |line| {
            trailingBs := true;
            return;
          }
          p := p + 2;
          continue;
        }
        if !inDq && c == '\'' {
          inSq := !inSq;
        } else if !inSq && c == '"' {
          inDq := !inDq;
        } else if !inSq && !inDq {
          if c == '#' {
            return;
          }
          if c == '(' {
            parenDepth := parenDepth + 1;
          } else if c == ')' && parenDepth > 0 {
            parenDepth := parenDepth - 1;
          } else if c == '<' && At(line, p + 1) == '<' {
            p := ScanHeredocOp(line, p);
            continue;
          }
        }
        p := p + 1;
      }
      ScanEnd(line, Abs());
    }
  }

  /** The delimiter at or after `from`, and where it ends. */
  method ReadHdDelim(line: string, from: nat) returns (delim: Option<string>, end: nat)
    requires from <= |line|
    ensures from <= end <= |line|
    ensures (delim, end - from) == ReadDelim(line[from..])
  {
    hide DelimLen;
    end := from;
    while end < |line| && IsBlank(line[end])
      invariant from <= end <= |line|
      invariant end + SkipBlanks(line[end..]) == from + SkipBlanks(line[from..])
    {
      assert line[end..][1..] == line[end + 1..];
      end := end + 1;
    }
    assert line[from..][end - from..] == line[end..];
    if end < |line| && (line[end] == '\'' || line[end] == '"') {
      delim, end := ReadQuotedDelim(line, end);
    } else {
      delim, end := ReadBareDelim(line, end);
    }
  }

  method ReadQuotedDelim(line: string, open: nat) returns (delim: Option<string>, end: nat)
    requires open < |line|
    ensures open < end <= |line|
    ensures var t := line[open..];
            var n := IndexOfChar(t[1..], t[0]);
            delim == Some(t[1..][..n]) && end == open + 1 + n + (if n < |t[1..]| then 1 else 0)
  {
    var quote := line[open];
    var start := open + 1;
    end := start;
    assert line[open..][1..] == line[start..];
    while end < |line| && line[end] != quote
      invariant start <= end <= |line|
      invariant end + IndexOfChar(line[end..], quote) == start + IndexOfChar(line[start..], quote)
    {
      assert line[end..][1..] == line[end + 1..];
      end := end + 1;
    }
    assert line[start..][..end - start] == line[start..end];
    delim := Some(line[start..end]);
    if end < |line| {
      end := end + 1;
    }
  }

  method ReadBareDelim(line: string, start: nat) returns (delim: Option<string>, end: nat)
    requires start <= |line|
    ensures start <= end <= |line|
    ensures var n := DelimLen(line[start..]);
            delim == (if n == 0 then None else Some(line[start..][..n])) && end == start + n
  {
    hide EndsDelim;
    end := start;
    while end < |line| && !EndsDelim(line[end..])
      invariant start <= end <= |line|
      invariant end + DelimLen(line[end..]) == start + DelimLen(line[start..])
    {
      assert line[end..][1..] == line[end + 1..];
      end := end + 1;
    }
    EndsAtEnd(line[end..]);
    assert line[start..][..end - start] == line[start..end];
    delim := if end == start then None else Some(line[start..end]);
  }

  lemma EndsAtEnd(s: string)
    ensures s == "" ==> EndsDelim(s)
  {
  }

  lemma ScanEnd(line: string, c: Ctx)
    ensures Scan(line[|line|..], c) == c
  {
  }

  /** One step of the scan, at position `p`. */
  lemma ScanTurn(line: string, p: nat, c: Ctx)
    requires p < |line|
    ensures Scan(line[p..], c) ==
      if !c.sq && line[p] == '\\' then
        (if p + 1 == |line| then c.(bs := true) else Scan(line[p + 2..], c))
      else if !c.dq && line[p] == '\'' then Scan(line[p + 1..], c.(sq := !c.sq))
      else if !c.sq && line[p] == '"' then Scan(line[p + 1..], c.(dq := !c.dq))
      else if c.sq || c.dq then Scan(line[p + 1..], c)
      else if line[p] == '#' then c
      else if line[p] == '(' then Scan(line[p + 1..], c.(depth := c.depth + 1))
      else if line[p] == ')' && c.depth > 0 then Scan(line[p + 1..], c.(depth := c.depth - 1))
      else if line[p] == '<' && At(line, p + 1) == '<' then
        (var (hd, n) := HdOp(line[p..]);
         Scan(line[p + n..], if hd.Some? then c.(pending := c.pending + [hd.value]) else c))
      else Scan(line[p + 1..], c)
  {
    hide HdOp;
    var s := line[p..];
    Suffix(line, p);
    assert At(s, 1) == At(line, p + 1);
    if |s| >= 2 {
      var (hd, n) := HdOp(s);
      assert s[n..] == line[p + n..];
    }
  }

  lemma Suffix(line: string, p: nat)
    requires p < |line|
    ensures line[p..][0] == line[p] && line[p..][1..] == line[p + 1..]
    ensures p + 2 <= |line| ==> line[p..][2..] == line[p + 2..]
  {
  }

  // ------------------------------------------------------------- the reader

  class Reader {
    /** Lines not yet read, and bodies waiting for the parser. */
    var lines: seq<string>
    var bodyQueue: seq<string>

    constructor (lines: seq<string>)
      ensures this.lines == lines && bodyQueue == []
    {
      this.lines, bodyQueue := lines, [];
    }

    method ReadLine() returns (line: Option<string>)
      modifies this`lines
      ensures old(lines) == [] ==> line.None? && lines == []
      ensures old(lines) != [] ==> line == Some(old(lines)[0]) && lines == old(lines)[1..]
    {
      if lines == [] {
        return None;
      }
      line := Some(lines[0]);
      lines := lines[1..];
    }

    method CollectHdBody(hd: Hd, ghost k: nat) returns (body: string)
      modifies this`lines
      ensures var (text, roles) := Collect(old(lines), hd, k);
              body == text && lines == old(lines)[|roles|..]
    {
      hide Stripped, Collect;
      body := "";
      ghost var n := 0;
      assert lines == old(lines)[0..];
      CollectZero(lines, hd, k);
      while true
        invariant 0 <= n <= |old(lines)| && lines == old(lines)[n..]
        invariant Collected(old(lines), hd, k, n, body)
        decreases |lines|
      {
        CollectTurn(old(lines), hd, k, n, body);
        var line := ReadLine();
        if line.None? {
          return;
        }
        n := n + 1;
        var cmp := StripLine(line.value, hd);
        if cmp == hd.delim {
          return;
        }
        body := body + cmp + "\n";
      }
    }

    /** Pushes one body for each waiting here-document. */
    method DrainPendingHeredocs(ctx: LineContext, ghost k: nat)
      modifies this, ctx
      ensures var (bodies, roles) := Drain(old(lines), old(ctx.pending), k);
              lines == old(lines)[|roles|..] && bodyQueue == old(bodyQueue) + bodies
      ensures ctx.Abs() == old(ctx.Abs()).(pending := [])
    {
      hide Collect, Drain, Drained;
      var hds := ctx.pending;
      var i := 0;
      ghost var roles, bodies := [], [];
      DrainZero(lines, hds, k);
      assert lines == old(lines)[0..];
      while i < |hds|
        invariant 0 <= i <= |hds|
        invariant |roles| <= |old(lines)| && lines == old(lines)[|roles|..]
        invariant bodyQueue == old(bodyQueue) + bodies && |bodies| == i
        invariant Drained(old(lines), hds, k, bodies, roles)
        invariant ctx.Abs() == old(ctx.Abs())
      {
        DrainTurn(old(lines), hds, k, bodies, roles);
        ghost var (text, used) := Collect(lines, hds[i], k + i);
        assert old(lines)[|roles|..][|used|..] == old(lines)[|roles| + |used|..];
        var body := CollectHdBody(hds[i], k + i);
        bodyQueue := bodyQueue + [body];
        bodies, roles := bodies + [body], roles + used;
        i := i + 1;
      }
      DrainEnd(old(lines), hds, k, bodies, roles);
      ctx.pending := [];
    }

    /** One more line after an open quote or parenthesis; false at the end of
        input. */
    method ReadAndJoinOne(line: string, ctx: LineContext) returns (joined: string, more: bool)
      modifies this`lines, ctx
      ensures more <==> old(lines) != []
      ensures !more ==> lines == [] && ctx.Abs() == old(ctx.Abs())
      ensures !more ==> joined == if old(ctx.trailingBs) then StripBs(line) else line
      ensures more ==> lines == old(lines)[1..] && ctx.Abs() == ScanLine(old(lines)[0], old(ctx.Abs()))
      ensures more ==> joined == (if old(ctx.trailingBs) then StripBs(line) else line + "\n") + old(lines)[0]
    {
      var head := if ctx.trailingBs then StripBs(line) else line;
      var sep := if ctx.trailingBs then "" else "\n";
      var cont := ReadLine();
      if cont.None? {
        return head, false;
      }
      ctx.ScanLineInto(cont.value);
      joined, more := head + sep + cont.value, true;
    }

    /** Glues the next line on and scans the whole again; false at the end of
        input. */
    method HandleTrailingBs(line: string, ctx: LineContext) returns (glued: string, more: bool)
      modifies this`lines, ctx
      ensures more <==> old(lines) != []
      ensures !more ==> lines == [] && glued == StripBs(line)
      ensures more ==> lines == old(lines)[1..] && glued == StripBs(line) + old(lines)[0]
      ensures more ==> ctx.Abs() == ScanLine(glued, START)
    {
      ctx.pending := [];
      glued := StripBs(line);
      var cont := ReadLine();
      if cont.None? {
        return glued, false;
      }
      glued := glued + cont.value;
      ctx.Reset();
      ctx.ScanLineInto(glued);
      more := true;
    }

    /** One round: glue, drain or join; false at the end of input. */
    method ContinueLine(line: string, ctx: LineContext, ghost k: nat)
      returns (line': string, more: bool, ghost bodies: seq<string>)
      requires Needs(ctx.Abs())
      modifies this, ctx
      ensures bodyQueue == old(bodyQueue) + bodies
      ensures more ==> Continues(Logical(line, old(ctx.Abs()), old(lines), k), bodies,
                                 Logical(line', ctx.Abs(), lines, k + |bodies|))
      ensures more ==> |lines| < |old(lines)| || (|lines| == |old(lines)| && |ctx.pending| < |old(ctx.pending)|)
      ensures !more ==> Ends(Logical(line, old(ctx.Abs()), old(lines), k), line', lines) && bodies == []
    {
      hide Logical, ScanLine, Drain, Needs;
      LogicalTurn(line, ctx.Abs(), lines, k);
      bodies := [];
      if ctx.trailingBs {
        line', more := HandleTrailingBs(line, ctx);
      } else if ctx.pending != [] {
        bodies := Drain(lines, ctx.pending, k).0;
        DrainPendingHeredocs(ctx, k);
        line', more := line, true;
      } else {
        line', more := ReadAndJoinOne(line, ctx);
      }
    }

    method ReadLogicalLine() returns (text: Option<string>)
      modifies this
      ensures match ReadLogical(old(lines))
              case None => text.None? && lines == [] && bodyQueue == old(bodyQueue)
              case Some(o) => text == Some(o.text) && lines == o.rest && bodyQueue == old(bodyQueue) + o.bodies
    {
      hide Logical, ScanLine, Needs, Continues;
      var first := ReadLine();
      if first.None? {
        return None;
      }
      var line := first.value;
      var ctx := new LineContext();
      ctx.ScanLineInto(line);
      ghost var all := Logical(line, ctx.Abs(), lines, 0);
      ghost var bodies := [];
      ContinuesSelf(all);
      var more := ctx.NeedsContinuation();
      while more
        invariant fresh(ctx)
        invariant more == Needs(ctx.Abs())
        invariant bodyQueue == old(bodyQueue) + bodies
        invariant Continues(all, bodies, Logical(line, ctx.Abs(), lines, |bodies|))
        decreases |lines|, |ctx.pending|
      {
        ghost var was := Logical(line, ctx.Abs(), lines, |bodies|);
        ghost var bs;
        line, more, bs := ContinueLine(line, ctx, |bodies|);
        if !more {
          ContinuesEnd(all, bodies, was, line, lines);
          return Some(line);
        }
        ContinuesMore(all, bodies, was, bs, Logical(line, ctx.Abs(), lines, |bodies| + |bs|));
        bodies := bodies + bs;
        more := ctx.NeedsContinuation();
      }
      LogicalTurn(line, ctx.Abs(), lines, |bodies|);
      ContinuesEnd(all, bodies, Logical(line, ctx.Abs(), lines, |bodies|), line, lines);
      text := Some(line);
    }
  }

  /** `all` goes on as `o` after the bodies read so far. */
  ghost predicate Continues(all: Outcome, bodies: seq<string>, o: Outcome) {
    all.text == o.text && all.rest == o.rest && all.bodies == bodies + o.bodies
  }

  ghost predicate Ends(o: Outcome, line: string, lines: seq<string>) {
    o.text == line && o.bodies == [] && o.rest == lines
  }

  lemma ContinuesSelf(o: Outcome)
    ensures Continues(o, [], o)
  {
  }

  lemma ContinuesMore(all: Outcome, bodies: seq<string>, o: Outcome, bs: seq<string>, o': Outcome)
    requires Continues(all, bodies, o) && Continues(o, bs, o')
    ensures Continues(all, bodies + bs, o')
  {
    Assoc(bodies, bs, o'.bodies);
  }

  lemma ContinuesEnd(all: Outcome, bodies: seq<string>, o: Outcome, line: string, lines: seq<string>)
    requires Continues(all, bodies, o) && Ends(o, line, lines)
    ensures all.text == line && all.rest == lines && all.bodies == bodies
  {
  }

  lemma LogicalTurn(line: string, c: Ctx, lines: seq<string>, k: nat)
    ensures var o := Logical(line, c, lines, k);
            if !Needs(c) then Ends(o, line, lines)
            else if c.bs then
              (if lines == [] then Ends(o, StripBs(line), [])
               else Continues(o, [],
                              Logical(StripBs(line) + lines[0], ScanLine(StripBs(line) + lines[0], START),
                                      lines[1..], k)))
            else if c.pending != [] then
              (var (bodies, roles) := Drain(lines, c.pending, k);
               Continues(o, bodies, Logical(line, c.(pending := []), lines[|roles|..], k + |bodies|)))
            else if lines == [] then Ends(o, line, [])
            else Continues(o, [], Logical(line + "\n" + lines[0], ScanLine(lines[0], c), lines[1..], k))
  {
    hide ScanLine, Drain, StripBs;
  }

  /** `body` is the text of the first `n` lines, none of them the delimiter. */
  ghost predicate Collected(lines: seq<string>, hd: Hd, k: nat, n: nat, body: string)
    requires n <= |lines|
  {
    var (text, roles) := Collect(lines, hd, k);
    var (text', roles') := Collect(lines[n..], hd, k);
    text == body + text' && |roles| == n + |roles'|
  }

  lemma CollectZero(lines: seq<string>, hd: Hd, k: nat)
    ensures Collected(lines, hd, k, 0, "")
  {
    hide Collect;
    assert lines[0..] == lines;
    assert "" + Collect(lines, hd, k).0 == Collect(lines, hd, k).0;
  }

  lemma CollectTurn(lines: seq<string>, hd: Hd, k: nat, n: nat, body: string)
    requires n <= |lines| && Collected(lines, hd, k, n, body)
    ensures var (text, roles) := Collect(lines, hd, k);
            if n == |lines| then text == body && |roles| == n
            else
              (var cmp := Stripped(lines[n], hd);
               if cmp == hd.delim then text == body && |roles| == n + 1
               else Collected(lines, hd, k, n + 1, body + cmp + "\n"))
  {
    hide Stripped;
    if n < |lines| {
      assert lines[n..][1..] == lines[n + 1..];
      var cmp := Stripped(lines[n], hd);
      Assoc(body + cmp, "\n", Collect(lines[n + 1..], hd, k).0);
      Assoc(body, cmp, "\n" + Collect(lines[n + 1..], hd, k).0);
      Assoc(cmp, "\n", Collect(lines[n + 1..], hd, k).0);
    }
  }

  /** `bodies` are those of the first here-documents, read from the lines with
      `roles`. */
  ghost predicate Drained(lines: seq<string>, hds: seq<Hd>, k: nat, bodies: seq<string>, roles: seq<Role>)
    requires |bodies| <= |hds| && |roles| <= |lines|
  {
    var (bs, rs) := Drain(lines[|roles|..], hds[|bodies|..], k + |bodies|);
    Drain(lines, hds, k) == (bodies + bs, roles + rs)
  }

  lemma DrainZero(lines: seq<string>, hds: seq<Hd>, k: nat)
    ensures Drained(lines, hds, k, [], [])
  {
    hide Drain;
    assert lines[0..] == lines && hds[0..] == hds;
    var (bs, rs) := Drain(lines, hds, k);
    assert [] + bs == bs && [] + rs == rs;
  }

  lemma DrainTurn(lines: seq<string>, hds: seq<Hd>, k: nat, bodies: seq<string>, roles: seq<Role>)
    requires |bodies| < |hds| && |roles| <= |lines| && Drained(lines, hds, k, bodies, roles)
    ensures var (text, used) := Collect(lines[|roles|..], hds[|bodies|], k + |bodies|);
            Drained(lines, hds, k, bodies + [text], roles + used)
  {
    hide Collect;
    var i := |bodies|;
    var left := lines[|roles|..];
    var (text, used) := Collect(left, hds[i], k + i);
    assert hds[i..][1..] == hds[i + 1..];
    assert left[|used|..] == lines[|roles + used|..];
    DrainMore(left, hds[i..], k + i);
    hide Drain;
    var (bs, rs) := Drain(left[|used|..], hds[i + 1..], k + i + 1);
    Assoc(bodies, [text], bs);
    Assoc(roles, used, rs);
  }

  lemma DrainMore(lines: seq<string>, hds: seq<Hd>, k: nat)
    requires hds != []
    ensures var (text, used) := Collect(lines, hds[0], k);
            var (bs, rs) := Drain(lines[|used|..], hds[1..], k + 1);
            Drain(lines, hds, k) == ([text] + bs, used + rs)
  {
    hide Collect;
  }

  lemma DrainEnd(lines: seq<string>, hds: seq<Hd>, k: nat, bodies: seq<string>, roles: seq<Role>)
    requires |bodies| == |hds| && |roles| <= |lines| && Drained(lines, hds, k, bodies, roles)
    ensures Drain(lines, hds, k) == (bodies, roles)
  {
    assert bodies + [] == bodies && roles + [] == roles;
  }

  method StripLine(line: string, hd: Hd) returns (cmp: string)
    ensures cmp == Stripped(line, hd)
  {
    var i := 0;
    assert line[0..] == line;
    while hd.strip && i < |line| && line[i] == '\t'
      invariant 0 <= i <= |line|
      invariant hd.strip ==> StripTabs(line[i..]) == StripTabs(line)
      invariant !hd.strip ==> i == 0
    {
      assert line[i..][1..] == line[i + 1..];
      i := i + 1;
    }
    cmp := line[i..];
  }
}
