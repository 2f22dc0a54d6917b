/** No physical line is lost, repeated or misplaced by reading logical lines. */
module InputProofs {
  import opened Ascii
  import opened Wrappers
  import opened SeqFacts
  import opened InputSpec

  // ---------------------------------------------------- what roles say

  /** The command text: lines joined by newlines or glued at a backslash. */
  function Assemble(line: string, lines: seq<string>, roles: seq<Role>): string
    requires |roles| <= |lines|
    decreases |roles|
  {
    if roles == [] then line
    else
      match roles[0]
      case Joined => Assemble(line + "\n" + lines[0], lines[1..], roles[1..])
      case Glued => Assemble(StripBs(line) + lines[0], lines[1..], roles[1..])
      case _ => Assemble(line, lines[1..], roles[1..])
  }

  /** The lines that are body lines of here-document `k`, newline-terminated. */
  function BodyText(lines: seq<string>, roles: seq<Role>, k: nat, hd: Hd): string
    requires |roles| <= |lines|
    decreases |roles|
  {
    if roles == [] then ""
    else (if roles[0] == Body(k) then Stripped(lines[0], hd) + "\n" else "") + BodyText(lines[1..], roles[1..], k, hd)
  }

  predicate OfHeredoc(r: Role) {
    r.Body? || r.End?
  }

  ghost predicate Between(roles: seq<Role>, lo: nat, hi: nat) {
    forall i :: 0 <= i < |roles| && OfHeredoc(roles[i]) ==> lo <= roles[i].k < hi
  }

  /** Here-documents take lines one after the other, each up to its delimiter. */
  ghost predicate OneByOne(roles: seq<Role>) {
    forall i, j :: 0 <= i < j < |roles| && OfHeredoc(roles[i]) && OfHeredoc(roles[j]) ==>
      if roles[i].End? then roles[i].k < roles[j].k else roles[i].k <= roles[j].k
  }

  /** Delimiter lines are exactly the delimiters; a body line never is. */
  ghost predicate RightEnds(lines: seq<string>, roles: seq<Role>, k: nat, hds: seq<Hd>)
    requires |roles| <= |lines|
  {
    && Between(roles, k, k + |hds|)
    && forall i {:trigger roles[i]} :: 0 <= i < |roles| && OfHeredoc(roles[i]) ==>
         (roles[i].End? <==> Stripped(lines[i], hds[roles[i].k - k]) == hds[roles[i].k - k].delim)
  }

  ghost predicate BodiesAre(bodies: seq<string>, lines: seq<string>, roles: seq<Role>, k: nat, hds: seq<Hd>)
    requires |roles| <= |lines|
  {
    |bodies| == |hds| && forall j :: 0 <= j < |hds| ==> bodies[j] == BodyText(lines, roles, k + j, hds[j])
  }

  /** Every here-document met its delimiter. */
  ghost predicate AllEnded(roles: seq<Role>, k: nat, n: nat) {
    forall j :: k <= j < k + n ==> End(j) in roles
  }

  // --------------------------------------------------------- here-documents

  lemma {:induction false} BodyTextAppend(lines: seq<string>, a: seq<Role>, b: seq<Role>, k: nat, hd: Hd)
    requires |a| + |b| <= |lines|
    ensures BodyText(lines, a + b, k, hd) == BodyText(lines, a, k, hd) + BodyText(lines[|a|..], b, k, hd)
    decreases |a|
  {
    if a == [] {
      assert a + b == b && lines[0..] == lines;
    } else {
      assert (a + b)[1..] == a[1..] + b && lines[1..][|a| - 1..] == lines[|a|..];
      BodyTextAppend(lines[1..], a[1..], b, k, hd);
    }
  }

  lemma {:induction false} BodyTextNone(lines: seq<string>, roles: seq<Role>, k: nat, hd: Hd)
    requires |roles| <= |lines| && Body(k) !in roles
    ensures BodyText(lines, roles, k, hd) == ""
    decreases |roles|
  {
    if roles != [] {
      BodyTextNone(lines[1..], roles[1..], k, hd);
    }
  }

  lemma {:induction false} CollectRoutes(lines: seq<string>, hd: Hd, k: nat)
    ensures var (body, roles) := Collect(lines, hd, k);
            && body == BodyText(lines, roles, k, hd)
            && RightEnds(lines, roles, k, [hd])
            && OneByOne(roles)
            && (forall i :: 0 <= i < |roles| ==> OfHeredoc(roles[i]))
            && (|roles| < |lines| ==> AllEnded(roles, k, 1))
    decreases |lines|
  {
    if lines == [] {
    } else if Stripped(lines[0], hd) != hd.delim {
      hide Stripped, RightEnds, OneByOne;
      var (body, roles) := Collect(lines[1..], hd, k);
      CollectRoutes(lines[1..], hd, k);
      Drop1(Body(k), roles);
      OneBodyLine(lines, roles, k, hd);
      assert |roles| < |lines[1..]| ==> End(k) in roles;
    } else {
      hide Stripped;
      assert BodyText(lines[1..], [], k, hd) == "";
    }
  }

  lemma OneBodyLine(lines: seq<string>, roles: seq<Role>, k: nat, hd: Hd)
    requires |roles| < |lines| && Stripped(lines[0], hd) != hd.delim
    requires RightEnds(lines[1..], roles, k, [hd]) && OneByOne(roles)
    ensures RightEnds(lines, [Body(k)] + roles, k, [hd]) && OneByOne([Body(k)] + roles)
  {
    hide Stripped;
    RightEndsJoin(lines, [Body(k)], roles, k, [hd]);
  }

  lemma CollectBodies(lines: seq<string>, hd: Hd, k: nat)
    ensures var (body, roles) := Collect(lines, hd, k);
            && BodiesAre([body], lines, roles, k, [hd])
            && RightEnds(lines, roles, k, [hd])
            && OneByOne(roles)
            && (forall i :: 0 <= i < |roles| ==> OfHeredoc(roles[i]))
            && (|roles| < |lines| ==> AllEnded(roles, k, 1))
  {
    hide Collect, BodyText, RightEnds, OneByOne;
    CollectRoutes(lines, hd, k);
  }

  lemma RightEndsJoin(lines: seq<string>, a: seq<Role>, b: seq<Role>, k: nat, hds: seq<Hd>)
    requires |a| + |b| <= |lines| && RightEnds(lines, a, k, hds) && RightEnds(lines[|a|..], b, k, hds)
    ensures RightEnds(lines, a + b, k, hds)
  {
    hide Stripped;
    forall i | 0 <= i < |a + b| && OfHeredoc((a + b)[i])
      ensures (a + b)[i].End? <==> Stripped(lines[i], hds[(a + b)[i].k - k]) == hds[(a + b)[i].k - k].delim
    {
      if i >= |a| {
        assert lines[|a|..][i - |a|] == lines[i] && (a + b)[i] == b[i - |a|];
      }
    }
  }

  /** Routing for here-documents `xs` followed by routing for `ys`. */
  lemma RouteAppend(lines: seq<string>, a: seq<Role>, b: seq<Role>, k: nat, xs: seq<Hd>, ys: seq<Hd>, p: seq<string>,
                    q: seq<string>)
    requires |a| + |b| <= |lines|
    requires RightEnds(lines, a, k, xs) && BodiesAre(p, lines, a, k, xs) && OneByOne(a)
    requires RightEnds(lines[|a|..], b, k + |xs|, ys) && BodiesAre(q, lines[|a|..], b, k + |xs|, ys) && OneByOne(b)
    ensures RightEnds(lines, a + b, k, xs + ys)
    ensures BodiesAre(p + q, lines, a + b, k, xs + ys)
    ensures OneByOne(a + b)
  {
    hide Stripped, BodyText;
    RightEndsMore(lines, a, k, xs, ys);
    RightEndsLess(lines[|a|..], b, k, xs, ys);
    RightEndsJoin(lines, a, b, k, xs + ys);
    forall j | 0 <= j < |xs + ys| ensures (p + q)[j] == BodyText(lines, a + b, k + j, (xs + ys)[j]) {
      BodyTextAppend(lines, a, b, k + j, (xs + ys)[j]);
      if j < |xs| {
        BodyTextNone(lines[|a|..], b, k + j, xs[j]);
      } else {
        BodyTextNone(lines, a, k + j, ys[j - |xs|]);
        assert q[j - |xs|] == BodyText(lines[|a|..], b, k + |xs| + (j - |xs|), ys[j - |xs|]);
      }
    }
  }

  lemma RightEndsMore(lines: seq<string>, a: seq<Role>, k: nat, xs: seq<Hd>, ys: seq<Hd>)
    requires |a| <= |lines| && RightEnds(lines, a, k, xs)
    ensures RightEnds(lines, a, k, xs + ys)
  {
    hide Stripped;
    forall i | 0 <= i < |a| && OfHeredoc(a[i]) ensures (xs + ys)[a[i].k - k] == xs[a[i].k - k] {
    }
  }

  lemma RightEndsLess(lines: seq<string>, b: seq<Role>, k: nat, xs: seq<Hd>, ys: seq<Hd>)
    requires |b| <= |lines| && RightEnds(lines, b, k + |xs|, ys)
    ensures RightEnds(lines, b, k, xs + ys)
  {
    hide Stripped;
    forall i | 0 <= i < |b| && OfHeredoc(b[i]) ensures (xs + ys)[b[i].k - k] == ys[b[i].k - (k + |xs|)] {
    }
  }

  lemma {:induction false} DrainRoutes(lines: seq<string>, hds: seq<Hd>, k: nat)
    ensures var (bodies, roles) := Drain(lines, hds, k);
            && BodiesAre(bodies, lines, roles, k, hds)
            && RightEnds(lines, roles, k, hds)
            && OneByOne(roles)
            && (forall i :: 0 <= i < |roles| ==> OfHeredoc(roles[i]))
            && (|roles| < |lines| ==> AllEnded(roles, k, |hds|))
    decreases |hds|
  {
    if hds == [] {
      DrainNone(lines, k);
    } else {
      hide Stripped, BodyText, OneByOne, RightEnds, BodiesAre, AllEnded, Collect;
      var (body, roles) := Collect(lines, hds[0], k);
      var (bodies, roles') := Drain(lines[|roles|..], hds[1..], k + 1);
      CollectBodies(lines, hds[0], k);
      DrainRoutes(lines[|roles|..], hds[1..], k + 1);
      RouteAppend(lines, roles, roles', k, [hds[0]], hds[1..], [body], bodies);
      assert [hds[0]] + hds[1..] == hds;
      if |roles + roles'| < |lines| {
        AllEndedJoin(roles, roles', k, 1, |hds| - 1);
      }
    }
  }

  lemma DrainNone(lines: seq<string>, k: nat)
    ensures BodiesAre([], lines, [], k, []) && RightEnds(lines, [], k, []) && OneByOne([]) && AllEnded([], k, 0)
  {
  }

  lemma AllEndedJoin(a: seq<Role>, b: seq<Role>, k: nat, m: nat, n: nat)
    requires AllEnded(a, k, m) && AllEnded(b, k + m, n)
    ensures AllEnded(a + b, k, m + n)
  {
  }

  // ------------------------------------------------------------ conservation

  lemma {:induction false} AssembleSkips(line: string, lines: seq<string>, a: seq<Role>, b: seq<Role>)
    requires |a| + |b| <= |lines| && forall i :: 0 <= i < |a| ==> OfHeredoc(a[i])
    ensures Assemble(line, lines, a + b) == Assemble(line, lines[|a|..], b)
    decreases |a|
  {
    if a == [] {
      assert a + b == b && lines[0..] == lines;
    } else {
      assert (a + b)[1..] == a[1..] + b && lines[1..][|a| - 1..] == lines[|a|..];
      AssembleSkips(line, lines[1..], a[1..], b);
    }
  }

  /** Each line used has one role and is found, in order, where it says. */
  ghost predicate Conserves(line: string, lines: seq<string>, k: nat, o: Outcome) {
    && |o.roles| <= |lines| && o.rest == lines[|o.roles|..]
    && o.text == (if o.ctx.bs then StripBs(Assemble(line, lines, o.roles)) else Assemble(line, lines, o.roles))
    && BodiesAre(o.bodies, lines, o.roles, k, o.hds)
    && RightEnds(lines, o.roles, k, o.hds)
    && OneByOne(o.roles)
    && (o.rest != [] ==> !Needs(o.ctx) && AllEnded(o.roles, k, |o.hds|))
  }

  /** Adding in front a line that goes to the command. */
  lemma CommandLine(role: Role, line: string, line': string, lines: seq<string>, k: nat, o: Outcome)
    requires lines != [] && Conserves(line', lines[1..], k, o)
    requires (role == Joined && line' == line + "\n" + lines[0]) || (role == Glued && line' == StripBs(line) + lines[0])
    ensures Conserves(line, lines, k, o.(roles := [role] + o.roles))
  {
    hide BodyText, BodiesAre, RightEnds, OneByOne, Needs, StripBs;
    Drop1(role, o.roles);
    assert lines[1..][|o.roles|..] == lines[|o.roles| + 1..];
    RouteCommand(role, lines, k, o);
    assert AllEnded([], k, 0);
    if o.rest != [] {
      AllEndedJoin([role], o.roles, k, 0, |o.hds|);
    }
  }

  lemma RouteCommand(role: Role, lines: seq<string>, k: nat, o: Outcome)
    requires lines != [] && !OfHeredoc(role) && |o.roles| < |lines|
    requires BodiesAre(o.bodies, lines[1..], o.roles, k, o.hds) && RightEnds(lines[1..], o.roles, k, o.hds)
        && OneByOne(o.roles)
    ensures BodiesAre(o.bodies, lines, [role] + o.roles, k, o.hds) && RightEnds(lines, [role] + o.roles, k, o.hds)
    ensures OneByOne([role] + o.roles)
  {
    hide BodyText, Stripped;
    RouteAppend(lines, [role], o.roles, k, [], o.hds, [], o.bodies);
    assert [] + o.bodies == o.bodies && [] + o.hds == o.hds;
  }

  /** Adding in front the lines of waiting here-documents. */
  lemma HeredocLines(line: string, lines: seq<string>, hds: seq<Hd>, k: nat, o: Outcome)
    requires var (bodies, roles) := Drain(lines, hds, k);
             Conserves(line, lines[|roles|..], k + |hds|, o)
    ensures var (bodies, roles) := Drain(lines, hds, k);
            Conserves(line, lines, k, o.(bodies := bodies + o.bodies, roles := roles + o.roles, hds := hds + o.hds))
  {
    hide BodyText, BodiesAre, RightEnds, OneByOne, Needs, StripBs, Drain, Assemble;
    var (bodies, roles) := Drain(lines, hds, k);
    DrainRoutes(lines, hds, k);
    RouteAppend(lines, roles, o.roles, k, hds, o.hds, bodies, o.bodies);
    AssembleSkips(line, lines, roles, o.roles);
    assert lines[|roles|..][|o.roles|..] == lines[|roles| + |o.roles|..];
    if o.rest != [] {
      AllEndedJoin(roles, o.roles, k, |hds|, |o.hds|);
    }
  }

  lemma {:induction false} LogicalConserves(line: string, c: Ctx, lines: seq<string>, k: nat)
    ensures Conserves(line, lines, k, Logical(line, c, lines, k))
    decreases |lines|, |c.pending|
  {
    hide Conserves, ScanLine, Drain, StripBs;
    if !Needs(c) || (lines == [] && (c.bs || c.pending == [])) {
      NothingRead(line, c, lines, k);
    } else if c.bs {
      var glued := StripBs(line) + lines[0];
      LogicalConserves(glued, ScanLine(glued, START), lines[1..], k);
      CommandLine(Glued, line, glued, lines, k, Logical(glued, ScanLine(glued, START), lines[1..], k));
    } else if c.pending != [] {
      var (bodies, roles) := Drain(lines, c.pending, k);
      LogicalConserves(line, c.(pending := []), lines[|roles|..], k + |bodies|);
      HeredocLines(line, lines, c.pending, k, Logical(line, c.(pending := []), lines[|roles|..], k + |bodies|));
    } else {
      var joined := line + "\n" + lines[0];
      LogicalConserves(joined, ScanLine(lines[0], c), lines[1..], k);
      CommandLine(Joined, line, joined, lines, k, Logical(joined, ScanLine(lines[0], c), lines[1..], k));
    }
  }

  lemma NothingRead(line: string, c: Ctx, lines: seq<string>, k: nat)
    requires !Needs(c) || (lines == [] && (c.bs || c.pending == []))
    ensures Conserves(line, lines, k, Logical(line, c, lines, k))
  {
    hide BodyText, StripBs;
    assert lines[0..] == lines;
  }

  /** Main result, for every stream of lines: each line the reader uses goes to
      exactly one place, in order, and it stops at the end of input or with
      nothing open and every here-document ended. */
  lemma ReadConserves(lines: seq<string>)
    requires lines != []
    ensures Conserves(lines[0], lines[1..], 0, ReadLogical(lines).value)
  {
    hide Logical, Conserves;
    LogicalConserves(lines[0], ScanLine(lines[0], START), lines[1..], 0);
  }

  // ------------------------------------------ one body for each operator

  /** The lines joined to the command, in order. */
  function JoinedLines(lines: seq<string>, roles: seq<Role>): seq<string>
    requires |roles| <= |lines|
    decreases |roles|
  {
    if roles == [] then []
    else (if roles[0] == Joined then [lines[0]] else []) + JoinedLines(lines[1..], roles[1..])
  }

  /** `line` with the next `g` lines glued to it. */
  function GluedText(line: string, lines: seq<string>, g: nat): string
    requires g <= |lines|
    decreases g
  {
    if g == 0 then line else GluedText(StripBs(line) + lines[0], lines[1..], g - 1)
  }

  function Lines(first: string, more: seq<string>): string
    decreases |more|
  {
    if more == [] then first else Lines(first + "\n" + more[0], more[1..])
  }

  /** The here-document operators of command lines, read once each. */
  function Operators(command: seq<string>, c: Ctx): seq<Hd>
    decreases |command|
  {
    if command == [] then []
    else
      var c' := ScanLine(command[0], c.(pending := []));
      c'.pending + Operators(command[1..], c')
  }

  lemma {:induction false} JoinedAfter(lines: seq<string>, a: seq<Role>, b: seq<Role>)
    requires |a| + |b| <= |lines| && forall i :: 0 <= i < |a| ==> OfHeredoc(a[i])
    ensures JoinedLines(lines, a + b) == JoinedLines(lines[|a|..], b)
    decreases |a|
  {
    if a == [] {
      assert a + b == b && lines[0..] == lines;
    } else {
      assert (a + b)[1..] == a[1..] + b && lines[1..][|a| - 1..] == lines[|a|..];
      JoinedAfter(lines[1..], a[1..], b);
    }
  }

  lemma OperatorsPending(command: seq<string>, c: Ctx)
    ensures Operators(command, c) == Operators(command, c.(pending := []))
  {
  }

  /** The text is the lines joined, and bodies were read for exactly the
      operators in them. */
  ghost predicate Plain(line: string, c: Ctx, lines: seq<string>, o: Outcome) {
    && |o.roles| <= |lines|
    && o.text == Lines(line, JoinedLines(lines, o.roles))
    && o.hds == c.pending + Operators(JoinedLines(lines, o.roles), c)
  }

  lemma PlainJoin(line: string, c: Ctx, lines: seq<string>, o: Outcome)
    requires lines != [] && c.pending == [] && Plain(line + "\n" + lines[0], ScanLine(lines[0], c), lines[1..], o)
    ensures Plain(line, c, lines, o.(roles := [Joined] + o.roles))
  {
    hide ScanLine;
    Drop1(Joined, o.roles);
    Drop1(lines[0], JoinedLines(lines[1..], o.roles));
  }

  lemma PlainDrain(line: string, c: Ctx, lines: seq<string>, k: nat, o: Outcome)
    requires var (bodies, roles) := Drain(lines, c.pending, k);
             Plain(line, c.(pending := []), lines[|roles|..], o)
    ensures var (bodies, roles) := Drain(lines, c.pending, k);
            Plain(line, c, lines, o.(bodies := bodies + o.bodies, roles := roles + o.roles, hds := c.pending + o.hds))
  {
    hide ScanLine, Drain, Lines, Operators, JoinedLines;
    var (bodies, roles) := Drain(lines, c.pending, k);
    DrainRoutes(lines, c.pending, k);
    JoinedAfter(lines, roles, o.roles);
    OperatorsPending(JoinedLines(lines, roles + o.roles), c);
  }

  /** Without glued lines every reading is plain. */
  lemma {:induction false} NoGlue(line: string, c: Ctx, lines: seq<string>, k: nat)
    requires var o := Logical(line, c, lines, k); Glued !in o.roles && !o.ctx.bs
    ensures Plain(line, c, lines, Logical(line, c, lines, k))
    decreases |lines|, |c.pending|
  {
    hide ScanLine, Drain, StripBs, Plain;
    if Needs(c) && !c.bs && c.pending != [] {
      hide Logical, Needs;
      var (bodies, roles) := Drain(lines, c.pending, k);
      LogicalDrains(line, c, lines, k);
      NoGlue(line, c.(pending := []), lines[|roles|..], k + |bodies|);
      PlainDrain(line, c, lines, k, Logical(line, c.(pending := []), lines[|roles|..], k + |bodies|));
    } else if Needs(c) && !c.bs && lines != [] {
      hide Logical, Needs;
      LogicalJoins(line, c, lines, k);
      NoGlue(line + "\n" + lines[0], ScanLine(lines[0], c), lines[1..], k);
      PlainJoin(line, c, lines, Logical(line + "\n" + lines[0], ScanLine(lines[0], c), lines[1..], k));
    } else if !c.bs {
      PlainNone(line, c, lines);
    }
  }

  lemma PlainNone(line: string, c: Ctx, lines: seq<string>)
    requires c.pending == []
    ensures forall rest :: Plain(line, c, lines, Outcome(line, [], [], [], c, rest))
  {
  }

  /** When lines are glued only before any other line is used: one body for
      each here-document operator of the command's lines, in order. */
  lemma {:induction false} GlueFirst(line: string, c: Ctx, lines: seq<string>, k: nat, g: nat)
    requires var o := Logical(line, c, lines, k);
             && g <= |o.roles| <= |lines| && !o.ctx.bs
             && (forall i :: 0 <= i < g ==> o.roles[i] == Glued) && Glued !in o.roles[g..]
    requires c == ScanLine(line, START)
    ensures var o := Logical(line, c, lines, k);
            var joined := JoinedLines(lines[g..], o.roles[g..]);
            var first := GluedText(line, lines, g);
            o.text == Lines(first, joined) && o.hds == Operators([first] + joined, START)
    decreases g
  {
    hide ScanLine, Drain, StripBs;
    var o := Logical(line, c, lines, k);
    if g == 0 {
      assert lines[0..] == lines && o.roles[0..] == o.roles;
      NoGlue(line, c, lines, k);
      Drop1(line, JoinedLines(lines, o.roles));
    } else {
      assert o.roles[0] == Glued;
      FirstGlued(line, c, lines, k);
      var glued := StripBs(line) + lines[0];
      var o' := Logical(glued, ScanLine(glued, START), lines[1..], k);
      Drop1(Glued, o'.roles);
      assert o.roles[g..] == o'.roles[g - 1..] && lines[g..] == lines[1..][g - 1..];
      assert forall i :: 0 <= i < g - 1 ==> o'.roles[i] == o.roles[i + 1];
      GlueFirst(glued, ScanLine(glued, START), lines[1..], k, g - 1);
    }
  }

  lemma FirstGlued(line: string, c: Ctx, lines: seq<string>, k: nat)
    requires var o := Logical(line, c, lines, k); o.roles != [] && o.roles[0] == Glued
    ensures c.bs && lines != []
  {
    hide ScanLine, Drain, StripBs;
    if !c.bs && c.pending != [] {
      var (bodies, roles) := Drain(lines, c.pending, k);
      DrainRoutes(lines, c.pending, k);
      if roles == [] {
        DrainTakes(lines, c.pending, k);
      }
    }
  }

  lemma DrainTakes(lines: seq<string>, hds: seq<Hd>, k: nat)
    requires hds != []
    ensures lines == [] <==> Drain(lines, hds, k).1 == []
  {
  }

  /** Main result: a reading whose glued lines all come first. */
  lemma OperatorsServed(lines: seq<string>, g: nat)
    requires lines != []
    requires var o := ReadLogical(lines).value;
             && g <= |o.roles| && !o.ctx.bs
             && (forall i :: 0 <= i < g ==> o.roles[i] == Glued) && Glued !in o.roles[g..]
    ensures var o := ReadLogical(lines).value;
            && |o.roles| < |lines|
            && var joined := JoinedLines(lines[1..][g..], o.roles[g..]);
               var first := GluedText(lines[0], lines[1..], g);
               o.text == Lines(first, joined) && o.hds == Operators([first] + joined, START)
  {
    hide Logical, Conserves;
    var o := ReadLogical(lines).value;
    ReadConserves(lines);
    assert |o.roles| <= |lines[1..]| by { ConservesLength(lines[0], lines[1..], 0, o); }
    GlueFirst(lines[0], ScanLine(lines[0], START), lines[1..], 0, g);
  }

  lemma ConservesLength(line: string, lines: seq<string>, k: nat, o: Outcome)
    requires Conserves(line, lines, k, o)
    ensures |o.roles| <= |lines|
  {
  }

  // ------------------------------------------------------------ a witness

  lemma OpensHeredoc(t: string, n: nat)
    requires t != "" && t[0] == 'A' && DelimLen(t) == n > 0
    ensures ScanLine("(" + ("<<" + t), START) == Scan(t[n..], Ctx(false, false, 1, false, [Hd(t[..n], false)]))
  {
    hide Scan, HdOp, DelimLen;
    var s := "<<" + t;
    Drop1('(', s);
    ScanParen("(" + s, START);
    Drop2('<', '<', t);
    HdOpAt(t, n);
    ScanOperator(s, START.(depth := 1));
    assert s[2 + n..] == t[n..];
    assert [] + [Hd(t[..n], false)] == [Hd(t[..n], false)];
  }

  lemma HdOpAt(t: string, n: nat)
    requires t != "" && t[0] == 'A' && DelimLen(t) == n > 0
    ensures HdOp("<<" + t) == (Some(Hd(t[..n], false)), 2 + n)
  {
    hide DelimLen;
    assert ("<<" + t)[2..] == t && At("<<" + t, 2) == 'A';
    assert SkipBlanks(t) == 0 && t[0..] == t;
  }

  lemma ScanParen(s: string, c: Ctx)
    requires s != "" && s[0] == '(' && !c.sq && !c.dq
    ensures Scan(s, c) == Scan(s[1..], c.(depth := c.depth + 1))
  {
  }

  lemma ScanOperator(s: string, c: Ctx)
    requires |s| > 1 && s[0] == '<' && s[1] == '<' && !c.sq && !c.dq
    ensures HdOp(s).0.Some? ==> Scan(s, c) == Scan(s[HdOp(s).1..], c.(pending := c.pending + [HdOp(s).0.value]))
  {
    hide HdOp;
  }

  lemma FirstScan()
    ensures ScanLine("(<<A", START) == Ctx(false, false, 1, false, [Hd("A", false)])
  {
    hide Scan;
    assert "(" + ("<<" + "A") == "(<<A" && "A"[..1] == "A" && "A"[1..] == "";
    assert DelimLen("A") == 1;
    OpensHeredoc("A", 1);
    ScanNothing(Ctx(false, false, 1, false, [Hd("A", false)]));
  }

  lemma ScanNothing(c: Ctx)
    ensures Scan("", c) == c
  {
  }

  lemma SecondScan()
    ensures ScanLine("(<<A\n)", START) == Ctx(false, false, 0, false, [Hd("A\n", false)])
  {
    var t := "A\n)";
    assert "(" + ("<<" + t) == "(<<A\n)";
    assert t[1..] == "\n)" && t[1..][1..] == ")" && t[..2] == "A\n" && t[2..] == ")";
    assert DelimLen(t) == 2;
    OpensHeredoc(t, 2);
    var c := Ctx(false, false, 1, false, [Hd("A\n", false)]);
    assert Scan(")", c) == c.(depth := 0);
  }

  /** A glued line after a here-document: scanning afresh finds the operator
      again, with the newline in its delimiter, and a second body swallows the
      command on the next line. */
  lemma GlueReadsAgain()
    ensures var o := ReadLogical(["(<<A", "A", "\\", ")", "ls"]).value;
            && o.text == "(<<A\n)"
            && o.hds == [Hd("A", false), Hd("A\n", false)]
            && o.bodies == ["", "ls\n"]
            && o.rest == []
  {
    hide Logical, ScanLine, Drain;
    assert [Hd("A", false)] + [Hd("A\n", false)] == [Hd("A", false), Hd("A\n", false)];
    assert [""] + ["ls\n"] == ["", "ls\n"];
    var lines := ["(<<A", "A", "\\", ")", "ls"];
    assert lines[1..] == ["A"] + ["\\", ")", "ls"];
    FirstScan();
    FirstDrain(["A"] + ["\\", ")", "ls"]);
    AfterFirst();
    LogicalDrains("(<<A", Ctx(false, false, 1, false, [Hd("A", false)]), ["A"] + ["\\", ")", "ls"], 0);
    assert (["A"] + ["\\", ")", "ls"])[1..] == ["\\", ")", "ls"];
  }

  lemma LogicalJoins(line: string, c: Ctx, lines: seq<string>, k: nat)
    requires Needs(c) && !c.bs && c.pending == [] && lines != []
    ensures var o := Logical(line + "\n" + lines[0], ScanLine(lines[0], c), lines[1..], k);
            Logical(line, c, lines, k) == o.(roles := [Joined] + o.roles)
  {
    hide ScanLine;
  }

  lemma LogicalDrains(line: string, c: Ctx, lines: seq<string>, k: nat)
    requires !c.bs && c.pending != []
    ensures var (bodies, roles) := Drain(lines, c.pending, k);
            var o := Logical(line, c.(pending := []), lines[|roles|..], k + |bodies|);
            Logical(line, c, lines, k)
              == o.(bodies := bodies + o.bodies, roles := roles + o.roles, hds := c.pending + o.hds)
  {
    hide Drain;
  }

  lemma AfterFirst()
    ensures var o := Logical("(<<A", Ctx(false, false, 1, false, []), ["\\", ")", "ls"], 1);
            o.text == "(<<A\n)" && o.hds == [Hd("A\n", false)] && o.bodies == ["ls\n"] && o.rest == []
  {
    hide Scan, ScanLine, Drain;
    var c := Ctx(false, false, 1, false, []);
    var lines := ["\\", ")", "ls"];
    assert lines[1..] == [")", "ls"] && [")", "ls"][1..] == ["ls"];
    assert "(<<A" + "\n" + lines[0] == "(<<A\n\\";
    assert "(<<A\n\\"[..5] == "(<<A\n" && "(<<A\n" + ")" == "(<<A\n)";
    BackslashScan(c);
    SecondScan();
    AfterGlue();
  }

  lemma AfterGlue()
    ensures var o := Logical("(<<A\n)", Ctx(false, false, 0, false, [Hd("A\n", false)]), ["ls"], 1);
            o.text == "(<<A\n)" && o.hds == [Hd("A\n", false)] && o.bodies == ["ls\n"] && o.rest == []
  {
    hide Scan, ScanLine, Drain;
    LastDrain();
    assert ["ls"][1..] == [];
  }

  lemma BackslashScan(c: Ctx)
    requires !c.sq && !c.bs
    ensures ScanLine("\\", c) == c.(bs := true)
  {
  }

  lemma FirstDrain(lines: seq<string>)
    requires lines != [] && lines[0] == "A"
    ensures Drain(lines, [Hd("A", false)], 0) == ([""], [End(0)])
  {
    var hd := Hd("A", false);
    assert Collect(lines, hd, 0) == ("", [End(0)]);
    assert [hd][1..] == [] && Drain(lines[1..], [], 1) == ([], []);
    assert [""] + [] == [""] && [End(0)] + [] == [End(0)];
  }

  lemma LastDrain()
    ensures Drain(["ls"], [Hd("A\n", false)], 1) == (["ls\n"], [Body(1)])
  {
    var hd := Hd("A\n", false);
    assert ["ls"][1..] == [] && Collect([], hd, 1) == ("", []);
    assert Stripped("ls", hd) == "ls" && "ls"[0] != hd.delim[0];
    assert "ls" + "\n" + "" == "ls\n" && [Body(1)] + [] == [Body(1)];
    assert Collect(["ls"], hd, 1) == ("ls\n", [Body(1)]);
    assert [hd][1..] == [] && Drain([], [], 2) == ([], []);
    assert ["ls\n"] + [] == ["ls\n"];
  }
}
