/** Where the tokens of the input end up after alias expansion: redirect targets
    and arguments stay in place, exactly as far as the scan lets them. */
module AliasPlaces {
  import opened Tokens
  import opened LexerSpec
  import opened SeqFacts
  import opened AliasSpec

  // ------------------------------------------------------ the scan so far

  /** The scan's state after expanding all of `xs`. */
  function After(table: Table, xs: seq<Src>, s: Pos): Pos
    decreases BUDGET - s.budget, |xs|
  {
    if xs == [] then s
    else if Expands(xs[0].tok, table, s) then
      var name := xs[0].tok.value;
      After(table, Spliced(Body(table, name)) + xs[1..], Take(name, s))
    else After(table, xs[1..], Pass(xs[0].tok, s))
  }

  lemma AfterTurn(table: Table, xs: seq<Src>, s: Pos)
    requires xs != []
    ensures var t := xs[0].tok;
            After(table, xs, s) == if Expands(t, table, s)
                                   then After(table, Spliced(Body(table, t.value)) + xs[1..], Take(t.value, s))
                                   else After(table, xs[1..], Pass(t, s))
    ensures Expands(xs[0].tok, table, s) ==>
      s.budget < BUDGET && xs[0].tok.value in table && Take(xs[0].tok.value, s).budget == s.budget + 1
    ensures Pass(xs[0].tok, s).budget == s.budget
  {
  }

  /** Expansion works from left to right: a list is expanded after its front. */
  lemma {:induction false} ExpandAppend(table: Table, xs: seq<Src>, ys: seq<Src>, s: Pos)
    ensures Expand(table, xs + ys, s) == Expand(table, xs, s) + Expand(table, ys, After(table, xs, s))
    decreases BUDGET - s.budget, |xs|
  {
    hide Expand, After, Expands, Take, Pass, Body, Spliced;
    if xs == [] {
      assert xs + ys == ys;
      ExpandNone(table, s);
      assert [] + Expand(table, ys, s) == Expand(table, ys, s);
    } else {
      var t := xs[0].tok;
      assert (xs + ys)[0] == xs[0] && (xs + ys)[1..] == xs[1..] + ys;
      ExpandTurn(table, xs, s);
      ExpandTurn(table, xs + ys, s);
      AfterTurn(table, xs, s);
      if Expands(t, table, s) {
        var body := Spliced(Body(table, t.value));
        Assoc(body, xs[1..], ys);
        ExpandAppend(table, body + xs[1..], ys, Take(t.value, s));
      } else {
        ExpandAppend(table, xs[1..], ys, Pass(t, s));
        Assoc([xs[0]], Expand(table, xs[1..], Pass(t, s)), Expand(table, ys, After(table, xs, s)));
      }
    }
  }

  lemma ExpandNone(table: Table, s: Pos)
    ensures Expand(table, [], s) == [] && After(table, [], s) == s
  {
  }

  // ---------------------------------------------------- redirect targets

  /** The target of every redirection stays right after its operator, whatever
      it names, in every list and from every state. */
  lemma TargetsStay(table: Table, xs: seq<Src>, s: Pos, i: nat)
    requires i + 1 < |xs| && IsRedir(xs[i].tok.kind) && xs[i + 1].tok.kind == Word
    ensures var k := |Expand(table, xs[..i], s)|;
            var out := Expand(table, xs, s);
            k + 1 < |out| && out[k] == xs[i] && out[k + 1] == xs[i + 1]
  {
    hide Expand, After, Body, Spliced, IsPlainWord;
    var p := After(table, xs[..i], s);
    assert xs == xs[..i] + xs[i..];
    ExpandAppend(table, xs[..i], xs[i..], s);
    assert xs[i..] == [xs[i], xs[i + 1]] + xs[i + 2..];
    RedirKinds(xs[i].tok.kind);
    TargetsAndArgumentsStay(table, xs[i].tok, xs[i + 1].tok, xs[i + 2..], xs[i].from, xs[i + 1].from, p);
  }

  // ---------------------------------------------------------- any token

  /** A token of the input is in the output, at its own place between what its
      front and what its rest expand to, if and only if the scan does not
      expand it there. */
  lemma StaysExactly(table: Table, ts: seq<Token>, i: nat)
    requires i < |ts|
    ensures var xs := Tag(ts);
            var p := After(table, xs[..i], FIRST);
            var out := Expand(table, xs, FIRST);
            var front := Expand(table, xs[..i], FIRST);
            && (!Expands(ts[i], table, p) ==>
                  out == front + [xs[i]] + Expand(table, xs[i + 1..], Pass(ts[i], p)))
            && (xs[i] in out <==> !Expands(ts[i], table, p))
  {
    hide Expand, After, Expands, Pass, Body, Spliced;
    var xs := Tag(ts);
    var p := After(table, xs[..i], FIRST);
    var front := Expand(table, xs[..i], FIRST);
    assert xs == xs[..i] + xs[i..];
    ExpandAppend(table, xs[..i], xs[i..], FIRST);
    assert xs[i..][0] == xs[i] && xs[i..][1..] == xs[i + 1..];
    ExpandTurn(table, xs[i..], p);
    AfterTurn(table, xs[i..], p);
    if !Expands(ts[i], table, p) {
      Assoc(front, [xs[i]], Expand(table, xs[i + 1..], Pass(ts[i], p)));
      assert xs[i] == (front + [xs[i]])[|front|];
    } else {
      var body := Spliced(Body(table, ts[i].value));
      if xs[i] in Expand(table, xs, FIRST) {
        if xs[i] in front {
          MarksTrue(table, xs[..i], FIRST, xs[i]);
          assert xs[i] in xs[..i];
        } else {
          MarksTrue(table, body + xs[i + 1..], Take(ts[i].value, p), xs[i]);
          NotSpliced(Body(table, ts[i].value), xs[i + 1..], xs[i]);
        }
        NotTwice(ts, i);
        assert false;
      }
    }
  }

  lemma NotSpliced(body: seq<Token>, xs: seq<Src>, x: Src)
    requires x in Spliced(body) + xs && x.from.Some?
    ensures x in xs
  {
  }

  lemma NotTwice(ts: seq<Token>, i: nat)
    requires i < |ts|
    ensures Tag(ts)[i] !in Tag(ts)[..i] && Tag(ts)[i] !in Tag(ts)[i + 1..]
  {
  }

  // ----------------------------------------------------------- arguments

  /** What the scan knows of the next word: it is a command's name, or the
      target of a redirection. */
  datatype Place = Place(cmdPos: bool, target: bool)

  function PlaceOf(s: Pos): Place {
    Place(s.cmdPos, s.target)
  }

  /** The place after a token that stays. */
  function Next(t: Token, p: Place): Place {
    if t.kind == Word && p.target then p.(target := false)
    else if t.kind == Word && p.cmdPos then p.(cmdPos := false)
    else if IsRedir(t.kind) then p.(target := true)
    else if StartsCommand(t.kind) then p.(cmdPos := true)
    else if t.kind == RParen then p.(cmdPos := false)
    else p
  }

  /** The place after tokens as they are written. */
  function Reading(ts: seq<Token>, p: Place): Place {
    if ts == [] then p else Reading(ts[1..], Next(ts[0], p))
  }

  const COMMAND := Place(true, false)
  const ARGUMENT := Place(false, false)

  /** The text of an alias ends inside a command whose name it gave: it is not
      empty, and ends neither in an operator that starts a command nor in a
      redirection, nor is it redirections only. */
  predicate Settles(body: seq<Token>) {
    Reading(body, COMMAND) == ARGUMENT
  }

  ghost predicate AllSettle(table: Table) {
    forall name :: name in table && IsPlainWord(name) ==> Settles(Body(table, name))
  }

  lemma {:induction false} ReadingAppend(a: seq<Token>, b: seq<Token>, p: Place)
    ensures Reading(a + b, p) == Reading(b, Reading(a, p))
  {
    hide Next;
    if a == [] {
      assert a + b == b;
    } else {
      assert (a + b)[1..] == a[1..] + b;
      ReadingAppend(a[1..], b, Next(a[0], p));
    }
  }

  lemma PassIsNext(t: Token, s: Pos)
    ensures PlaceOf(Pass(t, s)) == Next(t, PlaceOf(s))
  {
  }

  lemma ExpandsAtCommand(t: Token, table: Table, s: Pos)
    requires Expands(t, table, s)
    ensures t.value in table && IsPlainWord(t.value) && PlaceOf(s) == COMMAND && Next(t, PlaceOf(s)) == ARGUMENT
        && PlaceOf(Take(t.value, s)) == COMMAND
  {
  }

  /** When every alias settles, expansion does not change the place of any
      token of the input. */
  lemma {:induction false} PlacesKept(table: Table, xs: seq<Src>, s: Pos)
    requires AllSettle(table)
    ensures PlaceOf(After(table, xs, s)) == Reading(Untag(xs), PlaceOf(s))
    decreases BUDGET - s.budget, |xs|
  {
    hide After, Expands, Pass, Take, Body, Spliced, Next, PlaceOf, AllSettle, Reading, IsPlainWord;
    if xs == [] {
      ExpandNone(table, s);
      ReadingNone(PlaceOf(s));
      assert Untag(xs) == [];
    } else {
      var t := xs[0].tok;
      assert Untag(xs) == [t] + Untag(xs[1..]);
      ReadingFirst(t, Untag(xs[1..]), PlaceOf(s));
      AfterTurn(table, xs, s);
      if Expands(t, table, s) {
        ExpandsAtCommand(t, table, s);
        var body := Body(table, t.value);
        PlacesKept(table, Spliced(body) + xs[1..], Take(t.value, s));
        UntagSpliced(body, xs[1..]);
        ReadingAppend(body, Untag(xs[1..]), COMMAND);
        assert Settles(body) by { SettledHere(table, t.value); }
      } else {
        PassIsNext(t, s);
        PlacesKept(table, xs[1..], Pass(t, s));
      }
    }
  }

  lemma SettledHere(table: Table, name: string)
    requires AllSettle(table) && name in table && IsPlainWord(name)
    ensures Settles(Body(table, name))
  {
  }

  lemma ReadingNone(p: Place)
    ensures Reading([], p) == p
  {
  }

  lemma ReadingFirst(t: Token, ts: seq<Token>, p: Place)
    ensures Reading([t] + ts, p) == Reading(ts, Next(t, p))
  {
    Drop1(t, ts);
  }

  lemma UntagSpliced(body: seq<Token>, xs: seq<Src>)
    ensures Untag(Spliced(body) + xs) == body + Untag(xs)
  {
  }

  /** Main result: when every alias settles, each word of the input that is not
      a command's name as written stays, argument or target, at its place
      between what its front and what its rest expand to. */
  lemma ArgumentsStay(table: Table, ts: seq<Token>, i: nat)
    requires AllSettle(table) && i < |ts| && Reading(ts[..i], COMMAND) != COMMAND
    ensures var xs := Tag(ts);
            var p := After(table, xs[..i], FIRST);
            && PlaceOf(p) == Reading(ts[..i], COMMAND)
            && Expand(table, xs, FIRST)
            == Expand(table, xs[..i], FIRST) + [xs[i]] + Expand(table, xs[i + 1..], Pass(ts[i], p))
  {
    hide After, Expand, Pass, Reading;
    var xs := Tag(ts);
    PlacesKept(table, xs[..i], FIRST);
    assert Untag(xs[..i]) == ts[..i];
    StaysExactly(table, ts, i);
  }

  /** An alias that does not settle moves a name into command position: with
      `e` empty, the argument of `e l` is expanded. */
  lemma ArgumentExpanded()
    ensures var table := map["e" := "", "l" := "x"];
            var ts := [Token(Word, "e", -1), Token(Word, "l", -1), EOF_TOKEN];
            && Reading(ts[..1], COMMAND) == ARGUMENT
            && Tag(ts)[1] !in Expand(table, Tag(ts), FIRST)
  {
    var table := map["e" := "", "l" := "x"];
    var ts := [Token(Word, "e", -1), Token(Word, "l", -1), EOF_TOKEN];
    var xs := Tag(ts)[..1];
    assert ts[..1] == [Token(Word, "e", -1)] && ts[..1][1..] == [];
    assert Tokenized("") == [EOF_TOKEN];
    assert Body(table, "e") == [];
    assert xs[1..] == [] && Spliced([]) + [] == [];
    assert IsPlainWord("e") && IsPlainWord("l");
    assert xs[0].tok == Token(Word, "e", -1);
    assert Expands(xs[0].tok, table, FIRST);
    AfterTurn(table, xs, FIRST);
    assert Spliced(Body(table, "e")) + xs[1..] == [];
    ExpandNone(table, Take("e", FIRST));
    StaysExactly(table, ts, 1);
  }
}
