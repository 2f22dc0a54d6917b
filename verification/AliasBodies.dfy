/** What alias expansion puts in place of a name. */
module AliasBodies {
  import opened Tokens
  import opened LexerSpec
  import opened ParserRoundTrip
  import opened ParserSound
  import opened AliasSpec
  import opened AliasPlaces
  import opened AliasCommands
  import opened SeqFacts
  import opened Wrappers

  /** Of a token list that ends with its only EOF, everything else is kept. */
  lemma {:induction false} StripsEofOnly(ts: seq<Token>)
    requires EofLast(ts)
    ensures StripEof(ts) == ts[..|ts| - 1]
  {
    if |ts| > 1 {
      assert ts[1..][..|ts| - 2] == ts[1..|ts| - 1];
      StripsEofOnly(ts[1..]);
      assert ts[..|ts| - 1] == [ts[0]] + ts[1..|ts| - 1];
    }
  }

  /** The tokens of an alias's text, without EOF. */
  function Words(table: Table, n: string): seq<Token>
    requires n in table
  {
    var ts := Tokenized(table[n]);
    if ts == [] then [] else ts[..|ts| - 1]
  }

  /** The scan's state after tokens that stay. */
  function Through(ts: seq<Token>, s: Pos): Pos {
    if ts == [] then s else Through(ts[1..], Pass(ts[0], s))
  }

  /** No word read in command position has an alias; `own` is left alone when
      it comes first. */
  predicate Quiet(table: Table, ts: seq<Token>, own: string) {
    if ts != [] && ts[0] == W(own) then NoneIn(table, Seen(ts[1..], ARGUMENT)) else NoneIn(table, Seen(ts, COMMAND))
  }

  predicate NoneIn(table: Table, ws: seq<string>) {
    forall i :: 0 <= i < |ws| ==> ws[i] !in table
  }

  /** Where nothing is expanded the scan just goes through. */
  lemma {:induction false} AfterQuiet(table: Table, xs: seq<Src>, s: Pos)
    requires NoneIn(table, Seen(Untag(xs), PlaceOf(s)))
    ensures After(table, xs, s) == Through(Untag(xs), s)
    decreases |xs|
  {
    hide After, Expands, Pass, Body, Next, PlaceOf, Untag;
    if xs == [] {
      ExpandNone(table, s);
      assert Untag(xs) == [];
    } else {
      var t := xs[0].tok;
      UntagCons(xs);
      SeenHere(t, table, s, Seen(Untag(xs), PlaceOf(s)));
      PassIsNext(t, s);
      AfterTurn(table, xs, s);
      var here := if t.kind == Word && PlaceOf(s) == COMMAND then [t.value] else [];
      NotInRest(here, Seen(Untag(xs[1..]), Next(t, PlaceOf(s))), table);
      AfterQuiet(table, xs[1..], Pass(t, s));
    }
  }

  lemma UntagCons(xs: seq<Src>)
    requires xs != []
    ensures Untag(xs) != [] && Untag(xs)[0] == xs[0].tok && Untag(xs)[1..] == Untag(xs[1..])
  {
  }

  lemma UntagAppend(xs: seq<Src>, ys: seq<Src>)
    ensures Untag(xs + ys) == Untag(xs) + Untag(ys)
  {
  }

  lemma UntagSplice(ts: seq<Token>)
    ensures Untag(Spliced(ts)) == ts
  {
  }

  /** A quiet body is inserted as it is, and the scan goes through it. */
  lemma QuietBody(table: Table, ts: seq<Token>, n: string, xs: seq<Src>, s: Pos)
    requires Quiet(table, ts, n) && PlaceOf(s) == COMMAND && n in s.seen
    ensures Untag(Expand(table, Spliced(ts) + xs, s)) == ts + Untag(Expand(table, xs, Through(ts, s)))
  {
    hide Expand, After, Expands, Pass, Body, Seen, Through, NoneIn;
    var ys := Spliced(ts);
    UntagSplice(ts);
    ExpandAppend(table, ys, xs, s);
    if ts != [] && ts[0] == W(n) {
      OwnName(table, ys, n, s);
      UntagCons(ys);
      NothingExpandsHere(table, ys[1..], Pass(ts[0], s));
      AfterQuiet(table, ys[1..], Pass(ts[0], s));
      ThroughCons(ts, s);
      assert [ys[0]] + ys[1..] == ys;
    } else {
      NothingExpandsHere(table, ys, s);
      AfterQuiet(table, ys, s);
    }
    UntagAppend(Expand(table, ys, s), Expand(table, xs, After(table, ys, s)));
  }

  lemma ThroughCons(ts: seq<Token>, s: Pos)
    requires ts != []
    ensures Through(ts, s) == Through(ts[1..], Pass(ts[0], s))
  {
  }

  lemma NothingExpandsHere(table: Table, xs: seq<Src>, s: Pos)
    requires NoneIn(table, Seen(Untag(xs), PlaceOf(s)))
    ensures Expand(table, xs, s) == xs
  {
    hide Expand, Seen;
    NothingExpands(table, xs, s);
  }

  /** A name is not expanded again inside its own text. */
  lemma OwnName(table: Table, ys: seq<Src>, n: string, s: Pos)
    requires ys != [] && ys[0].tok == W(n) && n in s.seen && PlaceOf(s) == COMMAND
    ensures Expand(table, ys, s) == [ys[0]] + Expand(table, ys[1..], Pass(ys[0].tok, s))
    ensures After(table, ys, s) == After(table, ys[1..], Pass(ys[0].tok, s)) && PlaceOf(Pass(ys[0].tok, s)) == ARGUMENT
  {
    hide Expand, After, Body;
    ExpandTurn(table, ys, s);
    AfterTurn(table, ys, s);
  }

  /** Main result: at a command position a plain word with an alias, not part of
      its own expansion and within the limits, is replaced by all the tokens of
      the alias's text but EOF, when none of these is expanded in turn; what
      follows is expanded from where they lead. */
  lemma BodyInserted(table: Table, n: string, from: Option<nat>, xs: seq<Src>, s: Pos)
    requires n in table && n != "" && '\'' !in n && '"' !in n && '\\' !in n
    requires s.cmdPos && !s.target && s.budget < 256 && |s.seen| < 64 && n !in s.seen
    requires Quiet(table, Words(table, n), n)
    ensures var t := Pos(true, false, s.seen + [n], s.budget + 1);
            Untag(Expand(table, [Src(W(n), from)] + xs, s))
              == Words(table, n) + Untag(Expand(table, xs, Through(Words(table, n), t)))
  {
    hide Expand, Through, Quiet, Words, Body, Expands, Spliced, Untag;
    var all := [Src(W(n), from)] + xs;
    assert all[0].tok == W(n) && all[1..] == xs;
    NameExpands(table, n, s);
    ExpandTurn(table, all, s);
    BodyIsWords(table, n);
    QuietBody(table, Words(table, n), n, xs, Take(n, s));
  }

  lemma NameExpands(table: Table, n: string, s: Pos)
    requires n in table && n != "" && '\'' !in n && '"' !in n && '\\' !in n
    requires s.cmdPos && !s.target && s.budget < 256 && |s.seen| < 64 && n !in s.seen
    ensures Expands(W(n), table, s)
  {
  }

  lemma BodyIsWords(table: Table, n: string)
    requires n in table
    ensures Body(table, n) == Words(table, n)
  {
    hide Lex;
    TokenizedEofLast(table[n]);
    StripsEofOnly(Tokenized(table[n]));
  }

  /** Main result, for a whole line: the alias's text stands for its name, and
      the rest stays, when the rest has no alias where it is then read. */
  lemma NameReplaced(table: Table, n: string, rest: seq<Token>)
    requires n in table && n != "" && '\'' !in n && '"' !in n && '\\' !in n
    requires Quiet(table, Words(table, n), n)
    requires NoneIn(table, Seen(rest, Reading(Words(table, n), COMMAND)))
    ensures Aliased(table, [W(n)] + rest) == Words(table, n) + rest
  {
    hide Expand, Through, Lex, Quiet, Words, Seen, NoneIn;
    var xs := Tag([W(n)] + rest)[1..];
    var t := Pos(true, false, [n], 1);
    assert Tag([W(n)] + rest) == [Src(W(n), Some(0))] + xs && Untag(xs) == rest;
    assert FIRST.seen + [n] == [n];
    BodyInserted(table, n, Some(0), xs, FIRST);
    ThroughPlace(Words(table, n), t);
    NothingExpandsHere(table, xs, Through(Words(table, n), t));
  }

  lemma {:induction false} ThroughPlace(ts: seq<Token>, s: Pos)
    ensures PlaceOf(Through(ts, s)) == Reading(ts, PlaceOf(s))
  {
    hide Pass, Next;
    if ts != [] {
      PassIsNext(ts[0], s);
      ThroughPlace(ts[1..], Pass(ts[0], s));
    }
  }

  /** After an operator that starts a command the next name is expanded, whatever
      was expanded before it. */
  lemma NamesAfterOperators(table: Table, k: TokenKind, n: string, a: Option<nat>, b: Option<nat>, xs: seq<Src>, s: Pos)
    requires k in {Pipe, And, Or, Semicolon, Ampersand, Newline, LParen} && !s.target && s.budget < 256
    requires n in table && n != "" && '\'' !in n && '"' !in n && '\\' !in n
    requires Quiet(table, Words(table, n), n)
    ensures var t := Pos(true, false, [n], s.budget + 1);
            Untag(Expand(table, [Src(Op(k), a)] + ([Src(W(n), b)] + xs), s))
              == [Op(k)] + (Words(table, n) + Untag(Expand(table, xs, Through(Words(table, n), t))))
  {
    hide Expand, Through, Lex, Quiet, Words;
    var rest := [Src(W(n), b)] + xs;
    var all := [Src(Op(k), a)] + rest;
    assert all[0].tok == Op(k) && all[1..] == rest;
    ExpandTurn(table, all, s);
    var p := Pos(true, false, [], s.budget);
    assert Pass(Op(k), s) == p && p.seen + [n] == [n];
    BodyInserted(table, n, b, xs, p);
    UntagAppend([Src(Op(k), a)], Expand(table, rest, p));
    assert Untag([Src(Op(k), a)]) == [Op(k)];
  }
}
