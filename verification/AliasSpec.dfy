/** Alias expansion of a token list, with every token carrying where it comes
    from, and what the pass guarantees. */
module AliasSpec {
  import opened Tokens
  import opened LexerSpec
  import opened LexerNormalForm
  import opened ParserSound
  import opened Wrappers

  const SEEN_MAX: nat := 64
  const BUDGET: nat := 256

  type Table = map<string, string>

  /** A token and its position in the original list, None if an alias put it
      there. */
  datatype Src = Src(tok: Token, from: Option<nat>)

  function Untag(xs: seq<Src>): (ts: seq<Token>)
    ensures |ts| == |xs| && forall i :: 0 <= i < |xs| ==> ts[i] == xs[i].tok
  {
    seq(|xs|, i requires 0 <= i < |xs| => xs[i].tok)
  }

  function Tag(ts: seq<Token>): (xs: seq<Src>)
    ensures |xs| == |ts| && forall i :: 0 <= i < |ts| ==> xs[i] == Src(ts[i], Some(i))
  {
    seq(|ts|, i requires 0 <= i < |ts| => Src(ts[i], Some(i)))
  }

  function Spliced(ts: seq<Token>): (xs: seq<Src>)
    ensures |xs| == |ts| && forall i :: 0 <= i < |ts| ==> xs[i] == Src(ts[i], None)
  {
    seq(|ts|, i requires 0 <= i < |ts| => Src(ts[i], None))
  }

  /** Operators after which the next word starts a command. */
  predicate StartsCommand(k: TokenKind) {
    k == Pipe || k == And || k == Or || k == Semicolon || k == Ampersand || k == Newline || k == LParen
  }

  /** Non-empty and without quote or backslash. */
  predicate IsPlainWord(v: string) {
    v != "" && '\'' !in v && '"' !in v && '\\' !in v
  }

  /** Tokens before the first EOF. */
  function StripEof(ts: seq<Token>): (r: seq<Token>)
    ensures |r| <= |ts| && forall i :: 0 <= i < |r| ==> r[i] == ts[i] && r[i].kind != Eof
  {
    if ts == [] || ts[0].kind == Eof then [] else [ts[0]] + StripEof(ts[1..])
  }

  /** Scan state: a command word is expected, a redirect target is expected,
      names expanded for the current command word, expansions so far. */
  datatype Pos = Pos(cmdPos: bool, target: bool, seen: seq<string>, budget: nat)

  const FIRST := Pos(true, false, [], 0)

  predicate Expands(t: Token, table: Table, s: Pos) {
    && t.kind == Word && !s.target && s.cmdPos
    && s.budget < BUDGET && |s.seen| < SEEN_MAX
    && IsPlainWord(t.value) && t.value !in s.seen && t.value in table
  }

  /** State after a token that stays. */
  function Pass(t: Token, s: Pos): Pos {
    if t.kind == Word && s.target then s.(target := false)
    else if t.kind == Word && s.cmdPos then s.(cmdPos := false, seen := [])
    else if IsRedir(t.kind) then s.(target := true)
    else if StartsCommand(t.kind) then s.(cmdPos := true, seen := [])
    else if t.kind == RParen then s.(cmdPos := false)
    else s
  }

  /** State after expanding `name`. */
  function Take(name: string, s: Pos): Pos {
    s.(seen := s.seen + [name], budget := s.budget + 1)
  }

  function Body(table: Table, name: string): seq<Token>
    requires name in table
  {
    StripEof(Tokenized(table[name]))
  }

  /** The expanded list. The measure is the remaining budget, then the tokens
      left: every turn spends budget or consumes a token. */
  function Expand(table: Table, xs: seq<Src>, s: Pos): seq<Src>
    decreases BUDGET - s.budget, |xs|
  {
    if xs == [] then []
    else if Expands(xs[0].tok, table, s) then
      var name := xs[0].tok.value;
      Expand(table, Spliced(Body(table, name)) + xs[1..], Take(name, s))
    else [xs[0]] + Expand(table, xs[1..], Pass(xs[0].tok, s))
  }

  lemma ExpandTurn(table: Table, xs: seq<Src>, s: Pos)
    requires xs != []
    ensures var t := xs[0].tok;
            Expand(table, xs, s) == if Expands(t, table, s)
                                    then Expand(table, Spliced(Body(table, t.value)) + xs[1..], Take(t.value, s))
                                    else [xs[0]] + Expand(table, xs[1..], Pass(t, s))
    ensures Expands(xs[0].tok, table, s) ==> s.budget < BUDGET
  {
  }

  /** One expansion: its name and the names already expanded for its word. */
  datatype Splice = Splice(name: string, chain: seq<string>)

  /** The expansions made, in order. */
  function Trace(table: Table, xs: seq<Src>, s: Pos): seq<Splice>
    decreases BUDGET - s.budget, |xs|
  {
    if xs == [] then []
    else if Expands(xs[0].tok, table, s) then
      var name := xs[0].tok.value;
      [Splice(name, s.seen)] + Trace(table, Spliced(Body(table, name)) + xs[1..], Take(name, s))
    else Trace(table, xs[1..], Pass(xs[0].tok, s))
  }

  // -------------------------------------------------------- what is expanded

  predicate Distinct(names: seq<string>) {
    forall i, j :: 0 <= i < j < |names| ==> names[i] != names[j]
  }

  /** At most 256 expansions in all, and at most 64 for one command word, all of
      different names, whatever the table holds. */
  lemma {:induction false} ExpansionsBounded(table: Table, xs: seq<Src>, s: Pos)
    requires s.budget <= 256 && |s.seen| <= 64 && Distinct(s.seen)
    ensures var tr := Trace(table, xs, s);
            |tr| <= 256 - s.budget &&
            forall i :: 0 <= i < |tr| ==>
              var c := tr[i].chain;
              |c| < 64 && tr[i].name !in c && forall a, b :: 0 <= a < b < |c| ==> c[a] != c[b]
    decreases BUDGET - s.budget, |xs|
  {
    if xs != [] {
      if Expands(xs[0].tok, table, s) {
        var name := xs[0].tok.value;
        ExpansionsBounded(table, Spliced(Body(table, name)) + xs[1..], Take(name, s));
      } else {
        ExpansionsBounded(table, xs[1..], Pass(xs[0].tok, s));
      }
    }
  }

  function Names(tr: seq<Splice>): (ns: seq<string>)
    ensures |ns| == |tr| && forall i :: 0 <= i < |tr| ==> ns[i] == tr[i].name
  {
    seq(|tr|, i requires 0 <= i < |tr| => tr[i].name)
  }

  /** An expansion's chain is the run of expansions just before it. */
  lemma {:induction false} ChainIsRecent(table: Table, xs: seq<Src>, s: Pos, before: seq<string>, i: nat)
    requires |s.seen| <= |before| && s.seen == before[|before| - |s.seen|..]
    requires i < |Trace(table, xs, s)|
    ensures var tr := Trace(table, xs, s);
            var all := before + Names(tr[..i]);
            |tr[i].chain| <= |all| && tr[i].chain == all[|all| - |tr[i].chain|..]
    decreases BUDGET - s.budget, |xs|
  {
    hide Body, Spliced, Trace, Expands, Take, Pass;
    if xs != [] && Expands(xs[0].tok, table, s) {
      var name := xs[0].tok.value;
      TraceExpands(table, xs, s);
      var ys := Spliced(Body(table, name)) + xs[1..];
      var tail := Trace(table, ys, Take(name, s));
      if i == 0 {
        assert before + Names([]) == before;
      } else {
        ChainIsRecent(table, ys, Take(name, s), before + [name], i - 1);
        PrependName(before, Splice(name, s.seen), tail, i);
      }
    } else {
      TraceSkips(table, xs, s);
      ChainIsRecent(table, xs[1..], Pass(xs[0].tok, s), before, i);
    }
  }

  lemma PrependName(before: seq<string>, x: Splice, tail: seq<Splice>, i: nat)
    requires 0 < i <= |tail|
    ensures before + Names(([x] + tail)[..i]) == (before + [x.name]) + Names(tail[..i - 1])
  {
    assert ([x] + tail)[..i] == [x] + tail[..i - 1];
  }

  lemma TraceSkips(table: Table, xs: seq<Src>, s: Pos)
    requires Trace(table, xs, s) != [] && (xs == [] || !Expands(xs[0].tok, table, s))
    ensures xs != [] && Trace(table, xs, s) == Trace(table, xs[1..], Pass(xs[0].tok, s))
    ensures var t := Pass(xs[0].tok, s); t.budget == s.budget && (t.seen == s.seen || t.seen == [])
  {
  }

  lemma TraceExpands(table: Table, xs: seq<Src>, s: Pos)
    requires xs != [] && Expands(xs[0].tok, table, s)
    ensures s.budget < BUDGET && xs[0].tok.value in table
    ensures var name := xs[0].tok.value;
            && Trace(table, xs, s)
               == [Splice(name, s.seen)] + Trace(table, Spliced(Body(table, name)) + xs[1..], Take(name, s))
            && Take(name, s).seen == s.seen + [name] && Take(name, s).budget == s.budget + 1
  {
    hide Body, Spliced;
  }

  // ------------------------------------------------------ what stays in place

  /** A token alias expansion may replace. */
  predicate Aliasable(t: Token, table: Table) {
    t.kind == Word && IsPlainWord(t.value) && t.value in table
  }

  /** Every token but an unquoted word with an alias stays. */
  lemma {:induction false} OthersStay(table: Table, xs: seq<Src>, s: Pos, x: Src)
    requires x in xs && !Aliasable(x.tok, table)
    ensures x in Expand(table, xs, s)
    decreases BUDGET - s.budget, |xs|
  {
    if Expands(xs[0].tok, table, s) {
      var name := xs[0].tok.value;
      assert x in xs[1..];
      OthersStay(table, Spliced(Body(table, name)) + xs[1..], Take(name, s), x);
    } else if x != xs[0] {
      assert x in xs[1..];
      OthersStay(table, xs[1..], Pass(xs[0].tok, s), x);
    }
  }

  /** Original positions along the list. */
  function Positions(xs: seq<Src>): seq<nat> {
    if xs == [] then []
    else if xs[0].from.Some? then [xs[0].from.value] + Positions(xs[1..])
    else Positions(xs[1..])
  }

  predicate Increasing(s: seq<nat>) {
    forall i, j :: 0 <= i < j < |s| ==> s[i] < s[j]
  }

  lemma {:induction false} PositionsSpliced(ts: seq<Token>, xs: seq<Src>)
    ensures Positions(Spliced(ts) + xs) == Positions(xs)
  {
    if ts == [] {
      assert Spliced(ts) + xs == xs;
    } else {
      assert (Spliced(ts) + xs)[1..] == Spliced(ts[1..]) + xs;
      PositionsSpliced(ts[1..], xs);
    }
  }

  /** The original tokens that stay keep their order. */
  lemma {:induction false} OrderKept(table: Table, xs: seq<Src>, s: Pos)
    requires Increasing(Positions(xs))
    ensures Increasing(Positions(Expand(table, xs, s)))
    ensures forall p :: p in Positions(Expand(table, xs, s)) ==> p in Positions(xs)
    decreases BUDGET - s.budget, |xs|
  {
    if xs != [] {
      if Expands(xs[0].tok, table, s) {
        var name := xs[0].tok.value;
        PositionsSpliced(Body(table, name), xs[1..]);
        IncreasingTail(xs);
        OrderKept(table, Spliced(Body(table, name)) + xs[1..], Take(name, s));
      } else {
        var tail := Expand(table, xs[1..], Pass(xs[0].tok, s));
        IncreasingTail(xs);
        OrderKept(table, xs[1..], Pass(xs[0].tok, s));
        assert ([xs[0]] + tail)[1..] == tail;
        ConsIncreasing(xs, tail);
      }
    }
  }

  lemma IncreasingTail(xs: seq<Src>)
    requires xs != [] && Increasing(Positions(xs))
    ensures Increasing(Positions(xs[1..]))
    ensures forall p :: p in Positions(xs[1..]) ==> p in Positions(xs) && (xs[0].from.Some? ==> xs[0].from.value < p)
  {
    var rest := Positions(xs[1..]);
    if xs[0].from.Some? {
      assert Positions(xs) == [xs[0].from.value] + rest;
      forall i, j | 0 <= i < j < |rest| ensures rest[i] < rest[j] {
        assert Positions(xs)[i + 1] < Positions(xs)[j + 1];
      }
      forall p | p in rest ensures p in Positions(xs) && xs[0].from.value < p {
        var i :| 0 <= i < |rest| && rest[i] == p;
        assert Positions(xs)[0] < Positions(xs)[i + 1];
      }
    }
  }

  lemma ConsIncreasing(xs: seq<Src>, tail: seq<Src>)
    requires xs != [] && Increasing(Positions(tail))
    requires forall p :: p in Positions(tail) ==> p in Positions(xs[1..])
    requires forall p :: p in Positions(xs[1..]) ==> p in Positions(xs) && (xs[0].from.Some? ==> xs[0].from.value < p)
    ensures Increasing(Positions([xs[0]] + tail))
    ensures forall p :: p in Positions([xs[0]] + tail) ==> p in Positions(xs)
  {
    assert ([xs[0]] + tail)[1..] == tail;
    var rest := Positions(tail);
    forall i | 0 <= i < |rest| ensures rest[i] in Positions(xs[1..]) {
      assert rest[i] in rest;
    }
  }

  /** A token that keeps its mark is the token of that position. */
  lemma {:induction false} MarksTrue(table: Table, xs: seq<Src>, s: Pos, x: Src)
    requires x in Expand(table, xs, s) && x.from.Some?
    ensures x in xs
    decreases BUDGET - s.budget, |xs|
  {
    if xs != [] {
      if Expands(xs[0].tok, table, s) {
        var name := xs[0].tok.value;
        var body := Spliced(Body(table, name));
        MarksTrue(table, body + xs[1..], Take(name, s), x);
        assert x !in body;
      } else if x != xs[0] {
        MarksTrue(table, xs[1..], Pass(xs[0].tok, s), x);
      }
    }
  }

  // -------------------------------------------------------------- EOF is last

  /** What the tokenizer returns ends with its only EOF token. */
  lemma {:induction false} LexedEofLast(ts: seq<Token>, depth: nat)
    requires Lexed(ts, depth)
    ensures EofLast(ts)
  {
    if |ts| > 1 {
      LexedEofLast(ts[1..], DepthAfter(ts[0].kind, depth));
      NotEof(ts[0], depth, |ts| == 2);
    }
  }

  lemma NotEof(t: Token, depth: nat, last: bool)
    requires LexedToken(t, depth, last)
    ensures t.kind != Eof
  {
  }

  lemma TokenizedEofLast(s: string)
    ensures EofLast(Tokenized(s))
  {
    hide Lex, Lexed, EofLast;
    LexIsLexed(s, 0, 0);
    LexedEofLast(Tokenized(s), 0);
  }

  ghost predicate SrcEofLast(xs: seq<Src>) {
    xs != [] && xs[|xs| - 1].tok.kind == Eof && forall i :: 0 <= i < |xs| - 1 ==> xs[i].tok.kind != Eof
  }

  lemma {:induction false} EofStaysLast(table: Table, xs: seq<Src>, s: Pos)
    requires SrcEofLast(xs)
    ensures SrcEofLast(Expand(table, xs, s))
    decreases BUDGET - s.budget, |xs|
  {
    hide Expand, Expands, Pass, Take, Body, Spliced;
    ExpandTurn(table, xs, s);
    if Expands(xs[0].tok, table, s) {
      var name := xs[0].tok.value;
      BodyEofLast(table, xs, s);
      EofStaysLast(table, Spliced(Body(table, name)) + xs[1..], Take(name, s));
    } else if |xs| > 1 {
      PassBudget(xs[0].tok, s);
      EofStaysLast(table, xs[1..], Pass(xs[0].tok, s));
    } else {
      assert xs[1..] == [];
      ExpandsNothing(table, Pass(xs[0].tok, s));
    }
  }

  lemma BodyEofLast(table: Table, xs: seq<Src>, s: Pos)
    requires SrcEofLast(xs) && Expands(xs[0].tok, table, s)
    ensures var name := xs[0].tok.value;
            name in table && SrcEofLast(Spliced(Body(table, name)) + xs[1..]) && Take(name, s).budget == s.budget + 1
  {
  }

  lemma PassBudget(t: Token, s: Pos)
    ensures Pass(t, s).budget == s.budget
  {
  }

  lemma ExpandsNothing(table: Table, s: Pos)
    ensures Expand(table, [], s) == []
  {
  }

  // ---------------------------------------------------------------- the pass

  /** `alias_expand_tokens` on a token list. */
  function Aliased(table: Table, ts: seq<Token>): seq<Token> {
    Untag(Expand(table, Tag(ts), FIRST))
  }

  lemma AliasedEofLast(table: Table, ts: seq<Token>)
    requires EofLast(ts)
    ensures EofLast(Aliased(table, ts))
  {
    EofStaysLast(table, Tag(ts), FIRST);
  }

  lemma {:induction false} PositionsOfTag(ts: seq<Token>, xs: seq<Src>, k: nat)
    requires |xs| + k == |ts| && forall i :: 0 <= i < |xs| ==> xs[i].from == Some(k + i)
    ensures |Positions(xs)| == |xs| && forall i :: 0 <= i < |xs| ==> Positions(xs)[i] == k + i
    decreases |xs|
  {
    if xs != [] {
      PositionsOfTag(ts, xs[1..], k + 1);
    }
  }

  /** Quoted words, operators and words without an alias stay, each unchanged
      and in the original order, around whatever the aliases insert. */
  lemma InputKept(table: Table, ts: seq<Token>)
    ensures var out := Expand(table, Tag(ts), FIRST);
            && Increasing(Positions(out))
            && (forall x :: x in out && x.from.Some? ==> x.from.value < |ts| && x.tok == ts[x.from.value])
            && forall i :: 0 <= i < |ts| ==>
              var v := ts[i].value;
              (ts[i].kind != Word || v == "" || '\'' in v || '"' in v || '\\' in v || v !in table) ==>
              Src(ts[i], Some(i)) in out
  {
    var xs := Tag(ts);
    PositionsOfTag(ts, xs, 0);
    OrderKept(table, xs, FIRST);
    forall x | x in Expand(table, xs, FIRST) && x.from.Some? ensures x.from.value < |ts| && x.tok == ts[x.from.value] {
      MarksTrue(table, xs, FIRST, x);
    }
    forall i | 0 <= i < |ts| && !Aliasable(ts[i], table) ensures Src(ts[i], Some(i)) in Expand(table, xs, FIRST) {
      assert xs[i] == Src(ts[i], Some(i));
      OthersStay(table, xs, FIRST, xs[i]);
    }
  }

  /** At the head of a list: the word after a redirection operator, and the word
      after a word that stayed, are not expanded. */
  lemma TargetsAndArgumentsStay(table: Table, t: Token, u: Token, rest: seq<Src>, from: Option<nat>,
                                from': Option<nat>, s: Pos)
    requires u.kind == Word && !Expands(t, table, s)
    requires IsRedir(t.kind) || (t.kind == Word && !s.target)
    ensures var xs := [Src(t, from), Src(u, from')] + rest;
            Expand(table, xs, s) == [Src(t, from), Src(u, from')] + Expand(table, rest, Pass(u, Pass(t, s)))
  {
    hide Expand, Body, Spliced, IsPlainWord;
    var xs := [Src(t, from), Src(u, from')] + rest;
    assert xs[1..] == [Src(u, from')] + rest && xs[1..][1..] == rest;
    AfterStay(t, u, table, s);
    ExpandTurn(table, xs, s);
    ExpandTurn(table, xs[1..], Pass(t, s));
  }

  lemma AfterStay(t: Token, u: Token, table: Table, s: Pos)
    requires u.kind == Word && (IsRedir(t.kind) || (t.kind == Word && !s.target))
    ensures !Expands(u, table, Pass(t, s))
  {
  }

  /** A list without aliasable words is left alone. */
  lemma {:induction false} NothingToExpand(table: Table, xs: seq<Src>, s: Pos)
    requires forall i :: 0 <= i < |xs| ==> !Aliasable(xs[i].tok, table)
    ensures Expand(table, xs, s) == xs
    decreases |xs|
  {
    if xs != [] {
      NothingToExpand(table, xs[1..], Pass(xs[0].tok, s));
    }
  }
}
