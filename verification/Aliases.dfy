/** The alias table and the pass that splices alias bodies into the tokens. */
module Aliases {
  import opened Tokens
  import opened LexerSpec
  import opened Lexer
  import opened AliasSpec
  import opened ParserSound
  import opened Wrappers

  datatype Alias = Alias(name: string, value: string)

  /** The shell's alias list, newest first, one entry per name. */
  class AliasTable {
    var aliases: seq<Alias>

    constructor ()
      ensures Valid() && Map() == map[]
    {
      aliases := [];
    }

    ghost predicate Valid()
      reads this
    {
      forall i, j :: 0 <= i < j < |aliases| ==> aliases[i].name != aliases[j].name
    }

    ghost function Map(): Table
      reads this
    {
      MapOf(aliases)
    }

    /** Position of `name` in the list, its length if absent. */
    method Find(name: string) returns (i: nat)
      requires Valid()
      ensures i <= |aliases|
      ensures i < |aliases| <==> name in Map()
      ensures i < |aliases| ==> aliases[i].name == name && aliases[i].value == Map()[name]
    {
      i := 0;
      while i < |aliases|
        invariant 0 <= i <= |aliases|
        invariant forall k :: 0 <= k < i ==> aliases[k].name != name
      {
        MapOfAt(aliases, i);
        if aliases[i].name == name {
          return;
        }
        i := i + 1;
      }
      NotInMap(aliases, name);
    }

    method Get(name: string) returns (value: Option<string>)
      requires Valid()
      ensures value == if name in Map() then Some(Map()[name]) else None
    {
      var i := Find(name);
      value := if i < |aliases| then Some(aliases[i].value) else None;
    }

    method Set(name: string, value: string)
      requires Valid()
      modifies this
      ensures Valid() && Map() == old(Map())[name := value]
    {
      var i := Find(name);
      if i < |aliases| {
        MapOfUpdate(aliases, i, value);
        aliases := aliases[i := Alias(name, value)];
      } else {
        ghost var old_ := aliases;
        NotInList(aliases, name);
        aliases := [Alias(name, value)] + aliases;
        assert aliases[1..] == old_;
      }
    }

    /** 0 when an alias was removed, 1 when there was none. */
    method Unset(name: string) returns (status: int)
      requires Valid()
      modifies this
      ensures Valid() && Map() == old(Map()) - {name}
      ensures status == if name in old(Map()) then 0 else 1
    {
      var i := Find(name);
      if i == |aliases| {
        return 1;
      }
      MapOfRemove(aliases, i);
      aliases := aliases[..i] + aliases[i + 1..];
      status := 0;
    }
  }

  /** The map a list stands for; the first entry of a name wins. */
  function MapOf(xs: seq<Alias>): Table {
    if xs == [] then map[] else MapOf(xs[1..])[xs[0].name := xs[0].value]
  }

  ghost predicate Unique(xs: seq<Alias>) {
    forall i, j :: 0 <= i < j < |xs| ==> xs[i].name != xs[j].name
  }

  lemma {:induction false} MapOfAt(xs: seq<Alias>, i: nat)
    requires Unique(xs) && i < |xs|
    ensures xs[i].name in MapOf(xs) && MapOf(xs)[xs[i].name] == xs[i].value
  {
    if i > 0 {
      MapOfAt(xs[1..], i - 1);
    }
  }

  lemma {:induction false} NotInMap(xs: seq<Alias>, name: string)
    requires forall k :: 0 <= k < |xs| ==> xs[k].name != name
    ensures name !in MapOf(xs)
  {
    if xs != [] {
      NotInMap(xs[1..], name);
    }
  }

  lemma {:induction false} NotInList(xs: seq<Alias>, name: string)
    requires name !in MapOf(xs)
    ensures forall k :: 0 <= k < |xs| ==> xs[k].name != name
  {
    if xs != [] {
      NotInList(xs[1..], name);
    }
  }

  lemma {:induction false} MapOfUpdate(xs: seq<Alias>, i: nat, value: string)
    requires Unique(xs) && i < |xs|
    ensures MapOf(xs[i := Alias(xs[i].name, value)]) == MapOf(xs)[xs[i].name := value]
  {
    var ys := xs[i := Alias(xs[i].name, value)];
    if i == 0 {
      assert ys[1..] == xs[1..];
    } else {
      assert ys[1..] == xs[1..][i - 1 := Alias(xs[i].name, value)];
      MapOfUpdate(xs[1..], i - 1, value);
    }
  }

  lemma {:induction false} MapOfRemove(xs: seq<Alias>, i: nat)
    requires Unique(xs) && i < |xs|
    ensures MapOf(xs[..i] + xs[i + 1..]) == MapOf(xs) - {xs[i].name}
  {
    var ys := xs[..i] + xs[i + 1..];
    if i == 0 {
      assert ys == xs[1..];
      NotInMap(xs[1..], xs[0].name);
    } else {
      assert ys[0] == xs[0] && ys[1..] == xs[1..][..i - 1] + xs[1..][i..];
      MapOfRemove(xs[1..], i - 1);
      assert xs[0].name != xs[i].name;
    }
  }

  // ------------------------------------------------------------- the pass

  /** State of the scan over the token list; `seen` is the fixed array of names
      expanded for the current command word. */
  class AliasScan {
    const table: AliasTable
    var tokens: seq<Token>
    var cur: nat
    const seen: array<string>
    var seenN: nat
    var cmdPos: bool
    var skipTarget: bool
    var budget: nat
    /** The tokens from `cur` on, with their origins. */
    ghost var todo: seq<Src>
    ghost var done: seq<Src>

    ghost predicate Valid()
      reads this, seen, table
    {
      && table.Valid()
      && seen.Length == SEEN_MAX && seenN <= SEEN_MAX && budget <= BUDGET
      && cur == |done| && tokens == Untag(done + todo)
    }

    ghost function State(): Pos
      requires Valid()
      reads this, seen, table
    {
      Pos(cmdPos, skipTarget, seen[..seenN], budget)
    }

    constructor (table: AliasTable, tokens: seq<Token>)
      requires table.Valid()
      ensures Valid() && fresh(this.seen) && this.table == table
      ensures State() == FIRST && done == [] && todo == Tag(tokens) && this.tokens == tokens
    {
      this.table := table;
      this.tokens := tokens;
      cur, seenN, cmdPos, skipTarget, budget := 0, 0, true, false, 0;
      seen := new string[SEEN_MAX];
      done, todo := [], Tag(tokens);
      new;
      assert done + todo == Tag(tokens);
      assert Untag(done + todo) == tokens;
      assert seen[..0] == [];
    }

    method SeenHas(name: string) returns (yes: bool)
      requires Valid()
      ensures yes == (name in seen[..seenN])
    {
      var n := seenN;
      while n > 0
        invariant 0 <= n <= seenN <= seen.Length
        invariant forall k :: n <= k < seenN ==> seen[k] != name
      {
        n := n - 1;
        if seen[n] == name {
          return true;
        }
      }
      yes := false;
    }

    /** Replaces the current word by the tokens of its alias. */
    method Splice(value: string, lexer: Lexer)
      requires Valid() && todo != [] && todo[0].tok.kind == Word
      modifies this`tokens, this`todo, lexer
      ensures Valid()
      ensures todo == Spliced(StripEof(Tokenized(value))) + old(todo)[1..]
    {
      hide Tokenized;
      var toks := lexer.Tokenize(value);
      var sub := StripEof(toks);
      SpliceUntag(done, todo, sub);
      tokens := tokens[..cur] + sub + tokens[cur + 1..];
      todo := Spliced(sub) + todo[1..];
    }

    /** The alias that replaces a command word, if any may. */
    method AliasFor(name: string) returns (value: Option<string>)
      requires Valid()
      ensures value == if budget < BUDGET && seenN < SEEN_MAX && IsPlainWord(name) && name !in seen[..seenN]
          && name in table.Map()
                       then Some(table.Map()[name]) else None
    {
      hide IsPlainWord;
      value := None;
      if budget < BUDGET && seenN < SEEN_MAX && IsPlainWord(name) {
        var again := SeenHas(name);
        if !again {
          value := table.Get(name);
        }
      }
    }

    method Remember(name: string)
      requires Valid() && seenN < SEEN_MAX && budget < BUDGET
      modifies this`seenN, this`budget, seen
      ensures Valid() && seen[..seenN] == old(seen[..seenN]) + [name] && budget == old(budget) + 1
    {
      seen[seenN] := name;
      seenN := seenN + 1;
      budget := budget + 1;
    }

    /** One turn: true when an alias was spliced in and the cursor stays. */
    method Step(lexer: Lexer) returns (spliced: bool)
      requires Valid() && todo != []
      modifies this, seen, lexer
      ensures Valid() && done == old(done)
      ensures var t := old(todo[0].tok); var s := old(State());
              spliced == Expands(t, table.Map(), s) &&
              if spliced then
                State() == Take(t.value, s) && todo == Spliced(Body(table.Map(), t.value)) + old(todo)[1..]
              else
                State() == Pass(t, s) && todo == old(todo)
    {
      hide IsPlainWord, Tokenized;
      var t := tokens[cur];
      spliced := false;
      if t.kind == Word && skipTarget {
        skipTarget := false;
      } else if t.kind == Word && cmdPos {
        var value := AliasFor(t.value);
        if value.Some? {
          Remember(t.value);
          Splice(value.value, lexer);
          return true;
        }
        cmdPos := false;
        seenN := 0;
      } else if IsRedir(t.kind) {
        skipTarget := true;
      } else if StartsCommand(t.kind) {
        cmdPos := true;
        seenN := 0;
      } else if t.kind == RParen {
        cmdPos := false;
      }
    }

    method Run(lexer: Lexer)
      requires Valid() && done == [] && State() == FIRST
      modifies this, seen, lexer
      ensures Valid() && tokens == Untag(Expand(table.Map(), old(todo), FIRST))
    {
      hide Expand, Expands, Pass, Take, Body, Spliced, MapOf;
      ghost var m := table.Map();
      ghost var goal := Expand(m, todo, FIRST);
      assert done + goal == goal;
      while cur < |tokens|
        invariant Valid() && table.Map() == m
        invariant done + Expand(m, todo, State()) == goal
        decreases BUDGET - budget, |todo|
      {
        assert |tokens| == |done| + |todo|;
        ghost var x, rest := todo[0], todo[1..];
        ghost var here := Expand(m, todo, State());
        ExpandTurn(m, todo, State());
        TurnSpends(x.tok, m, State());
        var spliced := Step(lexer);
        if !spliced {
          MoveOver(done, x, rest, Expand(m, rest, State()));
          cur := cur + 1;
          done := done + [x];
          todo := rest;
        }
      }
      assert |tokens| == |done| + |todo|;
      ExpandNothing(m, State());
      assert todo == [] && done + [] == done;
    }
  }

  lemma SpliceUntag(done: seq<Src>, todo: seq<Src>, sub: seq<Token>)
    requires todo != []
    ensures var tokens := Untag(done + todo);
            |done| < |tokens| &&
            tokens[..|done|] + sub + tokens[|done| + 1..] == Untag(done + (Spliced(sub) + todo[1..]))
  {
  }

  lemma MoveOver(done: seq<Src>, x: Src, rest: seq<Src>, out: seq<Src>)
    ensures (done + [x]) + rest == done + ([x] + rest)
    ensures (done + [x]) + out == done + ([x] + out)
  {
  }

  lemma ExpandNothing(table: Table, s: Pos)
    ensures Expand(table, [], s) == []
  {
  }

  lemma TurnSpends(t: Token, table: Table, s: Pos)
    ensures Expands(t, table, s) ==> s.budget < BUDGET && Take(t.value, s).budget == s.budget + 1
    ensures Pass(t, s).budget == s.budget
  {
  }

  /** The whole pass over a token list. */
  method AliasExpandTokens(table: AliasTable, tokens: seq<Token>) returns (out: seq<Token>)
    requires table.Valid()
    ensures out == Aliased(table.Map(), tokens)
    ensures EofLast(tokens) ==> EofLast(out)
  {
    var lexer := new Lexer();
    var scan := new AliasScan(table, tokens);
    scan.Run(lexer);
    out := scan.tokens;
    if EofLast(tokens) {
      AliasedEofLast(table.Map(), tokens);
    }
  }
}
