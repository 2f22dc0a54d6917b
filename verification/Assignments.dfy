/** Which words the parser takes for assignments. */
module Assignments {
  import opened Ascii
  import opened Tokens
  import opened Syntax
  import opened ParserSpec
  import opened ParserRoundTrip
  import opened Wrappers

  /** `w` is `n=v` for a name `n`. */
  ghost predicate Assigns(w: string, n: string, v: string) {
    IsIdentifier(n) && w == n + "=" + v
  }

  ghost predicate AssignsAny(w: string) {
    exists n, v :: Assigns(w, n, v)
  }

  /** A word is an assignment exactly when it is a name, `=` and any value. */
  lemma AssignmentExactly(w: string)
    ensures IsAssignment(w) <==> AssignsAny(w)
  {
    if IsAssignment(w) {
      var k := NameLen(w);
      NamePrefix(w);
      assert w == w[..k] + "=" + w[k + 1..];
      assert Assigns(w, w[..k], w[k + 1..]);
    }
    forall n, v | Assigns(w, n, v) ensures IsAssignment(w) {
      assert w == n + ("=" + v);
      NameRuns(n, "=" + v);
    }
  }

  /** The name at the head of a word. */
  lemma {:induction false} NamePrefix(w: string)
    ensures forall i :: 0 <= i < NameLen(w) ==> IsNameChar(w[i])
    ensures w != "" && IsNameStart(w[0]) ==> IsIdentifier(w[..NameLen(w)])
  {
    if w != "" {
      NamePrefix(w[1..]);
    }
  }

  /** Main result: leading words `name=value` are the command's assignments, in
      order, and the first word of another form, unless it is a brace, is its
      name, whatever the words after it are. */
  lemma AssignmentsParse(assigns: seq<string>, argv: seq<string>)
    requires forall i :: 0 <= i < |assigns| ==> AssignsAny(assigns[i])
    requires argv != [] ==> !AssignsAny(argv[0]) && argv[0] != "{" && argv[0] != "}"
    requires assigns != [] || argv != []
    ensures Parse(WordToks(assigns) + WordToks(argv) + [EOF_TOKEN]) == Some(Cmd(Command(argv, assigns, [])))
  {
    hide Parse, IsAssignment, WordToks, AssignsAny;
    var c := Command(argv, assigns, []);
    forall i | 0 <= i < |assigns| ensures IsAssignment(assigns[i]) {
      AssignmentExactly(assigns[i]);
    }
    if argv != [] {
      AssignmentExactly(argv[0]);
    }
    assert CommandNodeOk(Cmd(c), false);
    Widen(Cmd(c), false);
    ParseComplete(Cmd(c));
    PrintedWords(c);
  }

  lemma PrintedWords(c: Command)
    requires c.redirs == []
    ensures Printed(Cmd(c)) == WordToks(c.assigns) + WordToks(c.argv) + [EOF_TOKEN]
  {
    hide WordToks;
    assert RedirToks([]) == [];
    assert [] + WordToks(c.argv) == WordToks(c.argv);
    assert NodeToks(Cmd(c)) == CommandToks(c);
    assert ListToks(Cmd(c), false) == NodeToks(Cmd(c)) + [];
  }

  /** One assignment alone. */
  lemma OneAssignment(n: string, v: string)
    requires IsIdentifier(n)
    ensures Parse([W(n + "=" + v), EOF_TOKEN]) == Some(Cmd(Command([], [n + "=" + v], [])))
  {
    hide Parse, IsIdentifier;
    var w := n + "=" + v;
    assert Assigns(w, n, v);
    assert AssignsAny(w);
    AssignmentsParse([w], []);
    assert WordToks([w]) + WordToks([]) + [EOF_TOKEN] == [W(w), EOF_TOKEN];
  }
}
