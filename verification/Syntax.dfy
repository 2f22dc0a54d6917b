/** The syntax tree the parser builds; `Null` is C's null pointer. */
module Syntax {
  import opened Ascii
  import opened Tokens
  import opened Wrappers

  /** A redirection: operator, source fd (-1 for the default) and raw target;
      a here-document also keeps its delimiter and whether it was quoted. */
  datatype Redir = Redir(kind: TokenKind, fd: int, target: string, delim: Option<string>, quoted: bool)

  datatype Command = Command(argv: seq<string>, assigns: seq<string>, redirs: seq<Redir>)

  datatype BinOp = PipeOp | AndOp | OrOp | SeqOp

  datatype GroupKind = Subshell | Block | Background

  datatype Ast =
    | Null
    | Cmd(cmd: Command)
    | Bin(op: BinOp, l: Ast, r: Ast)
    | Grp(kind: GroupKind, child: Ast, redirs: seq<Redir>)

  /** Position of the last `q` in `s`. */
  function LastIndex(s: string, q: char): (i: nat)
    requires q in s
    ensures i < |s| && s[i] == q && q !in s[i + 1..]
  {
    if s[|s| - 1] == q then |s| - 1 else LastIndex(s[..|s| - 1], q)
  }

  /** A redirection with its here-document fields filled in from the target:
      a leading quote is dropped with everything from its last occurrence on. */
  function MakeRedir(kind: TokenKind, fd: int, target: string): Redir {
    if !IsHeredoc(kind) then Redir(kind, fd, target, None, false)
    else if At(target, 0) == '\'' || At(target, 0) == '"' then
      var end := LastIndex(target, target[0]);
      Redir(kind, fd, target, Some(if end > 0 then target[1..end] else target), true)
    else Redir(kind, fd, target, Some(target), false)
  }

  lemma LastIndexIs(s: string, q: char, i: nat)
    requires i < |s| && s[i] == q && q !in s[i + 1..]
    ensures LastIndex(s, q) == i
  {
    hide LastIndex;
    var n := LastIndex(s, q);
    assert forall m :: i < m < |s| ==> s[i + 1..][m - i - 1] == s[m];
    assert forall m :: n < m < |s| ==> s[n + 1..][m - n - 1] == s[m];
  }

  /** The delimiter of `<<` is the word as it is, or what stands between a
      leading quote and its last occurrence; what follows that is dropped. A
      quote that never comes again belongs to the delimiter. */
  lemma DelimiterRead(kind: TokenKind, fd: int, q: char, d: string, t: string)
    requires (kind == Heredoc || kind == HeredocStrip) && (q == '\'' || q == '"') && q !in t
    ensures MakeRedir(kind, fd, [q] + d + [q] + t) == Redir(kind, fd, [q] + d + [q] + t, Some(d), true)
    ensures MakeRedir(kind, fd, [q] + t) == Redir(kind, fd, [q] + t, Some([q] + t), true)
    ensures t != "" && t[0] != '\'' && t[0] != '"' ==> MakeRedir(kind, fd, t) == Redir(kind, fd, t, Some(t), false)
  {
    hide LastIndex;
    var w := [q] + d + [q] + t;
    assert w[0] == q && w[|d| + 1] == q && w[|d| + 2..] == t && w[1..|d| + 1] == d;
    LastIndexIs(w, q, |d| + 1);
    assert ([q] + t)[1..] == t;
    LastIndexIs([q] + t, q, 0);
  }

  /** `NAME=...`: an identifier before the first `=`. */
  predicate IsAssignment(s: string) {
    s != "" && IsNameStart(s[0]) && At(s, NameLen(s)) == '='
  }
}
