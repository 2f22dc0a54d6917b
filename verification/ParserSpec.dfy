/** The recursive-descent parser as functions of the remaining tokens. */
module ParserSpec {
  import opened Tokens
  import opened Syntax
  import opened Wrappers

  type Toks = seq<Token>

  /** Kind of the token under the cursor; past the end counts as EOF. */
  function Head(ts: Toks): TokenKind {
    if ts == [] then Eof else ts[0].kind
  }

  predicate HeadIsWord(ts: Toks, w: string) {
    ts != [] && ts[0].kind == Word && ts[0].value == w
  }

  function SkipNewlines(ts: Toks): (r: Toks)
    ensures |r| <= |ts| && Head(r) != Newline
  {
    if Head(ts) == Newline then SkipNewlines(ts[1..]) else ts
  }

  /** A subtree, the tokens left, and whether an error was recorded. */
  datatype Parsed = Parsed(ast: Ast, rest: Toks, error: bool)

  // ------------------------------------------------------- simple commands

  /** Text of an arithmetic expansion rebuilt from its tokens: a space before
      each token that does not follow an opening parenthesis. */
  function ArithText(ts: Toks, buf: string): (r: (string, Toks, bool))
    requires buf != ""
    ensures |r.1| <= |ts|
  {
    if Head(ts) == ArithClose then (buf + "))", ts[1..], false)
    else if Head(ts) == Eof then ("", ts, true)
    else ArithText(ts[1..], buf + (if buf[|buf| - 1] != '(' then " " else "") + ts[0].value)
  }

  function Assignments(ts: Toks, acc: seq<string>): (r: (seq<string>, Toks, bool))
    ensures |r.1| <= |ts|
    ensures acc <= r.0
    decreases |ts|
  {
    if Head(ts) == Word && IsAssignment(ts[0].value) then
      if Head(ts[1..]) == ArithOpen then
        var (text, rest, bad) := ArithText(ts[2..], "$((");
        var (all, rest', bad') := Assignments(rest, acc + [ts[0].value + text]);
        (all, rest', bad || bad')
      else Assignments(ts[1..], acc + [ts[0].value])
    else (acc, ts, false)
  }

  predicate InCommand(k: TokenKind) {
    k == Word || k == ArithOpen || IsRedir(k)
  }

  /** Tokens after an arithmetic expansion, as the counting pass skips them. */
  function SkipArith(ts: Toks): (r: Toks)
    ensures |r| <= |ts|
  {
    if ts == [] then []
    else if ts[0].kind == ArithClose || ts[0].kind == Eof then ts[1..]
    else SkipArith(ts[1..])
  }

  /** Counting pass: number of argument slots the command needs. */
  function CountArgs(ts: Toks): nat
    decreases |ts|
  {
    if !InCommand(Head(ts)) then 0
    else if ts[0].kind == Word then 1 + CountArgs(ts[1..])
    else if ts[0].kind == ArithOpen then 1 + CountArgs(SkipArith(ts[1..]))
    else if |ts| == 1 then 0
    else CountArgs(ts[2..])
  }

  /** Filling pass: arguments and redirections in source order. */
  function BuildCommand(ts: Toks, c: Command): (r: Parsed)
    ensures |r.rest| <= |ts|
    decreases |ts|
  {
    if !InCommand(Head(ts)) then Parsed(Cmd(c), ts, false)
    else if ts[0].kind == Word then BuildCommand(ts[1..], c.(argv := c.argv + [ts[0].value]))
    else if ts[0].kind == ArithOpen then
      var (text, rest, bad) := ArithText(ts[1..], "$((");
      var p := BuildCommand(rest, c.(argv := c.argv + [text]));
      p.(error := p.error || bad)
    else if Head(ts[1..]) != Word then Parsed(Null, if |ts| == 1 then [] else ts[2..], true)
    else BuildCommand(ts[2..], c.(redirs := c.redirs + [MakeRedir(ts[0].kind, ts[0].io, ts[1].value)]))
  }

  function SimpleCommand(ts: Toks): (r: Parsed)
    ensures |r.rest| <= |ts|
    decreases |ts|, 2
  {
    var (assigns, rest, bad) := Assignments(ts, []);
    if Head(rest) == LParen then
      var p := SubshellCommand(rest);
      p.(error := p.error || bad)
    else
      var start := SkipNewlines(rest);
      if CountArgs(start) == 0 && assigns == [] && !IsHeredoc(Head(start)) then Parsed(Null, start, true)
      else
        var p := BuildCommand(start, Command([], assigns, []));
        p.(error := p.error || bad)
  }

  // --------------------------------------------------------------- groups

  function GroupRedirs(kind: GroupKind, child: Ast, redirs: seq<Redir>, ts: Toks): (r: Parsed)
    ensures |r.rest| <= |ts|
    decreases |ts|
  {
    if !IsRedir(Head(ts)) then Parsed(Grp(kind, child, redirs), ts, false)
    else if Head(ts[1..]) != Word then Parsed(Null, if |ts| == 1 then [] else ts[2..], true)
    else GroupRedirs(kind, child, redirs + [MakeRedir(ts[0].kind, ts[0].io, ts[1].value)], ts[2..])
  }

  /** At `(`. */
  function SubshellCommand(ts: Toks): (r: Parsed)
    requires ts != []
    ensures |r.rest| <= |ts|
    decreases |ts|, 1
  {
    var c := CommandList(SkipNewlines(ts[1..]));
    var rest := SkipNewlines(c.rest);
    if c.ast == Null then c
    else if Head(rest) != RParen then Parsed(Null, rest, true)
    else
      var p := GroupRedirs(Subshell, c.ast, [], rest[1..]);
      p.(error := p.error || c.error)
  }

  /** At the word `{`. */
  function BlockCommand(ts: Toks): (r: Parsed)
    requires ts != []
    ensures |r.rest| <= |ts|
    decreases |ts|, 1
  {
    var c := CommandList(SkipNewlines(ts[1..]));
    var rest := SkipNewlines(c.rest);
    if c.ast == Null then c
    else if !HeadIsWord(rest, "}") then Parsed(Null, if rest == [] then [] else rest[1..], true)
    else
      var p := GroupRedirs(Block, c.ast, [], rest[1..]);
      p.(error := p.error || c.error)
  }

  function AnyCommand(ts: Toks): (r: Parsed)
    ensures |r.rest| <= |ts|
    decreases |ts|, 3
  {
    if ts == [] then Parsed(Null, ts, false)
    else if Head(ts) == LParen then SubshellCommand(ts)
    else if HeadIsWord(ts, "{") then BlockCommand(ts)
    else SimpleCommand(ts)
  }

  // ----------------------------------------------- pipelines, and-or, lists

  function Pipeline(ts: Toks): (r: Parsed)
    ensures |r.rest| <= |ts|
    decreases |ts|, 5
  {
    var c := AnyCommand(ts);
    if c.ast == Null then c else PipelineLoop(c.ast, c.rest, c.error)
  }

  function PipelineLoop(left: Ast, ts: Toks, error: bool): (r: Parsed)
    ensures |r.rest| <= |ts|
    decreases |ts|, 4
  {
    if Head(ts) != Pipe then Parsed(left, ts, error)
    else
      var c := AnyCommand(ts[1..]);
      if c.ast == Null then Parsed(Null, c.rest, true)
      else PipelineLoop(Bin(PipeOp, left, c.ast), c.rest, error || c.error)
  }

  function AndOr(ts: Toks): (r: Parsed)
    ensures |r.rest| <= |ts|
    decreases |ts|, 7
  {
    var c := Pipeline(ts);
    if c.ast == Null then c else AndOrLoop(c.ast, c.rest, c.error)
  }

  function AndOrLoop(left: Ast, ts: Toks, error: bool): (r: Parsed)
    ensures |r.rest| <= |ts|
    decreases |ts|, 6
  {
    if Head(ts) != And && Head(ts) != Or then Parsed(left, ts, error)
    else
      var c := Pipeline(ts[1..]);
      if c.ast == Null then Parsed(Null, c.rest, true)
      else AndOrLoop(Bin(if Head(ts) == And then AndOp else OrOp, left, c.ast), c.rest, error || c.error)
  }

  datatype Separator = NoSep | Sequential | Async

  /** Newlines and at most one `;` or, with no newline before it, `&`. */
  function Separators(ts: Toks): (r: (Separator, Toks))
    ensures |r.1| <= |ts| && (r.0 != NoSep ==> |r.1| < |ts|)
  {
    var after := SkipNewlines(ts);
    if Head(after) == Semicolon then (Sequential, SkipNewlines(after[1..]))
    else if Head(ts) == Newline then (Sequential, after)
    else if Head(ts) == Ampersand then (Async, SkipNewlines(ts[1..]))
    else (NoSep, ts)
  }

  /** A list stops before the end of input, `)` and the word `}`. */
  predicate Terminator(ts: Toks) {
    Head(ts) == Eof || Head(ts) == RParen || HeadIsWord(ts, "}")
  }

  function CommandList(ts: Toks): (r: Parsed)
    ensures |r.rest| <= |ts|
    decreases |ts|, 9
  {
    var c := AndOr(ts);
    if c.ast == Null then c else ListLoop(c.ast, c.rest, c.error)
  }

  function ListLoop(left: Ast, ts: Toks, error: bool): (r: Parsed)
    ensures |r.rest| <= |ts|
    decreases |ts|, 8
  {
    var (sep, rest) := Separators(ts);
    if sep == NoSep then Parsed(left, ts, error)
    else
      var elem := if sep == Async then Grp(Background, left, []) else left;
      if Terminator(rest) then Parsed(elem, rest, error)
      else
        var c := CommandList(rest);
        ListLoop(Bin(SeqOp, elem, c.ast), c.rest, error || c.error)
  }

  /** The whole input: one list and nothing after it but EOF. */
  function Parse(ts: Toks): Option<Ast> {
    var c := CommandList(SkipNewlines(ts));
    var rest := SkipNewlines(c.rest);
    if c.error || rest == [] || Head(rest) != Eof then None else Some(c.ast)
  }
}
