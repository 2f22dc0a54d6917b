/** Word expansion as functions of the rest of the word. */
module ExpanderSpec {
  import opened Ascii
  import opened Wrappers
  import opened ArithSpec
  import opened FieldSplitSpec

  /** What expansion reads outside the word: variables that have a value, the
      shell's pid, home directories, and the answer of the child that runs a
      command substitution (its output, None if it could not be started, and
      the exit status left behind). */
  datatype Env = Env(
    vars: map<string, string>,
    pid: int,
    ownHome: Option<string>,
    homes: map<string, string>,
    run: (string, State) -> (Option<string>, int))

  /** `$?`, and how many command substitutions have run. */
  datatype State = State(status: int, runs: nat)

  /** Outcome of one expansion step: bytes written and input left. */
  datatype Piece = Piece(ok: bool, out: Bytes, rest: string, st: State)

  function Lookup(env: Env, name: string): string {
    if name in env.vars then env.vars[name] else ""
  }

  function Special(env: Env, c: char, st: State): Option<string> {
    if c == '?' then Some(Lltoa(st.status))
    else if c == '$' then Some(Lltoa(env.pid))
    else if c == '0' then Some("42sh")
    else None
  }

  /** `${...}`; without a closing brace `${` is written and the brace is left
      to be read again. */
  function Braced(env: Env, s: string, dq: bool, st: State): (r: Piece)
    requires At(s, 0) == '$' && At(s, 1) == '{'
    ensures |r.rest| < |s|
  {
    var body := s[2..];
    var n := IndexOfChar(body, '}');
    if n == |body| then Piece(true, Cells("${", false), s[1..], st)
    else
      var text := if n == 1 && Special(env, body[0], st).Some? then Special(env, body[0], st).value
                  else Lookup(env, body[..n]);
      Piece(true, Cells(text, !dq), body[n + 1..], st)
  }

  /** Bytes up to and with the `))` that closes an arithmetic expansion. */
  function FindArith(s: string, depth: nat): (n: Option<nat>)
    ensures n.Some? ==> n.value <= |s| && (depth > 0 ==> 2 <= n.value)
  {
    if depth == 0 then Some(0)
    else if s == "" then None
    else
      var k := if (At(s, 0) == '(' && At(s, 1) == '(') || (At(s, 0) == ')' && At(s, 1) == ')') then 2 else 1;
      var depth' := if k == 1 then depth else if s[0] == '(' then depth + 1 else depth - 1;
      var n := FindArith(s[k..], depth');
      if n.None? then None else Some(k + n.value)
  }

  /** Position of the `)` that closes a command substitution. */
  function FindClose(s: string, depth: nat, sq: bool, dq: bool): (n: Option<nat>)
    requires depth > 0
    ensures n.Some? ==> n.value < |s| && s[n.value] == ')'
    decreases |s|
  {
    if s == "" then None
    else if s[0] == '\\' && |s| > 1 && !sq then
      var n := FindClose(s[2..], depth, sq, dq);
      if n.None? then None else Some(2 + n.value)
    else if !sq && !dq && s[0] == ')' && depth == 1 then Some(0)
    else
      var sq' := if s[0] == '\'' && !dq then !sq else sq;
      var dq' := if s[0] == '"' && !sq then !dq else dq;
      var depth' := if sq || dq || s[0] == '\'' || s[0] == '"' then depth
                    else if s[0] == '(' then depth + 1
                    else if s[0] == ')' then depth - 1
                    else depth;
      var n := FindClose(s[1..], depth', sq', dq');
      if n.None? then None else Some(1 + n.value)
  }

  /** Output without the newlines at its end, as section 2.6.3 of XCU asks. */
  function StripNewlines(s: string): (r: string)
    ensures |r| <= |s|
  {
    if s != "" && s[|s| - 1] == '\n' then StripNewlines(s[..|s| - 1]) else s
  }

  function Cmdsub(env: Env, s: string, dq: bool, st: State): (r: Piece)
    requires At(s, 0) == '$' && At(s, 1) == '('
    ensures |r.rest| < |s|
  {
    var body := s[2..];
    var end := FindClose(body, 1, false, false);
    if end.None? then Piece(false, [], "", st.(status := 2))
    else
      var (captured, status) := env.run(body[..end.value], st);
      var out := if captured.Some? then Cells(StripNewlines(captured.value), !dq) else [];
      Piece(true, out, body[end.value + 1..], State(status, st.runs + 1))
  }

  /** A leading `~` or `~user`. */
  function Tilde(env: Env, s: string, st: State): (r: Piece)
    requires At(s, 0) == '~'
    ensures |r.rest| < |s|
  {
    var n := IndexOfChar(s[1..], '/');
    if n == 0 then
      var text := if "HOME" in env.vars then env.vars["HOME"]
                  else if env.ownHome.Some? then env.ownHome.value
                  else "~";
      Piece(true, Cells(text, false), s[1..], st)
    else
      var name := s[1..1 + n];
      var text := if name in env.homes then env.homes[name] else s[..1 + n];
      Piece(true, Cells(text, false), s[1 + n..], st)
  }

  /** `$((...))`: the text between is expanded as a word and evaluated. */
  function Arithmetic(env: Env, s: string, dq: bool, st: State): (r: Piece)
    requires At(s, 0) == '$' && At(s, 1) == '(' && At(s, 2) == '('
    ensures |r.rest| < |s|
    decreases |s|, 0
  {
    var body := s[3..];
    var n := FindArith(body, 1);
    if n.None? then Piece(false, [], "", st)
    else
      var w := ExpandWord(env, body[..n.value - 2], true, NONE, st);
      if !w.ok then Piece(false, [], "", w.st)
      else
        var v := Eval(Text(w.out));
        if v.None? then Piece(false, [], "", w.st)
        else Piece(true, Cells(Lltoa(v.value), !dq), body[n.value..], w.st)
  }

  function Dollar(env: Env, s: string, dq: bool, st: State): (r: Piece)
    requires At(s, 0) == '$'
    ensures |r.rest| < |s|
    decreases |s|, 1
  {
    var c := At(s, 1);
    if c == '(' && At(s, 2) == '(' then Arithmetic(env, s, dq, st)
    else if c == '(' then Cmdsub(env, s, dq, st)
    else if |s| == 1 then Piece(true, [Cell('$', !dq)], "", st)
    else if c == '{' then Braced(env, s, dq, st)
    else if Special(env, c, st).Some? then Piece(true, Cells(Special(env, c, st).value, !dq), s[2..], st)
    else if IsNameStart(c) then
      var n := NameLen(s[1..]);
      Piece(true, Cells(Lookup(env, s[1..1 + n]), !dq), s[1 + n..], st)
    else Piece(true, [Cell('$', !dq)], s[1..], st)
  }

  /** Quote state of a word. */
  datatype Quotes = Quotes(sq: bool, dq: bool)

  const NONE := Quotes(false, false)

  predicate DqEscapable(c: char) {
    c == '$' || c == '`' || c == '"' || c == '\\'
  }

  /** The next bytes of a word. */
  function WordStep(env: Env, s: string, first: bool, q: Quotes, st: State): (r: (Piece, Quotes))
    requires s != ""
    ensures |r.0.rest| < |s|
    decreases |s|, 2
  {
    var c := s[0];
    if c == '\'' && !q.dq then (Piece(true, [], s[1..], st), q.(sq := !q.sq))
    else if c == '"' && !q.sq then (Piece(true, [], s[1..], st), q.(dq := !q.dq))
    else if q.sq then (Piece(true, [Cell(c, false)], s[1..], st), q)
    else if c == '\\' then
      if At(s, 1) == '\n' && |s| > 1 then (Piece(true, [], s[2..], st), q)
      else if q.dq then
        if |s| > 1 && DqEscapable(s[1]) then (Piece(true, [Cell(s[1], false)], s[2..], st), q)
        else (Piece(true, [Cell(c, false)], s[1..], st), q)
      else if |s| == 1 then (Piece(true, [], "", st), q)
      else (Piece(true, [Cell(s[1], false)], s[2..], st), q)
    else if c == '$' then (Dollar(env, s, q.dq, st), q)
    else if c == '~' && first && !q.dq then (Tilde(env, s, st), q)
    else (Piece(true, [Cell(c, !q.dq)], s[1..], st), q)
  }

  /** The whole word; `first` holds at its first byte only. */
  function ExpandWord(env: Env, s: string, first: bool, q: Quotes, st: State): (r: Piece)
    decreases |s|, 3
  {
    if s == "" then Piece(true, [], "", st)
    else
      var (a, q') := WordStep(env, s, first, q, st);
      if !a.ok then a
      else
        var b := ExpandWord(env, a.rest, false, q', a.st);
        Piece(b.ok, a.out + b.out, b.rest, b.st)
  }

  /** A quote outside backslash escapes. */
  predicate HasQuote(s: string) {
    if s == "" then false
    else if s[0] == '\\' && |s| > 1 then HasQuote(s[2..])
    else s[0] == '\'' || s[0] == '"' || HasQuote(s[1..])
  }

  function Ifs(env: Env): Option<string> {
    if "IFS" in env.vars then Some(env.vars["IFS"]) else None
  }

  /** Fields of one word, None on an expansion error. */
  function WordFields(env: Env, word: string, st: State): (Option<seq<string>>, State) {
    var w := ExpandWord(env, word, true, NONE, st);
    if !w.ok then (None, w.st)
    else
      var fields := FieldSplit(Ifs(env), w.out);
      (Some(if fields == [] && HasQuote(word) then [""] else fields), w.st)
  }

  /** The expanded arguments of a command. */
  function Argv(env: Env, words: seq<string>, st: State): (Option<seq<string>>, State) {
    if words == [] then (Some([]), st)
    else
      var (fields, st') := WordFields(env, words[0], st);
      if fields.None? then (None, st')
      else
        var (rest, st'') := Argv(env, words[1..], st');
        if rest.None? then (None, st'') else (Some(fields.value + rest.value), st'')
  }
}
