/** Reading one logical line: which physical lines it spans, and which lines
    go to the here-documents it opens. */
module InputSpec {
  import opened Ascii
  import opened Wrappers

  /** A here-document waiting for its body; `strip` for `<<-`. */
  datatype Hd = Hd(delim: string, strip: bool)

  /** What the text so far leaves open. */
  datatype Ctx = Ctx(sq: bool, dq: bool, depth: nat, bs: bool, pending: seq<Hd>)

  const START := Ctx(false, false, 0, false, [])

  function Needs(c: Ctx): bool {
    c.sq || c.dq || c.bs || c.depth > 0 || c.pending != []
  }

  // ------------------------------------------------------- scanning a line

  predicate IsBlank(c: char) {
    c == ' ' || c == '\t'
  }

  function SkipBlanks(s: string): (n: nat)
    ensures n <= |s|
  {
    if s != "" && IsBlank(s[0]) then 1 + SkipBlanks(s[1..]) else 0
  }

  predicate EndsDelim(s: string) {
    s == "" || s[0] in " \t;|&()<>" || s == "\\"
  }

  function DelimLen(s: string): (n: nat)
    ensures n <= |s|
  {
    if EndsDelim(s) then 0 else 1 + DelimLen(s[1..])
  }

  /** The delimiter that starts `s`, and how many bytes it takes. */
  function ReadDelim(s: string): (r: (Option<string>, nat))
    ensures r.1 <= |s|
  {
    var b := SkipBlanks(s);
    var t := s[b..];
    if t != "" && (t[0] == '\'' || t[0] == '"') then
      var n := IndexOfChar(t[1..], t[0]);
      (Some(t[1..][..n]), b + 1 + n + (if n < |t[1..]| then 1 else 0))
    else
      var n := DelimLen(t);
      (if n == 0 then None else Some(t[..n]), b + n)
  }

  /** At `<<`: the here-document, if a delimiter follows, and the bytes used. */
  function HdOp(s: string): (r: (Option<Hd>, nat))
    requires |s| >= 2
    ensures 2 <= r.1 <= |s|
  {
    var strip := At(s, 2) == '-';
    var from := if strip then 3 else 2;
    var (delim, n) := ReadDelim(s[from..]);
    (if delim.Some? then Some(Hd(delim.value, strip)) else None, from + n)
  }

  function Scan(s: string, c: Ctx): Ctx
    decreases |s|
  {
    if s == "" then c
    else if !c.sq && s[0] == '\\' then
      if |s| == 1 then c.(bs := true) else Scan(s[2..], c)
    else if !c.dq && s[0] == '\'' then Scan(s[1..], c.(sq := !c.sq))
    else if !c.sq && s[0] == '"' then Scan(s[1..], c.(dq := !c.dq))
    else if c.sq || c.dq then Scan(s[1..], c)
    else if s[0] == '#' then c
    else if s[0] == '(' then Scan(s[1..], c.(depth := c.depth + 1))
    else if s[0] == ')' && c.depth > 0 then Scan(s[1..], c.(depth := c.depth - 1))
    else if s[0] == '<' && At(s, 1) == '<' then
      var (hd, n) := HdOp(s);
      Scan(s[n..], if hd.Some? then c.(pending := c.pending + [hd.value]) else c)
    else Scan(s[1..], c)
  }

  function ScanLine(line: string, c: Ctx): Ctx {
    Scan(line, c.(bs := false))
  }

  // ------------------------------------------------- reading a logical line

  /** Where a line after the first goes: joined with a newline, glued after a
      backslash, or to here-document `k` as body or delimiter. */
  datatype Role = Joined | Glued | Body(k: nat) | End(k: nat)

  /** A logical line: its text, the bodies read for it, and for the proofs the
      roles of the lines, the here-documents, the final context; the lines
      left. */
  datatype Outcome = Outcome(text: string, bodies: seq<string>, roles: seq<Role>, hds: seq<Hd>, ctx: Ctx,
                             rest: seq<string>)

  function StripTabs(s: string): string {
    if s != "" && s[0] == '\t' then StripTabs(s[1..]) else s
  }

  function Stripped(line: string, hd: Hd): string {
    if hd.strip then StripTabs(line) else line
  }

  /** The body of here-document `k`, up to its delimiter or the last line. */
  function Collect(lines: seq<string>, hd: Hd, k: nat): (r: (string, seq<Role>))
    ensures |r.1| <= |lines|
    ensures lines != [] ==> r.1 != []
  {
    if lines == [] then ("", [])
    else if Stripped(lines[0], hd) == hd.delim then ("", [End(k)])
    else
      var (body, roles) := Collect(lines[1..], hd, k);
      (Stripped(lines[0], hd) + "\n" + body, [Body(k)] + roles)
  }

  /** The bodies of all waiting here-documents, in order. */
  function Drain(lines: seq<string>, hds: seq<Hd>, k: nat): (r: (seq<string>, seq<Role>))
    ensures |r.0| == |hds| && |r.1| <= |lines|
    decreases |hds|
  {
    if hds == [] then ([], [])
    else
      var (body, roles) := Collect(lines, hds[0], k);
      var (bodies, roles') := Drain(lines[|roles|..], hds[1..], k + 1);
      ([body] + bodies, roles + roles')
  }

  function StripBs(line: string): string {
    if line != "" && line[|line| - 1] == '\\' then line[..|line| - 1] else line
  }

  /** Continues `line` until nothing is open or the lines run out; `k` bodies
      have been read before. A backslash scans the glued text afresh. */
  function Logical(line: string, c: Ctx, lines: seq<string>, k: nat): Outcome
    decreases |lines|, |c.pending|
  {
    if !Needs(c) then Outcome(line, [], [], [], c, lines)
    else if c.bs then
      if lines == [] then Outcome(StripBs(line), [], [], [], c, [])
      else
        var glued := StripBs(line) + lines[0];
        var o := Logical(glued, ScanLine(glued, START), lines[1..], k);
        o.(roles := [Glued] + o.roles)
    else if c.pending != [] then
      var (bodies, roles) := Drain(lines, c.pending, k);
      var o := Logical(line, c.(pending := []), lines[|roles|..], k + |bodies|);
      o.(bodies := bodies + o.bodies, roles := roles + o.roles, hds := c.pending + o.hds)
    else if lines == [] then Outcome(line, [], [], [], c, [])
    else
      var o := Logical(line + "\n" + lines[0], ScanLine(lines[0], c), lines[1..], k);
      o.(roles := [Joined] + o.roles)
  }

  function ReadLogical(lines: seq<string>): Option<Outcome> {
    if lines == [] then None else Some(Logical(lines[0], ScanLine(lines[0], START), lines[1..], 0))
  }
}
