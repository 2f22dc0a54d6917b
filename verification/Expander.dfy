/** Word expansion: a position in the word, the quote state and the buffer that
    receives the bytes. Each method is tied to the function of `ExpanderSpec`
    for the rest of the word. */
module Expander {
  import opened Ascii
  import opened Wrappers
  import opened ArithSpec
  import opened FieldSplitSpec
  import opened ExpanderSpec
  import opened Buffer
  import Arith
  import FieldSplit

  class Expander {
    const env: Env
    var st: State

    constructor (env: Env, st: State)
      ensures this.env == env && this.st == st
    {
      this.env := env;
      this.st := st;
    }

    /** Position of the first `c` at or after `from`, the length if none. */
    static method FindByte(s: string, from: nat, c: char) returns (i: nat)
      requires from <= |s|
      ensures i <= |s| && i == from + IndexOfChar(s[from..], c)
    {
      i := from;
      while i < |s| && s[i] != c
        invariant from <= i <= |s|
        invariant i + IndexOfChar(s[i..], c) == from + IndexOfChar(s[from..], c)
      {
        assert s[i..][1..] == s[i + 1..];
        i := i + 1;
      }
    }

    /** `$?`, `$$` or `$0`; false when `c` names none of them. */
    method PushSpecial(c: char, dq: bool, out: XBuf) returns (done: bool)
      requires out.Valid()
      modifies out.Repr
      ensures out.Valid() && fresh(out.Repr - old(out.Repr))
      ensures done == Special(env, c, st).Some?
      ensures out.Contents == old(out.Contents) + (if done then Cells(Special(env, c, st).value, !dq) else [])
    {
      var text;
      if c == '?' {
        text := Lltoa(st.status);
      } else if c == '$' {
        text := Lltoa(env.pid);
      } else if c == '0' {
        text := "42sh";
      } else {
        return false;
      }
      out.Puts(text, !dq);
      done := true;
    }

    method PushVariable(name: string, dq: bool, out: XBuf)
      requires out.Valid()
      modifies out.Repr
      ensures out.Valid() && fresh(out.Repr - old(out.Repr))
      ensures out.Contents == old(out.Contents) + Cells(Lookup(env, name), !dq)
    {
      if name in env.vars {
        out.Puts(env.vars[name], !dq);
      } else {
        assert Cells("", !dq) == [];
      }
    }

    /** At the `{` that follows a `$`. */
    method ExpandBraced(input: string, pos: nat, dq: bool, out: XBuf) returns (next: nat)
      requires out.Valid()
      requires 0 < pos < |input| && input[pos - 1] == '$' && input[pos] == '{'
      modifies out.Repr
      ensures out.Valid() && fresh(out.Repr - old(out.Repr))
      ensures var r := Braced(env, input[pos - 1..], dq, st);
              r.ok && r.st == st && next <= |input| && input[next..] == r.rest
              && out.Contents == old(out.Contents) + r.out
    {
      hide IndexOfChar, Special, Lookup, XBuf.Valid;
      ghost var s := input[pos - 1..];
      var start := pos + 1;
      assert s[2..] == input[start..];
      var end := FindByte(input, start, '}');
      if end == |input| {
        out.Puts("${", false);
        assert s[1..] == input[pos..];
        return pos;
      }
      var name := input[start..end];
      assert name == s[2..][..end - start];
      if end == start + 1 {
        var done := PushSpecial(input[start], dq, out);
        if done {
          assert s[2..][end - start + 1..] == input[end + 1..];
          return end + 1;
        }
      }
      PushVariable(name, dq, out);
      assert s[2..][end - start + 1..] == input[end + 1..];
      next := end + 1;
    }

    /** At the first byte of the name that follows a `$`. */
    method ExpandNamed(input: string, pos: nat, dq: bool, out: XBuf) returns (next: nat)
      requires out.Valid() && pos <= |input|
      modifies out.Repr
      ensures out.Valid() && fresh(out.Repr - old(out.Repr))
      ensures var n := NameLen(input[pos..]);
              next == pos + n && next <= |input|
              && out.Contents == old(out.Contents) + Cells(Lookup(env, input[pos..next]), !dq)
    {
      next := pos;
      while next < |input| && IsNameChar(input[next])
        invariant pos <= next <= |input|
        invariant next + NameLen(input[next..]) == pos + NameLen(input[pos..])
      {
        assert input[next..][1..] == input[next + 1..];
        next := next + 1;
      }
      PushVariable(input[pos..next], dq, out);
    }

    /** Index of the `)` that ends a command substitution, None if unbalanced. */
    static method FindSubstitutionEnd(input: string, start: nat) returns (end: Option<nat>)
      requires start <= |input|
      ensures end == Plus(start, FindClose(input[start..], 1, false, false))
      ensures end.Some? ==> start <= end.value < |input|
    {
      hide FindClose, Plus;
      var i := start;
      var depth, inSq, inDq := 1, false, false;
      while i < |input|
        invariant start <= i <= |input| && depth > 0
        invariant Plus(i, FindClose(input[i..], depth, inSq, inDq))
            == Plus(start, FindClose(input[start..], 1, false, false))
      {
        CloseAt(input, i, depth, inSq, inDq);
        if input[i] == '\\' && i + 1 < |input| && !inSq {
          i := i + 2;
          continue;
        }
        if input[i] == '\'' && !inDq {
          inSq := !inSq;
        } else if input[i] == '"' && !inSq {
          inDq := !inDq;
        } else if !inSq && !inDq {
          if input[i] == '(' {
            depth := depth + 1;
          } else if input[i] == ')' {
            if depth == 1 {
              EndFound(input, start);
              return Some(i);
            }
            depth := depth - 1;
          }
        }
        i := i + 1;
      }
      NoClose(input, i, depth, inSq, inDq);
      end := None;
    }

    /** The output of a command, its final newlines dropped. */
    static method StripTrailingNewlines(buf: string) returns (text: string)
      ensures text == StripNewlines(buf)
    {
      var len := |buf|;
      assert buf[..len] == buf;
      while len > 0 && buf[len - 1] == '\n'
        invariant 0 <= len <= |buf|
        invariant StripNewlines(buf[..len]) == StripNewlines(buf)
      {
        assert buf[..len][..len - 1] == buf[..len - 1];
        len := len - 1;
      }
      text := buf[..len];
    }

    /** `$(...)`: the child's answer is spliced in. */
    method ExpandCmdsub(input: string, pos: nat, dq: bool, out: XBuf) returns (ok: bool, next: nat)
      requires out.Valid()
      requires pos < |input| && At(input[pos..], 0) == '$' && At(input[pos..], 1) == '('
      modifies out.Repr, `st
      ensures out.Valid() && fresh(out.Repr - old(out.Repr))
      ensures var r := Cmdsub(env, input[pos..], dq, old(st));
              ok == r.ok && st == r.st && (ok ==>
                next <= |input| && input[next..] == r.rest && out.Contents == old(out.Contents) + r.out)
    {
      hide FindClose;
      ghost var s := input[pos..];
      var start := pos + 2;
      assert s[2..] == input[start..];
      var end := FindSubstitutionEnd(input, start);
      assert end.Some? ==> end.value - start == FindClose(s[2..], 1, false, false).value;
      if end.None? {
        st := st.(status := 2);
        return false, pos;
      }
      var script := input[start..end.value];
      assert script == s[2..][..end.value - start];
      assert s[2..][end.value - start + 1..] == input[end.value + 1..];
      var (captured, status) := env.run(script, st);
      st := State(status, st.runs + 1);
      if captured.Some? {
        var text := StripTrailingNewlines(captured.value);
        out.Puts(text, !dq);
      }
      return true, end.value + 1;
    }

    /** A `~` at the start of a word. */
    method ExpandTilde(input: string, pos: nat, out: XBuf) returns (next: nat)
      requires out.Valid() && pos < |input| && input[pos] == '~'
      modifies out.Repr
      ensures out.Valid() && fresh(out.Repr - old(out.Repr))
      ensures var r := Tilde(env, input[pos..], st);
              r.ok && r.st == st && next <= |input| && input[next..] == r.rest
              && out.Contents == old(out.Contents) + r.out
    {
      hide IndexOfChar, XBuf.Valid;
      ghost var s := input[pos..];
      assert s[1..] == input[pos + 1..];
      if pos + 1 == |input| || input[pos + 1] == '/' {
        if "HOME" in env.vars {
          out.Puts(env.vars["HOME"], false);
        } else if env.ownHome.Some? {
          out.Puts(env.ownHome.value, false);
        } else {
          out.Puts("~", false);
        }
        return pos + 1;
      }
      var end := FindByte(input, pos + 1, '/');
      var name := input[pos + 1..end];
      assert name == s[1..end - pos];
      assert input[pos..end] == s[..end - pos];
      if name in env.homes {
        out.Puts(env.homes[name], false);
      } else {
        out.Puts(input[pos..end], false);
      }
      next := end;
    }

    /** Offset just past the `))` that ends an arithmetic expansion, None if
        the parentheses do not close. */
    static method FindArithEnd(input: string, start: nat) returns (end: Option<nat>)
      requires start <= |input|
      ensures end == Plus(start, FindArith(input[start..], 1))
      ensures end.Some? ==> start + 2 <= end.value <= |input|
    {
      hide FindArith;
      var i, depth := start, 1;
      while i < |input| && depth > 0
        invariant start <= i <= |input|
        invariant Plus(i, FindArith(input[i..], depth)) == Plus(start, FindArith(input[start..], 1))
        decreases |input| - i
      {
        ghost var rest := input[i..];
        assert At(rest, 1) == At(input, i + 1) && rest[1..] == input[i + 1..];
        assert |rest| > 1 ==> rest[2..] == input[i + 2..];
        ArithTurn(rest, depth);
        if input[i] == '(' && At(input, i + 1) == '(' {
          depth := depth + 1;
          i := i + 2;
        } else if input[i] == ')' && At(input, i + 1) == ')' {
          depth := depth - 1;
          i := i + 2;
        } else {
          i := i + 1;
        }
      }
      ArithEnds(input[i..], depth);
      end := if depth != 0 then None else Some(i);
    }

    /** `$((...))`: expand the text as a word, evaluate it, print the value. */
    method ExpandArithmetic(input: string, pos: nat, dq: bool, out: XBuf) returns (ok: bool, next: nat)
      requires out.Valid() && pos < |input|
      requires At(input[pos..], 0) == '$' && At(input[pos..], 1) == '(' && At(input[pos..], 2) == '('
      modifies out.Repr, `st
      ensures out.Valid() && fresh(out.Repr - old(out.Repr))
      ensures var r := Arithmetic(env, input[pos..], dq, old(st));
              ok == r.ok && st == r.st && (ok ==>
                next <= |input| && input[next..] == r.rest && out.Contents == old(out.Contents) + r.out)
      decreases |input|, 1
    {
      hide FindArith, ExpandWord, Eval;
      ghost var s := input[pos..];
      var start := pos + 3;
      next := pos;
      assert s[3..] == input[start..];
      var end := FindArithEnd(input, start);
      assert end.Some? ==> end.value - start == FindArith(s[3..], 1).value;
      if end.None? {
        return false, pos;
      }
      var raw := input[start..end.value - 2];
      assert raw == s[3..][..end.value - start - 2];
      assert s[3..][end.value - start..] == input[end.value..];
      var text := ExpandString(raw);
      if text.None? {
        return false, pos;
      }
      var result := Arith.ArithEval(text.value);
      if result.None? {
        return false, pos;
      }
      out.Puts(Lltoa(result.value), !dq);
      return true, end.value;
    }

    method ExpandDollar(input: string, pos: nat, dq: bool, out: XBuf) returns (ok: bool, next: nat)
      requires out.Valid() && pos < |input| && input[pos] == '$'
      modifies out.Repr, `st
      ensures out.Valid() && fresh(out.Repr - old(out.Repr))
      ensures var r := Dollar(env, input[pos..], dq, old(st));
              ok == r.ok && st == r.st && (ok ==>
                next <= |input| && input[next..] == r.rest && out.Contents == old(out.Contents) + r.out)
      decreases |input|, 2
    {
      hide Arithmetic, Cmdsub, Braced;
      ghost var s := input[pos..];
      assert At(s, 1) == At(input, pos + 1) && At(s, 2) == At(input, pos + 2) && s[1..] == input[pos + 1..];
      assert |s| > 1 ==> s[2..] == input[pos + 2..];
      if At(input, pos + 1) == '(' && At(input, pos + 2) == '(' {
        ok, next := ExpandArithmetic(input, pos, dq, out);
        return;
      }
      if At(input, pos + 1) == '(' {
        ok, next := ExpandCmdsub(input, pos, dq, out);
        return;
      }
      ok := true;
      next := ExpandNamePart(input, pos, dq, out);
    }

    /** A `$` that no `(` follows. */
    method ExpandNamePart(input: string, pos: nat, dq: bool, out: XBuf) returns (next: nat)
      requires out.Valid() && pos < |input| && input[pos] == '$' && At(input, pos + 1) != '('
      modifies out.Repr
      ensures out.Valid() && fresh(out.Repr - old(out.Repr))
      ensures var r := Dollar(env, input[pos..], dq, st);
              r.ok && r.st == st && next <= |input| && input[next..] == r.rest
              && out.Contents == old(out.Contents) + r.out
    {
      hide Arithmetic, Cmdsub, Braced, Special, Lookup, NameLen, IndexOfChar, IsNameStart, XBuf.Valid;
      ghost var s := input[pos..];
      assert At(s, 1) == At(input, pos + 1) && s[1..] == input[pos + 1..];
      assert |s| > 1 ==> s[2..] == input[pos + 2..];
      next := pos + 1;
      if next == |input| {
        out.Putc('$', !dq);
        return;
      }
      var c := input[next];
      if c == '{' {
        next := ExpandBraced(input, next, dq, out);
        return;
      }
      var done := PushSpecial(c, dq, out);
      if done {
        next := next + 1;
      } else if IsNameStart(c) {
        next := ExpandNamed(input, next, dq, out);
        assert input[pos + 1..next] == s[1..next - pos];
        assert input[next..] == s[next - pos..];
      } else {
        out.Putc('$', !dq);
      }
    }

    /** One byte outside quotes. */
    method DispatchByte(input: string, pos: nat, out: XBuf) returns (ok: bool, next: nat)
      requires out.Valid() && pos < |input| && input[pos] != '\'' && input[pos] != '"'
      modifies out.Repr, `st
      ensures out.Valid() && fresh(out.Repr - old(out.Repr))
      ensures var r := WordStep(env, input[pos..], pos == 0, NONE, old(st)).0;
              ok == r.ok && st == r.st && (ok ==>
                next <= |input| && input[next..] == r.rest && out.Contents == old(out.Contents) + r.out)
      decreases |input|, 3
    {
      hide Dollar, Tilde;
      ghost var s := input[pos..];
      assert At(s, 1) == At(input, pos + 1) && s[1..] == input[pos + 1..];
      assert |s| > 1 ==> s[2..] == input[pos + 2..];
      var c := input[pos];
      ok, next := true, pos + 1;
      if c == '\\' {
        if next == |input| {
        } else if input[next] == '\n' {
          next := next + 1;
        } else {
          out.Putc(input[next], false);
          next := next + 1;
        }
      } else if c == '$' {
        ok, next := ExpandDollar(input, pos, false, out);
      } else if c == '~' && pos == 0 {
        next := ExpandTilde(input, pos, out);
      } else {
        out.Putc(c, true);
      }
    }

    /** One byte inside double quotes. */
    method DispatchInDq(input: string, pos: nat, out: XBuf) returns (ok: bool, next: nat)
      requires out.Valid() && pos < |input| && input[pos] != '"'
      modifies out.Repr, `st
      ensures out.Valid() && fresh(out.Repr - old(out.Repr))
      ensures var r := WordStep(env, input[pos..], pos == 0, Quotes(false, true), old(st)).0;
              ok == r.ok && st == r.st && (ok ==>
                next <= |input| && input[next..] == r.rest && out.Contents == old(out.Contents) + r.out)
      decreases |input|, 3
    {
      hide Dollar, Tilde;
      ghost var s := input[pos..];
      assert At(s, 1) == At(input, pos + 1) && s[1..] == input[pos + 1..];
      assert |s| > 1 ==> s[2..] == input[pos + 2..];
      var c := input[pos];
      ok, next := true, pos + 1;
      if c == '\\' {
        var following := At(input, next);
        if next < |input| && following == '\n' {
          next := next + 1;
        } else if next < |input| && DqEscapable(following) {
          out.Putc(following, false);
          next := next + 1;
        } else {
          out.Putc('\\', false);
        }
      } else if c == '$' {
        ok, next := ExpandDollar(input, pos, true, out);
      } else {
        out.Putc(c, false);
      }
    }

    /** The whole word, written to `out`; false on an expansion error. */
    method ExpandWordInto(word: string, out: XBuf) returns (ok: bool)
      requires out.Valid()
      modifies out.Repr, `st
      ensures out.Valid() && fresh(out.Repr - old(out.Repr))
      ensures var r := ExpandWord(env, word, true, NONE, old(st));
              ok == r.ok && st == r.st && (ok ==> out.Contents == old(out.Contents) + r.out)
      decreases |word|, 4
    {
      hide ExpandWord, WordStep;
      var inSingle, inDouble, pos := false, false, 0;
      ghost var goal := ExpandWord(env, word, true, NONE, st);
      ghost var before := out.Contents;
      assert word[0..] == word;
      while pos < |word|
        invariant pos <= |word| && !(inSingle && inDouble)
        invariant out.Valid() && fresh(out.Repr - old(out.Repr))
        invariant Towards(goal, before, out.Contents,
                          ExpandWord(env, word[pos..], pos == 0, Quotes(inSingle, inDouble), st))
        decreases |word| - pos
      {
        ghost var rest, q, st0, sofar := word[pos..], Quotes(inSingle, inDouble), st, out.Contents;
        ghost var from := pos;
        WordTurn(env, rest, pos == 0, q, st);
        QuoteSteps(env, rest, pos == 0, q, st);
        assert rest[1..] == word[pos + 1..];
        var c := word[pos];
        ok := true;
        if c == '\'' && !inDouble {
          inSingle := !inSingle;
          pos := pos + 1;
        } else if c == '"' && !inSingle {
          inDouble := !inDouble;
          pos := pos + 1;
        } else if inSingle {
          out.Putc(c, false);
          pos := pos + 1;
        } else if inDouble {
          ok, pos := DispatchInDq(word, pos, out);
        } else {
          ok, pos := DispatchByte(word, pos, out);
        }
        if !ok {
          return false;
        }
        ghost var step := WordStep(env, rest, from == 0, q, st0);
        assert step.0.ok && word[pos..] == step.0.rest && out.Contents == sofar + step.0.out;
        assert step.1 == Quotes(inSingle, inDouble) && st == step.0.st;
        assert |word[pos..]| < |word[from..]|;
        TowardsStep(goal, before, sofar, step.0.out,
                    ExpandWord(env, word[pos..], false, Quotes(inSingle, inDouble), st));
      }
      assert word[pos..] == "";
      WordEnds(env, pos == 0, Quotes(inSingle, inDouble), st);
      ok := true;
    }

    /** The expanded word as one string. */
    method ExpandString(word: string) returns (text: Option<string>)
      modifies `st
      ensures var r := ExpandWord(env, word, true, NONE, old(st));
              st == r.st && text == if r.ok then Some(Text(r.out)) else None
      decreases |word|, 5
    {
      hide ExpandWord;
      ghost var goal := ExpandWord(env, word, true, NONE, st);
      var buf := new XBuf();
      var ok := ExpandWordInto(word, buf);
      if !ok {
        return None;
      }
      assert [] + goal.out == goal.out;
      assert buf.data[..buf.len] == Text(buf.Contents);
      text := Some(buf.data[..buf.len]);
    }

    static method WordHasQuote(word: string) returns (yes: bool)
      ensures yes == HasQuote(word)
    {
      var i := 0;
      assert word[0..] == word;
      while i < |word|
        invariant i <= |word|
        invariant HasQuote(word[i..]) == HasQuote(word)
      {
        assert word[i..][1..] == word[i + 1..];
        assert i + 1 < |word| ==> word[i..][2..] == word[i + 2..];
        if word[i] == '\\' && i + 1 < |word| {
          i := i + 2;
          continue;
        }
        if word[i] == '\'' || word[i] == '"' {
          return true;
        }
        i := i + 1;
      }
      assert word[i..] == "";
      yes := false;
    }

    /** The fields of one word; a quoted word that expands to nothing still
        makes one empty field. */
    method ExpandWordToFields(word: string) returns (fields: Option<seq<string>>)
      modifies `st
      ensures (fields, st) == WordFields(env, word, old(st))
    {
      hide ExpandWord, FieldSplitSpec.FieldSplit;
      var buf := new XBuf();
      var ok := ExpandWordInto(word, buf);
      if !ok {
        return None;
      }
      assert [] + ExpandWord(env, word, true, NONE, old(st)).out == ExpandWord(env, word, true, NONE, old(st)).out;
      var split := FieldSplit.SplitBuffer(Ifs(env), buf);
      var quoted := WordHasQuote(word);
      if split == [] && quoted {
        return Some([""]);
      }
      fields := Some(split);
    }

    /** The new argument list of a command, None when some word fails. */
    method ExpandArgv(argv: seq<string>) returns (out: Option<seq<string>>)
      modifies `st
      ensures (out, st) == Argv(env, argv, old(st))
    {
      hide WordFields, Argv;
      var grown := [];
      var i := 0;
      ghost var goal := Argv(env, argv, st);
      assert goal.0.Some? ==> [] + goal.0.value == goal.0.value;
      assert argv[0..] == argv;
      while i < |argv|
        invariant 0 <= i <= |argv|
        invariant goal == Prepend(grown, Argv(env, argv[i..], st))
      {
        ArgvTurn(env, argv[i..], st);
        assert argv[i..][1..] == argv[i + 1..];
        var fields := ExpandWordToFields(argv[i]);
        if fields.None? {
          return None;
        }
        PrependTwice(grown, fields.value, Argv(env, argv[i + 1..], st));
        grown := grown + fields.value;
        i := i + 1;
      }
      assert argv[i..] == [];
      ArgvEnds(env, st);
      assert grown + [] == grown;
      out := Some(grown);
    }
  }

  /** `written` followed by `rest` is `before` followed by `goal`. */
  ghost predicate Towards(goal: Piece, before: Bytes, written: Bytes, rest: Piece) {
    goal.ok == rest.ok && goal.st == rest.st && (goal.ok ==> before + goal.out == written + rest.out)
  }

  lemma TowardsStep(goal: Piece, before: Bytes, sofar: Bytes, out: Bytes, rest: Piece)
    requires Towards(goal, before, sofar, rest.(out := out + rest.out))
    ensures Towards(goal, before, sofar + out, rest)
  {
    assert sofar + (out + rest.out) == (sofar + out) + rest.out;
  }

  lemma WordTurn(env: Env, s: string, first: bool, q: Quotes, st: State)
    requires s != ""
    ensures var (a, q') := WordStep(env, s, first, q, st);
            var b := ExpandWord(env, a.rest, false, q', a.st);
            ExpandWord(env, s, first, q, st) == if a.ok then b.(out := a.out + b.out) else a
  {
    hide WordStep;
  }

  lemma WordEnds(env: Env, first: bool, q: Quotes, st: State)
    ensures ExpandWord(env, "", first, q, st) == Piece(true, [], "", st)
  {
  }

  /** The steps that only change the quote state, and single-quoted bytes. */
  lemma QuoteSteps(env: Env, s: string, first: bool, q: Quotes, st: State)
    requires s != "" && !(q.sq && q.dq)
    ensures s[0] == '\'' && !q.dq ==> WordStep(env, s, first, q, st) == (Piece(true, [], s[1..], st), q.(sq := !q.sq))
    ensures s[0] == '"' && !q.sq ==> WordStep(env, s, first, q, st) == (Piece(true, [], s[1..], st), q.(dq := !q.dq))
    ensures s[0] != '\'' && q.sq ==> WordStep(env, s, first, q, st) == (Piece(true, [Cell(s[0], false)], s[1..], st), q)
    ensures !q.sq && s[0] != '"' && (q.dq || s[0] != '\'') ==> WordStep(env, s, first, q, st).1 == q
  {
    hide Dollar, Tilde;
  }

  function Prepend(front: seq<string>, r: (Option<seq<string>>, State)): (Option<seq<string>>, State) {
    (if r.0.None? then None else Some(front + r.0.value), r.1)
  }

  lemma PrependTwice(a: seq<string>, b: seq<string>, r: (Option<seq<string>>, State))
    ensures Prepend(a, Prepend(b, r)) == Prepend(a + b, r)
  {
    if r.0.Some? {
      assert a + (b + r.0.value) == (a + b) + r.0.value;
    }
  }

  lemma ArgvTurn(env: Env, words: seq<string>, st: State)
    requires words != []
    ensures var (fields, st') := WordFields(env, words[0], st);
            Argv(env, words, st)
              == if fields.None? then (None, st') else Prepend(fields.value, Argv(env, words[1..], st'))
  {
    hide WordFields;
  }

  lemma ArgvEnds(env: Env, st: State)
    ensures Argv(env, [], st) == (Some([]), st)
  {
  }

  lemma ArithTurn(s: string, depth: nat)
    requires s != "" && depth > 0
    ensures FindArith(s, depth) ==
            if At(s, 0) == '(' && At(s, 1) == '(' then Plus(2, FindArith(s[2..], depth + 1))
            else if At(s, 0) == ')' && At(s, 1) == ')' then Plus(2, FindArith(s[2..], depth - 1))
            else Plus(1, FindArith(s[1..], depth))
  {
  }

  lemma ArithEnds(s: string, depth: nat)
    requires s == "" || depth == 0
    ensures FindArith(s, depth) == if depth == 0 then Some(0) else None
  {
  }

  function Plus(k: nat, n: Option<nat>): Option<nat> {
    if n.None? then None else Some(k + n.value)
  }

  lemma NoClose(input: string, i: nat, depth: nat, sq: bool, dq: bool)
    requires depth > 0 && i == |input|
    ensures Plus(i, FindClose(input[i..], depth, sq, dq)) == None
  {
  }

  lemma CloseTurn(s: string, depth: nat, sq: bool, dq: bool)
    requires s != "" && depth > 0
    ensures FindClose(s, depth, sq, dq) ==
            if s[0] == '\\' && |s| > 1 && !sq then Plus(2, FindClose(s[2..], depth, sq, dq))
            else if s[0] == '\'' && !dq then Plus(1, FindClose(s[1..], depth, !sq, dq))
            else if s[0] == '"' && !sq then Plus(1, FindClose(s[1..], depth, sq, !dq))
            else if sq || dq then Plus(1, FindClose(s[1..], depth, sq, dq))
            else if s[0] == ')' && depth == 1 then Some(0)
            else Plus(1, FindClose(s[1..],
                                   if s[0] == '(' then depth + 1 else if s[0] == ')' then depth - 1 else depth, sq, dq))
  {
  }

  /** The same at position `i` of the input. */
  lemma CloseAt(input: string, i: nat, depth: nat, sq: bool, dq: bool)
    requires i < |input| && depth > 0
    ensures var c := input[i];
            Plus(i, FindClose(input[i..], depth, sq, dq)) ==
              if c == '\\' && i + 1 < |input| && !sq then Plus(i + 2, FindClose(input[i + 2..], depth, sq, dq))
              else if c == '\'' && !dq then Plus(i + 1, FindClose(input[i + 1..], depth, !sq, dq))
              else if c == '"' && !sq then Plus(i + 1, FindClose(input[i + 1..], depth, sq, !dq))
              else if sq || dq then Plus(i + 1, FindClose(input[i + 1..], depth, sq, dq))
              else if c == ')' && depth == 1 then Some(i)
              else
                var d := if c == '(' then depth + 1 else if c == ')' then depth - 1 else depth;
                Plus(i + 1, FindClose(input[i + 1..], d, sq, dq))
  {
    hide FindClose;
    var s := input[i..];
    assert s[0] == input[i] && s[1..] == input[i + 1..];
    if |s| > 1 {
      assert s[2..] == input[i + 2..];
    }
    CloseTurn(s, depth, sq, dq);
  }

  lemma EndFound(input: string, start: nat)
    requires start <= |input|
    ensures var end := Plus(start, FindClose(input[start..], 1, false, false));
            end.Some? ==> start <= end.value < |input|
  {
    hide FindClose;
  }
}
