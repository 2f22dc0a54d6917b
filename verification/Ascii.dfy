/** The C library's character classes, on the bytes of a C string. The byte
    '\0' stands for the terminator and never occurs inside a string. */
module Ascii {

  /** `isspace` in the C locale. */
  predicate IsSpace(c: char) {
    c == ' ' || c == '\t' || c == '\n' || c == '\r' || c == 11 as char || c == 12 as char
  }

  predicate IsDigit(c: char) {
    '0' <= c <= '9'
  }

  predicate IsAlpha(c: char) {
    'a' <= c <= 'z' || 'A' <= c <= 'Z'
  }

  predicate IsNameStart(c: char) {
    IsAlpha(c) || c == '_'
  }

  predicate IsNameChar(c: char) {
    IsAlpha(c) || IsDigit(c) || c == '_'
  }

  /** The byte C reads at `s[i]`, the terminator included. */
  function At(s: string, i: nat): char {
    if i < |s| then s[i] else '\0'
  }

  /** A shell identifier: a letter or `_`, then letters, digits and `_`. */
  predicate IsIdentifier(s: string) {
    s != "" && IsNameStart(s[0]) && forall i :: 0 < i < |s| ==> IsNameChar(s[i])
  }

  lemma SpaceExactly(c: char)
    ensures IsSpace(c) <==> c in " \t\n\r" || c == 11 as char || c == 12 as char
  {
  }

  /** Position of the first `c`, the length if there is none. */
  function IndexOfChar(s: string, c: char): (n: nat)
    ensures n <= |s| && (n < |s| ==> s[n] == c)
    ensures forall i :: 0 <= i < n ==> s[i] != c
  {
    if s == "" || s[0] == c then 0 else 1 + IndexOfChar(s[1..], c)
  }

  lemma IndexTurn(s: string, c: char)
    ensures IndexOfChar(s, c) == if s == "" || s[0] == c then 0 else 1 + IndexOfChar(s[1..], c)
  {
  }

  /** Length of the longest prefix of name characters. */
  function NameLen(s: string): (n: nat)
    ensures n <= |s|
  {
    if s != "" && IsNameChar(s[0]) then 1 + NameLen(s[1..]) else 0
  }

  /** A name ends at the first byte that is no name character. */
  lemma {:induction false} NameRuns(name: string, t: string)
    requires forall i :: 0 <= i < |name| ==> IsNameChar(name[i])
    requires t == "" || !IsNameChar(t[0])
    ensures NameLen(name + t) == |name|
  {
    if name == "" {
      assert name + t == t;
    } else {
      assert (name + t)[1..] == name[1..] + t;
      NameRuns(name[1..], t);
    }
  }

  /** An identifier is made of letters, digits and `_`, and no digit is first. */
  lemma IdentifierExactly(s: string)
    ensures IsIdentifier(s) <==>
      && s != "" && !('0' <= s[0] <= '9')
      && forall i :: 0 <= i < |s| ==>
        'a' <= s[i] <= 'z' || 'A' <= s[i] <= 'Z' || '0' <= s[i] <= '9' || s[i] == '_'
  {
    hide IsIdentifier;
    forall i | 0 <= i < |s|
      ensures IsNameChar(s[i]) <==>
        'a' <= s[i] <= 'z' || 'A' <= s[i] <= 'Z' || '0' <= s[i] <= '9' || s[i] == '_'
    {
    }
    if s != "" {
      assert IsNameStart(s[0]) <==> IsNameChar(s[0]) && !('0' <= s[0] <= '9');
    }
    IdentifierParts(s);
  }

  lemma IdentifierParts(s: string)
    ensures IsIdentifier(s) <==> s != "" && IsNameStart(s[0]) && forall i :: 0 <= i < |s| ==> IsNameChar(s[i])
  {
  }
}
