/** Field splitting on expanded bytes, each marked splittable or not. */
module FieldSplitSpec {
  import opened Wrappers

  /** One expanded byte; `split` is its byte of the split mask. */
  datatype Cell = Cell(c: char, split: bool)

  type Bytes = seq<Cell>

  function Text(b: Bytes): (s: string)
    ensures |s| == |b| && forall i :: 0 <= i < |b| ==> s[i] == b[i].c
  {
    seq(|b|, i requires 0 <= i < |b| => b[i].c)
  }

  function Cells(s: string, split: bool): (b: Bytes)
    ensures |b| == |s| && forall i :: 0 <= i < |s| ==> b[i] == Cell(s[i], split)
  {
    seq(|s|, i requires 0 <= i < |s| => Cell(s[i], split))
  }

  const DEFAULT_IFS := " \t\n"

  /** A splittable byte of IFS. */
  predicate IsDelim(x: Cell, ifs: string) {
    x.split && x.c in ifs
  }

  /** A splittable byte of IFS white space. */
  predicate IsWs(x: Cell, ifs: string) {
    IsDelim(x, ifs) && (x.c == ' ' || x.c == '\t' || x.c == '\n')
  }

  /** Section 2.6.5: only bytes of expansions that IFS lists split a field, and
      of these space, tab and newline are white space; an unset IFS lists just
      these three. */
  lemma SplittableExactly(x: Cell, ifs: string)
    ensures IsDelim(x, ifs) <==> x.split && x.c in ifs
    ensures IsWs(x, ifs) <==> x.split && x.c in ifs && x.c in " \t\n"
    ensures DEFAULT_IFS == " \t\n"
  {
  }

  datatype Field = Field(start: nat, len: nat) {
    function End(): nat { start + len }
  }

  // ------------------------------------------------------------ algorithm

  function SkipWs(b: Bytes, ifs: string, i: nat): (j: nat)
    requires i <= |b|
    ensures i <= j <= |b|
    ensures forall k :: i <= k < j ==> IsWs(b[k], ifs)
    ensures j < |b| ==> !IsWs(b[j], ifs)
    decreases |b| - i
  {
    if i < |b| && IsWs(b[i], ifs) then SkipWs(b, ifs, i + 1) else i
  }

  function FieldEnd(b: Bytes, ifs: string, i: nat): (j: nat)
    requires i <= |b|
    ensures i <= j <= |b|
    ensures forall k :: i <= k < j ==> !IsDelim(b[k], ifs)
    ensures j < |b| ==> IsDelim(b[j], ifs)
    decreases |b| - i
  {
    if i < |b| && !IsDelim(b[i], ifs) then FieldEnd(b, ifs, i + 1) else i
  }

  /** Past one delimiter: white space, at most one other byte, white space. */
  function SkipDelim(b: Bytes, ifs: string, i: nat): (j: nat)
    requires i <= |b|
    ensures i <= j <= |b|
    ensures i < |b| && IsDelim(b[i], ifs) ==> i < j
  {
    var m := SkipWs(b, ifs, i);
    if m < |b| && IsDelim(b[m], ifs) then SkipWs(b, ifs, m + 1) else m
  }

  function FieldsFrom(b: Bytes, ifs: string, i: nat): (fs: seq<Field>)
    requires i <= |b|
    decreases |b| - i
  {
    if i == |b| then []
    else
      var e := FieldEnd(b, ifs, i);
      [Field(i, e - i)] + (if e == |b| then [] else FieldsFrom(b, ifs, SkipDelim(b, ifs, e)))
  }

  function Fields(b: Bytes, ifs: string): seq<Field> {
    FieldsFrom(b, ifs, SkipWs(b, ifs, 0))
  }

  /** The text of one field. */
  function Slice(b: Bytes, f: Field): string
    requires f.End() <= |b|
  {
    Text(b[f.start..f.End()])
  }

  function Materialise(b: Bytes, fs: seq<Field>): (ss: seq<string>)
    requires forall k :: 0 <= k < |fs| ==> fs[k].End() <= |b|
    ensures |ss| == |fs| && forall k :: 0 <= k < |fs| ==> ss[k] == Slice(b, fs[k])
  {
    seq(|fs|, k requires 0 <= k < |fs| => Slice(b, fs[k]))
  }

  lemma {:induction false} FieldsFromInside(b: Bytes, ifs: string, i: nat)
    requires i <= |b|
    ensures forall k :: 0 <= k < |FieldsFrom(b, ifs, i)| ==>
        i <= FieldsFrom(b, ifs, i)[k].start && FieldsFrom(b, ifs, i)[k].End() <= |b|
    decreases |b| - i
  {
    if i < |b| && FieldEnd(b, ifs, i) < |b| {
      FieldsFromInside(b, ifs, SkipDelim(b, ifs, FieldEnd(b, ifs, i)));
    }
  }

  /** The fields of an expansion; None stands for an unset IFS. */
  function FieldSplit(ifs: Option<string>, b: Bytes): seq<string> {
    var sep := if ifs.None? then DEFAULT_IFS else ifs.value;
    if sep == "" then [Text(b)]
    else if |b| == 0 then []
    else
      FieldsFromInside(b, sep, SkipWs(b, sep, 0));
      Materialise(b, Fields(b, sep))
  }

  // ------------------------------------------------------- specification

  /** Bytes `e..j` are splittable and at most one is not white space. */
  ghost predicate OneDelimiter(b: Bytes, ifs: string, e: nat, j: nat)
    requires e <= j <= |b|
  {
    && (forall i :: e <= i < j ==> IsDelim(b[i], ifs))
    && (forall i, k :: e <= i < k < j ==> IsWs(b[i], ifs) || IsWs(b[k], ifs))
  }

  ghost predicate NoDelim(b: Bytes, ifs: string, f: Field) {
    forall i :: f.start <= i < f.End() ==> i < |b| && !IsDelim(b[i], ifs)
  }

  ghost predicate AllWs(b: Bytes, ifs: string, e: nat, j: nat)
    requires e <= j <= |b|
  {
    forall i :: e <= i < j ==> IsWs(b[i], ifs)
  }

  /** Where the gap before field `k` begins and ends. */
  function GapStart(fs: seq<Field>, k: nat): nat
    requires k <= |fs|
  {
    if k == 0 then 0 else fs[k - 1].End()
  }

  function GapEnd(b: Bytes, fs: seq<Field>, k: nat): nat
    requires k <= |fs|
  {
    if k == |fs| then |b| else fs[k].start
  }

  /** The decomposition of section 2.6.5: fields without splittable IFS bytes,
      white space before the first, one whole delimiter between two fields,
      and at most one delimiter after the last. */
  ghost predicate IsSplit(b: Bytes, ifs: string, fs: seq<Field>) {
    && (forall k :: 0 <= k <= |fs| ==> GapStart(fs, k) <= GapEnd(b, fs, k) <= |b|)
    && (forall k :: 0 <= k < |fs| ==> NoDelim(b, ifs, fs[k]))
    && AllWs(b, ifs, 0, GapEnd(b, fs, 0))
    && (forall k :: 0 < k <= |fs| ==> OneDelimiter(b, ifs, GapStart(fs, k), GapEnd(b, fs, k)))
    && (forall k :: 0 <= k < |fs| ==> Begins(b, ifs, fs, k))
  }

  /** Field `k` begins right after a delimiter that cannot be extended. */
  ghost predicate Begins(b: Bytes, ifs: string, fs: seq<Field>, k: nat)
    requires k < |fs| && GapStart(fs, k) <= GapEnd(b, fs, k) <= |b|
  {
    var j := fs[k].start;
    && j < |b| && !IsWs(b[j], ifs)
    && (k > 0 ==> GapStart(fs, k) < j && (AllWs(b, ifs, GapStart(fs, k), j) ==> !IsDelim(b[j], ifs)))
  }

  // ------------------------------------------------- existence and uniqueness

  /** A maximal delimiter is the one the algorithm skips. */
  lemma DelimiterIsSkip(b: Bytes, ifs: string, e: nat, j: nat)
    requires e < j <= |b| && OneDelimiter(b, ifs, e, j)
    requires j < |b| ==> !IsWs(b[j], ifs) && (AllWs(b, ifs, e, j) ==> !IsDelim(b[j], ifs))
    ensures SkipDelim(b, ifs, e) == j
  {
    var m := SkipWs(b, ifs, e);
    if m < j {
      var n := SkipWs(b, ifs, m + 1);
    }
  }

  lemma SkipIsDelimiter(b: Bytes, ifs: string, e: nat)
    requires e < |b| && IsDelim(b[e], ifs)
    ensures var j := SkipDelim(b, ifs, e);
            e < j <= |b| && OneDelimiter(b, ifs, e, j) &&
            (j < |b| ==> !IsWs(b[j], ifs) && (AllWs(b, ifs, e, j) ==> !IsDelim(b[j], ifs)))
  {
    var m := SkipWs(b, ifs, e);
    if m < |b| && IsDelim(b[m], ifs) {
      assert !IsWs(b[m], ifs);
    }
  }

  /** From field `n` on, a decomposition is what the algorithm computes. */
  lemma {:induction false} SplitIsFields(b: Bytes, ifs: string, fs: seq<Field>, n: nat)
    requires IsSplit(b, ifs, fs) && n < |fs|
    ensures fs[n].start <= |b| && FieldsFrom(b, ifs, fs[n].start) == fs[n..]
    decreases |fs| - n
  {
    hide IsSplit, SkipDelim, FieldEnd, FieldsFrom;
    SplitStep(b, ifs, fs, n);
    FieldsTurn(b, ifs, fs[n].start);
    FieldFirst(fs, n);
    if n + 1 < |fs| {
      SplitIsFields(b, ifs, fs, n + 1);
    } else {
      EmptyRest(b, ifs);
    }
  }

  lemma FieldFirst(fs: seq<Field>, n: nat)
    requires n < |fs|
    ensures fs[n..] == [Field(fs[n].start, fs[n].End() - fs[n].start)] + fs[n + 1..]
    ensures n + 1 == |fs| ==> fs[n + 1..] == []
  {
  }

  lemma FieldsTurn(b: Bytes, ifs: string, i: nat)
    requires i < |b|
    ensures var e := FieldEnd(b, ifs, i);
            FieldsFrom(b, ifs, i)
              == [Field(i, e - i)] + (if e == |b| then [] else FieldsFrom(b, ifs, SkipDelim(b, ifs, e)))
  {
    hide FieldEnd, SkipDelim, SkipWs, IsDelim, IsWs;
  }

  lemma EmptyRest(b: Bytes, ifs: string)
    ensures FieldsFrom(b, ifs, |b|) == []
  {
  }

  lemma FieldEndIs(b: Bytes, ifs: string, f: Field)
    requires f.End() <= |b| && NoDelim(b, ifs, f) && (f.End() < |b| ==> IsDelim(b[f.End()], ifs))
    ensures FieldEnd(b, ifs, f.start) == f.End()
  {
  }

  /** One field of a decomposition and the delimiter after it. */
  lemma SplitStep(b: Bytes, ifs: string, fs: seq<Field>, n: nat)
    requires IsSplit(b, ifs, fs) && n < |fs|
    ensures fs[n].start < |b| && fs[n].End() <= |b|
    ensures FieldEnd(b, ifs, fs[n].start) == fs[n].End()
    ensures n + 1 < |fs| ==> fs[n].End() < |b| && SkipDelim(b, ifs, fs[n].End()) == fs[n + 1].start
    ensures n + 1 == |fs| && fs[n].End() < |b| ==> SkipDelim(b, ifs, fs[n].End()) == |b|
  {
    hide FieldEnd, SkipDelim, IsDelim, IsWs;
    var e, j := fs[n].End(), GapEnd(b, fs, n + 1);
    assert Begins(b, ifs, fs, n) && NoDelim(b, ifs, fs[n]);
    assert GapStart(fs, n + 1) == e <= j <= |b|;
    assert OneDelimiter(b, ifs, e, j);
    assert n + 1 < |fs| ==> Begins(b, ifs, fs, n + 1);
    assert e < |b| ==> e < j && IsDelim(b[e], ifs);
    FieldEndIs(b, ifs, fs[n]);
    if e < |b| {
      DelimiterIsSkip(b, ifs, e, j);
    }
  }

  /** The decomposition is unique, and it is the computed one. */
  lemma SplitUnique(b: Bytes, ifs: string, fs: seq<Field>)
    requires IsSplit(b, ifs, fs)
    ensures fs == Fields(b, ifs)
  {
    if fs == [] {
      assert SkipWs(b, ifs, 0) == |b|;
    } else {
      assert Begins(b, ifs, fs, 0);
      assert GapStart(fs, 0) == 0 && GapEnd(b, fs, 0) == fs[0].start <= |b|;
      assert SkipWs(b, ifs, 0) == fs[0].start;
      SplitIsFields(b, ifs, fs, 0);
    }
  }

  /** Fields from offset `i` on, with the gaps between and after them. */
  ghost predicate SplitFrom(b: Bytes, ifs: string, fs: seq<Field>, i: nat)
    requires i <= |b|
  {
    && (forall k :: 0 <= k <= |fs| ==> GapFrom(fs, k, i) <= GapEnd(b, fs, k) <= |b|)
    && (forall k :: 0 <= k < |fs| ==> NoDelim(b, ifs, fs[k]))
    && GapEnd(b, fs, 0) == i && (fs == [] <==> i == |b|)
    && (forall k :: 0 < k <= |fs| ==> OneDelimiter(b, ifs, GapFrom(fs, k, i), GapEnd(b, fs, k)))
    && (forall k :: 0 < k < |fs| ==> Begins(b, ifs, fs, k))
  }

  function GapFrom(fs: seq<Field>, k: nat, i: nat): nat
    requires k <= |fs|
  {
    if k == 0 then i else fs[k - 1].End()
  }

  lemma {:induction false} FieldsSplitFrom(b: Bytes, ifs: string, i: nat)
    requires i <= |b|
    ensures SplitFrom(b, ifs, FieldsFrom(b, ifs, i), i)
    decreases |b| - i
  {
    hide FieldsFrom, SplitFrom, SkipDelim;
    if i == |b| {
      EmptyRest(b, ifs);
      NoFields(b, ifs);
    } else {
      var e := FieldEnd(b, ifs, i);
      FieldsTurn(b, ifs, i);
      if e == |b| {
        LastField(b, ifs, i);
        assert [Field(i, e - i)] + [] == [Field(i, e - i)];
      } else {
        SkipIsDelimiter(b, ifs, e);
        FieldsSplitFrom(b, ifs, SkipDelim(b, ifs, e));
        ConsSplit(b, ifs, FieldsFrom(b, ifs, SkipDelim(b, ifs, e)), i, e);
      }
    }
  }

  lemma NoFields(b: Bytes, ifs: string)
    ensures SplitFrom(b, ifs, [], |b|)
  {
  }

  lemma LastField(b: Bytes, ifs: string, i: nat)
    requires i < |b| && FieldEnd(b, ifs, i) == |b|
    ensures SplitFrom(b, ifs, [Field(i, |b| - i)], i)
  {
    assert OneDelimiter(b, ifs, |b|, |b|);
  }

  lemma ConsSplit(b: Bytes, ifs: string, rest: seq<Field>, i: nat, e: nat)
    requires i <= e < |b| && e == FieldEnd(b, ifs, i)
    requires var j := SkipDelim(b, ifs, e);
             e < j <= |b| && OneDelimiter(b, ifs, e, j)
             && (j < |b| ==> !IsWs(b[j], ifs) && (AllWs(b, ifs, e, j) ==> !IsDelim(b[j], ifs)))
             && SplitFrom(b, ifs, rest, j)
    ensures SplitFrom(b, ifs, [Field(i, e - i)] + rest, i)
  {
    var j := SkipDelim(b, ifs, e);
    var fs := [Field(i, e - i)] + rest;
    forall k | 0 <= k <= |fs| ensures GapFrom(fs, k, i) <= GapEnd(b, fs, k) <= |b| {
      if k > 0 {
        ShiftGap(b, fs, rest, k, i, j, e);
      }
    }
    forall k | 0 < k <= |fs| ensures OneDelimiter(b, ifs, GapFrom(fs, k, i), GapEnd(b, fs, k)) {
      ShiftGap(b, fs, rest, k, i, j, e);
    }
    forall k | 0 < k < |fs| ensures Begins(b, ifs, fs, k) {
      ShiftGap(b, fs, rest, k, i, j, e);
      if k > 1 {
        assert Begins(b, ifs, rest, k - 1);
      }
    }
    forall k | 0 <= k < |fs| ensures NoDelim(b, ifs, fs[k]) {
      assert k > 0 ==> fs[k] == rest[k - 1];
    }
  }

  /** Gap `k` of a list is gap `k - 1` of its tail. */
  lemma ShiftGap(b: Bytes, fs: seq<Field>, rest: seq<Field>, k: nat, i: nat, j: nat, e: nat)
    requires i <= e && fs == [Field(i, e - i)] + rest && 0 < k <= |fs| && GapEnd(b, rest, 0) == j
    ensures GapEnd(b, fs, k) == GapEnd(b, rest, k - 1)
    ensures GapFrom(fs, k, i) == if k == 1 then e else GapFrom(rest, k - 1, j)
    ensures GapStart(fs, k) == GapFrom(fs, k, i)
  {
  }

  /** The computed fields are a decomposition. */
  lemma FieldsIsSplit(b: Bytes, ifs: string)
    ensures IsSplit(b, ifs, Fields(b, ifs))
  {
    hide FieldsFrom, OneDelimiter, NoDelim, IsWs, IsDelim, SkipWs;
    var i := SkipWs(b, ifs, 0);
    var fs := Fields(b, ifs);
    FieldsSplitFrom(b, ifs, i);
    forall k | 0 <= k <= |fs| ensures GapStart(fs, k) <= GapEnd(b, fs, k) <= |b| {
      assert GapFrom(fs, k, i) <= GapEnd(b, fs, k) <= |b|;
    }
    forall k | 0 < k <= |fs| ensures OneDelimiter(b, ifs, GapStart(fs, k), GapEnd(b, fs, k)) {
      assert OneDelimiter(b, ifs, GapFrom(fs, k, i), GapEnd(b, fs, k));
    }
    forall k | 0 <= k < |fs| ensures Begins(b, ifs, fs, k) {
      if k == 0 {
        assert fs[0].start == i;
      }
    }
  }

  /** Field splitting is correct and complete: a list of fields decomposes the
      bytes exactly when it is the computed one. */
  lemma SplitExactly(b: Bytes, ifs: string, fs: seq<Field>)
    ensures IsSplit(b, ifs, fs) <==> fs == Fields(b, ifs)
  {
    FieldsIsSplit(b, ifs);
    if IsSplit(b, ifs, fs) {
      SplitUnique(b, ifs, fs);
    }
  }

  ghost predicate InSomeField(fs: seq<Field>, i: nat) {
    exists k :: 0 <= k < |fs| && fs[k].start <= i < fs[k].End()
  }

  /** Only splittable IFS bytes are dropped: a byte that came from quotes, or
      that IFS does not list, is in some field. */
  lemma {:induction false} NothingElseDropped(b: Bytes, ifs: string, i: nat)
    requires i < |b| && !IsDelim(b[i], ifs)
    ensures InSomeField(Fields(b, ifs), i)
  {
    hide Fields;
    var fs := Fields(b, ifs);
    FieldsIsSplit(b, ifs);
    var k := GapBefore(fs, i, 0);
    assert GapStart(fs, k) <= GapEnd(b, fs, k) <= |b|;
    if k > 0 {
      assert OneDelimiter(b, ifs, GapStart(fs, k), GapEnd(b, fs, k));
    }
    assert i >= GapEnd(b, fs, k);
  }

  /** The gap at or after which offset `i` lies, before the end of field `k`. */
  lemma {:induction false} GapBefore(fs: seq<Field>, i: nat, from: nat) returns (k: nat)
    requires from <= |fs| && GapStart(fs, from) <= i
    ensures k <= |fs| && GapStart(fs, k) <= i && (k < |fs| ==> i < fs[k].End())
    decreases |fs| - from
  {
    k := from;
    if from < |fs| && fs[from].End() <= i {
      k := GapBefore(fs, i, from + 1);
    }
  }

  /** Fields come in order and do not overlap. */
  lemma {:induction false} FieldsOrdered(b: Bytes, ifs: string, fs: seq<Field>, j: nat, k: nat)
    requires IsSplit(b, ifs, fs) && j < k < |fs|
    ensures fs[j].End() < fs[k].start
    decreases k - j
  {
    assert Begins(b, ifs, fs, k);
    if j + 1 < k {
      FieldsOrdered(b, ifs, fs, j, k - 1);
    }
  }

  /** The bytes come out as one field, unchanged, exactly when none of them is
      a splittable IFS byte. */
  lemma WholeExactly(b: Bytes, sep: string)
    requires b != [] && sep != ""
    ensures FieldSplit(Some(sep), b) == [Text(b)] <==> forall i :: 0 <= i < |b| ==> !IsDelim(b[i], sep)
  {
    var fs := Fields(b, sep);
    FieldsFromInside(b, sep, SkipWs(b, sep, 0));
    if forall i :: 0 <= i < |b| ==> !IsDelim(b[i], sep) {
      assert SkipWs(b, sep, 0) == 0 && FieldEnd(b, sep, 0) == |b|;
      assert fs == [Field(0, |b|)];
      assert b[0..0 + |b|] == b;
    }
    if FieldSplit(Some(sep), b) == [Text(b)] {
      OnlyField(b, sep, fs);
    }
  }

  lemma OnlyField(b: Bytes, sep: string, fs: seq<Field>)
    requires fs == Fields(b, sep) && |fs| == 1 && fs[0].End() <= |b| && |Slice(b, fs[0])| == |b|
    ensures forall i :: 0 <= i < |b| ==> !IsDelim(b[i], sep)
  {
    FieldsIsSplit(b, sep);
    assert NoDelim(b, sep, fs[0]);
  }

  /** Bytes without splittable IFS bytes make exactly one field. */
  lemma WholeField(ifs: Option<string>, b: Bytes)
    requires b != [] && forall i :: 0 <= i < |b| ==> !b[i].split
    ensures FieldSplit(ifs, b) == [Text(b)]
  {
    var sep := if ifs.None? then DEFAULT_IFS else ifs.value;
    if sep != "" {
      WholeExactly(b, sep);
    }
  }

  /** No bytes are no field, but with an empty IFS they are one. */
  lemma EmptyFieldsExactly(ifs: Option<string>)
    ensures FieldSplit(ifs, []) == [] <==> ifs != Some("")
    ensures FieldSplit(Some(""), []) == [""]
  {
    assert Text([]) == "";
  }
}
