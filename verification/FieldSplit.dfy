/** Field splitting on a buffer: one cursor, a growing list of fields, and the
    strings cut from it. */
module FieldSplit {
  import opened Wrappers
  import opened FieldSplitSpec
  import opened Buffer

  /** Byte `i` of the buffer may split and IFS lists it. */
  method IsIfsSplit(buf: XBuf, i: nat, ifs: string) returns (yes: bool)
    requires buf.Valid() && i < buf.len
    ensures yes == IsDelim(buf.Contents[i], ifs)
  {
    if !buf.mask[i] {
      return false;
    }
    yes := buf.data[i] in ifs;
  }

  method SkipIfsWs(buf: XBuf, ifs: string, from: nat) returns (i: nat)
    requires buf.Valid() && from <= buf.len
    ensures from <= i <= buf.len && i == SkipWs(buf.Contents, ifs, from)
  {
    i := from;
    while i < buf.len
      invariant from <= i <= buf.len
      invariant SkipWs(buf.Contents, ifs, i) == SkipWs(buf.Contents, ifs, from)
    {
      var split := IsIfsSplit(buf, i, ifs);
      if !split || (buf.data[i] != ' ' && buf.data[i] != '\t' && buf.data[i] != '\n') {
        break;
      }
      i := i + 1;
    }
  }

  method ConsumeDelimiter(buf: XBuf, ifs: string, from: nat) returns (i: nat)
    requires buf.Valid() && from <= buf.len
    ensures i <= buf.len && i == SkipDelim(buf.Contents, ifs, from)
  {
    i := SkipIfsWs(buf, ifs, from);
    if i < buf.len {
      var split := IsIfsSplit(buf, i, ifs);
      if split && !(buf.data[i] == ' ' || buf.data[i] == '\t' || buf.data[i] == '\n') {
        i := SkipIfsWs(buf, ifs, i + 1);
      }
    }
  }

  /** The fields, and that they are the only decomposition of the buffer. */
  method CollectFields(buf: XBuf, ifs: string) returns (fields: seq<Field>)
    requires buf.Valid()
    ensures fields == Fields(buf.Contents, ifs)
    ensures forall fs :: IsSplit(buf.Contents, ifs, fs) <==> fs == fields
  {
    hide SkipDelim, SkipWs, FieldEnd, IsSplit, FieldsFrom, IsDelim;
    fields := [];
    var i := SkipIfsWs(buf, ifs, 0);
    ghost var all := FieldsFrom(buf.Contents, ifs, i);
    ghost var done := false;
    while i < buf.len
      invariant i <= buf.len
      invariant fields + FieldsFrom(buf.Contents, ifs, i) == all
      decreases buf.len - i
    {
      var start := i;
      ghost var before := fields;
      FieldsTurn(buf.Contents, ifs, start);
      while i < buf.len
        invariant start <= i <= buf.len
        invariant forall k :: start <= k < i ==> !IsDelim(buf.Contents[k], ifs)
      {
        var split := IsIfsSplit(buf, i, ifs);
        if split {
          break;
        }
        i := i + 1;
      }
      FieldEndIs(buf.Contents, ifs, Field(start, i - start));
      fields := fields + [Field(start, i - start)];
      if i >= buf.len {
        assert fields == all;
        EmptyRest(buf.Contents, ifs);
        break;
      }
      i := ConsumeDelimiter(buf, ifs, i);
    }
    EmptyRest(buf.Contents, ifs);
    forall fs ensures IsSplit(buf.Contents, ifs, fs) <==> fs == fields {
      SplitExactly(buf.Contents, ifs, fs);
    }
  }

  /** The fields of an expansion under the shell's IFS, None when unset. */
  method SplitBuffer(ifsValue: Option<string>, buf: XBuf) returns (out: seq<string>)
    requires buf.Valid()
    ensures out == FieldSplit(ifsValue, buf.Contents)
  {
    hide SkipWs, FieldsFrom, IsSplit;
    var ifs := if ifsValue.None? then DEFAULT_IFS else ifsValue.value;
    if ifs == "" {
      assert buf.data[..buf.len] == Text(buf.Contents);
      return [buf.data[..buf.len]];
    }
    if buf.len == 0 {
      return [];
    }
    var fields := CollectFields(buf, ifs);
    FieldsFromInside(buf.Contents, ifs, SkipWs(buf.Contents, ifs, 0));
    out := [];
    var i := 0;
    while i < |fields|
      invariant 0 <= i <= |fields| && |out| == i
      invariant forall k :: 0 <= k < i ==> out[k] == Slice(buf.Contents, fields[k])
    {
      var f := fields[i];
      assert f.End() <= |buf.Contents|;
      assert buf.data[f.start..f.start + f.len] == Slice(buf.Contents, f);
      out := out + [buf.data[f.start..f.start + f.len]];
      i := i + 1;
    }
  }
}
