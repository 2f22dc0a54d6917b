/** The growing buffer of expanded bytes and their split mask. */
module Buffer {
  import opened FieldSplitSpec

  const INITIAL_CAP: nat := 16

  /** Two parallel arrays, always with room for a terminating byte. */
  class XBuf {
    ghost var Contents: Bytes
    ghost var Repr: set<object>

    var data: array<char>
    var mask: array<bool>
    var len: nat

    ghost predicate Valid()
      reads this, Repr
      ensures Valid() ==> this in Repr
    {
      && Repr == {this, data, mask}
      && data.Length == mask.Length
      && len < data.Length
      && data[len] == '\0' && !mask[len]
      && |Contents| == len
      && forall i :: 0 <= i < len ==> Contents[i] == Cell(data[i], mask[i])
    }

    constructor ()
      ensures Valid() && fresh(Repr) && Contents == []
    {
      data := new char[INITIAL_CAP];
      mask := new bool[INITIAL_CAP];
      len := 0;
      Contents := [];
      new;
      Repr := {this, data, mask};
      data[0] := '\0';
      mask[0] := false;
    }

    /** Doubles the capacity past `need` and copies the bytes over. */
    method Grow(need: nat)
      requires Valid() && len < need
      modifies Repr
      ensures Valid() && fresh(Repr - old(Repr))
      ensures Contents == old(Contents) && len == old(len) && need < data.Length
    {
      var cap := data.Length;
      while cap <= need
        invariant 0 < cap
        decreases need - cap
      {
        cap := cap * 2;
      }
      var newData := new char[cap];
      var newMask := new bool[cap];
      for i := 0 to len
        modifies newData, newMask
        invariant forall k :: 0 <= k < i ==> newData[k] == data[k] && newMask[k] == mask[k]
      {
        newData[i] := data[i];
        newMask[i] := mask[i];
      }
      newData[len] := '\0';
      newMask[len] := false;
      data := newData;
      mask := newMask;
      Repr := {this, data, mask};
    }

    method Putc(c: char, split: bool)
      requires Valid()
      modifies Repr
      ensures Valid() && fresh(Repr - old(Repr))
      ensures Contents == old(Contents) + [Cell(c, split)]
    {
      if len + 1 >= data.Length {
        Grow(len + 1);
      }
      data[len] := c;
      mask[len] := split;
      len := len + 1;
      data[len] := '\0';
      mask[len] := false;
      Contents := Contents + [Cell(c, split)];
    }

    method Puts(s: string, split: bool)
      requires Valid()
      modifies Repr
      ensures Valid() && fresh(Repr - old(Repr))
      ensures Contents == old(Contents) + Cells(s, split)
    {
      var i := 0;
      while i < |s|
        invariant 0 <= i <= |s|
        invariant Valid() && fresh(Repr - old(Repr))
        invariant Contents == old(Contents) + Cells(s, split)[..i]
      {
        Putc(s[i], split);
        i := i + 1;
      }
      assert Cells(s, split)[..i] == Cells(s, split);
    }
  }
}
