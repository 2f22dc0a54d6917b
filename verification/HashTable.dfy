/** The string-keyed hash table: an array of chains of linked nodes, proved to
    behave as a finite map. */
module HashTable {
  import opened Wrappers

  const WORD: nat := 0x1_0000_0000_0000_0000

  /** DJB2 on 64-bit words, continuing from `h`. */
  function HashFrom(s: string, h: nat): nat {
    if s == "" then h else HashFrom(s[1..], (h * 33 + s[0] as nat) % WORD)
  }

  function Hash(s: string): nat {
    HashFrom(s, 5381)
  }

  /** The hash starts at 5381; each byte multiplies by 33 and adds, in 64 bits. */
  lemma HashMeans(s: string, c: char)
    ensures Hash("") == 5381 && Hash(s + [c]) == (Hash(s) * 33 + c as nat) % 0x1_0000_0000_0000_0000
  {
    HashSnoc(s, c, 5381);
  }

  lemma {:induction false} HashSnoc(s: string, c: char, h: nat)
    ensures HashFrom(s + [c], h) == (HashFrom(s, h) * 33 + c as nat) % WORD
  {
    if s == "" {
      assert s + [c] == [c] && [c][1..] == "";
    } else {
      assert (s + [c])[1..] == s[1..] + [c];
      HashSnoc(s[1..], c, (h * 33 + s[0] as nat) % WORD);
    }
  }

  method StrHash(s: string) returns (h: nat)
    ensures h == Hash(s)
  {
    h := 5381;
    var i := 0;
    assert s[0..] == s;
    while i < |s|
      invariant 0 <= i <= |s|
      invariant HashFrom(s[i..], h) == Hash(s)
    {
      assert s[i..][1..] == s[i + 1..];
      h := (h * 33 + s[i] as nat) % WORD;
      i := i + 1;
    }
  }

  // ------------------------------------------------ buckets of entries

  type Entries<V> = seq<seq<(string, V)>>

  function Bucket(key: string, n: nat): (i: nat)
    requires n > 0
    ensures i < n
  {
    Hash(key) % n
  }

  ghost predicate InTable<V>(es: Entries<V>, i: int, j: int) {
    0 <= i < |es| && 0 <= j < |es[i]|
  }

  /** Each entry sits in its key's bucket and says what the map says; no key
      sits twice in a bucket; every key of the map has an entry. */
  ghost predicate Represents<V>(es: Entries<V>, m: map<string, V>) {
    && |es| > 0
    && (forall i, j {:trigger es[i][j]} :: InTable(es, i, j) ==>
          Bucket(es[i][j].0, |es|) == i && es[i][j].0 in m && m[es[i][j].0] == es[i][j].1)
    && (forall i, j, k {:trigger es[i][j], es[i][k]} :: InTable(es, i, j) && InTable(es, i, k) && j < k ==>
        es[i][j].0 != es[i][k].0)
    && (forall k :: k in m ==> HasKey(es[Bucket(k, |es|)], k))
  }

  ghost predicate HasKey<V>(c: seq<(string, V)>, key: string) {
    exists j :: 0 <= j < |c| && c[j].0 == key
  }

  /** Two entries with one key are the same entry. */
  lemma OnePlace<V>(es: Entries<V>, m: map<string, V>, i: nat, j: nat, i': nat, j': nat)
    requires Represents(es, m) && InTable(es, i, j) && InTable(es, i', j') && es[i][j].0 == es[i'][j'].0
    ensures i == i' && j == j'
  {
    hide Hash;
  }

  lemma RepresentsReplace<V>(es: Entries<V>, m: map<string, V>, i: nat, j: nat, v: V)
    requires Represents(es, m) && InTable(es, i, j)
    ensures var key := es[i][j].0;
            Represents(es[i := es[i][j := (key, v)]], m[key := v]) && |m[key := v]| == |m|
  {
    hide Hash;
    var key := es[i][j].0;
    var es': Entries<V>, m': map<string, V> := es[i := es[i][j := (key, v)]], m[key := v];
    assert m'.Keys == m.Keys;
    forall a, b | InTable(es', a, b)
      ensures Bucket(es'[a][b].0, |es'|) == a && es'[a][b].0 in m' && m'[es'[a][b].0] == es'[a][b].1
    {
      assert es'[a][b].0 == es[a][b].0;
      if es[a][b].0 == key {
        OnePlace(es, m, a, b, i, j);
      }
    }
    forall a, b, c | InTable(es', a, b) && InTable(es', a, c) && b < c ensures es'[a][b].0 != es'[a][c].0 {
      assert es'[a][b].0 == es[a][b].0 && es'[a][c].0 == es[a][c].0;
    }
    forall k | k in m' ensures HasKey(es'[Bucket(k, |es'|)], k) {
      var a := Bucket(k, |es|);
      var b :| 0 <= b < |es[a]| && es[a][b].0 == k;
      assert es'[a][b].0 == k;
    }
  }

  /** Entry `(a, b)` after an insertion at the head of bucket `i`. */
  lemma Pushed<V>(es: Entries<V>, i: nat, x: (string, V), a: int, b: int)
    requires i < |es| && InTable(es[i := [x] + es[i]], a, b)
    ensures var es' := es[i := [x] + es[i]];
            if a == i then (if b == 0 then es'[a][b] == x else InTable(es, a, b - 1) && es'[a][b] == es[a][b - 1])
            else InTable(es, a, b) && es'[a][b] == es[a][b]
  {
  }

  lemma RepresentsInsert<V>(es: Entries<V>, m: map<string, V>, key: string, v: V)
    requires Represents(es, m) && key !in m
    ensures var i := Bucket(key, |es|);
            Represents(es[i := [(key, v)] + es[i]], m[key := v]) && |m[key := v]| == |m| + 1
  {
    hide Bucket, HasKey;
    var i := Bucket(key, |es|);
    var es': Entries<V>, m': map<string, V> := es[i := [(key, v)] + es[i]], m[key := v];
    assert m'.Keys == m.Keys + {key};
    forall a, b | InTable(es', a, b)
      ensures Bucket(es'[a][b].0, |es'|) == a && es'[a][b].0 in m' && m'[es'[a][b].0] == es'[a][b].1
    {
      Pushed(es, i, (key, v), a, b);
    }
    forall a, b, c | InTable(es', a, b) && InTable(es', a, c) && b < c ensures es'[a][b].0 != es'[a][c].0 {
      Pushed(es, i, (key, v), a, b);
      Pushed(es, i, (key, v), a, c);
    }
    forall k | k in m' ensures HasKey(es'[Bucket(k, |es'|)], k) {
      KeyPushed(es, i, (key, v), k, Bucket(k, |es|));
    }
  }

  lemma KeyPushed<V>(es: Entries<V>, i: nat, x: (string, V), k: string, a: nat)
    requires i < |es| && a < |es|
    ensures var es' := es[i := [x] + es[i]];
            (HasKey(es[a], k) ==> HasKey(es'[a], k)) && (k == x.0 ==> HasKey(es'[i], k))
  {
    var es' := es[i := [x] + es[i]];
    assert es'[i][0] == x;
    if HasKey(es[a], k) {
      var b :| 0 <= b < |es[a]| && es[a][b].0 == k;
      assert es'[a][if a == i then b + 1 else b].0 == k;
    }
  }

  lemma RepresentsRemove<V>(es: Entries<V>, m: map<string, V>, i: nat, j: nat)
    requires Represents(es, m) && InTable(es, i, j)
    ensures var key := es[i][j].0;
            Represents(es[i := es[i][..j] + es[i][j + 1..]], m - {key}) && |m - {key}| == |m| - 1
  {
    hide Bucket, HasKey;
    var key := es[i][j].0;
    var c := es[i][..j] + es[i][j + 1..];
    var es': Entries<V>, m': map<string, V> := es[i := c], m - {key};
    assert m'.Keys == m.Keys - {key};
    forall a, b | InTable(es', a, b)
      ensures Bucket(es'[a][b].0, |es'|) == a && es'[a][b].0 in m' && m'[es'[a][b].0] == es'[a][b].1
    {
      Removed(es, i, j, a, b);
    }
    forall a, b, d | InTable(es', a, b) && InTable(es', a, d) && b < d ensures es'[a][b].0 != es'[a][d].0 {
      Removed(es, i, j, a, b);
      Removed(es, i, j, a, d);
    }
    forall k | k in m' ensures HasKey(es'[Bucket(k, |es'|)], k) {
      KeyRemoved(es, i, j, k, Bucket(k, |es|));
    }
  }

  /** Entry `(a, b)` after entry `(i, j)` has gone. */
  lemma Removed<V>(es: Entries<V>, i: nat, j: nat, a: int, b: int)
    requires InTable(es, i, j) && InTable(es[i := es[i][..j] + es[i][j + 1..]], a, b)
    ensures var es' := es[i := es[i][..j] + es[i][j + 1..]];
            var b' := if a == i && b >= j then b + 1 else b;
            InTable(es, a, b') && es'[a][b] == es[a][b'] && (a == i ==> b' != j)
  {
  }

  lemma KeyRemoved<V>(es: Entries<V>, i: nat, j: nat, k: string, a: nat)
    requires InTable(es, i, j) && a < |es| && HasKey(es[a], k) && es[i][j].0 != k
    ensures HasKey(es[i := es[i][..j] + es[i][j + 1..]][a], k)
  {
    var b :| 0 <= b < |es[a]| && es[a][b].0 == k;
    var es': Entries<V> := es[i := es[i][..j] + es[i][j + 1..]];
    assert es'[a][if a == i && b >= j then b - 1 else b].0 == k;
  }

  // ------------------------------------------------------------ the table

  class Node<V> {
    const key: string
    var value: V
    var next: Node?<V>

    constructor (key: string, value: V, next: Node?<V>)
      ensures this.key == key && this.value == value && this.next == next
    {
      this.key := key;
      this.value := value;
      this.next := next;
    }
  }

  class Table<V> {
    /** The map this table stands for, and the entries of its chains. */
    ghost var Contents: map<string, V>
    ghost var entries: Entries<V>
    ghost var chains: seq<seq<Node<V>>>
    ghost var Repr: set<object>

    const buckets: array<Node?<V>>
    var size: nat

    /** Node `j` of chain `i`, null past its end. */
    ghost function Link(i: nat, j: nat): Node?<V>
      requires i < |chains|
      reads this
    {
      if j < |chains[i]| then chains[i][j] else null
    }

    ghost predicate NodeOk(i: nat, j: nat)
      requires i < |chains| && i < |entries| && j < |chains[i]| && j < |entries[i]|
      reads this, Repr
    {
      var n := chains[i][j];
      n in Repr && n.key == entries[i][j].0 && n.value == entries[i][j].1 && n.next == Link(i, j + 1)
    }

    ghost predicate Valid()
      reads this, buckets, Repr
      ensures Valid() ==> this in Repr
    {
      && this in Repr && buckets in Repr
      && |chains| == |entries| == buckets.Length
      && (forall i :: 0 <= i < |chains| ==> |chains[i]| == |entries[i]| && buckets[i] == Link(i, 0))
      && (forall i, j :: 0 <= i < |chains| && 0 <= j < |chains[i]| ==> NodeOk(i, j))
      && Represents(entries, Contents)
      && size == |Contents|
    }

    constructor (bucketCount: nat)
      requires bucketCount > 0
      ensures Valid() && fresh(Repr) && Contents == map[]
    {
      buckets := new Node?<V>[bucketCount](_ => null);
      size := 0;
      Contents := map[];
      chains := seq(bucketCount, _ => []);
      entries := seq(bucketCount, _ => []);
      new;
      Repr := {this, buckets};
    }

    /** The node holding `key` and its predecessor in the chain. */
    method LookupNode(key: string) returns (idx: nat, prev: Node?<V>, cur: Node?<V>, ghost pos: nat)
      requires Valid()
      ensures buckets.Length > 0 && idx == Bucket(key, buckets.Length) && pos <= |chains[idx]|
      ensures cur == Link(idx, pos) && (cur == null <==> key !in Contents)
      ensures cur != null ==> cur.key == key && cur in Repr
      ensures prev == (if pos == 0 then null else Link(idx, pos - 1))
    {
      hide Hash;
      assert |entries| > 0;
      var h := StrHash(key);
      idx := h % buckets.Length;
      assert idx == Bucket(key, buckets.Length) by { BucketIs(key, buckets.Length); }
      ghost var c := chains[idx];
      prev, cur, pos := null, buckets[idx], 0;
      while cur != null
        invariant pos <= |c| && cur == Link(idx, pos)
        invariant prev == (if pos == 0 then null else Link(idx, pos - 1))
        invariant forall j :: 0 <= j < pos ==> entries[idx][j].0 != key
        decreases |c| - pos
      {
        assert NodeOk(idx, pos);
        if cur.key == key {
          assert entries[idx][pos].0 in Contents;
          return;
        }
        prev, cur, pos := cur, cur.next, pos + 1;
      }
      assert !HasKey(entries[idx], key);
    }

    method Get(key: string) returns (value: Option<V>)
      requires Valid()
      ensures value == if key in Contents then Some(Contents[key]) else None
    {
      var idx, prev, cur, pos := LookupNode(key);
      if cur == null {
        return None;
      }
      assert NodeOk(idx, pos);
      assert InTable(entries, idx, pos) && entries[idx][pos].0 == key;
      value := Some(cur.value);
    }

    /** Inserts or replaces; reports the value replaced. */
    method Set(key: string, value: V) returns (old_: Option<V>)
      requires Valid()
      modifies Repr
      ensures Valid() && fresh(Repr - old(Repr))
      ensures Contents == old(Contents)[key := value]
      ensures old_ == if key in old(Contents) then Some(old(Contents)[key]) else None
    {
      hide Represents;
      var idx, prev, cur, pos := LookupNode(key);
      if cur != null {
        EntryAt(idx, pos);
        old_ := Some(cur.value);
        Replace(idx, cur, pos, value);
      } else {
        old_ := None;
        Insert(idx, key, value);
      }
    }

    lemma EntryAt(idx: nat, pos: nat)
      requires Valid() && idx < |chains| && pos < |chains[idx]|
      ensures InTable(entries, idx, pos)
      ensures chains[idx][pos] in Repr && chains[idx][pos].key == entries[idx][pos].0
      ensures chains[idx][pos].key in Contents && chains[idx][pos].value == Contents[chains[idx][pos].key]
    {
      hide Hash;
      assert NodeOk(idx, pos);
      assert InTable(entries, idx, pos);
    }

    /** Different places hold different nodes. */
    lemma NodesDiffer(i: nat, j: nat, i': nat, j': nat)
      requires Valid() && i < |chains| && j < |chains[i]| && i' < |chains| && j' < |chains[i']|
      requires i != i' || j != j'
      ensures chains[i][j] != chains[i'][j'] && chains[i][j] in Repr
    {
      hide Represents;
      assert NodeOk(i, j) && NodeOk(i', j');
      assert InTable(entries, i, j) && InTable(entries, i', j');
      if entries[i][j].0 == entries[i'][j'].0 {
        OnePlace(entries, Contents, i, j, i', j');
      }
    }

    method Replace(idx: nat, cur: Node<V>, ghost pos: nat, value: V)
      requires Valid() && idx < |chains| && pos < |chains[idx]| && cur == chains[idx][pos] && cur in Repr
      modifies Repr
      ensures Valid() && Repr == old(Repr)
      ensures Contents == old(Contents)[cur.key := value]
    {
      hide Represents;
      EntryAt(idx, pos);
      RepresentsReplace(entries, Contents, idx, pos, value);
      forall i, j | 0 <= i < |chains| && 0 <= j < |chains[i]| && (i != idx || j != pos)
        ensures chains[i][j] != cur && NodeOk(i, j)
      {
        NodesDiffer(i, j, idx, pos);
      }
      assert NodeOk(idx, pos);
      cur.value := value;
      entries := entries[idx := entries[idx][pos := (cur.key, value)]];
      Contents := Contents[cur.key := value];
      forall i, j | 0 <= i < |chains| && 0 <= j < |chains[i]| ensures NodeOk(i, j) {
        assert old(NodeOk(i, j));
      }
    }

    method Insert(idx: nat, key: string, value: V)
      requires Valid() && |entries| > 0 && idx == Bucket(key, |entries|) && key !in Contents
      modifies Repr
      ensures Valid() && fresh(Repr - old(Repr))
      ensures Contents == old(Contents)[key := value]
    {
      hide Represents, Bucket;
      RepresentsInsert(entries, Contents, key, value);
      ghost var c := chains[idx];
      var node := new Node(key, value, buckets[idx]);
      buckets[idx] := node;
      size := size + 1;
      Contents := Contents[key := value];
      entries := entries[idx := [(key, value)] + entries[idx]];
      chains := chains[idx := [node] + c];
      Repr := Repr + {node};
      forall i, j | 0 <= i < |chains| && 0 <= j < |chains[i]| ensures NodeOk(i, j) {
        if i == idx && j > 0 {
          assert old(NodeOk(i, j - 1));
        } else if i != idx {
          assert old(NodeOk(i, j));
        }
      }
    }

    /** Unlinks the first node of a chain. */
    method UnlinkHead(idx: nat, cur: Node<V>)
      requires Valid() && idx < |chains| && chains[idx] != [] && cur == chains[idx][0]
      modifies Repr
      ensures Valid() && Repr == old(Repr)
      ensures Contents == old(Contents) - {cur.key}
    {
      hide Represents, InTable;
      EntryAt(idx, 0);
      RepresentsRemove(entries, Contents, idx, 0);
      assert NodeOk(idx, 0);
      ghost var c := chains[idx];
      buckets[idx] := cur.next;
      size := size - 1;
      Contents := Contents - {cur.key};
      entries := entries[idx := entries[idx][..0] + entries[idx][1..]];
      chains := chains[idx := c[1..]];
      forall i, j | 0 <= i < |chains| && 0 <= j < |chains[i]| ensures NodeOk(i, j) {
        assert old(NodeOk(i, if i == idx then j + 1 else j));
      }
    }

    /** Unlinks the node after `prev`. */
    method UnlinkNext(idx: nat, prev: Node<V>, cur: Node<V>, ghost pos: nat)
      requires Valid() && idx < |chains| && 0 < pos < |chains[idx]|
      requires cur == chains[idx][pos] && prev == chains[idx][pos - 1] && prev in Repr
      modifies Repr
      ensures Valid() && Repr == old(Repr)
      ensures Contents == old(Contents) - {cur.key}
    {
      hide Represents, InTable;
      EntryAt(idx, pos);
      RepresentsRemove(entries, Contents, idx, pos);
      forall i, j | 0 <= i < |chains| && 0 <= j < |chains[i]| && (i != idx || j != pos - 1)
        ensures chains[i][j] != prev
      {
        NodesDiffer(i, j, idx, pos - 1);
      }
      assert NodeOk(idx, pos) && NodeOk(idx, pos - 1);
      ghost var c := chains[idx];
      prev.next := cur.next;
      size := size - 1;
      Contents := Contents - {cur.key};
      entries := entries[idx := entries[idx][..pos] + entries[idx][pos + 1..]];
      chains := chains[idx := c[..pos] + c[pos + 1..]];
      forall i, j | 0 <= i < |chains| && 0 <= j < |chains[i]| ensures NodeOk(i, j) {
        if i != idx {
          assert old(NodeOk(i, j));
        } else if j < pos {
          assert old(NodeOk(i, j));
        } else {
          assert old(NodeOk(i, j + 1)) && c[j + 1] != prev;
        }
      }
    }

    /** Unlinks `cur`, whose predecessor is `prev`. */
    method Unlink(idx: nat, prev: Node?<V>, cur: Node<V>, ghost pos: nat) returns (value: V)
      requires Valid() && idx < |chains| && pos < |chains[idx]| && cur == chains[idx][pos] && cur in Repr
      requires prev == (if pos == 0 then null else Link(idx, pos - 1))
      modifies Repr
      ensures Valid() && Repr == old(Repr)
      ensures cur.key in old(Contents) && value == old(Contents)[cur.key] && Contents == old(Contents) - {cur.key}
    {
      hide Represents;
      EntryAt(idx, pos);
      value := cur.value;
      if prev != null {
        EntryAt(idx, pos - 1);
        UnlinkNext(idx, prev, cur, pos);
      } else {
        UnlinkHead(idx, cur);
      }
    }

    /** Removes; reports the value removed, None when the key was absent. */
    method Delete(key: string) returns (old_: Option<V>)
      requires Valid()
      modifies Repr
      ensures Valid() && Repr == old(Repr)
      ensures Contents == old(Contents) - {key}
      ensures old_ == if key in old(Contents) then Some(old(Contents)[key]) else None
    {
      hide Represents;
      var idx, prev, cur, pos := LookupNode(key);
      if cur == null {
        return None;
      }
      var value := Unlink(idx, prev, cur, pos);
      old_ := Some(value);
    }

    /** Calls back on every entry, bucket by bucket: the calls made, in order. */
    method Iter() returns (calls: seq<(string, V)>)
      requires Valid()
      ensures calls == Flatten(entries)
      ensures VisitsOnce(calls, Contents)
    {
      hide Represents;
      calls := [];
      var i := 0;
      while i < buckets.Length
        invariant 0 <= i <= buckets.Length
        invariant calls == Flatten(entries[..i])
      {
        var cur := buckets[i];
        ghost var pos := 0;
        ghost var done := calls;
        while cur != null
          invariant pos <= |chains[i]| && cur == Link(i, pos)
          invariant calls == done + entries[i][..pos]
          decreases |chains[i]| - pos
        {
          assert NodeOk(i, pos);
          calls := calls + [(cur.key, cur.value)];
          assert entries[i][..pos + 1] == entries[i][..pos] + [entries[i][pos]];
          cur, pos := cur.next, pos + 1;
        }
        assert entries[i][..pos] == entries[i];
        FlattenSnoc(entries, i);
        i := i + 1;
      }
      assert entries[..i] == entries;
      FlattenOnce(entries, Contents);
    }

    /** Empties every bucket; `freed` are the values handed to the callback. */
    method Clear() returns (freed: seq<V>)
      requires Valid()
      modifies Repr
      ensures Valid() && Repr == old(Repr)
      ensures Contents == map[] && size == 0
      ensures |freed| == |Flatten(old(entries))|
      ensures forall k :: 0 <= k < |freed| ==> freed[k] == Flatten(old(entries))[k].1
    {
      hide Represents;
      NotEmpty(entries, Contents);
      freed := [];
      ghost var calls := [];
      var i := 0;
      while i < buckets.Length
        invariant 0 <= i <= buckets.Length
        invariant forall a :: 0 <= a < i ==> buckets[a] == null
        invariant forall a :: i <= a < |chains| ==> buckets[a] == Link(a, 0)
        invariant forall a, b :: 0 <= a < |chains| && 0 <= b < |chains[a]| ==> NodeOk(a, b)
        invariant calls == Flatten(entries[..i])
        invariant |freed| == |calls| && forall k :: 0 <= k < |freed| ==> freed[k] == calls[k].1
        modifies buckets
      {
        var cur := buckets[i];
        ghost var pos := 0;
        ghost var done := calls;
        while cur != null
          invariant pos <= |chains[i]| && cur == Link(i, pos)
          invariant calls == done + entries[i][..pos]
          invariant |freed| == |calls| && forall k :: 0 <= k < |freed| ==> freed[k] == calls[k].1
          modifies {}
          decreases |chains[i]| - pos
        {
          assert NodeOk(i, pos);
          freed := freed + [cur.value];
          calls := calls + [(cur.key, cur.value)];
          assert entries[i][..pos + 1] == entries[i][..pos] + [entries[i][pos]];
          cur, pos := cur.next, pos + 1;
        }
        assert entries[i][..pos] == entries[i];
        FlattenSnoc(entries, i);
        label walked:
        buckets[i] := null;
        i := i + 1;
        forall a, b | 0 <= a < |chains| && 0 <= b < |chains[a]| ensures NodeOk(a, b) {
          assert old@walked(NodeOk(a, b));
        }
      }
      assert entries[..i] == entries;
      EmptyRepresents<V>(buckets.Length);
      size := 0;
      Contents := map[];
      chains := seq(buckets.Length, _ => []);
      entries := seq(buckets.Length, _ => []);
    }
  }

  /** A table cannot be made without buckets. */
  method HashNew<V>(bucketCount: nat) returns (t: Table?<V>)
    ensures t == null <==> bucketCount == 0
    ensures t != null ==> t.Valid() && fresh(t.Repr) && t.Contents == map[]
  {
    if bucketCount == 0 {
      return null;
    }
    t := new Table(bucketCount);
  }

  lemma EmptyRepresents<V>(n: nat)
    requires n > 0
    ensures Represents<V>(seq(n, _ => []), map[])
  {
  }

  /** All entries, bucket by bucket. */
  ghost function Flatten<V>(es: Entries<V>): seq<(string, V)> {
    if es == [] then [] else Flatten(es[..|es| - 1]) + es[|es| - 1]
  }

  lemma FlattenSnoc<V>(es: Entries<V>, i: nat)
    requires i < |es|
    ensures Flatten(es[..i + 1]) == Flatten(es[..i]) + es[i]
  {
    assert es[..i + 1][..i] == es[..i];
  }

  /** Every entry of the map once, and nothing else. */
  ghost predicate VisitsOnce<V>(calls: seq<(string, V)>, m: map<string, V>) {
    && (forall k :: 0 <= k < |calls| ==> calls[k].0 in m && m[calls[k].0] == calls[k].1)
    && (forall j, k :: 0 <= j < k < |calls| ==> calls[j].0 != calls[k].0)
    && (forall key :: key in m ==> HasKey(calls, key))
    && |calls| == |m|
  }

  /** Entries of buckets below `n` of `size`: true of the map, without a
      repeated key, and all the map's keys of those buckets. */
  ghost predicate Placed<V>(f: seq<(string, V)>, m: map<string, V>, size: nat, n: nat)
    requires size > 0
  {
    && (forall k {:trigger f[k]} :: 0 <= k < |f| ==> f[k].0 in m && m[f[k].0] == f[k].1 && Bucket(f[k].0, size) < n)
    && (forall j, k :: 0 <= j < k < |f| ==> f[j].0 != f[k].0)
    && (forall key :: key in m && Bucket(key, size) < n ==> HasKey(f, key))
  }

  lemma {:induction false} FlattenPlaces<V>(es: Entries<V>, m: map<string, V>, n: nat)
    requires Represents(es, m) && n <= |es|
    ensures Placed(Flatten(es[..n]), m, |es|, n)
    decreases n
  {
    hide Bucket, Placed;
    if n == 0 {
      assert es[..n] == [];
      PlacedNone(m, |es|);
    } else {
      FlattenPlaces(es, m, n - 1);
      FlattenSnoc(es, n - 1);
      PlacedNext(es, m, n - 1, Flatten(es[..n - 1]));
    }
  }

  lemma PlacedNone<V>(m: map<string, V>, size: nat)
    requires size > 0
    ensures Placed<V>([], m, size, 0)
  {
  }

  lemma PlacedNext<V>(es: Entries<V>, m: map<string, V>, n: nat, f: seq<(string, V)>)
    requires Represents(es, m) && n < |es| && Placed(f, m, |es|, n)
    ensures Placed(f + es[n], m, |es|, n + 1)
  {
    hide Bucket;
    var h: seq<(string, V)> := f + es[n];
    forall k | 0 <= k < |h| ensures h[k].0 in m && m[h[k].0] == h[k].1 && Bucket(h[k].0, |es|) < n + 1 {
      assert k < |f| ==> h[k] == f[k];
      assert k >= |f| ==> InTable(es, n, k - |f|) && h[k] == es[n][k - |f|];
    }
    forall j, k | 0 <= j < k < |h| ensures h[j].0 != h[k].0 {
      assert j < |f| ==> h[j] == f[j] && Bucket(f[j].0, |es|) < n;
      assert k < |f| ==> h[k] == f[k];
      assert k >= |f| ==> InTable(es, n, k - |f|) && h[k] == es[n][k - |f|] && Bucket(h[k].0, |es|) == n;
      assert j >= |f| ==> InTable(es, n, j - |f|) && h[j] == es[n][j - |f|];
    }
    forall key | key in m && Bucket(key, |es|) < n + 1 ensures HasKey(h, key) {
      KeyOfAppend(f, es[n], key);
    }
  }

  lemma KeyOfAppend<V>(f: seq<(string, V)>, g: seq<(string, V)>, key: string)
    ensures HasKey(f, key) || HasKey(g, key) ==> HasKey(f + g, key)
  {
    if HasKey(f, key) {
      var j :| 0 <= j < |f| && f[j].0 == key;
      assert (f + g)[j].0 == key;
    } else if HasKey(g, key) {
      var j :| 0 <= j < |g| && g[j].0 == key;
      assert (f + g)[|f| + j].0 == key;
    }
  }

  lemma FlattenOnce<V>(es: Entries<V>, m: map<string, V>)
    requires Represents(es, m)
    ensures VisitsOnce(Flatten(es), m)
  {
    hide Represents, Bucket;
    assert |es| > 0 by { NotEmpty(es, m); }
    FlattenPlaces(es, m, |es|);
    var f := Flatten(es);
    assert es[..|es|] == es && Flatten(es[..|es|]) == f;
    KeySetSize(f);
    forall key | key in m ensures key in KeySet(f) {
      var j :| 0 <= j < |f| && f[j].0 == key;
    }
    forall key | key in KeySet(f) ensures key in m {
      var j :| 0 <= j < |f| && f[j].0 == key;
    }
    assert KeySet(f) == m.Keys;
  }

  lemma NotEmpty<V>(es: Entries<V>, m: map<string, V>)
    requires Represents(es, m)
    ensures |es| > 0
  {
  }

  ghost function KeySet<V>(f: seq<(string, V)>): set<string> {
    set k | 0 <= k < |f| :: f[k].0
  }

  lemma {:induction false} KeySetSize<V>(f: seq<(string, V)>)
    requires forall j, k :: 0 <= j < k < |f| ==> f[j].0 != f[k].0
    ensures |KeySet(f)| == |f|
  {
    if f != [] {
      var g := f[..|f| - 1];
      KeySetSize(g);
      assert KeySet(f) == KeySet(g) + {f[|f| - 1].0};
      assert f[|f| - 1].0 !in KeySet(g);
    }
  }

  lemma BucketIs(key: string, n: nat)
    requires n > 0
    ensures Bucket(key, n) == Hash(key) % n
  {
  }
}
