/** Sequence identities the proofs cite by name. */
module SeqFacts {

  lemma Assoc<T>(a: seq<T>, b: seq<T>, c: seq<T>)
    ensures (a + b) + c == a + (b + c)
  {
  }

  lemma Parts<T>(s: seq<T>, n: nat)
    requires n <= |s|
    ensures s == s[..n] + s[n..] && (n > 0 ==> s[..n] != [])
  {
  }

  lemma Drop1<T>(x: T, s: seq<T>)
    ensures ([x] + s)[0] == x && ([x] + s)[1..] == s
  {
  }

  lemma Drop2<T>(x: T, y: T, s: seq<T>)
    ensures ([x, y] + s)[0] == x && ([x, y] + s)[1] == y
    ensures ([x, y] + s)[1..] == [y] + s && ([x, y] + s)[2..] == s
  {
  }
}
