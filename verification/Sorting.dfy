/** Sorting of indices by a pair of keys, as Python's stable `sorted` orders records. */
module Sorting {
  import opened SetSizes

  predicate LexLe(a: (int, int), b: (int, int)) {
    a.0 < b.0 || (a.0 == b.0 && a.1 <= b.1)
  }

  /** p lists 0 .. n-1, each once. */
  ghost predicate Permutation(p: seq<nat>, n: nat) {
    && |p| == n
    && (forall a | 0 <= a < n :: p[a] < n)
    && (forall a, b | 0 <= a < b < n :: p[a] != p[b])
  }

  /** Ascending keys, equal keys in their original order. */
  ghost predicate Ordered(keys: seq<(int, int)>, p: seq<nat>)
    requires forall a | 0 <= a < |p| :: p[a] < |keys|
  {
    forall a, b | 0 <= a < b < |p| :: InOrder(keys, p[a], p[b])
  }

  predicate InOrder(keys: seq<(int, int)>, x: nat, y: nat)
    requires x < |keys| && y < |keys|
  {
    LexLe(keys[x], keys[y]) && (keys[x] == keys[y] ==> x < y)
  }

  method SortIndices(keys: seq<(int, int)>) returns (p: seq<nat>)
    ensures Permutation(p, |keys|) && Ordered(keys, p)
  {
    p := [];
    var i := 0;
    while i < |keys|
      invariant i <= |keys| && Permutation(p, i) && Ordered(keys, p)
    {
      var j := |p|;
      while j > 0 && !LexLe(keys[p[j - 1]], keys[i])
        invariant 0 <= j <= |p|
        invariant forall b | j <= b < |p| :: !LexLe(keys[p[b]], keys[i])
      {
        j := j - 1;
      }
      InsertKeepsOrder(keys, p, i, j);
      p := Insert(p, i, j);
      i := i + 1;
    }
  }

  function Insert(p: seq<nat>, i: nat, j: nat): (q: seq<nat>)
    requires j <= |p|
    ensures |q| == |p| + 1 && q[j] == i
    ensures forall a | 0 <= a < j :: q[a] == p[a]
    ensures forall a | j < a <= |p| :: q[a] == p[a - 1]
  {
    p[..j] + [i] + p[j..]
  }

  lemma InsertKeepsPermutation(p: seq<nat>, i: nat, j: nat)
    requires j <= i && Permutation(p, i)
    ensures Permutation(Insert(p, i, j), i + 1)
  {
  }

  lemma InsertKeepsOrder(keys: seq<(int, int)>, p: seq<nat>, i: nat, j: nat)
    requires i < |keys| && j <= i && Permutation(p, i) && Ordered(keys, p)
    requires j > 0 ==> LexLe(keys[p[j - 1]], keys[i])
    requires forall b | j <= b < i :: !LexLe(keys[p[b]], keys[i])
    ensures Permutation(Insert(p, i, j), i + 1) && Ordered(keys, Insert(p, i, j))
  {
    InsertKeepsPermutation(p, i, j);
    var q := Insert(p, i, j);
    forall a, b | 0 <= a < b <= i ensures InOrder(keys, q[a], q[b]) {
      if b == j && a < j - 1 {
        assert InOrder(keys, p[a], p[j - 1]);
      }
    }
  }

  /** Every index below n occurs in a permutation. */
  lemma {:induction false} PermutationCovers(p: seq<nat>, n: nat, x: nat) returns (a: nat)
    requires Permutation(p, n) && x < n
    ensures a < n && p[a] == x
  {
    DistinctSize(p);
    UpToMeans(n);
    SubsetSize(Elements(p), UpTo(n));
    assert x in Elements(p);
    a :| 0 <= a < n && p[a] == x;
  }

  /** What q lists at a, p lists no earlier if both agree below a. */
  lemma NoEarlier(p: seq<nat>, q: seq<nat>, n: nat, a: nat) returns (b: nat)
    requires Permutation(p, n) && Permutation(q, n) && a < n && forall k | 0 <= k < a :: p[k] == q[k]
    ensures a <= b < n && p[b] == q[a]
  {
    b := PermutationCovers(p, n, q[a]);
  }

  lemma AtOrAfter(keys: seq<(int, int)>, p: seq<nat>, a: nat, b: nat)
    requires Permutation(p, |keys|) && Ordered(keys, p) && a <= b < |keys|
    ensures p[a] == p[b] || InOrder(keys, p[a], p[b])
  {
  }

  lemma SameNext(keys: seq<(int, int)>, p: seq<nat>, q: seq<nat>, a: nat)
    requires Permutation(p, |keys|) && Permutation(q, |keys|) && Ordered(keys, p) && Ordered(keys, q)
    requires a < |keys| && forall k | 0 <= k < a :: p[k] == q[k]
    ensures p[a] == q[a]
  {
    var b := NoEarlier(p, q, |keys|, a);
    var c := NoEarlier(q, p, |keys|, a);
    AtOrAfter(keys, p, a, b);
    AtOrAfter(keys, q, a, c);
  }

  /** The keys fix the order. */
  lemma OrderIsUnique(keys: seq<(int, int)>, p: seq<nat>, q: seq<nat>)
    requires Permutation(p, |keys|) && Permutation(q, |keys|) && Ordered(keys, p) && Ordered(keys, q)
    ensures p == q
  {
    for a := 0 to |keys|
      invariant forall k | 0 <= k < a :: p[k] == q[k]
    {
      SameNext(keys, p, q, a);
    }
  }

  /** inv undoes p. */
  ghost predicate Inverse(p: seq<nat>, inv: seq<nat>) {
    && |inv| == |p|
    && (forall a | 0 <= a < |p| :: p[a] < |p| && inv[p[a]] == a)
    && (forall x | 0 <= x < |p| :: inv[x] < |p| && p[inv[x]] == x)
  }

  lemma InverseOf(p: seq<nat>, n: nat) returns (inv: seq<nat>)
    requires Permutation(p, n)
    ensures Inverse(p, inv)
  {
    inv := [];
    while |inv| < n
      invariant |inv| <= n
      invariant forall x | 0 <= x < |inv| :: inv[x] < n && p[inv[x]] == x
    {
      var a := PermutationCovers(p, n, |inv|);
      inv := inv + [a];
    }
  }
}
