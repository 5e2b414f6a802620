/** Sizes of sets of indices and of values. */
module SetSizes {

  ghost function Elements<T>(s: seq<T>): set<T> {
    set a | 0 <= a < |s| :: s[a]
  }

  /** What a fact adds to a count. */
  function One(b: bool): nat {
    if b then 1 else 0
  }

  lemma SubsetSize<T>(a: set<T>, b: set<T>)
    requires a <= b
    ensures |a| <= |b|
    ensures |a| == |b| <==> a == b
  {
    assert b == a + (b - a);
  }

  /** Two sets that differ at most in x. */
  lemma DifferAt<T>(a: set<T>, b: set<T>, x: T)
    requires a - {x} == b - {x}
    ensures |a| + One(x in b) == |b| + One(x in a)
  {
    assert x in a ==> a == (a - {x}) + {x};
    assert x in b ==> b == (b - {x}) + {x};
    assert x !in a ==> a == a - {x};
    assert x !in b ==> b == b - {x};
  }

  /** The indices below n with a property, one index at a time. */
  ghost function Chosen(n: nat, p: nat -> bool): set<nat> {
    set i: nat | i < n && p(i)
  }

  lemma ChosenStep(n: nat, p: nat -> bool)
    ensures |Chosen(n + 1, p)| == |Chosen(n, p)| + One(p(n))
  {
    assert Chosen(n + 1, p) - {n} == Chosen(n, p) - {n};
    DifferAt(Chosen(n + 1, p), Chosen(n, p), n);
  }

  function UpTo(n: nat): set<nat> {
    if n == 0 then {} else UpTo(n - 1) + {n - 1}
  }

  lemma {:induction false} UpToMeans(n: nat)
    ensures |UpTo(n)| == n
    ensures forall b: nat :: b in UpTo(n) <==> b < n
  {
    if n > 0 {
      UpToMeans(n - 1);
    }
  }

  lemma ElementsSnoc<T>(s: seq<T>, x: T)
    ensures Elements(s + [x]) == Elements(s) + {x}
  {
    assert (s + [x])[|s|] == x;
    assert forall a | 0 <= a < |s| :: (s + [x])[a] == s[a];
  }

  lemma {:induction false} ElementsSize<T>(s: seq<T>)
    ensures |Elements(s)| <= |s|
  {
    if s != [] {
      var n := |s| - 1;
      ElementsSize(s[..n]);
      assert Elements(s) == Elements(s[..n]) + {s[n]};
    }
  }

  lemma {:induction false} DistinctSize<T>(s: seq<T>)
    requires forall a, b | 0 <= a < b < |s| :: s[a] != s[b]
    ensures |Elements(s)| == |s|
  {
    if s != [] {
      var n := |s| - 1;
      DistinctSize(s[..n]);
      assert Elements(s) == Elements(s[..n]) + {s[n]};
      assert s[n] !in Elements(s[..n]);
    }
  }

  /** A one-to-one map has no more keys than targets. */
  lemma {:induction false} InjectiveSize<K, V>(m: map<K, V>, targets: set<V>)
    requires forall i, j | i in m && j in m && i != j :: m[i] != m[j]
    requires forall i | i in m :: m[i] in targets
    ensures |m| <= |targets|
    decreases |m|
  {
    if m != map[] {
      var i :| i in m;
      var rest := m - {i};
      assert m.Keys == rest.Keys + {i};
      InjectiveSize(rest, targets - {m[i]});
    }
  }
}
