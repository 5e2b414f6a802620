/** Linear probing over a fixed table, as three tables of the toolkit use it: the
    pending-mmap table and the fd map (syscall_replayer.c), where removal leaves no
    tombstone, and the page tally (mmap_readamp.c), which only inserts. */
module Probing {
  import opened Wrappers

  datatype Slot<K, V> = Vacant | Taken(key: K, val: V)

  /** The i-th slot on the probe path that starts at hash value h. */
  function At(n: nat, h: nat, i: nat): (b: nat)
    requires n > 0
    ensures b < n
  {
    (h + i) % n
  }

  lemma AtInjective(n: nat, h: nat, i: nat, j: nat)
    requires i < n && j < n && At(n, h, i) == At(n, h, j)
    ensures i == j
  {
    var q1, q2 := (h + i) / n, (h + j) / n;
    assert h + i == n * q1 + (h + i) % n && h + j == n * q2 + (h + j) % n;
    assert i - j == n * (q1 - q2);
    if q1 != q2 {
      MultipleIsFar(n, q1 - q2);
    }
  }

  lemma MultipleIsFar(n: int, d: int)
    requires n >= 0 && d != 0
    ensures n * d >= n || n * d <= -n
  {
    if d > 0 {
      MulGrows(n, d);
    } else {
      MulGrows(n, -d);
    }
  }

  lemma MulGrows(n: int, k: int)
    requires n >= 0 && k >= 1
    ensures n * k >= n
  {
    assert n * k == n + n * (k - 1);
  }

  /** Every slot is on every probe path. */
  lemma AtCovers(n: nat, h: nat, b: nat) returns (i: nat)
    requires b < n
    ensures i < n && At(n, h, i) == b
  {
    var r := h % n;
    var q := h / n;
    assert h == n * q + r;
    i := if b >= r then b - r else b - r + n;
    if b >= r {
      ModShift(n, q, b);
      assert h + i == n * q + b;
    } else {
      ModShift(n, q + 1, b);
      assert h + i == n * (q + 1) + b;
    }
  }

  lemma ModShift(n: nat, q: nat, b: nat)
    requires b < n
    ensures (n * q + b) % n == b
  {
    var x := n * q + b;
    assert x == n * (x / n) + x % n;
    var d := q - x / n;
    assert n * d == x % n - b;
    if d != 0 {
      MultipleIsFar(n, d);
    }
  }

  predicate Stops<K(==), V>(s: Slot<K, V>, k: K) {
    s.Vacant? || s.key == k
  }

  /** The slot where probing for k stops, looking from the i-th probe on. */
  function LocateFrom<K(==), V>(t: seq<Slot<K, V>>, h: nat, k: K, i: nat): (r: Option<nat>)
    requires i <= |t|
    ensures r.Some? ==> r.value < |t| && Stops(t[r.value], k)
    decreases |t| - i
  {
    if i == |t| then None
    else if Stops(t[At(|t|, h, i)], k) then Some(At(|t|, h, i))
    else LocateFrom(t, h, k, i + 1)
  }

  function Locate<K(==), V>(t: seq<Slot<K, V>>, h: nat, k: K): (r: Option<nat>)
    ensures r.Some? ==> r.value < |t| && Stops(t[r.value], k)
  {
    LocateFrom(t, h, k, 0)
  }

  /** The slots passed before the d-th probe hold other keys. */
  ghost predicate PathBusy<K, V>(t: seq<Slot<K, V>>, h: nat, k: K, d: nat)
    requires d <= |t|
  {
    forall i | 0 <= i < d :: !Stops(t[At(|t|, h, i)], k)
  }

  /** Probing stops at the first vacant or matching slot of the path. */
  lemma {:induction false} LocateFromIs<K, V>(t: seq<Slot<K, V>>, h: nat, k: K, i: nat, d: nat)
    requires i <= d < |t| && PathBusy(t, h, k, d) && Stops(t[At(|t|, h, d)], k)
    ensures LocateFrom(t, h, k, i) == Some(At(|t|, h, d))
    decreases d - i
  {
    if i < d {
      LocateFromIs(t, h, k, i + 1, d);
    }
  }

  /** Conversely, the slot found sits at the end of a busy path; no slot is found only in
      a full table without k. */
  lemma {:induction false} LocateFromPath<K, V>(t: seq<Slot<K, V>>, h: nat, k: K, i: nat) returns (d: nat)
    requires i <= |t| && PathBusy(t, h, k, i)
    ensures d <= |t| && PathBusy(t, h, k, d)
    ensures LocateFrom(t, h, k, i) == if d < |t| then Some(At(|t|, h, d)) else None
    ensures d < |t| ==> Stops(t[At(|t|, h, d)], k)
    decreases |t| - i
  {
    if i == |t| || Stops(t[At(|t|, h, i)], k) {
      d := i;
    } else {
      d := LocateFromPath(t, h, k, i + 1);
    }
  }

  lemma FullWithout<K, V>(t: seq<Slot<K, V>>, h: nat, k: K, b: nat)
    requires Locate(t, h, k) == None && b < |t|
    ensures t[b].Taken? && t[b].key != k
  {
    var d := LocateFromPath(t, h, k, 0);
    var i := AtCovers(|t|, h, b);
    assert !Stops(t[At(|t|, h, i)], k);
  }

  /** The probe loop shared by the tables, against `Locate`. */
  method Probe<K(==), V>(a: array<Slot<K, V>>, h: nat, k: K) returns (r: Option<nat>)
    ensures r == Locate(a[..], h, k)
  {
    var i := 0;
    while i < a.Length
      invariant 0 <= i <= a.Length
      invariant Locate(a[..], h, k) == LocateFrom(a[..], h, k, i)
    {
      var b := At(a.Length, h, i);
      if Stops(a[b], k) {
        return Some(b);
      }
      i := i + 1;
    }
    return None;
  }

  function Lookup<K(==), V>(t: seq<Slot<K, V>>, h: nat, k: K): Option<V> {
    match Locate(t, h, k)
    case Some(b) => if t[b].Taken? then Some(t[b].val) else None
    case None => None
  }

  function Put<K(==), V>(t: seq<Slot<K, V>>, h: nat, k: K, v: V): (t': seq<Slot<K, V>>)
    ensures |t'| == |t|
  {
    match Locate(t, h, k)
    case Some(b) => t[b := Taken(k, v)]
    case None => t
  }

  function Remove<K(==), V>(t: seq<Slot<K, V>>, h: nat, k: K): (t': seq<Slot<K, V>>)
    ensures |t'| == |t|
  {
    match Locate(t, h, k)
    case Some(b) => t[b := Vacant]
    case None => t
  }
}
