/** Completion pairing of examples/lmcache/kvio2perfetto.py: each completion, in time order,
    takes the latest submission not yet paired.  The stack greedy is a maximum matching. */
module Pairing {
  import opened SetSizes
  import opened Sorting

  /** m pairs submissions with completions one to one, none completing before it was submitted. */
  ghost predicate Matching(cmds: seq<int>, cmps: seq<int>, m: map<nat, nat>) {
    && (forall i | i in m :: i < |cmds| && m[i] < |cmps| && cmds[i] <= cmps[m[i]])
    && (forall i, j | i in m && j in m && i != j :: m[i] != m[j])
  }

  /** Latest first: whoever was submitted after a paired command and before its completion has
      been paired with an earlier completion. */
  ghost predicate LatestFirst(cmds: seq<int>, cmps: seq<int>, m: map<nat, nat>)
    requires Matching(cmds, cmps, m)
  {
    forall i, x | i in m && 0 <= x < |cmds| && cmds[i] < cmds[x] <= cmps[m[i]] ::
      x in m && cmps[m[x]] <= cmps[m[i]]
  }

  /** Paired intervals nest or are apart. */
  ghost predicate NonCrossing(cmds: seq<int>, cmps: seq<int>, m: map<nat, nat>)
    requires Matching(cmds, cmps, m)
  {
    forall i, j | i in m && j in m :: !(cmds[i] < cmds[j] <= cmps[m[i]] < cmps[m[j]])
  }

  lemma LatestFirstNests(cmds: seq<int>, cmps: seq<int>, m: map<nat, nat>)
    requires Matching(cmds, cmps, m) && LatestFirst(cmds, cmps, m)
    ensures NonCrossing(cmds, cmps, m)
  {
  }

  function Keys(ts: seq<int>): (k: seq<(int, int)>)
    ensures |k| == |ts|
  {
    seq(|ts|, i requires 0 <= i < |ts| => (ts[i], 0))
  }

  /** order lists the indices of ts by time. */
  ghost predicate ByTime(ts: seq<int>, order: seq<nat>) {
    Permutation(order, |ts|) && forall a, b | 0 <= a <= b < |ts| :: ts[order[a]] <= ts[order[b]]
  }

  method SortByTime(ts: seq<int>) returns (order: seq<nat>)
    ensures ByTime(ts, order)
  {
    order := SortIndices(Keys(ts));
    forall a, b | 0 <= a <= b < |ts| ensures ts[order[a]] <= ts[order[b]] {
      if a < b {
        assert InOrder(Keys(ts), order[a], order[b]);
      }
    }
  }

  /** Certificate: the completions before the k-th can only use the first `base` submissions,
      so no matching is larger than base + |cmps| - k. */
  ghost predicate Bounds(cmds: seq<int>, cmps: seq<int>, p: seq<nat>, q: seq<nat>, k: nat, base: nat)
    requires ByTime(cmds, p) && ByTime(cmps, q)
  {
    && k <= |cmps| && base <= |cmds|
    && (k == 0 ==> base == 0)
    && (k > 0 ==> forall a | base <= a < |cmds| :: cmds[p[a]] > cmps[q[k - 1]])
  }

  lemma NoLargerMatching(cmds: seq<int>, cmps: seq<int>, p: seq<nat>, q: seq<nat>, k: nat, base: nat, m: map<nat, nat>)
    requires ByTime(cmds, p) && ByTime(cmps, q) && Bounds(cmds, cmps, p, q, k, base)
    requires Matching(cmds, cmps, m)
    ensures |m| <= base + (|cmps| - k)
  {
    var early, late := Into(m, Elements(q[..k])), Into(m, Elements(q[k..]));
    EarlySize(cmds, cmps, p, q, k, base, m);
    InjectiveSize(late, Elements(q[k..]));
    ElementsSize(q[k..]);
    assert m.Keys == early.Keys + late.Keys by {
      forall i | i in m ensures i in early || i in late {
        EarlyOrLate(cmps, q, k, m[i]);
      }
    }
    UnionSize(early.Keys, late.Keys);
  }

  /** The part of m that uses the completions in s. */
  ghost function Into(m: map<nat, nat>, s: set<nat>): map<nat, nat> {
    map i | i in m && m[i] in s :: m[i]
  }

  lemma UnionSize<T>(a: set<T>, b: set<T>)
    ensures |a + b| <= |a| + |b|
  {
    assert a + b == a + (b - a);
    SubsetSize(b - a, b);
  }

  lemma EarlyOrLate(cmps: seq<int>, q: seq<nat>, k: nat, c: nat)
    requires ByTime(cmps, q) && k <= |cmps| && c < |cmps|
    ensures c in Elements(q[..k]) || c in Elements(q[k..])
  {
    var x := PermutationCovers(q, |cmps|, c);
    if x < k {
      assert q[..k][x] == c;
    } else {
      assert q[k..][x - k] == c;
    }
  }

  lemma EarlySize(cmds: seq<int>, cmps: seq<int>, p: seq<nat>, q: seq<nat>, k: nat, base: nat, m: map<nat, nat>)
    requires ByTime(cmds, p) && ByTime(cmps, q) && Bounds(cmds, cmps, p, q, k, base)
    requires Matching(cmds, cmps, m)
    ensures |Into(m, Elements(q[..k]))| <= base
  {
    var early := Into(m, Elements(q[..k]));
    forall i | i in early ensures i in Elements(p[..base]) {
      EarlyUsesFirst(cmds, cmps, p, q, k, base, m, i);
    }
    SubsetSize(early.Keys, Elements(p[..base]));
    ElementsSize(p[..base]);
  }

  lemma EarlyUsesFirst(cmds: seq<int>, cmps: seq<int>, p: seq<nat>, q: seq<nat>, k: nat, base: nat, m: map<nat, nat>,
      i: nat)
    requires ByTime(cmds, p) && ByTime(cmps, q) && Bounds(cmds, cmps, p, q, k, base)
    requires Matching(cmds, cmps, m) && i in m && m[i] in Elements(q[..k])
    ensures i in Elements(p[..base])
  {
    var x :| 0 <= x < k && q[..k][x] == m[i];
    assert cmps[q[x]] <= cmps[q[k - 1]];
    var y := PermutationCovers(p, |cmds|, i);
    assert p[..base][y] == i;
  }

  /** ts read in the given order. */
  function Reordered(ts: seq<int>, order: seq<nat>): (s: seq<int>)
    requires |order| == |ts| && forall a | 0 <= a < |ts| :: order[a] < |ts|
    ensures |s| == |ts| && forall a | 0 <= a < |ts| :: s[a] == ts[order[a]]
  {
    seq(|ts|, a requires 0 <= a < |ts| => ts[order[a]])
  }

  // From here on cs and ps are submission and completion times in ascending order, and
  // positions stand for records.  m pairs positions while the completions ps[..j] and the
  // submissions cs[..ci] have been looked at.

  ghost predicate Ascending(s: seq<int>) {
    forall a, b | 0 <= a <= b < |s| :: s[a] <= s[b]
  }

  ghost predicate Paired(cs: seq<int>, ps: seq<int>, ci: nat, j: nat, m: map<nat, nat>)
    requires ci <= |cs| && j <= |ps|
  {
    && (forall a | a in m :: a < ci && m[a] < j && cs[a] <= ps[m[a]])
    && (forall a, b | a in m && b in m && a != b :: m[a] != m[b])
    && (forall a, x | a in m && 0 <= x < |cs| :: NestsUnder(cs, ps, m, a, x))
  }

  /** A later submission that fits under the interval of a is paired with an earlier completion. */
  ghost predicate NestsUnder(cs: seq<int>, ps: seq<int>, m: map<nat, nat>, a: nat, x: nat)
    requires a in m && x < |cs| && m[a] < |ps|
  {
    a < x && cs[x] <= ps[m[a]] ==> x in m && m[x] < m[a]
  }

  /** The submissions seen so far are paired or on the stack, oldest at the bottom. */
  ghost predicate Stacked(ci: nat, stack: seq<nat>, m: map<nat, nat>) {
    && (forall a | 0 <= a < |stack| :: stack[a] < ci && stack[a] !in m)
    && (forall a, b | 0 <= a < b < |stack| :: stack[a] < stack[b])
    && (forall x: nat | x < ci :: x in m || x in stack)
  }

  /** The submissions cs[..ci] are exactly those not later than time t. */
  ghost predicate UpToTime(cs: seq<int>, ci: nat, t: int)
    requires ci <= |cs|
  {
    (forall x | 0 <= x < ci :: cs[x] <= t) && (forall x | ci <= x < |cs| :: cs[x] > t)
  }

  lemma PopKeepsPaired(cs: seq<int>, ps: seq<int>, ci: nat, j: nat, stack: seq<nat>, m: map<nat, nat>)
    requires ci <= |cs| && j < |ps| && Paired(cs, ps, ci, j, m)
    requires Stacked(ci, stack, m) && stack != [] && UpToTime(cs, ci, ps[j])
    ensures Paired(cs, ps, ci, j + 1, m[stack[|stack| - 1] := j])
  {
    var i := stack[|stack| - 1];
    var m' := m[i := j];
    forall a, x | a in m' && 0 <= x < |cs| ensures NestsUnder(cs, ps, m', a, x) {
      assert a != i ==> NestsUnder(cs, ps, m, a, x);
    }
  }

  lemma PushKeepsStacked(ci: nat, stack: seq<nat>, m: map<nat, nat>)
    requires Stacked(ci, stack, m) && forall a | a in m :: a < ci
    ensures Stacked(ci + 1, stack + [ci], m)
  {
    assert (stack + [ci])[|stack|] == ci;
  }

  lemma PopKeepsStacked(ci: nat, j: nat, stack: seq<nat>, m: map<nat, nat>)
    requires Stacked(ci, stack, m) && stack != []
    ensures Stacked(ci, stack[..|stack| - 1], m[stack[|stack| - 1] := j])
    ensures |m[stack[|stack| - 1] := j]| == |m| + 1
  {
    var i, rest := stack[|stack| - 1], stack[..|stack| - 1];
    assert stack == rest + [i];
    assert m[i := j].Keys == m.Keys + {i};
  }

  /** An empty stack: every submission seen so far is paired. */
  lemma EmptyStackSize(cs: seq<int>, ps: seq<int>, ci: nat, j: nat, m: map<nat, nat>)
    requires ci <= |cs| && j <= |ps| && Paired(cs, ps, ci, j, m) && Stacked(ci, [], m)
    ensures |m| == ci
  {
    UpToMeans(ci);
    assert m.Keys == UpTo(ci);
    assert |m| == |m.Keys|;
  }

  /** The pairs of positions, read back as pairs of records; inv gives the position of a
      submission. */
  ghost function Original(inv: seq<nat>, q: seq<nat>, m: map<nat, nat>): map<nat, nat>
    requires forall a | a in m :: m[a] < |q|
  {
    map i: nat | i < |inv| && inv[i] in m :: q[m[inv[i]]]
  }

  /** Position level and record level agree. */
  ghost predicate Aligned(cmds: seq<int>, cmps: seq<int>, inv: seq<nat>, q: seq<nat>, cs: seq<int>, ps: seq<int>) {
    && |inv| == |cmds| == |cs| && |q| == |cmps| == |ps|
    && (forall i | 0 <= i < |cmds| :: inv[i] < |cs| && cmds[i] == cs[inv[i]])
    && (forall i, j | 0 <= i < j < |cmds| :: inv[i] != inv[j])
    && (forall b | 0 <= b < |ps| :: q[b] < |cmps| && cmps[q[b]] == ps[b])
    && (forall a, b | 0 <= a < b < |ps| :: q[a] != q[b])
    && Ascending(cs) && Ascending(ps)
  }

  lemma OriginalIsMatching(cmds: seq<int>, cmps: seq<int>, inv: seq<nat>, q: seq<nat>, cs: seq<int>, ps: seq<int>,
      ci: nat, m: map<nat, nat>)
    requires Aligned(cmds, cmps, inv, q, cs, ps) && ci <= |cs| && Paired(cs, ps, ci, |ps|, m)
    ensures Matching(cmds, cmps, Original(inv, q, m))
  {
  }

  lemma OriginalIsLatestFirst(cmds: seq<int>, cmps: seq<int>, inv: seq<nat>, q: seq<nat>, cs: seq<int>, ps: seq<int>,
      ci: nat, m: map<nat, nat>)
    requires Aligned(cmds, cmps, inv, q, cs, ps) && ci <= |cs| && Paired(cs, ps, ci, |ps|, m)
    requires Matching(cmds, cmps, Original(inv, q, m))
    ensures LatestFirst(cmds, cmps, Original(inv, q, m))
  {
    var o := Original(inv, q, m);
    forall i, x | i in o && 0 <= x < |cmds| && cmds[i] < cmds[x] <= cmps[o[i]]
      ensures x in o && cmps[o[x]] <= cmps[o[i]]
    {
      assert NestsUnder(cs, ps, m, inv[i], inv[x]);
    }
  }

  /** out holds the duration of every paired submission, by record. */
  ghost predicate DurationsOf(cs: seq<int>, ps: seq<int>, inv: seq<nat>, m: map<nat, nat>, out: map<nat, int>)
    requires forall a | a in m :: a < |cs| && m[a] < |ps|
  {
    && |out| == |m|
    && (forall i: nat :: i in out <==> i < |inv| && inv[i] in m)
    && (forall i | i in out :: out[i] == ps[m[inv[i]]] - cs[inv[i]])
  }

  lemma AddDuration(cs: seq<int>, ps: seq<int>, p: seq<nat>, inv: seq<nat>, m: map<nat, nat>, out: map<nat, int>,
      a: nat, j: nat)
    requires Inverse(p, inv) && |p| == |cs| && a < |cs| && j < |ps| && a !in m
    requires forall b | b in m :: b < |cs| && m[b] < |ps|
    requires DurationsOf(cs, ps, inv, m, out)
    ensures DurationsOf(cs, ps, inv, m[a := j], out[p[a] := ps[j] - cs[a]])
  {
    var out', m' := out[p[a] := ps[j] - cs[a]], m[a := j];
    assert inv[p[a]] == a;
    SizeGrows(out, p[a], ps[j] - cs[a]);
    SizeGrows(m, a, j);
    forall i: nat | i < |inv| && i != p[a] ensures inv[i] != a {
      assert p[inv[i]] == i;
    }
    forall i: nat ensures i in out' <==> i < |inv| && inv[i] in m' {
      if i != p[a] && i < |inv| {
        assert inv[i] != a;
      }
    }
    forall i: nat | i in out' ensures out'[i] == ps[m'[inv[i]]] - cs[inv[i]] {
      if i != p[a] {
        assert i in out && inv[i] != a;
      }
    }
  }

  lemma SizeGrows<V>(m: map<nat, V>, k: nat, v: V)
    requires k !in m
    ensures |m[k := v]| == |m| + 1
  {
    var m' := m[k := v];
    assert m'.Keys == m.Keys + {k};
    assert |m'| == |m'.Keys| && |m| == |m.Keys|;
  }

  /** Every submission from base on is later than completion k - 1. */
  ghost predicate Beyond(cs: seq<int>, ps: seq<int>, k: nat, base: nat)
    requires k <= |ps|
  {
    base <= |cs| && if k == 0 then base == 0 else forall a | base <= a < |cs| :: cs[a] > ps[k - 1]
  }

  /** Completions ps[..j] and submissions cs[..c] are done; open submissions are on the stack. */
  ghost predicate Merged(cs: seq<int>, ps: seq<int>, inv: seq<nat>, c: nat, j: nat, stack: seq<nat>,
      m: map<nat, nat>, out: map<nat, int>) {
    && c <= |cs| && j <= |ps| && Paired(cs, ps, c, j, m) && Stacked(c, stack, m) && DurationsOf(cs, ps, inv, m, out)
  }

  /** Completion j takes the latest open submission. */
  method Pop(cs: seq<int>, ps: seq<int>, p: seq<nat>, ghost inv: seq<nat>, ghost c: nat, j: nat, stack: seq<nat>,
      ghost m: map<nat, nat>, out: map<nat, int>)
    returns (stack': seq<nat>, ghost m': map<nat, nat>, out': map<nat, int>)
    requires Merged(cs, ps, inv, c, j, stack, m, out) && j < |ps| && stack != [] && UpToTime(cs, c, ps[j])
    requires Inverse(p, inv) && |p| == |cs|
    ensures Merged(cs, ps, inv, c, j + 1, stack', m', out') && |m'| == |m| + 1
  {
    var a := stack[|stack| - 1];
    PopKeepsPaired(cs, ps, c, j, stack, m);
    PopKeepsStacked(c, j, stack, m);
    AddDuration(cs, ps, p, inv, m, out, a, j);
    stack', m', out' := stack[..|stack| - 1], m[a := j], out[p[a] := ps[j] - cs[a]];
  }

  /** Completion j finds no open submission. */
  lemma PassStep(cs: seq<int>, ps: seq<int>, inv: seq<nat>, c: nat, j: nat, m: map<nat, nat>, out: map<nat, int>)
    requires Merged(cs, ps, inv, c, j, [], m, out) && j < |ps| && UpToTime(cs, c, ps[j])
    ensures Merged(cs, ps, inv, c, j + 1, [], m, out) && |m| == c && Beyond(cs, ps, j + 1, c)
  {
    EmptyStackSize(cs, ps, c, j, m);
  }

  /** The merge loop; k and base certify that no matching is larger. */
  method PairSorted(cs: seq<int>, ps: seq<int>, p: seq<nat>, ghost inv: seq<nat>)
    returns (out: map<nat, int>, ghost pairs: map<nat, nat>, ghost ci: nat, ghost k: nat, ghost base: nat)
    requires Ascending(cs) && Ascending(ps) && Inverse(p, inv) && |p| == |cs|
    ensures ci <= |cs| && Paired(cs, ps, ci, |ps|, pairs)
    ensures DurationsOf(cs, ps, inv, pairs, out)
    ensures k <= |ps| && Beyond(cs, ps, k, base) && |pairs| == base + (|ps| - k)
  {
    out, pairs := map[], map[];
    var stack: seq<nat> := [];
    var c, j := 0, 0;
    k, base := 0, 0;
    while j < |ps|
      invariant Merged(cs, ps, inv, c, j, stack, pairs, out)
      invariant if j == 0 then c == 0 else UpToTime(cs, c, ps[j - 1])
      invariant k <= j && Beyond(cs, ps, k, base) && |pairs| == base + (j - k)
    {
      c, stack := Push(cs, ps, j, c, stack, pairs);
      if stack != [] {
        stack, pairs, out := Pop(cs, ps, p, inv, c, j, stack, pairs, out);
      } else {
        PassStep(cs, ps, inv, c, j, pairs, out);
        k, base := j + 1, c;
      }
      j := j + 1;
    }
    ci := c;
  }

  /** The inner loop: submissions up to the time of completion j go on the stack. */
  method Push(cs: seq<int>, ps: seq<int>, j: nat, c0: nat, stack0: seq<nat>, ghost pairs: map<nat, nat>)
    returns (c: nat, stack: seq<nat>)
    requires c0 <= |cs| && j < |ps| && Ascending(cs) && Ascending(ps)
    requires Paired(cs, ps, c0, j, pairs) && Stacked(c0, stack0, pairs)
    requires if j == 0 then c0 == 0 else UpToTime(cs, c0, ps[j - 1])
    ensures c0 <= c <= |cs| && UpToTime(cs, c, ps[j])
    ensures Paired(cs, ps, c, j, pairs) && Stacked(c, stack, pairs)
  {
    c, stack := c0, stack0;
    while c < |cs| && cs[c] <= ps[j]
      invariant c0 <= c <= |cs| && Stacked(c, stack, pairs)
      invariant forall x | 0 <= x < c :: cs[x] <= ps[j]
    {
      PushKeepsStacked(c, stack, pairs);
      stack := stack + [c];
      c := c + 1;
    }
  }

  lemma Align(cmds: seq<int>, cmps: seq<int>, p: seq<nat>, q: seq<nat>, inv: seq<nat>)
    requires ByTime(cmds, p) && ByTime(cmps, q) && Inverse(p, inv)
    ensures Aligned(cmds, cmps, inv, q, Reordered(cmds, p), Reordered(cmps, q))
  {
    forall i, j | 0 <= i < j < |cmds| ensures inv[i] != inv[j] {
      assert p[inv[i]] == i && p[inv[j]] == j;
    }
  }

  lemma DurationsByRecord(cmds: seq<int>, cmps: seq<int>, inv: seq<nat>, q: seq<nat>, cs: seq<int>, ps: seq<int>,
                          ci: nat, m: map<nat, nat>, out: map<nat, int>)
    requires Aligned(cmds, cmps, inv, q, cs, ps) && ci <= |cs| && Paired(cs, ps, ci, |ps|, m)
    requires DurationsOf(cs, ps, inv, m, out) && Matching(cmds, cmps, Original(inv, q, m))
    ensures out.Keys == Original(inv, q, m).Keys
    ensures forall i | i in out :: out[i] == cmps[Original(inv, q, m)[i]] - cmds[i]
  {
  }

  method PairCompletions(cmds: seq<int>, cmps: seq<int>) returns (out: map<nat, int>, ghost m: map<nat, nat>)
    ensures Matching(cmds, cmps, m)
    ensures out.Keys == m.Keys && forall i | i in out :: out[i] == cmps[m[i]] - cmds[i]
    ensures LatestFirst(cmds, cmps, m) && NonCrossing(cmds, cmps, m)
    ensures forall other | Matching(cmds, cmps, other) :: |other| <= |out|
  {
    var p := SortByTime(cmds);
    var q := SortByTime(cmps);
    ghost var inv := InverseOf(p, |cmds|);
    var cs, ps := Reordered(cmds, p), Reordered(cmps, q);
    Align(cmds, cmps, p, q, inv);
    ghost var pairs, ci, k, base;
    out, pairs, ci, k, base := PairSorted(cs, ps, p, inv);
    m := Original(inv, q, pairs);
    OriginalIsMatching(cmds, cmps, inv, q, cs, ps, ci, pairs);
    OriginalIsLatestFirst(cmds, cmps, inv, q, cs, ps, ci, pairs);
    LatestFirstNests(cmds, cmps, m);
    DurationsByRecord(cmds, cmps, inv, q, cs, ps, ci, pairs, out);
    IsMaximum(cmds, cmps, p, q, cs, ps, k, base);
  }

  lemma IsMaximum(cmds: seq<int>, cmps: seq<int>, p: seq<nat>, q: seq<nat>, cs: seq<int>, ps: seq<int>, k: nat,
      base: nat)
    requires ByTime(cmds, p) && ByTime(cmps, q) && cs == Reordered(cmds, p) && ps == Reordered(cmps, q)
    requires k <= |ps| && base <= |cs|
    requires if k == 0 then base == 0 else forall a | base <= a < |cs| :: cs[a] > ps[k - 1]
    ensures forall other | Matching(cmds, cmps, other) :: |other| <= base + (|ps| - k)
  {
    forall other | Matching(cmds, cmps, other) ensures |other| <= base + (|ps| - k) {
      NoLargerMatching(cmds, cmps, p, q, k, base, other);
    }
  }
}
