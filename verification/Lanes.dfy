/** Lane assignment of examples/lmcache/kvio2perfetto.py: greedy colouring of the interval
    graph of time spans, proved optimal. */
module Lanes {
  import opened SetSizes
  import opened Sorting

  datatype Span = Span(begin: int, end: int)

  /** Both spans contain a common instant (an endpoint is enough). */
  predicate Overlap(a: Span, b: Span) {
    a.begin <= b.end && b.begin <= a.end
  }

  predicate Covers(s: Span, t: int) {
    s.begin <= t <= s.end
  }

  ghost function CoverSet(spans: seq<Span>, t: int): set<nat> {
    set i: nat | i < |spans| && Covers(spans[i], t)
  }

  /** A placement of every span on one of n lanes. */
  ghost predicate Placement(spans: seq<Span>, lane: seq<nat>, n: nat) {
    |lane| == |spans| && forall i | 0 <= i < |lane| :: lane[i] < n
  }

  /** Spans that share a lane do not even share an endpoint. */
  ghost predicate Separated(spans: seq<Span>, lane: seq<nat>)
    requires |lane| == |spans|
  {
    forall i, j | 0 <= i < j < |lane| && lane[i] == lane[j] :: !Overlap(spans[i], spans[j])
  }

  /** Any separated placement needs at least as many lanes as spans cover one instant. */
  lemma LanesAtLeastCover(spans: seq<Span>, lane: seq<nat>, n: nat, t: int)
    requires Placement(spans, lane, n) && Separated(spans, lane)
    ensures |CoverSet(spans, t)| <= n
  {
    var used := map i | i in CoverSet(spans, t) :: lane[i];
    forall i, j | i in used && j in used && i != j ensures used[i] != used[j] {
      assert Overlap(spans[i], spans[j]);
    }
    UpToMeans(n);
    assert used.Keys == CoverSet(spans, t);
    InjectiveSize(used, UpTo(n));
  }

  function SpanKeys(spans: seq<Span>): (k: seq<(int, int)>)
    ensures |k| == |spans|
  {
    seq(|spans|, i requires 0 <= i < |spans| => (spans[i].begin, spans[i].end))
  }

  // The greedy looks at the spans in begin order; below, spans are already in that order and
  // the first m of them have been placed.

  ghost predicate ByBegin(spans: seq<Span>) {
    forall a, b | 0 <= a <= b < |spans| :: spans[a].begin <= spans[b].begin
  }

  /** last[l] is the span that occupies lane l last; it ends at laneFree[l], and every other
      span of the lane ends before it begins. */
  ghost predicate Greedy(spans: seq<Span>, lane: seq<nat>, laneFree: seq<int>, last: seq<nat>)
    requires |lane| <= |spans|
  {
    && |laneFree| == |last|
    && Placement(spans[..|lane|], lane, |laneFree|)
    && Separated(spans[..|lane|], lane)
    && (forall l | 0 <= l < |last| :: last[l] < |lane| && lane[last[l]] == l && laneFree[l] == spans[last[l]].end)
    && (forall i | 0 <= i < |lane| :: spans[i].end <= laneFree[lane[i]])
  }

  /** An instant covered by one span of every lane. */
  ghost predicate Witness(spans: seq<Span>, n: nat, t: int) {
    |CoverSet(spans, t)| >= n
  }

  lemma PlaceOnFreeLane(spans: seq<Span>, lane: seq<nat>, laneFree: seq<int>, last: seq<nat>, l: nat)
    requires ByBegin(spans) && Forward(spans)
    requires |lane| < |spans| && Greedy(spans, lane, laneFree, last)
    requires l < |laneFree| && laneFree[l] < spans[|lane|].begin
    ensures Greedy(spans, lane + [l], laneFree[l := spans[|lane|].end], last[l := |lane|])
  {
    var m := |lane|;
    assert spans[..m + 1] == spans[..m] + [spans[m]];
    forall i | 0 <= i < m && lane[i] == l ensures !Overlap(spans[i], spans[m]) {
      assert spans[i].end <= laneFree[lane[i]];
    }
    forall i | 0 <= i < m ensures spans[i].end <= laneFree[l := spans[m].end][lane[i]] {
      assert spans[i].end <= laneFree[lane[i]];
    }
  }

  /** A new lane is opened only when every lane is still busy at this begin. */
  lemma OpenLane(spans: seq<Span>, lane: seq<nat>, laneFree: seq<int>, last: seq<nat>)
    requires ByBegin(spans) && Forward(spans)
    requires |lane| < |spans| && Greedy(spans, lane, laneFree, last)
    requires forall l | 0 <= l < |laneFree| :: laneFree[l] >= spans[|lane|].begin
    ensures Greedy(spans, lane + [|laneFree|], laneFree + [spans[|lane|].end], last + [|lane|])
    ensures Witness(spans, |laneFree| + 1, spans[|lane|].begin)
  {
    var m, t := |lane|, spans[|lane|].begin;
    assert spans[..m + 1] == spans[..m] + [spans[m]];
    var busy := last + [m];
    forall a, b | 0 <= a < b < |busy| ensures busy[a] != busy[b] {
      assert b < |last| ==> lane[last[a]] == a && lane[last[b]] == b;
    }
    DistinctSize(busy);
    forall x | x in Elements(busy) ensures x in CoverSet(spans, t) {
      var a :| 0 <= a < |busy| && busy[a] == x;
      assert spans[x].begin <= t;
    }
    SubsetSize(Elements(busy), CoverSet(spans, t));
  }

  ghost predicate Forward(spans: seq<Span>) {
    forall i | 0 <= i < |spans| :: spans[i].begin <= spans[i].end
  }

  lemma PlacementGrows(spans: seq<Span>, lane: seq<nat>, n: nat, l: nat, n': nat)
    requires |lane| < |spans| && Placement(spans[..|lane|], lane, n) && n <= n' && l < n'
    ensures Placement(spans[..|lane| + 1], lane + [l], n')
  {
  }

  /** The first lane that is free at this begin, or one past the last. */
  method FirstFree(laneFree: seq<int>, begin: int) returns (l: nat)
    ensures l <= |laneFree| && (l < |laneFree| ==> laneFree[l] < begin)
    ensures forall k | 0 <= k < l :: laneFree[k] >= begin
  {
    l := 0;
    while l < |laneFree| && laneFree[l] >= begin
      invariant l <= |laneFree|
      invariant forall k | 0 <= k < l :: laneFree[k] >= begin
    {
      l := l + 1;
    }
  }

  /** The first |lane| spans are placed; for forward spans greedily, and some instant t needs all
      lanes opened so far. */
  ghost predicate Placed(spans: seq<Span>, lane: seq<nat>, laneFree: seq<int>, last: seq<nat>, t: int) {
    && |lane| <= |spans| && Placement(spans[..|lane|], lane, |laneFree|)
    && (Forward(spans) ==> Greedy(spans, lane, laneFree, last))
    && (Forward(spans) && |laneFree| > 0 ==> Witness(spans, |laneFree|, t))
    && (|laneFree| == 0 <==> |lane| == 0)
  }

  lemma PlacedOnFreeLane(spans: seq<Span>, lane: seq<nat>, laneFree: seq<int>, last: seq<nat>, t: int, l: nat)
    requires ByBegin(spans) && |lane| < |spans| && Placed(spans, lane, laneFree, last, t)
    requires l < |laneFree| && laneFree[l] < spans[|lane|].begin
    ensures Placed(spans, lane + [l], laneFree[l := spans[|lane|].end],
                   if l < |last| then last[l := |lane|] else last, t)
  {
    PlacementGrows(spans, lane, |laneFree|, l, |laneFree|);
    if Forward(spans) {
      PlaceOnFreeLane(spans, lane, laneFree, last, l);
    }
  }

  lemma PlacedOnNewLane(spans: seq<Span>, lane: seq<nat>, laneFree: seq<int>, last: seq<nat>, t: int)
    requires ByBegin(spans) && |lane| < |spans| && Placed(spans, lane, laneFree, last, t)
    requires forall l | 0 <= l < |laneFree| :: laneFree[l] >= spans[|lane|].begin
    ensures Placed(spans, lane + [|laneFree|], laneFree + [spans[|lane|].end], last + [|lane|], spans[|lane|].begin)
  {
    PlacementGrows(spans, lane, |laneFree|, |laneFree|, |laneFree| + 1);
    if Forward(spans) {
      OpenLane(spans, lane, laneFree, last);
    }
  }

  /** The greedy over spans in begin order. */
  method AssignOrdered(spans: seq<Span>) returns (lane: seq<nat>, n: nat)
    requires ByBegin(spans)
    ensures Placement(spans, lane, n)
    ensures Forward(spans) ==> Separated(spans, lane)
    ensures Forward(spans) && n > 0 ==> exists t :: Witness(spans, n, t)
    ensures spans == [] <==> n == 0
  {
    var laneFree: seq<int> := [];
    lane := [];
    ghost var last: seq<nat> := [];
    ghost var t := 0;
    while |lane| < |spans|
      invariant Placed(spans, lane, laneFree, last, t)
      decreases |spans| - |lane|
    {
      var s := spans[|lane|];
      var l := FirstFree(laneFree, s.begin);
      if l < |laneFree| {
        PlacedOnFreeLane(spans, lane, laneFree, last, t, l);
        last := if l < |last| then last[l := |lane|] else last;
        laneFree := laneFree[l := s.end];
      } else {
        PlacedOnNewLane(spans, lane, laneFree, last, t);
        last, t := last + [|lane|], s.begin;
        laneFree := laneFree + [s.end];
      }
      lane := lane + [l];
    }
    n := |laneFree|;
    assert spans[..|lane|] == spans;
  }

  function Ordered(spans: seq<Span>, order: seq<nat>): (s: seq<Span>)
    requires Permutation(order, |spans|)
    ensures |s| == |spans| && forall a | 0 <= a < |spans| :: s[a] == spans[order[a]]
  {
    seq(|spans|, a requires 0 <= a < |spans| => spans[order[a]])
  }

  /** An injection between equal spans carries covers over. */
  lemma CoverInjects(here: seq<Span>, there: seq<Span>, f: seq<nat>, t: int)
    requires |f| == |here| && forall i | 0 <= i < |f| :: f[i] < |there| && there[f[i]] == here[i]
    requires forall i, j | 0 <= i < j < |f| :: f[i] != f[j]
    ensures |CoverSet(here, t)| <= |CoverSet(there, t)|
  {
    var to := map i | i in CoverSet(here, t) :: f[i];
    assert to.Keys == CoverSet(here, t);
    InjectiveSize(to, CoverSet(there, t));
  }

  /** Reordering does not change how many spans cover an instant. */
  lemma CoverOfOrdered(spans: seq<Span>, order: seq<nat>, t: int)
    requires Permutation(order, |spans|)
    ensures |CoverSet(Ordered(spans, order), t)| == |CoverSet(spans, t)|
  {
    CoverInjects(Ordered(spans, order), spans, order, t);
    var inv := InverseOf(order, |spans|);
    forall i, j | 0 <= i < j < |inv| ensures inv[i] != inv[j] {
      assert order[inv[i]] == i && order[inv[j]] == j;
    }
    CoverInjects(spans, Ordered(spans, order), inv, t);
  }

  lemma OrderedByBegin(spans: seq<Span>, order: seq<nat>)
    requires Permutation(order, |spans|) && Sorting.Ordered(SpanKeys(spans), order)
    ensures ByBegin(Ordered(spans, order))
  {
    forall a, b | 0 <= a < b < |spans| ensures spans[order[a]].begin <= spans[order[b]].begin {
      assert InOrder(SpanKeys(spans), order[a], order[b]);
    }
  }

  /** n is the largest number of spans covering one instant. */
  ghost predicate IsMaxCover(spans: seq<Span>, n: nat) {
    && (forall t :: |CoverSet(spans, t)| <= n)
    && (spans != [] ==> exists t :: |CoverSet(spans, t)| == n)
  }

  lemma MaxCoverOfOrdered(spans: seq<Span>, order: seq<nat>, lane: seq<nat>, n: nat)
    requires Permutation(order, |spans|) && Placement(spans, lane, n)
    requires Separated(Ordered(spans, order), lane)
    requires n > 0 ==> exists t :: Witness(Ordered(spans, order), n, t)
    requires spans == [] <==> n == 0
    ensures IsMaxCover(spans, n)
  {
    var s := Ordered(spans, order);
    forall t ensures |CoverSet(spans, t)| <= n {
      LanesAtLeastCover(s, lane, n, t);
      CoverOfOrdered(spans, order, t);
    }
    if n > 0 {
      var t :| Witness(s, n, t);
      CoverOfOrdered(spans, order, t);
      assert |CoverSet(spans, t)| == n;
    }
  }

  /** OPTIMALITY: no separated placement uses fewer lanes. */
  lemma NoFewerLanes(spans: seq<Span>, n: nat, lane: seq<nat>, k: nat)
    requires IsMaxCover(spans, n) && Placement(spans, lane, k) && Separated(spans, lane) && spans != []
    ensures n <= k
  {
    var t :| |CoverSet(spans, t)| == n;
    LanesAtLeastCover(spans, lane, k, t);
  }

  /** The placed spans, in the order of the output. */
  function Items(out: seq<(nat, nat)>): (s: seq<nat>)
    ensures |s| == |out|
  {
    seq(|out|, a requires 0 <= a < |out| => out[a].1)
  }

  /** Sort, then run the greedy: out[a] holds a lane and its span.  Every span is placed
      exactly once; for spans that do not end before they begin, spans on one lane do not
      touch and the number of lanes is the largest number of spans covering an instant. */
  method AssignLanes(spans: seq<Span>) returns (out: seq<(nat, nat)>, n: nat)
    ensures Permutation(Items(out), |spans|)
    ensures forall a | 0 <= a < |out| :: out[a].0 < n && out[a].1 < |spans|
    ensures Forward(spans) ==> forall a, b | 0 <= a < b < |out| && out[a].0 == out[b].0 ::
              !Overlap(spans[out[a].1], spans[out[b].1])
    ensures Forward(spans) ==> IsMaxCover(spans, n)
    ensures spans == [] <==> n == 0
  {
    var order := SortIndices(SpanKeys(spans));
    OrderedByBegin(spans, order);
    var lane;
    lane, n := AssignOrdered(Ordered(spans, order));
    out := seq(|spans|, a requires 0 <= a < |spans| => (lane[a], order[a]));
    assert Items(out) == order;
    if Forward(spans) {
      MaxCoverOfOrdered(spans, order, lane, n);
    }
  }
}
