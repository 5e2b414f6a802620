/** The latency summary of the NVMe load generator (nvme_uring_cmd_smoke.c): the done bit is
    stripped from every recorded time in place, the times are sorted, and percentiles are read
    off by nearest rank. */
module LatencyStats {
  import opened Medians
  import opened SlotInvariant
  import opened Wrappers

  datatype Stats = Stats(samples: nat, mean: real, max: nat, p50: nat, p95: nat, p99: nat)

  function Sum(s: seq<nat>): nat {
    if s == [] then 0 else Sum(s[..|s| - 1]) + s[|s| - 1]
  }

  /** v is the least value with at least p percent of all samples at or below it. */
  ghost predicate NearestRank(s: seq<nat>, p: nat, v: nat) {
    && v in s && AtMost(s, v) * 100 >= p * |s|
    && forall u: nat | u < v :: AtMost(s, u) * 100 < p * |s|
  }

  function Rank(n: nat, p: nat): nat {
    (n * p + 99) / 100
  }

  lemma RankIs(n: nat, p: nat)
    requires n > 0 && 1 <= p <= 100
    ensures 1 <= Rank(n, p) <= n && Rank(n, p) * 100 >= p * n && (Rank(n, p) - 1) * 100 < p * n
  {
    assert n * p >= 1 && n * p <= n * 100;
  }

  /** The percentile of sorted samples. */
  method Percentile(sorted: seq<nat>, p: nat, ghost s: seq<nat>) returns (v: nat)
    requires s != [] && sorted == Sorted(s) && 1 <= p <= 100
    ensures NearestRank(s, p, v)
  {
    SortedIs(s);
    var rank := Rank(|sorted|, p);
    RankIs(|sorted|, p);
    v := sorted[if rank > 0 then rank - 1 else 0];
    RankCounts(s, rank - 1, v);
  }

  predicate Done(t: nat) {
    t >= LATENCY_DONE_BIT
  }

  function Latency(t: nat): nat
    requires Done(t)
  {
    t - LATENCY_DONE_BIT
  }

  /** The latencies of times that are all done. */
  function Stripped(times: seq<nat>): (s: seq<nat>)
    requires forall i | 0 <= i < |times| :: Done(times[i])
    ensures |s| == |times| && forall i | 0 <= i < |s| :: s[i] == Latency(times[i])
  {
    seq(|times|, i requires 0 <= i < |times| => Latency(times[i]))
  }

  /** The times that a run leaves are all done, and stripped they are end minus begin. */
  lemma StrippedAfterRun(times: seq<nat>, began: seq<nat>, ended: seq<nat>)
    requires Latencies(times, began, ended)
    ensures forall q | 0 <= q < |times| :: Done(times[q]) && Stripped(times)[q] == ended[q] - began[q]
  {
  }

  ghost predicate Greatest(s: seq<nat>, m: nat) {
    m in s && forall x | x in s :: x <= m
  }

  ghost predicate Summarises(r: Stats, s: seq<nat>)
    requires s != []
  {
    && r.samples == |s| && r.mean == Sum(s) as real / |s| as real && Greatest(s, r.max)
    && NearestRank(s, 50, r.p50) && NearestRank(s, 95, r.p95) && NearestRank(s, 99, r.p99)
  }

  /** The first loop: strip every time, stop at one that is not done. */
  method Strip(times: array<nat>) returns (ok: bool, sum: nat, max: nat)
    requires times.Length > 0
    modifies times
    ensures ok <==> forall i | 0 <= i < times.Length :: Done(old(times[i]))
    ensures ok ==> times[..] == Stripped(old(times[..])) && sum == Sum(times[..]) && Greatest(times[..], max)
  {
    ok, sum, max := true, 0, 0;
    for i := 0 to times.Length
      invariant forall k | 0 <= k < i :: Done(old(times[k])) && times[k] == old(times[k]) - LATENCY_DONE_BIT
      invariant forall k | i <= k < times.Length :: times[k] == old(times[k])
      invariant sum == Sum(times[..i])
      invariant (forall k | 0 <= k < i :: times[k] <= max) && (if i == 0 then max == 0 else max in times[..i])
    {
      if !Done(times[i]) {
        ok := false;
        return;
      }
      ghost var before := times[..i];
      times[i] := times[i] - LATENCY_DONE_BIT;
      assert times[..i + 1] == before + [times[i]];
      sum := sum + times[i];
      if times[i] > max {
        max := times[i];
      }
      assert i == 0 && times[0] == 0 ==> times[..1][0] == 0;
      assert max in before || max == times[..i + 1][i];
    }
    assert times[..times.Length] == times[..];
  }

  /** The summary of all recorded times: refused exactly when one of them is not done; otherwise
      mean, maximum and percentiles of the latencies, which are left sorted in place. */
  method CalculateLatencyStats(times: array<nat>) returns (r: Option<Stats>)
    requires times.Length > 0
    modifies times
    ensures r.Some? <==> forall i | 0 <= i < times.Length :: Done(old(times[i]))
    ensures r.Some? ==> Summarises(r.value, Stripped(old(times[..]))) && times[..] == Sorted(Stripped(old(times[..])))
  {
    var ok, sum, max := Strip(times);
    if !ok {
      return None;
    }
    ghost var s := times[..];
    var n, sorted := times.Length, Sorted(times[..]);
    SortedIs(s);
    forall i | 0 <= i < n {
      times[i] := sorted[i];
    }
    var p50 := Percentile(sorted, 50, s);
    var p95 := Percentile(sorted, 95, s);
    var p99 := Percentile(sorted, 99, s);
    r := Some(Stats(n, sum as real / n as real, max, p50, p95, p99));
  }
}
