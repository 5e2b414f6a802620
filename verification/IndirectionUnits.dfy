/** Values counted into numbered buckets. */
module BucketSums {

  /** What the first k values contribute to bucket b. */
  function SumIn(values: seq<nat>, slots: seq<int>, k: nat, b: int): nat
    requires |values| == |slots| && k <= |slots|
  {
    if k == 0 then 0 else SumIn(values, slots, k - 1, b) + if slots[k - 1] == b then values[k - 1] else 0
  }

  /** What the first k values contribute to any bucket. */
  function Counted(values: seq<nat>, slots: seq<int>, k: nat): nat
    requires |values| == |slots| && k <= |slots|
  {
    if k == 0 then 0 else Counted(values, slots, k - 1) + if slots[k - 1] >= 0 then values[k - 1] else 0
  }

  function SumOfBuckets(values: seq<nat>, slots: seq<int>, n: nat): nat
    requires |values| == |slots|
  {
    BucketTotal(values, slots, |slots|, n)
  }

  function BucketTotal(values: seq<nat>, slots: seq<int>, k: nat, n: nat): nat
    requires |values| == |slots| && k <= |slots|
  {
    if n == 0 then 0 else BucketTotal(values, slots, k, n - 1) + SumIn(values, slots, k, n - 1)
  }

  lemma {:induction false} BucketTotalStep(values: seq<nat>, slots: seq<int>, k: nat, n: nat)
    requires |values| == |slots| && 0 < k <= |slots|
    ensures BucketTotal(values, slots, k, n)
         == BucketTotal(values, slots, k - 1, n) + if 0 <= slots[k - 1] < n then values[k - 1] else 0
    decreases n
  {
    if n > 0 {
      BucketTotalStep(values, slots, k, n - 1);
    }
  }

  lemma {:induction false} NothingYet(values: seq<nat>, slots: seq<int>, n: nat)
    requires |values| == |slots|
    ensures BucketTotal(values, slots, 0, n) == 0
  {
    if n > 0 {
      NothingYet(values, slots, n - 1);
    }
  }

  /** Adding up the buckets gives back everything that was counted. */
  lemma {:induction false} BucketsConserve(values: seq<nat>, slots: seq<int>, k: nat, n: nat)
    requires |values| == |slots| && k <= |slots| && forall i | 0 <= i < |slots| :: slots[i] < n
    ensures BucketTotal(values, slots, k, n) == Counted(values, slots, k)
    decreases k
  {
    if k == 0 {
      NothingYet(values, slots, n);
    } else {
      BucketsConserve(values, slots, k - 1, n);
      BucketTotalStep(values, slots, k, n);
    }
  }

  /** hi is lo or one more everywhere, and lo is positive. */
  predicate Close(hi: seq<nat>, lo: seq<nat>)
    requires |hi| == |lo|
  {
    forall i | 0 <= i < |lo| :: 1 <= lo[i] <= hi[i] <= lo[i] + 1
  }

  predicate Empty(slots: seq<int>, k: nat, b: int)
    requires k <= |slots|
  {
    forall i | 0 <= i < k :: slots[i] != b
  }

  /** hi and lo agree on everything in bucket b. */
  predicate Agree(hi: seq<nat>, lo: seq<nat>, slots: seq<int>, k: nat, b: int)
    requires |hi| == |lo| == |slots| && k <= |slots|
  {
    forall i | 0 <= i < k && slots[i] == b :: hi[i] == lo[i]
  }

  /** Sums keep the bounds of their terms, and are equal only if all terms are. */
  lemma {:induction false} SumsCompare(hi: seq<nat>, lo: seq<nat>, slots: seq<int>, k: nat, b: int)
    requires |hi| == |lo| == |slots| && k <= |slots| && Close(hi, lo)
    ensures var h, l := SumIn(hi, slots, k, b), SumIn(lo, slots, k, b);
            l <= h <= 2 * l && (l == 0 <==> Empty(slots, k, b)) && (h == l <==> Agree(hi, lo, slots, k, b))
    decreases k
  {
    if k > 0 {
      SumsCompare(hi, lo, slots, k - 1, b);
      assert 1 <= lo[k - 1] <= hi[k - 1] <= lo[k - 1] + 1;
    }
  }
}

/** Indirection-unit accounting of analyzers/blktrace_analyzer.py: how many mapping units a
    request touches, how many it would touch if aligned, and their ratio per request and per
    time bucket. */
module IndirectionUnits {
  import opened BucketSums
  import opened Scaling

  // ---- one request ----

  /** The units that hold at least one sector of the request. */
  function UnitsHit(sector: nat, nblocks: nat, unit: nat): set<nat>
    requires unit > 0
  {
    set s: nat | sector <= s < sector + nblocks :: s / unit
  }

  /** Units touched, from the first and last sector. */
  function Touched(sector: nat, nblocks: nat, unit: nat): (r: nat)
    requires nblocks > 0 && unit > 0
    ensures r >= 1
  {
    QuotientGrows(sector, sector + nblocks - 1, unit);
    (sector + nblocks - 1) / unit - sector / unit + 1
  }

  /** Units a request of this size needs. */
  function Ideal(nblocks: nat, unit: nat): (r: nat)
    requires unit > 0
    ensures r >= 1
  {
    var up := (nblocks + unit - 1) / unit;
    if up > 1 then up else 1
  }

  lemma Carry(q: nat, m: nat, r: nat, t: nat, unit: nat)
    requires r < unit && t < unit
    ensures (q * unit + m * unit + (r + t)) / unit == q + m + if r + t >= unit then 1 else 0
  {
    var k := q + m + if r + t >= unit then 1 else 0;
    assert (q + m) * unit == q * unit + m * unit;
    assert (q + m + 1) * unit == (q + m) * unit + unit;
    QuotientIs(q * unit + m * unit + (r + t), k, unit);
  }

  /** How the two remainders decide the number of units. */
  lemma TouchedByRemainders(sector: nat, nblocks: nat, unit: nat)
    requires nblocks > 0 && unit > 0
    ensures var reach := sector % unit + (nblocks - 1) % unit;
            Touched(sector, nblocks, unit) == (nblocks - 1) / unit + 1 + if reach >= unit then 1 else 0
  {
    var q, m := sector / unit, (nblocks - 1) / unit;
    assert sector == q * unit + sector % unit;
    assert nblocks - 1 == m * unit + (nblocks - 1) % unit;
    Carry(q, m, sector % unit, (nblocks - 1) % unit, unit);
  }

  lemma IdealIs(nblocks: nat, unit: nat)
    requires nblocks > 0 && unit > 0
    ensures Ideal(nblocks, unit) == (nblocks - 1) / unit + 1
  {
    var m := (nblocks - 1) / unit;
    assert nblocks - 1 == m * unit + (nblocks - 1) % unit;
    assert (m + 1) * unit == m * unit + unit;
    QuotientIs(nblocks + unit - 1, m + 1, unit);
  }

  /** A request touches the ideal number of units or exactly one more, and one more exactly when
      the remainders of start and last sector wrap. */
  lemma AtMostOneExtra(sector: nat, nblocks: nat, unit: nat)
    requires nblocks > 0 && unit > 0
    ensures var extra := Touched(sector, nblocks, unit) - Ideal(nblocks, unit);
            && 0 <= extra <= 1
            && (extra == 1 <==> sector % unit + (nblocks - 1) % unit >= unit)
            && (sector % unit == 0 ==> extra == 0)
  {
    TouchedByRemainders(sector, nblocks, unit);
    IdealIs(nblocks, unit);
  }

  /** The count from first and last sector is the number of distinct units hit. */
  lemma {:induction false} TouchedCountsUnits(sector: nat, nblocks: nat, unit: nat)
    requires nblocks > 0 && unit > 0
    ensures |UnitsHit(sector, nblocks, unit)| == Touched(sector, nblocks, unit)
    decreases nblocks
  {
    if nblocks == 1 {
      assert UnitsHit(sector, 1, unit) == {sector / unit};
    } else {
      TouchedCountsUnits(sector, nblocks - 1, unit);
      HitSplits(sector, nblocks, unit);
      LastUnit(sector, nblocks, unit);
    }
  }

  /** The last sector adds a unit exactly when it begins one. */
  lemma LastUnit(sector: nat, nblocks: nat, unit: nat)
    requires nblocks > 1 && unit > 0
    ensures var last, before := sector + nblocks - 1, UnitsHit(sector, nblocks - 1, unit);
            && (last / unit in before <==> last / unit == (last - 1) / unit)
            && (last - 1) / unit <= last / unit <= (last - 1) / unit + 1
  {
    var last, before := sector + nblocks - 1, UnitsHit(sector, nblocks - 1, unit);
    assert last - 1 >= sector && (last - 1) / unit in before;
    NextQuotient(last - 1, unit);
    forall u | u in before ensures u <= (last - 1) / unit {
      var s: nat :| sector <= s < last && s / unit == u;
      QuotientGrows(s, last - 1, unit);
    }
  }

  lemma HitSplits(sector: nat, nblocks: nat, unit: nat)
    requires nblocks > 1 && unit > 0
    ensures UnitsHit(sector, nblocks, unit) == UnitsHit(sector, nblocks - 1, unit) + {(sector + nblocks - 1) / unit}
  {
    var last := sector + nblocks - 1;
    var hit, before := UnitsHit(sector, nblocks, unit), UnitsHit(sector, nblocks - 1, unit);
    forall u | u in hit ensures u in before + {last / unit} {
      var s: nat :| sector <= s < sector + nblocks && s / unit == u;
      if s < last {
        assert s / unit in before;
      }
    }
    forall u | u in before ensures u in hit {
      var s: nat :| sector <= s < last && s / unit == u;
      assert s / unit in hit;
    }
    assert last / unit in hit;
  }

  lemma NextQuotient(x: nat, unit: nat)
    requires unit > 0
    ensures x / unit <= (x + 1) / unit <= x / unit + 1
  {
    var q := x / unit;
    assert x == q * unit + x % unit;
    if x % unit + 1 < unit {
      QuotientIs(x + 1, q, unit);
    } else {
      assert (q + 1) * unit == q * unit + unit;
      QuotientIs(x + 1, q + 1, unit);
    }
  }

  /** No placement does better than the ideal, and an aligned one meets it. */
  lemma IdealIsBest(nblocks: nat, unit: nat)
    requires nblocks > 0 && unit > 0
    ensures forall sector: nat :: |UnitsHit(sector, nblocks, unit)| >= Ideal(nblocks, unit)
    ensures |UnitsHit(0, nblocks, unit)| == Ideal(nblocks, unit)
  {
    forall sector: nat ensures |UnitsHit(sector, nblocks, unit)| >= Ideal(nblocks, unit) {
      TouchedCountsUnits(sector, nblocks, unit);
      AtMostOneExtra(sector, nblocks, unit);
    }
    TouchedCountsUnits(0, nblocks, unit);
    AtMostOneExtra(0, nblocks, unit);
  }

  // ---- the analysis of every queue event ----

  datatype Action = Queue | Issue | Complete | Other

  datatype Event = Event(time: real, action: Action, sector: nat, nblocks: nat, isRead: bool, isWrite: bool)

  /** The indirection-unit fields of one analysed request. */
  datatype Analysis = Analysis(sector: nat, nblocks: nat, isRead: bool, time: real,
                               subIu: bool, crossings: nat, touched: nat, ideal: nat, aligned: bool, waf: real)

  datatype Geometry = Geometry(lbs: nat, iuSize: nat)

  /** How many whole logical blocks make a unit. */
  function IuSectors(g: Geometry): (n: nat)
    ensures if g.lbs > 0 then n * g.lbs <= g.iuSize < (n + 1) * g.lbs else n == 0
  {
    if g.iuSize > 0 && g.lbs > 0 then
      assert g.iuSize == g.iuSize / g.lbs * g.lbs + g.iuSize % g.lbs;
      g.iuSize / g.lbs
    else 0
  }

  predicate Analysed(e: Event) {
    e.action == Queue && e.nblocks > 0
  }

  /** What an analysis says about its event. */
  predicate Describes(a: Analysis, e: Event, iu: nat)
    requires iu > 0 && e.nblocks > 0
  {
    && a.sector == e.sector && a.nblocks == e.nblocks && a.isRead == e.isRead && a.time == e.time
    && a.touched == |UnitsHit(e.sector, e.nblocks, iu)| && a.crossings == a.touched - 1
    && a.ideal == |UnitsHit(0, e.nblocks, iu)|
    && 1 <= a.ideal <= a.touched <= a.ideal + 1
    && (a.touched == a.ideal + 1 <==> e.sector % iu + (e.nblocks - 1) % iu >= iu)
    && a.waf == a.touched as real / a.ideal as real && 1.0 <= a.waf <= 2.0
    && (a.aligned <==> e.sector % iu == 0 && e.nblocks % iu == 0)
    && (a.aligned ==> a.touched == a.ideal && a.ideal * iu == e.nblocks)
    && (a.subIu <==> e.isWrite && e.nblocks < iu)
    && (a.subIu ==> a.ideal == 1)
  }

  lemma AlignedIsExact(nblocks: nat, unit: nat)
    requires nblocks > 0 && unit > 0 && nblocks % unit == 0
    ensures Ideal(nblocks, unit) * unit == nblocks
  {
    var m := nblocks / unit;
    assert nblocks == m * unit;
    Scale(m, 0, unit);
    assert (m - 1) * unit == m * unit - unit;
    QuotientIs(nblocks - 1, m - 1, unit);
    IdealIs(nblocks, unit);
  }

  lemma RatioBounds(actual: nat, ideal: nat)
    requires 1 <= ideal <= actual <= 2 * ideal
    ensures 1.0 <= actual as real / ideal as real <= 2.0
    ensures actual as real / ideal as real == 1.0 <==> actual == ideal
  {
    var q := actual as real / ideal as real;
    assert q * ideal as real == actual as real;
    if q < 1.0 {
      Above(actual as real, q, 1.0, ideal as real);
    }
    if q > 2.0 {
      Above(2.0 * ideal as real, 2.0, q, ideal as real);
    }
    if q == 1.0 {
      assert 1.0 * ideal as real == actual as real;
    }
    if q > 1.0 {
      Above(ideal as real, 1.0, q, ideal as real);
    }
  }

  method Analyze(e: Event, iu: nat) returns (a: Analysis)
    requires Analysed(e) && iu > 0
    ensures Describes(a, e, iu)
  {
    var startIu, endIu := e.sector / iu, (e.sector + e.nblocks - 1) / iu;
    var touched, ideal := Touched(e.sector, e.nblocks, iu), Ideal(e.nblocks, iu);
    AtMostOneExtra(e.sector, e.nblocks, iu);
    TouchedCountsUnits(e.sector, e.nblocks, iu);
    IdealIsBest(e.nblocks, iu);
    RatioBounds(touched, ideal);
    if e.nblocks % iu == 0 {
      AlignedIsExact(e.nblocks, iu);
    }
    if e.nblocks < iu {
      QuotientIs(e.nblocks - 1, 0, iu);
      IdealIs(e.nblocks, iu);
    }
    a := Analysis(e.sector, e.nblocks, e.isRead, e.time, e.isWrite && e.nblocks < iu, endIu - startIu, touched, ideal,
                  e.sector % iu == 0 && e.nblocks % iu == 0, touched as real / ideal as real);
  }

  /** The analyses of the queue events, in order. */
  ghost predicate AnalysesOf(results: seq<Analysis>, events: seq<Event>, iu: nat)
    requires iu > 0
  {
    if events == [] then results == []
    else
      var e := events[|events| - 1];
      if Analysed(e) then
        results != [] && Describes(results[|results| - 1], e, iu)
            && AnalysesOf(results[..|results| - 1], events[..|events| - 1], iu)
      else AnalysesOf(results, events[..|events| - 1], iu)
  }

  method AnalyzeAll(events: seq<Event>, g: Geometry) returns (results: seq<Analysis>)
    requires IuSectors(g) > 0
    ensures AnalysesOf(results, events, IuSectors(g))
  {
    results := [];
    for n := 0 to |events|
      invariant AnalysesOf(results, events[..n], IuSectors(g))
    {
      assert events[..n + 1][..n] == events[..n];
      if Analysed(events[n]) {
        var a := Analyze(events[n], IuSectors(g));
        assert (results + [a])[..|results|] == results;
        results := results + [a];
      }
    }
    assert events[..|events|] == events;
  }

  /** The analysed events among the first n. */
  ghost function AnalysedUpTo(events: seq<Event>, n: nat): set<nat>
    requires n <= |events|
  {
    set i: nat | i < n && events[i].action == Queue && events[i].nblocks > 0
  }

  lemma AnalysedStep(events: seq<Event>, n: nat)
    requires n < |events|
    ensures |AnalysedUpTo(events, n + 1)| == |AnalysedUpTo(events, n)| + if Analysed(events[n]) then 1 else 0
  {
    assert n in AnalysedUpTo(events, n + 1) <==> Analysed(events[n]);
    assert AnalysedUpTo(events, n + 1) - {n} == AnalysedUpTo(events, n);
  }

  /** The analyses that the first n events give, of all or of all but the last. */
  lemma AnalysesPrefix(results: seq<Analysis>, events: seq<Event>, iu: nat, n: nat) returns (before: seq<Analysis>)
    requires iu > 0 && 0 < n <= |events| && AnalysesOf(results, events[..n], iu)
    ensures AnalysesOf(before, events[..n - 1], iu)
    ensures if Analysed(events[n - 1])
            then results != [] && before == results[..|results| - 1] && Describes(results[|before|], events[n - 1], iu)
            else before == results
  {
    assert events[..n][n - 1] == events[n - 1] && events[..n][..n - 1] == events[..n - 1];
    before := if Analysed(events[n - 1]) then results[..|results| - 1] else results;
  }

  lemma {:induction false} AnalysesCount(results: seq<Analysis>, events: seq<Event>, iu: nat, n: nat)
    requires iu > 0 && n <= |events| && AnalysesOf(results, events[..n], iu)
    ensures |results| == |AnalysedUpTo(events, n)|
    decreases n
  {
    if n > 0 {
      var before := AnalysesPrefix(results, events, iu, n);
      AnalysesCount(before, events, iu, n - 1);
      AnalysedStep(events, n - 1);
    }
  }

  /** The analyses are those of the queue events with blocks, one each and in order: that of event j
      comes after as many as there are such events before j. */
  lemma {:induction false} AnalysesList(results: seq<Analysis>, events: seq<Event>, iu: nat, n: nat, j: nat)
    requires iu > 0 && n <= |events| && AnalysesOf(results, events[..n], iu)
    requires j < n && events[j].action == Queue && events[j].nblocks > 0
    ensures |AnalysedUpTo(events, j)| < |results| && Describes(results[|AnalysedUpTo(events, j)|], events[j], iu)
    decreases n
  {
    var before := AnalysesPrefix(results, events, iu, n);
    if j == n - 1 {
      AnalysesCount(before, events, iu, j);
    } else {
      AnalysesList(before, events, iu, n - 1, j);
    }
  }

  /** What every analysis guarantees by itself. */
  predicate Sound(a: Analysis) {
    1 <= a.ideal <= a.touched <= a.ideal + 1
  }

  lemma {:induction false} AnalysesSound(results: seq<Analysis>, events: seq<Event>, iu: nat, t0: real)
    requires iu > 0 && AnalysesOf(results, events, iu) && forall i | 0 <= i < |events| :: events[i].time >= t0
    ensures forall i | 0 <= i < |results| :: Sound(results[i]) && results[i].time >= t0
    decreases |events|
  {
    if events != [] {
      AnalysesSound(if Analysed(events[|events| - 1]) then results[..|results| - 1] else results,
                    events[..|events| - 1], iu, t0);
    }
  }

  // ---- alignment overhead per time bucket ----

  /** Buckets of a given width from the first event on. */
  datatype Clock = Clock(t0: real, width: real, buckets: nat)

  ghost predicate GoodClock(clock: Clock) {
    clock.width > 0.0 && clock.buckets >= 1
  }

  /** As few buckets as reach the end of the trace, and at least one. */
  function ClockFor(t0: real, tEnd: real, width: real): (clock: Clock)
    requires width > 0.0
    ensures GoodClock(clock) && clock.t0 == t0 && clock.width == width
    ensures tEnd - t0 <= clock.buckets as real * width
    ensures clock.buckets > 1 ==> (clock.buckets - 1) as real * width < tEnd - t0
  {
    var n := Ceil((tEnd - t0) / width);
    CeilBounds(tEnd - t0, width, n);
    if n > 1 then Clock(t0, width, n) else
    AtLeast(width, 1.0, n as real, width);
    Clock(t0, width, 1)
  }

  function BucketOf(clock: Clock, time: real): (b: nat)
    requires GoodClock(clock) && time >= clock.t0
    ensures b < clock.buckets
  {
    var f := ((time - clock.t0) / clock.width).Floor;
    FloorBounds(time - clock.t0, clock.width, f);
    if f < clock.buckets - 1 then f else clock.buckets - 1
  }

  /** A bucket holds its own stretch of time, and the last one everything later. */
  lemma BucketHolds(clock: Clock, time: real)
    requires GoodClock(clock) && time >= clock.t0
    ensures var b := BucketOf(clock, time);
            && clock.t0 + b as real * clock.width <= time
            && (b < clock.buckets - 1 ==> time < clock.t0 + (b as real + 1.0) * clock.width)
  {
    var f := ((time - clock.t0) / clock.width).Floor;
    FloorBounds(time - clock.t0, clock.width, f);
    if f >= clock.buckets - 1 {
      AtLeast(f as real * clock.width, f as real, (clock.buckets - 1) as real, clock.width);
    }
  }

  /** Every result lies in the trace. */
  ghost predicate Timed(results: seq<Analysis>, clock: Clock) {
    forall i | 0 <= i < |results| :: results[i].time >= clock.t0
  }

  /** The bucket a result counts in; reads count in none. */
  function Slot(clock: Clock, a: Analysis): (b: int)
    requires GoodClock(clock) && a.time >= clock.t0
    ensures -1 <= b < clock.buckets && (b == -1 <==> a.isRead)
  {
    if a.isRead then -1 else BucketOf(clock, a.time)
  }

  function Slots(results: seq<Analysis>, clock: Clock): (slots: seq<int>)
    requires GoodClock(clock) && Timed(results, clock)
    ensures |slots| == |results| && forall i | 0 <= i < |slots| :: slots[i] == Slot(clock, results[i])
  {
    seq(|results|, i requires 0 <= i < |results| => Slot(clock, results[i]))
  }

  function TouchedOf(results: seq<Analysis>): (xs: seq<nat>)
    ensures |xs| == |results| && forall i | 0 <= i < |xs| :: xs[i] == results[i].touched
  {
    seq(|results|, i requires 0 <= i < |results| => results[i].touched)
  }

  function IdealOf(results: seq<Analysis>): (xs: seq<nat>)
    ensures |xs| == |results| && forall i | 0 <= i < |xs| :: xs[i] == results[i].ideal
  {
    seq(|results|, i requires 0 <= i < |results| => results[i].ideal)
  }

  function SubIuOf(results: seq<Analysis>): (xs: seq<nat>)
    ensures |xs| == |results| && forall i | 0 <= i < |xs| :: xs[i] == if results[i].subIu then 1 else 0
  {
    seq(|results|, i requires 0 <= i < |results| => if results[i].subIu then 1 else 0)
  }

  /** The overhead of bucket b: 1.0 when empty, else the ratio of the sums; between 1 and 2, and
      1 exactly when every request of the bucket touched the ideal number of units. */
  ghost predicate Overhead(x: real, touched: seq<nat>, ideal: seq<nat>, slots: seq<int>, b: int)
    requires |touched| == |ideal| == |slots|
  {
    var actual, best := SumIn(touched, slots, |slots|, b), SumIn(ideal, slots, |slots|, b);
    && (best == 0 <==> Empty(slots, |slots|, b))
    && (best == 0 ==> x == 1.0) && (best > 0 ==> x == actual as real / best as real)
    && 1.0 <= x <= 2.0
    && (x == 1.0 <==> Agree(touched, ideal, slots, |slots|, b))
  }

  lemma OverheadOfSums(touched: seq<nat>, ideal: seq<nat>, slots: seq<int>, b: int)
    requires |touched| == |ideal| == |slots| && Close(touched, ideal)
    ensures var actual, best := SumIn(touched, slots, |slots|, b), SumIn(ideal, slots, |slots|, b);
            Overhead(if best > 0 then actual as real / best as real else 1.0, touched, ideal, slots, b)
  {
    SumsCompare(touched, ideal, slots, |slots|, b);
    if SumIn(ideal, slots, |slots|, b) > 0 {
      RatioBounds(SumIn(touched, slots, |slots|, b), SumIn(ideal, slots, |slots|, b));
    }
  }

  /** One request that is not a read, in its bucket. */
  method TallyOne(r: Analysis, idx: int, actual: array<nat>, ideal: array<nat>, subCount: array<nat>)
    requires idx < actual.Length == ideal.Length == subCount.Length && (r.isRead <==> idx == -1) && idx >= -1
    requires actual != ideal && actual != subCount && ideal != subCount
    modifies actual, ideal, subCount
    ensures forall b | 0 <= b < actual.Length :: actual[b] == old(actual[b]) + if b == idx then r.touched else 0
    ensures forall b | 0 <= b < ideal.Length :: ideal[b] == old(ideal[b]) + if b == idx then r.ideal else 0
    ensures forall b | 0 <= b < subCount.Length ::
              subCount[b] == old(subCount[b]) + if b == idx && r.subIu then 1 else 0
  {
    if !r.isRead {
      actual[idx] := actual[idx] + r.touched;
      ideal[idx] := ideal[idx] + r.ideal;
      if r.subIu {
        subCount[idx] := subCount[idx] + 1;
      }
    }
  }

  /** The first loop: sums per bucket. */
  method Tally(results: seq<Analysis>, clock: Clock)
      returns (actual: array<nat>, ideal: array<nat>, subCount: array<nat>)
    requires GoodClock(clock) && Timed(results, clock)
    ensures actual.Length == ideal.Length == subCount.Length == clock.buckets
    ensures fresh(actual) && fresh(ideal) && fresh(subCount)
    ensures var slots := Slots(results, clock);
            forall b | 0 <= b < clock.buckets :: actual[b] == SumIn(TouchedOf(results), slots, |slots|, b)
    ensures var slots := Slots(results, clock);
            forall b | 0 <= b < clock.buckets :: ideal[b] == SumIn(IdealOf(results), slots, |slots|, b)
    ensures var slots := Slots(results, clock);
            forall b | 0 <= b < clock.buckets :: subCount[b] == SumIn(SubIuOf(results), slots, |slots|, b)
  {
    ghost var touched, best, sub := TouchedOf(results), IdealOf(results), SubIuOf(results);
    ghost var slots := Slots(results, clock);
    actual, ideal := new nat[clock.buckets](_ => 0), new nat[clock.buckets](_ => 0);
    subCount := new nat[clock.buckets](_ => 0);
    for k := 0 to |results|
      invariant forall b | 0 <= b < clock.buckets :: actual[b] == SumIn(touched, slots, k, b)
      invariant forall b | 0 <= b < clock.buckets :: ideal[b] == SumIn(best, slots, k, b)
      invariant forall b | 0 <= b < clock.buckets :: subCount[b] == SumIn(sub, slots, k, b)
    {
      TallyOne(results[k], Slot(clock, results[k]), actual, ideal, subCount);
    }
  }

  method WafOverTime(results: seq<Analysis>, t0: real, tEnd: real, width: real)
      returns (waf: array<real>, subCount: array<nat>)
    requires width > 0.0 && Timed(results, ClockFor(t0, tEnd, width))
    requires forall i | 0 <= i < |results| :: Sound(results[i])
    ensures results == [] ==> waf[..] == [1.0] && subCount[..] == [0]
    ensures results != [] ==>
      var clock := ClockFor(t0, tEnd, width);
      var slots := Slots(results, clock);
      && waf.Length == subCount.Length == clock.buckets
      && (forall b | 0 <= b < clock.buckets :: Overhead(waf[b], TouchedOf(results), IdealOf(results), slots, b))
      && (forall b | 0 <= b < clock.buckets :: subCount[b] == SumIn(SubIuOf(results), slots, |results|, b))
  {
    if results == [] {
      waf, subCount := new real[1](_ => 1.0), new nat[1](_ => 0);
      return;
    }
    var clock := ClockFor(t0, tEnd, width);
    var actual, ideal;
    actual, ideal, subCount := Tally(results, clock);
    ghost var touched, best, slots := TouchedOf(results), IdealOf(results), Slots(results, clock);
    waf := new real[clock.buckets](_ => 1.0);
    for b := 0 to clock.buckets
      invariant forall c | 0 <= c < b :: Overhead(waf[c], touched, best, slots, c)
      modifies waf
    {
      OverheadOfSums(touched, best, slots, b);
      var x := if ideal[b] > 0 then actual[b] as real / ideal[b] as real else 1.0;
      assert Overhead(x, touched, best, slots, b);
      waf[b] := x;
    }
  }

  /** The whole computation over a trace in time order: analyse every queue event, then bucket.
      Without an indirection unit or a queue event with blocks there is one bucket, at 1. */
  method ComputeWaf(events: seq<Event>, g: Geometry, width: real)
      returns (waf: array<real>, subCount: array<nat>, ghost results: seq<Analysis>)
    requires events != [] && width > 0.0 && (g.iuSize > 0 ==> IuSectors(g) > 0)
    requires forall i | 0 <= i < |events| :: events[0].time <= events[i].time
    ensures g.iuSize > 0 ==> AnalysesOf(results, events, IuSectors(g))
    ensures g.iuSize == 0 ==> results == []
    ensures results == [] ==> waf[..] == [1.0] && subCount[..] == [0]
    ensures Timed(results, ClockFor(events[0].time, events[|events| - 1].time, width))
    ensures results != [] ==>
      var clock := ClockFor(events[0].time, events[|events| - 1].time, width);
      var slots := Slots(results, clock);
      && waf.Length == subCount.Length == clock.buckets
      && (forall b | 0 <= b < clock.buckets :: Overhead(waf[b], TouchedOf(results), IdealOf(results), slots, b))
      && (forall b | 0 <= b < clock.buckets :: subCount[b] == SumIn(SubIuOf(results), slots, |results|, b))
  {
    var analysed := [];
    if g.iuSize > 0 {
      analysed := AnalyzeAll(events, g);
      AnalysesSound(analysed, events, IuSectors(g), events[0].time);
    }
    results := analysed;
    waf, subCount := WafOverTime(analysed, events[0].time, events[|events| - 1].time, width);
  }

  /** CONSERVATION: the buckets together hold the units of every request that is not a read. */
  lemma WafBucketsConserve(results: seq<Analysis>, clock: Clock)
    requires GoodClock(clock) && Timed(results, clock)
    ensures var slots := Slots(results, clock);
            && SumOfBuckets(TouchedOf(results), slots, clock.buckets) == Counted(TouchedOf(results), slots, |slots|)
            && SumOfBuckets(IdealOf(results), slots, clock.buckets) == Counted(IdealOf(results), slots, |slots|)
            && SumOfBuckets(SubIuOf(results), slots, clock.buckets) == Counted(SubIuOf(results), slots, |slots|)
  {
    var slots := Slots(results, clock);
    BucketsConserve(TouchedOf(results), slots, |slots|, clock.buckets);
    BucketsConserve(IdealOf(results), slots, |slots|, clock.buckets);
    BucketsConserve(SubIuOf(results), slots, |slots|, clock.buckets);
  }
}
