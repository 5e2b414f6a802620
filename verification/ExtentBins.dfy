/** Sums over a table, by row and by column. */
module TableSums {

  /** The first n entries of row i. */
  ghost function RowSum(f: (nat, nat) -> real, i: nat, n: nat): real {
    if n == 0 then 0.0 else RowSum(f, i, n - 1) + f(i, n - 1)
  }

  /** The first k entries of column b. */
  ghost function ColumnSum(f: (nat, nat) -> real, k: nat, b: nat): real {
    if k == 0 then 0.0 else ColumnSum(f, k - 1, b) + f(k - 1, b)
  }

  /** The first k rows of the first n columns, by column. */
  ghost function TableSum(f: (nat, nat) -> real, k: nat, n: nat): real {
    if n == 0 then 0.0 else TableSum(f, k, n - 1) + ColumnSum(f, k, n - 1)
  }

  lemma {:induction false} AddRow(f: (nat, nat) -> real, k: nat, n: nat)
    ensures TableSum(f, k + 1, n) == TableSum(f, k, n) + RowSum(f, k, n)
  {
    if n > 0 {
      AddRow(f, k, n - 1);
    }
  }

  lemma {:induction false} NoRows(f: (nat, nat) -> real, n: nat)
    ensures TableSum(f, 0, n) == 0.0
  {
    if n > 0 {
      NoRows(f, n - 1);
    }
  }
}

/** Stretches of the address axis cut into equal bins. */
module Spans {
  import opened Scaling
  import opened TableSums

  /** From s up to e, said to begin in bin lo and to end in bin hi. */
  datatype Span = Span(s: real, e: real, lo: nat, hi: nat)

  function Min(a: real, b: real): real { if a < b then a else b }
  function Max(a: real, b: real): real { if a > b then a else b }

  /** Where bin b begins, for bins of width w. */
  function Edge(w: real, b: int): real { b as real * w }

  lemma EdgesRise(w: real, a: int, b: int)
    requires w > 0.0
    ensures a < b <==> Edge(w, a) < Edge(w, b)
  {
    if a < b {
      Above(Edge(w, a), a as real, b as real, w);
    } else {
      AtLeast(Edge(w, a), a as real, b as real, w);
    }
  }

  /** The part inside bin b; not positive when there is none. */
  function Overlap(w: real, x: Span, b: int): real {
    Min(x.e, Edge(w, b + 1)) - Max(x.s, Edge(w, b))
  }

  predicate Touches(w: real, x: Span, b: nat) {
    if x.lo == x.hi then b == x.lo else x.lo <= b <= x.hi && Overlap(w, x, b) > 0.0
  }

  /** What bin b is given: everything if the span is in one bin, else its overlap. */
  function Piece(w: real, x: Span, b: nat): real {
    if !Touches(w, x, b) then 0.0 else if x.lo == x.hi then x.e - x.s else Overlap(w, x, b)
  }

  /** What bins 0 .. n - 1 are given. */
  function Covered(w: real, x: Span, n: nat): real {
    if n == 0 then 0.0 else Covered(w, x, n - 1) + Piece(w, x, n - 1)
  }

  lemma {:induction false} WholeSpan(w: real, x: Span, n: nat)
    requires x.lo == x.hi
    ensures Covered(w, x, n) == if x.lo < n then x.e - x.s else 0.0
  {
    if n > 0 {
      WholeSpan(w, x, n - 1);
    }
  }

  lemma {:induction false} EmptySpan(w: real, x: Span, n: nat)
    requires x.hi < x.lo
    ensures Covered(w, x, n) == 0.0
  {
    if n > 0 {
      EmptySpan(w, x, n - 1);
    }
  }

  /** The same in units of k. */
  function Scaled(w: real, x: Span, k: real, n: nat): real {
    if n == 0 then 0.0 else Scaled(w, x, k, n - 1) + Piece(w, x, n - 1) * k
  }

  lemma {:induction false} ScaledIsCovered(w: real, x: Span, k: real, n: nat)
    ensures Scaled(w, x, k, n) == Covered(w, x, n) * k
  {
    if n > 0 {
      ScaledIsCovered(w, x, k, n - 1);
      Distribute(Covered(w, x, n - 1), Piece(w, x, n - 1), k);
    }
  }

  lemma {:induction false} RowIsScaled(f: (nat, nat) -> real, i: nat, w: real, x: Span, k: real, n: nat)
    requires forall b: nat :: f(i, b) == Piece(w, x, b) * k
    ensures RowSum(f, i, n) == Scaled(w, x, k, n)
    decreases n
  {
    if n > 0 {
      RowIsScaled(f, i, w, x, k, n - 1);
    }
  }

  lemma Distribute(a: real, b: real, k: real)
    ensures (a + b) * k == a * k + b * k
  {
  }

  /** Bin lo is where the span begins and it reaches into bin hi. */
  predicate Straddles(w: real, x: Span) {
    w > 0.0 && x.lo < x.hi && Edge(w, x.lo) <= x.s < Edge(w, x.lo + 1) && Edge(w, x.hi) < x.e
  }

  lemma PieceIs(w: real, x: Span, b: nat)
    requires Straddles(w, x) && x.lo <= b <= x.hi
    ensures Piece(w, x, b) == Min(x.e, Edge(w, b + 1)) - (if b == x.lo then x.s else Edge(w, b))
    ensures Touches(w, x, b) && Edge(w, b) < x.e
    ensures b > x.lo ==> x.s < Edge(w, b)
  {
    EdgesRise(w, b, b + 1);
    EdgesRise(w, b, x.hi);
    EdgesRise(w, x.lo + 1, x.hi);
    EdgesRise(w, b, x.lo + 1);
  }

  /** The pieces telescope. */
  lemma {:induction false} PiecesTelescope(w: real, x: Span, n: nat)
    requires Straddles(w, x)
    ensures n <= x.lo ==> Covered(w, x, n) == 0.0
    ensures x.lo < n <= x.hi + 1 ==> Covered(w, x, n) == Min(x.e, Edge(w, n)) - x.s
    ensures n > x.hi ==> Covered(w, x, n) == Min(x.e, Edge(w, x.hi + 1)) - x.s
  {
    if n > 0 {
      PiecesTelescope(w, x, n - 1);
      if x.lo < n <= x.hi + 1 {
        PieceIs(w, x, n - 1);
      }
    }
  }

  /** The span is not empty, begins in bin lo and ends in bin hi. */
  predicate Located(w: real, x: Span) {
    && w > 0.0 && x.s < x.e && x.lo <= x.hi
    && Edge(w, x.lo) <= x.s < Edge(w, x.lo + 1) && Edge(w, x.hi) < x.e <= Edge(w, x.hi + 1)
  }

  /** Then the shortcut for one bin and the split agree: every bin gets its overlap. */
  lemma PieceIsOverlap(w: real, x: Span, b: nat)
    requires Located(w, x)
    ensures Piece(w, x, b) == Max(0.0, Overlap(w, x, b))
    ensures Touches(w, x, b) <==> Overlap(w, x, b) > 0.0
  {
    if b < x.lo {
      EdgesRise(w, x.lo, b + 1);
      EdgesRise(w, b, b + 1);
    } else if b > x.hi {
      EdgesRise(w, b, x.hi + 1);
      EdgesRise(w, b, b + 1);
    } else if x.lo < x.hi {
      PieceIs(w, x, b);
    }
  }
}

/** The median of a list of numbers, as numpy computes it. */
module Medians {
  predicate Ascending(s: seq<nat>) {
    forall i, j | 0 <= i < j < |s| :: s[i] <= s[j]
  }

  function Insert(x: nat, s: seq<nat>): seq<nat> {
    if s == [] || x <= s[0] then [x] + s else [s[0]] + Insert(x, s[1..])
  }

  function Sorted(s: seq<nat>): seq<nat> {
    if s == [] then [] else Insert(s[0], Sorted(s[1..]))
  }

  lemma {:induction false} InsertAdds(x: nat, s: seq<nat>)
    ensures multiset(Insert(x, s)) == multiset(s) + multiset{x}
    decreases |s|
  {
    if s != [] && x > s[0] {
      InsertAdds(x, s[1..]);
      assert s == [s[0]] + s[1..];
    }
  }

  lemma ConsKeepsAscending(x: nat, s: seq<nat>)
    requires Ascending(s) && forall y | y in multiset(s) :: x <= y
    ensures Ascending([x] + s)
  {
    forall i, j | 0 <= i < j <= |s| ensures ([x] + s)[i] <= ([x] + s)[j] {
      assert s[j - 1] in multiset(s);
    }
  }

  lemma {:induction false} InsertKeepsAscending(x: nat, s: seq<nat>)
    requires Ascending(s)
    ensures Ascending(Insert(x, s))
    decreases |s|
  {
    if s == [] || x <= s[0] {
      ConsKeepsAscending(x, s);
    } else {
      InsertKeepsAscending(x, s[1..]);
      InsertAdds(x, s[1..]);
      ConsKeepsAscending(s[0], Insert(x, s[1..]));
    }
  }

  lemma {:induction false} SortedIs(s: seq<nat>)
    ensures Ascending(Sorted(s)) && multiset(Sorted(s)) == multiset(s)
    ensures |Sorted(s)| == |s|
    decreases |s|
  {
    if s != [] {
      SortedIs(s[1..]);
      InsertAdds(s[0], Sorted(s[1..]));
      InsertKeepsAscending(s[0], Sorted(s[1..]));
      assert s == [s[0]] + s[1..];
    }
    assert |multiset(Sorted(s))| == |Sorted(s)| && |multiset(s)| == |s|;
  }

  /** How many values are at most v. */
  function AtMost(s: seq<nat>, v: nat): nat {
    if s == [] then 0 else (if s[0] <= v then 1 else 0) + AtMost(s[1..], v)
  }

  lemma {:induction false} InsertCounts(x: nat, s: seq<nat>, v: nat)
    ensures AtMost(Insert(x, s), v) == (if x <= v then 1 else 0) + AtMost(s, v)
    decreases |s|
  {
    if s == [] || x <= s[0] {
      assert ([x] + s)[1..] == s;
    } else {
      InsertCounts(x, s[1..], v);
      assert ([s[0]] + Insert(x, s[1..]))[1..] == Insert(x, s[1..]);
    }
  }

  /** Sorting does not change how many values are at most v. */
  lemma {:induction false} SortedCounts(s: seq<nat>, v: nat)
    ensures AtMost(Sorted(s), v) == AtMost(s, v)
    decreases |s|
  {
    if s != [] {
      SortedCounts(s[1..], v);
      InsertCounts(s[0], Sorted(s[1..]), v);
    }
  }

  /** In ascending order, the value at position k splits the count. */
  lemma {:induction false} AscendingCounts(s: seq<nat>, k: nat, v: nat)
    requires Ascending(s) && k < |s|
    ensures s[k] <= v ==> AtMost(s, v) >= k + 1
    ensures s[k] > v ==> AtMost(s, v) <= k
    decreases |s|
  {
    if k > 0 {
      AscendingCounts(s[1..], k - 1, v);
    } else if s[0] > v && |s| > 1 {
      AscendingCounts(s[1..], 0, v);
    }
  }

  /** The value at rank k has k samples at or below it, and any less has fewer. */
  lemma AtRank(s: seq<nat>, k: nat, v: nat, u: nat)
    requires k < |Sorted(s)| && v == Sorted(s)[k] && u < v
    ensures AtMost(s, v) >= k + 1 && AtMost(s, u) <= k
  {
    SortedIs(s);
    SortedCounts(s, v);
    SortedCounts(s, u);
    AscendingCounts(Sorted(s), k, v);
    AscendingCounts(Sorted(s), k, u);
  }

  lemma RankCounts(s: seq<nat>, k: nat, v: nat)
    requires k < |Sorted(s)| && v == Sorted(s)[k]
    ensures v in s && AtMost(s, v) >= k + 1 && forall u: nat | u < v :: AtMost(s, u) <= k
  {
    SortedIs(s);
    assert v in multiset(Sorted(s)) && v in multiset(s);
    SortedCounts(s, v);
    AscendingCounts(Sorted(s), k, v);
    forall u: nat | u < v ensures AtMost(s, u) <= k {
      AtRank(s, k, v, u);
    }
  }

  /** The middle value in order or, of an even number of values, the mean of the two in the
      middle. */
  function Median(s: seq<nat>): real
    requires s != []
  {
    SortedIs(s);
    var r, m := Sorted(s), |s| / 2;
    if |s| % 2 == 1 then r[m] as real else (r[m - 1] + r[m]) as real / 2.0
  }

  /** The least value with at least half of all values at or below it. */
  ghost predicate LowerMiddle(s: seq<nat>, v: nat) {
    v in s && 2 * AtMost(s, v) >= |s| && forall u: nat | u < v :: 2 * AtMost(s, u) < |s|
  }

  /** The least value with more than half of all values at or below it. */
  ghost predicate UpperMiddle(s: seq<nat>, v: nat) {
    v in s && 2 * AtMost(s, v) > |s| && forall u: nat | u < v :: 2 * AtMost(s, u) <= |s|
  }

  /** The median lies halfway between the two. */
  lemma MedianMeans(s: seq<nat>) returns (lower: nat, upper: nat)
    requires s != []
    ensures LowerMiddle(s, lower) && UpperMiddle(s, upper) && Median(s) * 2.0 == (lower + upper) as real
  {
    SortedIs(s);
    var r, m := Sorted(s), |s| / 2;
    var k := if |s| % 2 == 1 then m else m - 1;
    lower, upper := r[k], r[m];
    RankCounts(s, k, lower);
    RankCounts(s, m, upper);
  }

  /** A positive median has a positive value at or below twice itself. */
  lemma BelowMedian(s: seq<nat>) returns (i: nat)
    requires s != [] && Median(s) > 0.0
    ensures i < |s| && 0.0 < s[i] as real <= Median(s) * 2.0
  {
    SortedIs(s);
    var r, m := Sorted(s), |s| / 2;
    assert r[m] in multiset(s);
    i :| 0 <= i < |s| && s[i] == r[m];
  }
}

/** LBA heat bins of analyzers/blktrace_analyzer.py: the bytes of every request are counted in
    the bin of its start or, in extent mode, split over the bins its extent overlaps. */
module ExtentBins {
  import opened Medians
  import opened Scaling
  import opened SetSizes
  import opened Spans
  import opened TableSums

  datatype Io = Io(sector: nat, nblocks: nat, isWrite: bool)

  /** mx sectors of address space cut into equal bins; mx is the furthest end that is not an
      outlier. */
  datatype Grid = Grid(mx: real, bins: nat, sectorSize: nat, extent: bool)

  datatype Bin = Bin(ioCount: nat, totalBytes: real, writeBytes: real, readBytes: real, writeCount: nat, readCount: nat)

  const EMPTY := Bin(0, 0.0, 0.0, 0.0, 0, 0)

  ghost predicate Good(g: Grid) {
    g.mx > 0.0 && g.bins > 0
  }

  function Width(g: Grid): (w: real)
    requires Good(g)
    ensures w > 0.0 && Edge(w, g.bins) == g.mx
  {
    var w := g.mx / g.bins as real;
    assert w * g.bins as real == g.mx;
    w
  }

  function Clip(x: int, bins: nat): (b: nat)
    requires bins > 0
    ensures b < bins
  {
    if x < 0 then 0 else if x > bins - 1 then bins - 1 else x
  }

  /** The bin of sector s, and the bin in which a stretch up to e ends. */
  function StartBin(g: Grid, s: real): (b: nat)
    requires Good(g)
    ensures b < g.bins
  {
    Clip((s / Width(g)).Floor, g.bins)
  }

  function EndBin(g: Grid, e: real): (b: nat)
    requires Good(g)
    ensures b < g.bins
  {
    Clip(Ceil(e / Width(g)) - 1, g.bins)
  }

  lemma StartBinIs(g: Grid, s: real)
    requires Good(g) && s >= 0.0
    ensures var b := StartBin(g, s);
            Edge(Width(g), b) <= s && (b < g.bins - 1 ==> s < Edge(Width(g), b + 1))
  {
    var f := (s / Width(g)).Floor;
    FloorBounds(s, Width(g), f);
    assert Edge(Width(g), f) <= s < Edge(Width(g), f + 1);
    EdgesRise(Width(g), f, StartBin(g, s));
  }

  lemma EndBinIs(g: Grid, e: real)
    requires Good(g)
    ensures var b := EndBin(g, e);
            (b > 0 ==> Edge(Width(g), b) < e) && (b < g.bins - 1 ==> e <= Edge(Width(g), b + 1))
  {
    var c := Ceil(e / Width(g));
    CeilBounds(e, Width(g), c);
    assert Edge(Width(g), c - 1) < e <= Edge(Width(g), c);
    EdgesRise(Width(g), c - 1, EndBin(g, e));
    EdgesRise(Width(g), c, EndBin(g, e) + 1);
  }

  function SpanOf(g: Grid, io: Io): Span
    requires Good(g)
  {
    var s, e := io.sector as real, (io.sector + io.nblocks) as real;
    Span(s, e, StartBin(g, s), if g.extent then EndBin(g, e) else StartBin(g, s))
  }

  lemma EndsInLastBin(g: Grid, e: real)
    requires Good(g) && e > g.mx
    ensures EndBin(g, e) == g.bins - 1
  {
    EndBinIs(g, e);
    EdgesRise(Width(g), EndBin(g, e) + 1, g.bins);
  }

  /** Only an empty request ends in an earlier bin than it starts. */
  lemma StartBeforeEnd(g: Grid, io: Io)
    requires Good(g) && io.nblocks > 0
    ensures SpanOf(g, io).lo <= SpanOf(g, io).hi
  {
    var x := SpanOf(g, io);
    StartBinIs(g, x.s);
    EndBinIs(g, x.e);
    EdgesRise(Width(g), x.lo, x.hi + 1);
  }

  /** Where a request over several bins lies. */
  lemma SpanStraddles(g: Grid, io: Io)
    requires Good(g) && SpanOf(g, io).lo < SpanOf(g, io).hi
    ensures var x := SpanOf(g, io);
            && Straddles(Width(g), x)
            && (x.hi < g.bins - 1 ==> x.e <= Edge(Width(g), x.hi + 1))
  {
    var x := SpanOf(g, io);
    StartBinIs(g, x.s);
    EndBinIs(g, x.e);
  }

  // ---- one request ----

  function Bytes(g: Grid, io: Io): real {
    io.nblocks as real * g.sectorSize as real
  }

  /** The bytes a request adds to bin b. */
  function Share(g: Grid, io: Io, b: nat): real
    requires Good(g)
  {
    Piece(Width(g), SpanOf(g, io), b) * g.sectorSize as real
  }

  /** The bytes of a split request that lie past the grid. */
  function Lost(g: Grid, io: Io): real
    requires Good(g)
  {
    var x := SpanOf(g, io);
    if x.lo < x.hi && x.e > g.mx then (x.e - g.mx) * g.sectorSize as real else 0.0
  }

  /** All sectors of a request land in bins, except those of a split request past the grid. */
  lemma SectorsConserved(g: Grid, io: Io)
    requires Good(g)
    ensures var x := SpanOf(g, io);
            Covered(Width(g), x, g.bins) == if x.lo < x.hi && x.e > g.mx then g.mx - x.s else x.e - x.s
  {
    var x, w := SpanOf(g, io), Width(g);
    if x.lo == x.hi {
      WholeSpan(w, x, g.bins);
    } else if x.hi < x.lo {
      EmptySpan(w, x, g.bins);
      if io.nblocks > 0 {
        StartBeforeEnd(g, io);
      }
    } else {
      SpanStraddles(g, io);
      PiecesTelescope(w, x, g.bins);
      EdgesRise(w, g.bins, x.hi + 1);
    }
  }

  lemma LostIs(g: Grid, io: Io)
    requires Good(g)
    ensures Lost(g, io) >= 0.0
    ensures Lost(g, io) == 0.0 <==>
            !(SpanOf(g, io).lo < SpanOf(g, io).hi && SpanOf(g, io).e > g.mx) || g.sectorSize == 0
  {
  }

  lemma BytesIs(g: Grid, io: Io)
    requires Good(g)
    ensures Bytes(g, io) == (SpanOf(g, io).e - SpanOf(g, io).s) * g.sectorSize as real
  {
    assert SpanOf(g, io).e - SpanOf(g, io).s == io.nblocks as real;
  }

  /** Of a stretch from s to e, c sectors of k bytes are kept and the part past mx is lost. */
  lemma Balance(c: real, s: real, e: real, mx: real, k: real, cut: bool)
    requires c == if cut then mx - s else e - s
    ensures c * k == (e - s) * k - if cut then (e - mx) * k else 0.0
  {
    if cut {
      Distribute(mx - s, e - mx, k);
      assert mx - s + (e - mx) == e - s;
    }
  }

  lemma ScaledConserved(g: Grid, io: Io)
    requires Good(g)
    ensures Scaled(Width(g), SpanOf(g, io), g.sectorSize as real, g.bins) == Bytes(g, io) - Lost(g, io)
  {
    BytesIs(g, io);
    SectorsConserved(g, io);
    var x, k := SpanOf(g, io), g.sectorSize as real;
    ScaledIsCovered(Width(g), x, k, g.bins);
    Balance(Covered(Width(g), x, g.bins), x.s, x.e, g.mx, k, x.lo < x.hi && x.e > g.mx);
  }

  /** A request's bytes all land in bins, except the part of a split request past the grid. */
  lemma RequestConserved(g: Grid, io: Io)
    requires Good(g)
    ensures Scaled(Width(g), SpanOf(g, io), g.sectorSize as real, g.bins) == Bytes(g, io) - Lost(g, io)
    ensures Lost(g, io) >= 0.0
    ensures Lost(g, io) == 0.0 <==>
            !(SpanOf(g, io).lo < SpanOf(g, io).hi && SpanOf(g, io).e > g.mx) || g.sectorSize == 0
  {
    ScaledConserved(g, io);
    LostIs(g, io);
  }

  /** Inside the grid the whole-request shortcut and the split agree: every bin gets exactly
      the part of the request that overlaps it. */
  lemma ShareIsOverlap(g: Grid, io: Io, b: nat)
    requires Good(g) && g.extent && io.nblocks > 0 && b < g.bins && SpanOf(g, io).e <= g.mx
    ensures Piece(Width(g), SpanOf(g, io), b) == Max(0.0, Overlap(Width(g), SpanOf(g, io), b))
    ensures Touches(Width(g), SpanOf(g, io), b) <==> Overlap(Width(g), SpanOf(g, io), b) > 0.0
  {
    SpanLocated(g, io);
    PieceIsOverlap(Width(g), SpanOf(g, io), b);
  }

  /** Sector s counts in bin b: the last bin reaches as far as needed. */
  predicate InBin(g: Grid, b: nat, s: real)
    requires Good(g)
  {
    Edge(Width(g), b) <= s && (s < Edge(Width(g), b + 1) || b == g.bins - 1)
  }

  lemma StartBinIff(g: Grid, s: real, b: nat)
    requires Good(g) && s >= 0.0 && b < g.bins
    ensures b == StartBin(g, s) <==> InBin(g, b, s)
  {
    StartBinIs(g, s);
    EdgesRise(Width(g), b, StartBin(g, s) + 1);
    EdgesRise(Width(g), StartBin(g, s), b + 1);
  }

  /** A request goes whole to the bin of its start if requests are not split or it starts in the
      last bin. */
  predicate Whole(g: Grid, io: Io)
    requires Good(g)
  {
    !g.extent || Edge(Width(g), g.bins - 1) <= io.sector as real
  }

  lemma WholeInOneBin(g: Grid, io: Io)
    requires Good(g) && io.nblocks > 0 && Whole(g, io)
    ensures SpanOf(g, io).lo == SpanOf(g, io).hi
  {
    StartBeforeEnd(g, io);
    StartBinIff(g, io.sector as real, g.bins - 1);
  }

  /** What a bin is given, read off the addresses: the whole request or none of it, or else the part
      of the request that lies in the bin. */
  lemma ShareMeans(g: Grid, io: Io, b: nat)
    requires Good(g) && io.nblocks > 0 && b < g.bins
    ensures var s, e, k := io.sector as real, (io.sector + io.nblocks) as real, g.sectorSize as real;
            var inside := Min(e, Edge(Width(g), b + 1)) - Max(s, Edge(Width(g), b));
            && (Whole(g, io) ==> Share(g, io, b) == (if InBin(g, b, s) then io.nblocks as real * k else 0.0))
            && (!Whole(g, io) ==> Share(g, io, b) == Max(0.0, inside) * k)
            && (Touches(Width(g), SpanOf(g, io), b) <==> if Whole(g, io) then InBin(g, b, s) else inside > 0.0)
  {
    var x := SpanOf(g, io);
    StartBinIff(g, x.s, b);
    if Whole(g, io) {
      WholeInOneBin(g, io);
      assert x.e - x.s == io.nblocks as real;
    } else if x.e <= g.mx {
      ShareIsOverlap(g, io, b);
    } else {
      PastGrid(g, io, b);
    }
  }

  /** A request that starts before the last bin and ends past the grid. */
  lemma PastGrid(g: Grid, io: Io, b: nat)
    requires Good(g) && b < g.bins && !Whole(g, io) && SpanOf(g, io).e > g.mx
    ensures Piece(Width(g), SpanOf(g, io), b) == Max(0.0, Overlap(Width(g), SpanOf(g, io), b))
    ensures Touches(Width(g), SpanOf(g, io), b) <==> Overlap(Width(g), SpanOf(g, io), b) > 0.0
  {
    var x, w := SpanOf(g, io), Width(g);
    EndsInLastBin(g, x.e);
    StartBinIff(g, x.s, g.bins - 1);
    SpanStraddles(g, io);
    if b < x.lo {
      EdgesRise(w, x.lo, b + 1);
      EdgesRise(w, b, b + 1);
    } else {
      PieceIs(w, x, b);
    }
  }

  lemma SpanLocated(g: Grid, io: Io)
    requires Good(g) && g.extent && io.nblocks > 0 && SpanOf(g, io).e <= g.mx
    ensures Located(Width(g), SpanOf(g, io))
  {
    var x := SpanOf(g, io);
    StartBeforeEnd(g, io);
    StartBinIs(g, x.s);
    EndBinIs(g, x.e);
    assert Edge(Width(g), 0) == 0.0;
    assert x.lo == g.bins - 1 ==> Edge(Width(g), x.lo + 1) == g.mx;
  }

  // ---- all requests ----

  function AddTo(bin: Bin, bytes: real, isWrite: bool): Bin {
    Bin(bin.ioCount + 1, bin.totalBytes + bytes,
        if isWrite then bin.writeBytes + bytes else bin.writeBytes,
        if isWrite then bin.readBytes else bin.readBytes + bytes,
        if isWrite then bin.writeCount + 1 else bin.writeCount, if isWrite then bin.readCount else bin.readCount + 1)
  }

  /** Bin b after a span of k-byte sectors. */
  function AddedSpan(w: real, x: Span, k: real, isWrite: bool, b: nat, bin: Bin): Bin {
    if Touches(w, x, b) then AddTo(bin, Piece(w, x, b) * k, isWrite) else bin
  }

  /** Bin b after one more request. */
  function Added(g: Grid, io: Io, b: nat, bin: Bin): Bin
    requires Good(g)
  {
    AddedSpan(Width(g), SpanOf(g, io), g.sectorSize as real, io.isWrite, b, bin)
  }

  /** Bin b after the first k requests. */
  function BinAfter(g: Grid, ios: seq<Io>, k: nat, b: nat): (bin: Bin)
    requires Good(g) && k <= |ios|
    ensures bin.totalBytes == bin.writeBytes + bin.readBytes && bin.ioCount == bin.writeCount + bin.readCount
  {
    if k == 0 then EMPTY else Added(g, ios[k - 1], b, BinAfter(g, ios, k - 1, b))
  }

  /** One bin of a split request: counted if the overlap is positive. */
  method AddOverlap(bins: array<Bin>, w: real, x: Span, k: real, isWrite: bool, b: nat)
    requires x.lo != x.hi && x.lo <= b <= x.hi && b < bins.Length
    modifies bins
    ensures bins[b] == AddedSpan(w, x, k, isWrite, b, old(bins[b]))
    ensures forall c | 0 <= c < bins.Length && c != b :: bins[c] == old(bins[c])
  {
    var ov := Overlap(w, x, b);
    if ov > 0.0 {
      bins[b] := AddTo(bins[b], ov * k, isWrite);
    }
  }

  /** Split by overlap, bin by bin. */
  method AddSplit(bins: array<Bin>, w: real, x: Span, k: real, isWrite: bool)
    requires x.lo != x.hi && x.hi < bins.Length
    modifies bins
    ensures forall b | 0 <= b < bins.Length :: bins[b] == AddedSpan(w, x, k, isWrite, b, old(bins[b]))
  {
    var b := x.lo;
    while b <= x.hi
      invariant x.lo <= b && (b <= x.hi + 1 || b == x.lo)
      invariant forall c | 0 <= c < bins.Length ::
                  bins[c] == if c < b then AddedSpan(w, x, k, isWrite, c, old(bins[c])) else old(bins[c])
      decreases x.hi - b
    {
      AddOverlap(bins, w, x, k, isWrite, b);
      b := b + 1;
    }
  }

  method AddRequest(bins: array<Bin>, g: Grid, io: Io)
    requires Good(g) && bins.Length == g.bins
    modifies bins
    ensures forall b | 0 <= b < g.bins :: bins[b] == Added(g, io, b, old(bins[b]))
  {
    var x := SpanOf(g, io);
    if x.lo == x.hi {
      assert x.e - x.s == io.nblocks as real;
      bins[x.lo] := AddTo(bins[x.lo], Bytes(g, io), io.isWrite);
    } else {
      AddSplit(bins, Width(g), x, g.sectorSize as real, io.isWrite);
    }
  }

  method Accumulate(ios: seq<Io>, g: Grid) returns (bins: array<Bin>)
    requires Good(g)
    ensures bins.Length == g.bins && forall b | 0 <= b < g.bins :: bins[b] == BinAfter(g, ios, |ios|, b)
  {
    bins := new Bin[g.bins](_ => EMPTY);
    for k := 0 to |ios|
      invariant forall b | 0 <= b < g.bins :: bins[b] == BinAfter(g, ios, k, b)
    {
      AddRequest(bins, g, ios[k]);
    }
  }

  // ---- conservation over all requests ----

  /** The bytes in bins 0 .. n - 1 after the first k requests. */
  function BinTotal(g: Grid, ios: seq<Io>, k: nat, n: nat): real
    requires Good(g) && k <= |ios|
  {
    if n == 0 then 0.0 else BinTotal(g, ios, k, n - 1) + BinAfter(g, ios, k, n - 1).totalBytes
  }

  function TotalBytes(g: Grid, ios: seq<Io>, k: nat): real
    requires k <= |ios|
  {
    if k == 0 then 0.0 else TotalBytes(g, ios, k - 1) + Bytes(g, ios[k - 1])
  }

  function TotalLost(g: Grid, ios: seq<Io>, k: nat): real
    requires Good(g) && k <= |ios|
  {
    if k == 0 then 0.0 else TotalLost(g, ios, k - 1) + Lost(g, ios[k - 1])
  }

  /** What request i adds to bin b. */
  ghost function Shares(g: Grid, ios: seq<Io>): (nat, nat) -> real
    requires Good(g)
  {
    (i: nat, b: nat) => if i < |ios| then Share(g, ios[i], b) else 0.0
  }

  /** The same for the writes alone, or for the reads alone. */
  ghost function SharesOf(g: Grid, ios: seq<Io>, writes: bool): (nat, nat) -> real
    requires Good(g)
  {
    (i: nat, b: nat) => if i < |ios| && ios[i].isWrite == writes then Share(g, ios[i], b) else 0.0
  }

  /** The writes, or the reads, that touch bin b. */
  ghost function Touchers(g: Grid, ios: seq<Io>, b: nat, writes: bool): nat -> bool
    requires Good(g)
  {
    (i: nat) => i < |ios| && ios[i].isWrite == writes && Touches(Width(g), SpanOf(g, ios[i]), b)
  }

  /** Those among the first k requests. */
  ghost function Touching(g: Grid, ios: seq<Io>, k: nat, b: nat, writes: bool): set<nat>
    requires Good(g)
  {
    Chosen(k, Touchers(g, ios, b, writes))
  }

  /** All six columns of bin b after the first k requests: bytes are the shares of the requests of
      that direction, counts the number of them that touch the bin. */
  ghost predicate BinMeans(g: Grid, ios: seq<Io>, k: nat, b: nat, bin: Bin)
    requires Good(g) && k <= |ios|
  {
    && bin.totalBytes == ColumnSum(Shares(g, ios), k, b)
    && bin.writeBytes == ColumnSum(SharesOf(g, ios, true), k, b)
    && bin.readBytes == ColumnSum(SharesOf(g, ios, false), k, b)
    && bin.writeCount == |Touching(g, ios, k, b, true)| && bin.readCount == |Touching(g, ios, k, b, false)|
    && bin.ioCount == bin.writeCount + bin.readCount
  }

  /** What a request with this share, or that leaves the bin alone, makes of a bin. */
  ghost predicate Adds(io: Io, share: real, hit: bool, bin: Bin, next: Bin) {
    && next.totalBytes == bin.totalBytes + share
    && next.writeBytes == bin.writeBytes + (if io.isWrite then share else 0.0)
    && next.readBytes == bin.readBytes + (if io.isWrite then 0.0 else share)
    && next.writeCount == bin.writeCount + One(io.isWrite && hit)
    && next.readCount == bin.readCount + One(!io.isWrite && hit)
    && next.ioCount == bin.ioCount + One(hit)
  }

  lemma AddedIs(g: Grid, io: Io, b: nat, bin: Bin)
    requires Good(g)
    ensures Adds(io, Share(g, io, b), Touches(Width(g), SpanOf(g, io), b), bin, Added(g, io, b, bin))
  {
  }

  lemma TouchingStep(g: Grid, ios: seq<Io>, k: nat, b: nat, writes: bool)
    requires Good(g) && k < |ios|
    ensures var hit := ios[k].isWrite == writes && Touches(Width(g), SpanOf(g, ios[k]), b);
            |Touching(g, ios, k + 1, b, writes)| == |Touching(g, ios, k, b, writes)| + One(hit)
  {
    ChosenStep(k, Touchers(g, ios, b, writes));
  }

  lemma BinStep(g: Grid, ios: seq<Io>, k: nat, b: nat, bin: Bin, next: Bin)
    requires Good(g) && k < |ios| && BinMeans(g, ios, k, b, bin)
    requires Adds(ios[k], Share(g, ios[k], b), Touches(Width(g), SpanOf(g, ios[k]), b), bin, next)
    ensures BinMeans(g, ios, k + 1, b, next)
  {
    TouchingStep(g, ios, k, b, true);
    TouchingStep(g, ios, k, b, false);
  }

  /** CONTENTS of every bin after every number of requests. */
  lemma {:induction false} BinIsColumn(g: Grid, ios: seq<Io>, k: nat, b: nat)
    requires Good(g) && k <= |ios|
    ensures BinMeans(g, ios, k, b, BinAfter(g, ios, k, b))
    decreases k
  {
    if k > 0 {
      BinIsColumn(g, ios, k - 1, b);
      AddedIs(g, ios[k - 1], b, BinAfter(g, ios, k - 1, b));
      BinStep(g, ios, k - 1, b, BinAfter(g, ios, k - 1, b), BinAfter(g, ios, k, b));
    }
  }

  lemma {:induction false} BinTotalIsTable(g: Grid, ios: seq<Io>, k: nat, n: nat)
    requires Good(g) && k <= |ios|
    ensures BinTotal(g, ios, k, n) == TableSum(Shares(g, ios), k, n)
    decreases n
  {
    if n > 0 {
      BinTotalIsTable(g, ios, k, n - 1);
      BinIsColumn(g, ios, k, n - 1);
    }
  }

  lemma RequestIsRow(g: Grid, ios: seq<Io>, i: nat, n: nat)
    requires Good(g) && i < |ios|
    ensures RowSum(Shares(g, ios), i, n) == Scaled(Width(g), SpanOf(g, ios[i]), g.sectorSize as real, n)
  {
    RowIsScaled(Shares(g, ios), i, Width(g), SpanOf(g, ios[i]), g.sectorSize as real, n);
  }

  lemma {:induction false} TableConserves(g: Grid, ios: seq<Io>, k: nat)
    requires Good(g) && k <= |ios|
    ensures TableSum(Shares(g, ios), k, g.bins) == TotalBytes(g, ios, k) - TotalLost(g, ios, k)
    decreases k
  {
    if k == 0 {
      NoRows(Shares(g, ios), g.bins);
    } else {
      TableConserves(g, ios, k - 1);
      AddRow(Shares(g, ios), k - 1, g.bins);
      RequestIsRow(g, ios, k - 1, g.bins);
      RequestConserved(g, ios[k - 1]);
    }
  }

  /** The bins hold all bytes except what split requests have past the grid. */
  lemma {:induction false} BinsConserve(g: Grid, ios: seq<Io>, k: nat)
    requires Good(g) && k <= |ios|
    ensures BinTotal(g, ios, k, g.bins) == TotalBytes(g, ios, k) - TotalLost(g, ios, k)
  {
    BinTotalIsTable(g, ios, k, g.bins);
    TableConserves(g, ios, k);
  }

  /** The request is split and reaches past the grid. */
  predicate SpillsOver(g: Grid, io: Io)
    requires Good(g)
  {
    SpanOf(g, io).lo < SpanOf(g, io).hi && SpanOf(g, io).e > g.mx
  }

  lemma {:induction false} NothingLostIff(g: Grid, ios: seq<Io>, k: nat)
    requires Good(g) && g.sectorSize > 0 && k <= |ios|
    ensures TotalLost(g, ios, k) >= 0.0
    ensures TotalLost(g, ios, k) == 0.0 <==> forall i | 0 <= i < k :: !SpillsOver(g, ios[i])
    decreases k
  {
    if k > 0 {
      NothingLostIff(g, ios, k - 1);
      RequestConserved(g, ios[k - 1]);
    }
  }

  /** CONSERVATION: the bytes in the bins are the bytes requested if and only if no split
      request ends past the grid. */
  lemma BytesConservedIff(g: Grid, ios: seq<Io>)
    requires Good(g) && g.sectorSize > 0
    ensures BinTotal(g, ios, |ios|, g.bins) == TotalBytes(g, ios, |ios|)
       <==> forall i | 0 <= i < |ios| :: !SpillsOver(g, ios[i])
  {
    BinsConserve(g, ios, |ios|);
    NothingLostIff(g, ios, |ios|);
  }

  // ---- how far the grid reaches ----

  ghost predicate MaxOf(mx: real, ends: seq<real>) {
    mx in ends && forall e | e in ends :: e <= mx
  }

  /** The greatest element that is at most the cut. */
  ghost predicate MaxUpTo(mx: real, ends: seq<real>, cut: real) {
    mx in ends && mx <= cut && forall e | e in ends && e <= cut :: e <= mx
  }

  ghost predicate HasInlier(ends: seq<real>, med: real) {
    exists e | e in ends :: 0.0 < e <= med * 8.0
  }

  /** The grid ends at the furthest end that is at most eight times the median, or at the
      furthest of all if that leaves nothing. */
  method FurthestInlier(ends: seq<real>, med: real) returns (mx: real)
    requires ends != [] && forall e | e in ends :: e >= 0.0
    ensures med > 0.0 && HasInlier(ends, med) ==> MaxUpTo(mx, ends, med * 8.0)
    ensures !(med > 0.0 && HasInlier(ends, med)) ==> MaxOf(mx, ends)
  {
    mx := ends[0];
    var best := if med <= 0.0 || ends[0] <= med * 8.0 then ends[0] else 0.0;
    for i := 1 to |ends|
      invariant mx in ends && forall j | 0 <= j < i :: ends[j] <= mx
      invariant best >= 0.0 && (best > 0.0 ==> best in ends && (med > 0.0 ==> best <= med * 8.0))
      invariant forall j | 0 <= j < i && (med <= 0.0 || ends[j] <= med * 8.0) :: ends[j] <= best
    {
      if ends[i] > mx {
        mx := ends[i];
      }
      if (med <= 0.0 || ends[i] <= med * 8.0) && ends[i] > best {
        best := ends[i];
      }
    }
    if best > 0.0 {
      mx := best;
    }
  }

  // ---- the whole accumulation: the grid comes from the requests ----

  function End(io: Io): nat {
    io.sector + io.nblocks
  }

  function Ends(ios: seq<Io>): (r: seq<nat>)
    ensures |r| == |ios| && forall i | 0 <= i < |r| :: r[i] == End(ios[i])
  {
    seq(|ios|, i requires 0 <= i < |ios| => End(ios[i]))
  }

  function Reals(s: seq<nat>): (r: seq<real>)
    ensures |r| == |s| && forall i | 0 <= i < |r| :: r[i] == s[i] as real
  {
    seq(|s|, i requires 0 <= i < |s| => s[i] as real)
  }

  lemma MedianHasInlier(s: seq<nat>)
    requires s != [] && Median(s) > 0.0
    ensures HasInlier(Reals(s), Median(s))
  {
    var i := BelowMedian(s);
    assert Reals(s)[i] in Reals(s);
  }

  /** The grid that the requests give: it ends at the furthest end of at most eight medians or,
      if the median is 0, at the furthest of all. */
  ghost predicate Fitted(g: Grid, ios: seq<Io>)
    requires ios != []
  {
    var ends, med := Reals(Ends(ios)), Median(Ends(ios));
    if med > 0.0 then MaxUpTo(g.mx, ends, med * 8.0) else MaxOf(g.mx, ends)
  }

  /** The request ends past eight medians and starts before the last bin. */
  ghost predicate CutOff(g: Grid, ios: seq<Io>, i: nat)
    requires Good(g) && i < |ios|
  {
    && 0.0 < Median(Ends(ios)) * 8.0 < End(ios[i]) as real
    && StartBin(g, ios[i].sector as real) < g.bins - 1
  }

  /** An end lies past the grid exactly when it is more than eight positive medians. */
  lemma PastGridIff(g: Grid, ios: seq<Io>, i: nat)
    requires ios != [] && Fitted(g, ios) && i < |ios|
    ensures End(ios[i]) as real > g.mx <==> 0.0 < Median(Ends(ios)) * 8.0 < End(ios[i]) as real
  {
    var ends := Reals(Ends(ios));
    assert ends[i] == End(ios[i]) as real && ends[i] in ends;
  }

  lemma SpillsIffCutOff(g: Grid, ios: seq<Io>, i: nat)
    requires ios != [] && Good(g) && Fitted(g, ios) && i < |ios|
    ensures SpillsOver(g, ios[i]) <==> g.extent && CutOff(g, ios, i)
  {
    PastGridIff(g, ios, i);
    var e := End(ios[i]) as real;
    if e > g.mx {
      EndsInLastBin(g, e);
    }
  }

  /** CONSERVATION on the grid that the requests give: bytes are lost if and only if requests
      are split and one of them ends past eight medians and starts before the last bin. */
  lemma FittedConservesIff(g: Grid, ios: seq<Io>)
    requires ios != [] && Good(g) && g.sectorSize > 0 && Fitted(g, ios)
    ensures BinTotal(g, ios, |ios|, g.bins) == TotalBytes(g, ios, |ios|)
       <==> !(g.extent && exists i | 0 <= i < |ios| :: CutOff(g, ios, i))
  {
    forall i | 0 <= i < |ios| ensures SpillsOver(g, ios[i]) <==> g.extent && CutOff(g, ios, i) {
      SpillsIffCutOff(g, ios, i);
    }
    BytesConservedIff(g, ios);
  }

  /** The whole accumulation; its caller passes requests that end past sector 0. */
  method AccumulateLba(ios: seq<Io>, nb: nat, sectorSize: nat, extent: bool) returns (bins: array<Bin>, mx: real)
    requires nb > 0 && sectorSize > 0
    requires ios != [] ==> exists i | 0 <= i < |ios| :: End(ios[i]) > 0
    ensures bins.Length == nb
    ensures ios == [] ==> mx == 0.0 && forall b | 0 <= b < nb :: bins[b] == EMPTY
    ensures ios != [] ==>
      var g := Grid(mx, nb, sectorSize, extent);
      && Good(g) && Fitted(g, ios)
      && (forall b | 0 <= b < nb :: bins[b] == BinAfter(g, ios, |ios|, b) && BinMeans(g, ios, |ios|, b, bins[b]))
      && (BinTotal(g, ios, |ios|, nb) == TotalBytes(g, ios, |ios|)
          <==> !(extent && exists i | 0 <= i < |ios| :: CutOff(g, ios, i)))
  {
    if ios == [] {
      return new Bin[nb](_ => EMPTY), 0.0;
    }
    var ends := Ends(ios);
    var med := Median(ends);
    if med > 0.0 {
      MedianHasInlier(ends);
    }
    mx := FurthestInlier(Reals(ends), med);
    var g := Grid(mx, nb, sectorSize, extent);
    FittedIsGood(g, ios);
    FittedConservesIff(g, ios);
    bins := Accumulate(ios, g);
    forall b | 0 <= b < nb ensures BinMeans(g, ios, |ios|, b, bins[b]) {
      BinIsColumn(g, ios, |ios|, b);
    }
  }

  lemma FittedIsGood(g: Grid, ios: seq<Io>)
    requires ios != [] && g.bins > 0 && Fitted(g, ios)
    requires exists i | 0 <= i < |ios| :: End(ios[i]) > 0
    ensures Good(g)
  {
    var i :| 0 <= i < |ios| && End(ios[i]) > 0;
    var ends, med := Reals(Ends(ios)), Median(Ends(ios));
    assert ends[i] > 0.0 && ends[i] in ends;
    if med > 0.0 {
      MedianHasInlier(Ends(ios));
      var e :| e in ends && 0.0 < e <= med * 8.0;
      assert e <= g.mx;
    }
  }

  /** A trace that loses bytes: three requests end at sector 10 and one of 99 sectors at sector
      100, so the median is 10, the grid ends at sector 10 and 90 sectors fall off it. */
  const OUTLIER: seq<Io> := [Io(1, 9, true), Io(1, 9, true), Io(1, 9, true), Io(1, 99, true)]

  lemma OutlierMedian()
    ensures Ends(OUTLIER) == [10, 10, 10, 100] && Median(Ends(OUTLIER)) == 10.0
  {
    var s := Ends(OUTLIER);
    assert s == [10] + [10, 10, 100];
    assert Sorted([]) == [];
    assert Sorted([100]) == [100];
    assert [10, 100][1..] == [100];
    assert Sorted([10, 100]) == [10, 100];
    assert [10, 10, 100][1..] == [10, 100];
    assert Sorted([10, 10, 100]) == [10, 10, 100];
    assert s[1..] == [10, 10, 100];
    assert Sorted(s) == [10, 10, 10, 100];
  }

  lemma OutlierGrid(g: Grid)
    requires Fitted(g, OUTLIER)
    ensures g.mx == 10.0
  {
    OutlierMedian();
    var ends := Reals(Ends(OUTLIER));
    assert ends == [10.0, 10.0, 10.0, 100.0];
    assert ends[0] == 10.0;
  }

  lemma LostOfOutlier(g: Grid)
    requires g == Grid(10.0, 2, 512, true)
    ensures Lost(g, Io(1, 9, true)) == 0.0 && Lost(g, Io(1, 99, true)) == 46080.0
  {
    assert Width(g) == 5.0;
    assert (1.0 / 5.0).Floor == 0 && Ceil(100.0 / 5.0) == 20;
  }

  lemma OutlierLosesBytes(g: Grid)
    requires g.bins == 2 && g.sectorSize == 512 && g.extent && Fitted(g, OUTLIER)
    ensures g.mx == 10.0 && BinTotal(g, OUTLIER, 4, 2) == TotalBytes(g, OUTLIER, 4) - 46080.0
  {
    OutlierGrid(g);
    LostOfOutlier(g);
    BinsConserve(g, OUTLIER, 4);
    assert TotalLost(g, OUTLIER, 3) == TotalLost(g, OUTLIER, 2) == TotalLost(g, OUTLIER, 1) == 0.0;
  }
}
