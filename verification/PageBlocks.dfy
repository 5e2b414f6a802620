/** The file-unified heatmap (pagemon_viz_v2.c): all VMAs of a file are scanned page by page
    into blocks of file pages, and a bitmap makes sure that a file page mapped more than once
    is counted once. */
module PageBlocks {
  import opened Bitmap
  import opened Coalesce
  import opened SetSizes
  import opened Sorting
  import opened Wrappers

  const PAGE_SIZE: nat := 4096

  /** One pagemap entry. */
  datatype PageState = PageState(present: bool, softDirty: bool, swapped: bool, fileMapped: bool)

  /** The pagemap: the entry of each virtual page. */
  type PageMap = nat -> PageState

  datatype Block = Block(total: nat, present: nat, dirty: nat, swapped: nat, fileMapped: nat)

  function One(b: bool): nat {
    if b then 1 else 0
  }

  function Added(b: Block, st: PageState): Block {
    Block(b.total + 1, b.present + One(st.present), b.dirty + One(st.softDirty),
          b.swapped + One(st.swapped), b.fileMapped + One(st.fileMapped))
  }

  // ---- which file pages are mapped, and through which virtual page first ----

  /** VMAs start, end and map the file at page boundaries, within the scanned range. */
  predicate Fits(r: Vma, fileMin: nat, filePages: nat) {
    && r.start <= r.end && r.start % PAGE_SIZE == 0 && r.end % PAGE_SIZE == 0
    && r.offset % PAGE_SIZE == 0 && fileMin % PAGE_SIZE == 0
    && fileMin <= r.offset && FileEnd(r) <= fileMin + filePages * PAGE_SIZE
  }

  function Pages(r: Vma): nat {
    Size(r) / PAGE_SIZE
  }

  /** The first file page of the VMA, counted from fileMin. */
  function FirstPage(r: Vma, fileMin: nat): int {
    r.offset / PAGE_SIZE - fileMin / PAGE_SIZE
  }

  predicate MapsPage(r: Vma, fileMin: nat, x: int) {
    FirstPage(r, fileMin) <= x < FirstPage(r, fileMin) + Pages(r)
  }

  /** The virtual page through which the first VMA that maps file page x does so. */
  function FirstVisit(vmas: seq<Vma>, fileMin: nat, x: int): Option<int> {
    if vmas == [] then None
    else
      var n := |vmas| - 1;
      match FirstVisit(vmas[..n], fileMin, x)
      case Some(va) => Some(va)
      case None =>
        if MapsPage(vmas[n], fileMin, x) then Some(vmas[n].start / PAGE_SIZE + x - FirstPage(vmas[n], fileMin))
        else None
  }

  lemma {:induction false} VisitedIffMapped(vmas: seq<Vma>, fileMin: nat, x: int)
    ensures FirstVisit(vmas, fileMin, x).Some? <==> exists i | 0 <= i < |vmas| :: MapsPage(vmas[i], fileMin, x)
  {
    if vmas != [] {
      var n := |vmas| - 1;
      VisitedIffMapped(vmas[..n], fileMin, x);
      if i :| 0 <= i < |vmas| && MapsPage(vmas[i], fileMin, x) {
        assert i < n ==> MapsPage(vmas[..n][i], fileMin, x);
      }
    }
  }

  // ---- what the blocks mean; first[x] is the virtual page that counted file page x ----

  ghost function InBlock(pages: set<nat>, ppb: nat, b: nat): set<nat>
    requires ppb > 0
  {
    set x | x in pages && x / ppb == b
  }

  ghost function Dirty(first: map<nat, nat>, pm: PageMap): set<nat> {
    set x | x in first && pm(first[x]).softDirty
  }

  ghost function Present(first: map<nat, nat>, pm: PageMap): set<nat> {
    set x | x in first && pm(first[x]).present
  }

  ghost function Swapped(first: map<nat, nat>, pm: PageMap): set<nat> {
    set x | x in first && pm(first[x]).swapped
  }

  ghost function FileMapped(first: map<nat, nat>, pm: PageMap): set<nat> {
    set x | x in first && pm(first[x]).fileMapped
  }

  ghost predicate BlockMeans(blk: Block, ppb: nat, b: nat, first: map<nat, nat>, pm: PageMap)
    requires ppb > 0
  {
    && blk.total == |InBlock(first.Keys, ppb, b)|
    && blk.dirty == |InBlock(Dirty(first, pm), ppb, b)|
    && blk.present == |InBlock(Present(first, pm), ppb, b)|
    && blk.swapped == |InBlock(Swapped(first, pm), ppb, b)|
    && blk.fileMapped == |InBlock(FileMapped(first, pm), ppb, b)|
  }

  lemma InBlockAdd(pages: set<nat>, ppb: nat, b: nat, x: nat, more: set<nat>)
    requires ppb > 0 && x !in pages && more == pages + {x}
    ensures |InBlock(more, ppb, b)| == |InBlock(pages, ppb, b)| + if x / ppb == b then 1 else 0
  {
    if x / ppb == b {
      assert InBlock(more, ppb, b) == InBlock(pages, ppb, b) + {x};
    } else {
      assert InBlock(more, ppb, b) == InBlock(pages, ppb, b);
    }
  }

  /** A flagged set after one more page. */
  lemma InBlockFlag(pages: set<nat>, ppb: nat, b: nat, x: nat, flag: bool, more: set<nat>)
    requires ppb > 0 && x !in pages && more == if flag then pages + {x} else pages
    ensures |InBlock(more, ppb, b)| == |InBlock(pages, ppb, b)| + if x / ppb == b then One(flag) else 0
  {
    if flag {
      InBlockAdd(pages, ppb, b, x, more);
    }
  }

  /** Counting file page x through virtual page va. */
  lemma CountPage(blk: Block, ppb: nat, b: nat, first: map<nat, nat>, pm: PageMap, x: nat, va: nat)
    requires ppb > 0 && x !in first && BlockMeans(blk, ppb, b, first, pm)
    ensures BlockMeans(if x / ppb == b then Added(blk, pm(va)) else blk, ppb, b, first[x := va], pm)
  {
    var next, st := first[x := va], pm(va);
    InBlockAdd(first.Keys, ppb, b, x, next.Keys);
    assert Dirty(next, pm) == if st.softDirty then Dirty(first, pm) + {x} else Dirty(first, pm);
    InBlockFlag(Dirty(first, pm), ppb, b, x, st.softDirty, Dirty(next, pm));
    assert Present(next, pm) == if st.present then Present(first, pm) + {x} else Present(first, pm);
    InBlockFlag(Present(first, pm), ppb, b, x, st.present, Present(next, pm));
    assert Swapped(next, pm) == if st.swapped then Swapped(first, pm) + {x} else Swapped(first, pm);
    InBlockFlag(Swapped(first, pm), ppb, b, x, st.swapped, Swapped(next, pm));
    assert FileMapped(next, pm) == if st.fileMapped then FileMapped(first, pm) + {x} else FileMapped(first, pm);
    InBlockFlag(FileMapped(first, pm), ppb, b, x, st.fileMapped, FileMapped(next, pm));
  }

  // ---- sums over blocks ----

  function SumTotal(bl: seq<Block>): nat {
    if bl == [] then 0 else SumTotal(bl[..|bl| - 1]) + bl[|bl| - 1].total
  }

  function SumDirty(bl: seq<Block>): nat {
    if bl == [] then 0 else SumDirty(bl[..|bl| - 1]) + bl[|bl| - 1].dirty
  }

  /** The pages of the first n blocks. */
  ghost function Below(pages: set<nat>, ppb: nat, n: nat): set<nat>
    requires ppb > 0
  {
    set x | x in pages && x / ppb < n
  }

  lemma BelowNext(pages: set<nat>, ppb: nat, n: nat)
    requires ppb > 0
    ensures |Below(pages, ppb, n + 1)| == |Below(pages, ppb, n)| + |InBlock(pages, ppb, n)|
  {
    assert Below(pages, ppb, n + 1) == Below(pages, ppb, n) + InBlock(pages, ppb, n);
    assert Below(pages, ppb, n) !! InBlock(pages, ppb, n);
  }

  lemma {:induction false} SumsCount(bl: seq<Block>, ppb: nat, first: map<nat, nat>, pm: PageMap)
    requires ppb > 0 && forall b | 0 <= b < |bl| :: BlockMeans(bl[b], ppb, b, first, pm)
    ensures SumTotal(bl) == |Below(first.Keys, ppb, |bl|)|
    ensures SumDirty(bl) == |Below(Dirty(first, pm), ppb, |bl|)|
  {
    if bl == [] {
      assert Below(first.Keys, ppb, 0) == {} && Below(Dirty(first, pm), ppb, 0) == {};
    } else {
      var n := |bl| - 1;
      forall b | 0 <= b < n ensures BlockMeans(bl[..n][b], ppb, b, first, pm) {
        assert BlockMeans(bl[b], ppb, b, first, pm);
      }
      SumsCount(bl[..n], ppb, first, pm);
      BelowNext(first.Keys, ppb, n);
      BelowNext(Dirty(first, pm), ppb, n);
      assert BlockMeans(bl[n], ppb, n, first, pm);
    }
  }

  // ---- the scan ----

  function BlockCount(filePages: nat, ppb: nat): nat
    requires ppb > 0
  {
    (filePages + ppb - 1) / ppb
  }

  /** No more blocks than the pages need. */
  lemma FewestBlocks(filePages: nat, ppb: nat)
    requires ppb > 0
    ensures filePages <= BlockCount(filePages, ppb) * ppb < filePages + ppb
  {
    var n := filePages + ppb - 1;
    assert n == n / ppb * ppb + n % ppb;
  }

  lemma BlockInRange(x: nat, filePages: nat, ppb: nat)
    requires ppb > 0 && x < filePages
    ensures x / ppb < BlockCount(filePages, ppb)
  {
    var q, a := x / ppb, filePages + ppb - 1;
    assert x == ppb * q + x % ppb;
    assert a == ppb * (a / ppb) + a % ppb;
    assert a >= ppb * (q + 1);
    if a / ppb <= q {
      MulMonotone(ppb, a / ppb, q);
    }
  }

  lemma MulMonotone(n: nat, a: nat, b: nat)
    requires a <= b
    ensures n * a <= n * b
  {
  }

  /** The file page that the code computes for the p-th page of a VMA. */
  lemma PageIndex(r: Vma, fileMin: nat, filePages: nat, p: nat)
    requires Fits(r, fileMin, filePages) && p < Pages(r)
    ensures fileMin <= r.offset + p * PAGE_SIZE
    ensures (r.offset + p * PAGE_SIZE - fileMin) / PAGE_SIZE == FirstPage(r, fileMin) + p
    ensures 0 <= FirstPage(r, fileMin) + p < filePages
  {
  }

  /** Blocks, bitmap and dirty count as values, with the pages counted so far. */
  datatype View = View(bl: seq<Block>, seen: seq<bv8>, totalDirty: nat, first: map<nat, nat>)

  ghost predicate Means(v: View, filePages: nat, ppb: nat, pm: PageMap)
    requires ppb > 0
  {
    && |v.bl| == BlockCount(filePages, ppb)
    && (forall x | x in v.first :: x < filePages)
    && Holds(v.seen, filePages, v.first.Keys)
    && (forall b | 0 <= b < |v.bl| :: BlockMeans(v.bl[b], ppb, b, v.first, pm))
    && v.totalDirty == |Dirty(v.first, pm)|
  }

  /** File page x, not seen before, is counted in block bi through virtual page va. */
  function Counting(v: View, bi: nat, pm: PageMap, x: nat, va: nat): View
    requires x / 8 < |v.seen| && bi < |v.bl|
  {
    View(v.bl[bi := Added(v.bl[bi], pm(va))], WithBit(v.seen, x),
         v.totalDirty + One(pm(va).softDirty), v.first[x := va])
  }

  lemma CountingBlocks(bl: seq<Block>, ppb: nat, pm: PageMap, first: map<nat, nat>, x: nat, va: nat, bi: nat)
    requires ppb > 0 && x !in first && bi == x / ppb && bi < |bl|
    requires forall b | 0 <= b < |bl| :: BlockMeans(bl[b], ppb, b, first, pm)
    ensures var next := bl[bi := Added(bl[bi], pm(va))];
            forall b | 0 <= b < |bl| :: BlockMeans(next[b], ppb, b, first[x := va], pm)
  {
    var next := bl[bi := Added(bl[bi], pm(va))];
    forall b | 0 <= b < |bl| ensures BlockMeans(next[b], ppb, b, first[x := va], pm) {
      CountPage(bl[b], ppb, b, first, pm, x, va);
    }
  }

  lemma DirtyNext(first: map<nat, nat>, pm: PageMap, x: nat, va: nat)
    requires x !in first
    ensures |Dirty(first[x := va], pm)| == |Dirty(first, pm)| + One(pm(va).softDirty)
  {
    assert Dirty(first[x := va], pm) == if pm(va).softDirty then Dirty(first, pm) + {x} else Dirty(first, pm);
  }

  function BlockOf(x: nat, ppb: nat): nat
    requires ppb > 0
  {
    x / ppb
  }

  lemma CountInRange(v: View, filePages: nat, ppb: nat, pm: PageMap, x: nat, bi: nat)
    requires ppb > 0 && Means(v, filePages, ppb, pm) && x < filePages && bi == BlockOf(x, ppb)
    ensures x / 8 < |v.seen| && bi < |v.bl|
  {
    BlockInRange(x, filePages, ppb);
  }

  lemma CountingMeans(v: View, v': View, filePages: nat, ppb: nat, pm: PageMap, x: nat, va: nat, bi: nat)
    requires ppb > 0 && Means(v, filePages, ppb, pm) && x < filePages && bi == BlockOf(x, ppb) && x !in v.first
    requires x / 8 < |v.seen| && bi < |v.bl| && v' == Counting(v, bi, pm, x, va)
    ensures Means(v', filePages, ppb, pm)
  {
    BlockInRange(x, filePages, ppb);
    HoldsWithBit(v.seen, filePages, v.first.Keys, x);
    assert v.first[x := va].Keys == v.first.Keys + {x};
    CountingBlocks(v.bl, ppb, pm, v.first, x, va, bi);
    DirtyNext(v.first, pm, x, va);
  }

  lemma SeenMeans(v: View, filePages: nat, ppb: nat, pm: PageMap, x: nat)
    requires ppb > 0 && Means(v, filePages, ppb, pm) && x < filePages
    ensures x / 8 < |v.seen| && (v.seen[x / 8] & Mask(x % 8) != 0 <==> x in v.first)
  {
    assert Test(v.seen, x) <==> x in v.first.Keys;
  }

  class Scan {
    const fileMin: nat
    const filePages: nat
    const ppb: nat
    const bl: array<Block>
    const seen: array<bv8>
    var totalDirty: nat
    ghost var first: map<nat, nat>

    ghost function V(): View
      reads this, bl, seen
    {
      View(bl[..], seen[..], totalDirty, first)
    }

    ghost predicate Valid(pm: PageMap)
      reads this, bl, seen
    {
      ppb > 0 && bl as object != seen && Means(V(), filePages, ppb, pm)
    }

    constructor (fileMin: nat, filePages: nat, ppb: nat)
      requires ppb > 0
      ensures fresh(bl) && fresh(seen) && first == map[]
      ensures this.fileMin == fileMin && this.filePages == filePages && this.ppb == ppb
      ensures forall pm :: Valid(pm)
    {
      this.fileMin, this.filePages, this.ppb := fileMin, filePages, ppb;
      bl := new Block[BlockCount(filePages, ppb)](_ => Block(0, 0, 0, 0, 0));
      seen := new bv8[(filePages + 7) / 8](_ => 0);
      totalDirty, first := 0, map[];
      new;
      HoldsNothing(seen[..], filePages);
      assert first.Keys == {};
      forall pm: PageMap ensures Means(V(), filePages, ppb, pm) {
        NothingCounted(bl[..], ppb, pm);
      }
    }

    method Seen(x: nat, ghost pm: PageMap) returns (b: bool)
      requires Valid(pm) && x < filePages
      ensures b <==> x in first
    {
      SeenMeans(V(), filePages, ppb, pm, x);
      b := seen[x / 8] & Mask(x % 8) != 0;
    }

    /** One page of one VMA: skipped if its file page was seen, else counted in its block. */
    method VisitPage(x: nat, va: nat, pm: PageMap)
      requires Valid(pm) && x < filePages
      modifies this, bl, seen
      ensures Valid(pm)
      ensures first == if x in old(first) then old(first) else old(first)[x := va]
    {
      var skip := Seen(x, pm);
      if !skip {
        CountNew(x, va, pm);
      }
    }

    method CountNew(x: nat, va: nat, pm: PageMap)
      requires Valid(pm) && x < filePages && x !in first
      modifies this, bl, seen
      ensures Valid(pm) && first == old(first)[x := va]
    {
      ghost var v := V();
      var bi := BlockOf(x, ppb);
      CountInRange(v, filePages, ppb, pm, x, bi);
      Count(x, va, pm, bi);
      CountingMeans(v, V(), filePages, ppb, pm, x, va, bi);
    }

    method Count(x: nat, va: nat, pm: PageMap, bi: nat)
      requires bl as object != seen && x / 8 < seen.Length && bi < bl.Length
      modifies this, bl, seen
      ensures V() == Counting(old(V()), bi, pm, x, va)
    {
      seen[x / 8] := seen[x / 8] | Mask(x % 8);
      bl[bi] := Added(bl[bi], pm(va));
      if pm(va).softDirty {
        totalDirty := totalDirty + 1;
      }
      first := first[x := va];
    }

    /** The n-th page of a run that starts at file page f0 and virtual page va0. */
    method VisitNext(x: nat, va: nat, pm: PageMap, ghost before: map<nat, nat>, ghost f0: int, ghost n: nat,
        ghost va0: nat)
      requires Valid(pm) && x < filePages && x == f0 + n && va == va0 + n && Extends(before, first, f0, n, va0)
      modifies this, bl, seen
      ensures Valid(pm) && Extends(before, first, f0, n + 1, va0)
    {
      ExtendsNext(before, first, f0, n, va0);
      VisitPage(x, va, pm);
    }

    /** Page p of a VMA, unless it lies before the file range. */
    method ScanPage(r: Vma, p: nat, pm: PageMap, ghost before: map<nat, nat>)
      requires Valid(pm) && Fits(r, fileMin, filePages) && p < Pages(r)
      requires Extends(before, first, FirstPage(r, fileMin), p, r.start / PAGE_SIZE)
      modifies this, bl, seen
      ensures Valid(pm) && Extends(before, first, FirstPage(r, fileMin), p + 1, r.start / PAGE_SIZE)
    {
      PageIndex(r, fileMin, filePages, p);
      var va := r.start / PAGE_SIZE + p;
      var fileByte := r.offset + p * PAGE_SIZE;
      if fileByte >= fileMin {
        var x := (fileByte - fileMin) / PAGE_SIZE;
        VisitNext(x, va, pm, before, FirstPage(r, fileMin), p, r.start / PAGE_SIZE);
      }
    }

    /** All pages of one VMA. */
    method ScanVma(r: Vma, pm: PageMap)
      requires Valid(pm) && Fits(r, fileMin, filePages)
      modifies this, bl, seen
      ensures Valid(pm)
      ensures Extends(old(first), first, FirstPage(r, fileMin), Pages(r), r.start / PAGE_SIZE)
    {
      ghost var before := first;
      var n, p := Pages(r), 0;
      while p < n
        invariant p <= n && Valid(pm) && Extends(before, first, FirstPage(r, fileMin), p, r.start / PAGE_SIZE)
      {
        ScanPage(r, p, pm, before);
        p := p + 1;
      }
    }

    /** All VMAs of all spans of the file. */
    method ScanSpans(spans: seq<Span>, pm: PageMap)
      requires Valid(pm) && first == map[]
      requires forall r | r in Sources(spans) :: Fits(r, fileMin, filePages)
      modifies this, bl, seen
      ensures Valid(pm) && Visited(Sources(spans), fileMin, filePages, first)
    {
      var c := 0;
      while c < |spans|
        invariant c <= |spans| && Valid(pm) && Visited(Sources(spans[..c]), fileMin, filePages, first)
      {
        assert spans[..c + 1][..c] == spans[..c];
        ScanSpan(spans, c, pm);
        c := c + 1;
      }
      assert spans[..c] == spans;
    }

    method ScanSpan(spans: seq<Span>, c: nat, pm: PageMap)
      requires Valid(pm) && c < |spans| && Visited(Sources(spans[..c]), fileMin, filePages, first)
      requires forall r | r in Sources(spans) :: Fits(r, fileMin, filePages)
      modifies this, bl, seen
      ensures Valid(pm) && Visited(Sources(spans[..c]) + spans[c].vmas, fileMin, filePages, first)
    {
      ghost var done := Sources(spans[..c]);
      var vmas := spans[c].vmas;
      var v := 0;
      assert done + vmas[..0] == done;
      while v < |vmas|
        invariant v <= |vmas| && Valid(pm) && Visited(done + vmas[..v], fileMin, filePages, first)
      {
        SourceFits(spans, c, v);
        ghost var before := first;
        ScanVma(vmas[v], pm);
        VisitedNext(done + vmas[..v], vmas[v], fileMin, filePages, before, first);
        assert done + vmas[..v + 1] == done + vmas[..v] + [vmas[v]];
        v := v + 1;
      }
      assert vmas[..v] == vmas;
    }
  }

  /** first is `before` plus the n pages from f0 on that it did not have, seen from va0 on. */
  ghost predicate Extends(before: map<nat, nat>, first: map<nat, nat>, f0: int, n: nat, va0: nat) {
    && (forall x: nat :: x in first <==> x in before || f0 <= x < f0 + n)
    && (forall x | x in first :: first[x] == if x in before then before[x] else va0 + x - f0)
  }

  lemma ExtendsNext(before: map<nat, nat>, first: map<nat, nat>, f0: int, n: nat, va0: nat)
    requires Extends(before, first, f0, n, va0) && f0 + n >= 0
    ensures var x := f0 + n;
            Extends(before, if x in first then first else first[x := va0 + n], f0, n + 1, va0)
  {
  }

  /** first records, for every page below filePages, its first visit by the VMAs. */
  ghost predicate Visited(vmas: seq<Vma>, fileMin: nat, filePages: nat, first: map<nat, nat>) {
    && (forall x: nat :: x in first <==> x < filePages && FirstVisit(vmas, fileMin, x).Some?)
    && (forall x | x in first :: FirstVisit(vmas, fileMin, x) == Some(first[x]))
  }

  lemma VisitedNext(vmas: seq<Vma>, r: Vma, fileMin: nat, filePages: nat, before: map<nat, nat>, first: map<nat, nat>)
    requires Visited(vmas, fileMin, filePages, before) && Fits(r, fileMin, filePages)
    requires Extends(before, first, FirstPage(r, fileMin), Pages(r), r.start / PAGE_SIZE)
    ensures Visited(vmas + [r], fileMin, filePages, first)
  {
    var all := vmas + [r];
    assert all[..|vmas|] == vmas;
    assert FirstPage(r, fileMin) + Pages(r) <= filePages;
  }

  lemma {:induction false} SourceFits(spans: seq<Span>, c: nat, v: nat)
    requires c < |spans| && v < |spans[c].vmas|
    ensures spans[c].vmas[v] in Sources(spans)
  {
    var n := |spans| - 1;
    if c < n {
      SourceFits(spans[..n], c, v);
    } else {
      assert Sources(spans)[|Sources(spans[..n])| + v] == spans[c].vmas[v];
    }
  }

  lemma NothingCounted(bl: seq<Block>, ppb: nat, pm: PageMap)
    requires ppb > 0 && forall b | 0 <= b < |bl| :: bl[b] == Block(0, 0, 0, 0, 0)
    ensures forall b | 0 <= b < |bl| :: BlockMeans(bl[b], ppb, b, map[], pm)
    ensures Dirty(map[], pm) == {}
  {
    forall b | 0 <= b < |bl| ensures BlockMeans(bl[b], ppb, b, map[], pm) {
      var none: map<nat, nat> := map[];
      assert InBlock(none.Keys, ppb, b) == {} && InBlock(Dirty(none, pm), ppb, b) == {};
      assert InBlock(Present(none, pm), ppb, b) == {} && InBlock(Swapped(none, pm), ppb, b) == {};
      assert InBlock(FileMapped(none, pm), ppb, b) == {};
    }
  }

  // ---- one snapshot of one file ----

  predicate Aligned(r: Vma) {
    r.start <= r.end && r.start % PAGE_SIZE == 0 && r.end % PAGE_SIZE == 0 && r.offset % PAGE_SIZE == 0
  }

  /** The least and greatest mapped file byte, as grouping by file collects them. */
  method FileRange(rs: seq<Vma>) returns (lo: nat, hi: nat)
    requires rs != []
    ensures forall i | 0 <= i < |rs| :: lo <= rs[i].offset && FileEnd(rs[i]) <= hi
    ensures (exists i | 0 <= i < |rs| :: rs[i].offset == lo) && (exists i | 0 <= i < |rs| :: FileEnd(rs[i]) == hi)
  {
    lo, hi := rs[0].offset, FileEnd(rs[0]);
    var i := 1;
    while i < |rs|
      invariant 1 <= i <= |rs|
      invariant forall k | 0 <= k < i :: lo <= rs[k].offset && FileEnd(rs[k]) <= hi
      invariant exists k | 0 <= k < |rs| :: rs[k].offset == lo
      invariant exists k | 0 <= k < |rs| :: FileEnd(rs[k]) == hi
    {
      if rs[i].offset < lo {
        lo := rs[i].offset;
      }
      if FileEnd(rs[i]) > hi {
        hi := FileEnd(rs[i]);
      }
      i := i + 1;
    }
  }

  /** The file pages mapped by at least one of the VMAs. */
  ghost function DistinctPages(rs: seq<Vma>, fileMin: nat, filePages: nat): set<nat> {
    set x: nat | x < filePages && Mapped(rs, fileMin, x)
  }

  ghost predicate Mapped(rs: seq<Vma>, fileMin: nat, x: int) {
    exists i | 0 <= i < |rs| :: MapsPage(rs[i], fileMin, x)
  }

  /** The snapshot accounts for every scanned page once: block totals sum to the number of
      distinct file pages of the scanned VMAs, block dirty counts to the dirty total. */
  lemma SnapshotCounts(v: View, vmas: seq<Vma>, fileMin: nat, filePages: nat, ppb: nat, pm: PageMap)
    requires ppb > 0 && Means(v, filePages, ppb, pm) && Visited(vmas, fileMin, filePages, v.first)
    ensures SumTotal(v.bl) == |DistinctPages(vmas, fileMin, filePages)|
    ensures SumDirty(v.bl) == v.totalDirty
  {
    SumsCount(v.bl, ppb, v.first, pm);
    AllBelow(v.first.Keys, filePages, ppb);
    AllBelow(Dirty(v.first, pm), filePages, ppb);
    var distinct := DistinctPages(vmas, fileMin, filePages);
    forall x | x in v.first ensures x in distinct {
      VisitedIffMapped(vmas, fileMin, x);
    }
    forall x | x in distinct ensures x in v.first {
      VisitedIffMapped(vmas, fileMin, x);
    }
    assert v.first.Keys == distinct;
  }

  lemma AllBelow(pages: set<nat>, filePages: nat, ppb: nat)
    requires ppb > 0 && forall x | x in pages :: x < filePages
    ensures Below(pages, ppb, BlockCount(filePages, ppb)) == pages
  {
    forall x | x in pages ensures x in Below(pages, ppb, BlockCount(filePages, ppb)) {
      BlockInRange(x, filePages, ppb);
    }
  }

  lemma AlignedFits(r: Vma, lo: nat, hi: nat)
    requires Aligned(r) && lo % PAGE_SIZE == 0 && hi % PAGE_SIZE == 0 && lo <= r.offset && FileEnd(r) <= hi
    ensures lo <= hi && Fits(r, lo, (hi - lo) / PAGE_SIZE)
  {
    assert (hi - lo) % PAGE_SIZE == 0;
  }

  lemma EndAligned(r: Vma)
    requires Aligned(r)
    ensures FileEnd(r) % PAGE_SIZE == 0
  {
  }

  /** The range spans whole pages, and every VMA lies in it. */
  lemma RangeFits(rs: seq<Vma>, lo: nat, hi: nat, r: Vma)
    requires (forall r | r in rs :: Aligned(r)) && r in rs && lo <= hi
    requires forall i | 0 <= i < |rs| :: lo <= rs[i].offset && FileEnd(rs[i]) <= hi
    requires (exists i | 0 <= i < |rs| :: rs[i].offset == lo) && (exists i | 0 <= i < |rs| :: FileEnd(rs[i]) == hi)
    ensures Fits(r, lo, (hi - lo) / PAGE_SIZE)
  {
    var i :| 0 <= i < |rs| && rs[i].offset == lo;
    var k :| 0 <= k < |rs| && FileEnd(rs[k]) == hi;
    assert rs[i] in rs && rs[k] in rs;
    EndAligned(rs[k]);
    var j :| 0 <= j < |rs| && rs[j] == r;
    AlignedFits(r, lo, hi);
  }

  lemma DistinctPermuted(rs: seq<Vma>, order: seq<nat>, sorted: seq<Vma>, fileMin: nat, filePages: nat)
    requires Permutation(order, |rs|) && |sorted| == |rs| && forall a | 0 <= a < |rs| :: sorted[a] == rs[order[a]]
    ensures DistinctPages(sorted, fileMin, filePages) == DistinctPages(rs, fileMin, filePages)
  {
    forall x: nat | x in DistinctPages(rs, fileMin, filePages) ensures x in DistinctPages(sorted, fileMin, filePages) {
      var i :| 0 <= i < |rs| && MapsPage(rs[i], fileMin, x);
      var a := PermutationCovers(order, |rs|, i);
      assert MapsPage(sorted[a], fileMin, x);
    }
    forall x: nat | x in DistinctPages(sorted, fileMin, filePages) ensures x in DistinctPages(rs, fileMin, filePages) {
      var a :| 0 <= a < |rs| && MapsPage(sorted[a], fileMin, x);
      assert MapsPage(rs[order[a]], fileMin, x);
    }
  }

  lemma {:induction false} SourcesAreInput(rs: seq<Vma>, spans: seq<Span>, groups: seq<seq<Vma>>, r: Vma)
    requires |spans| == |groups| && Flatten(groups) == rs && r in Sources(spans)
    requires forall i | 0 <= i < |spans| :: spans[i].vmas == Kept(groups[i])
    ensures r in rs
    decreases |spans|
  {
    var n := |spans| - 1;
    if r in Sources(spans[..n]) {
      SourcesAreInput(Flatten(groups[..n]), spans[..n], groups[..n], r);
    }
  }

  lemma SourcesAreMapped(rs: seq<Vma>, spans: seq<Span>, groups: seq<seq<Vma>>, fileMin: nat, filePages: nat)
    requires Coalesced(rs, spans, groups)
    ensures DistinctPages(Sources(spans), fileMin, filePages) <= DistinctPages(rs, fileMin, filePages)
  {
    assert forall i | 0 <= i < |spans| :: Stands(spans[i], groups[i]);
    forall x: nat | x in DistinctPages(Sources(spans), fileMin, filePages)
      ensures x in DistinctPages(rs, fileMin, filePages)
    {
      var i :| 0 <= i < |Sources(spans)| && MapsPage(Sources(spans)[i], fileMin, x);
      SourcesAreInput(rs, spans, groups, Sources(spans)[i]);
      var j :| 0 <= j < |rs| && rs[j] == Sources(spans)[i];
      assert MapsPage(rs[j], fileMin, x);
    }
  }

  /** The VMAs of a run beyond the 64 that are kept as scanning sources. */
  function Unscanned(group: seq<Vma>): seq<Vma> {
    if |group| <= MAX_VMAS_PER_COAL then [] else group[MAX_VMAS_PER_COAL..]
  }

  /** Every page mapped by a VMA beyond the first 64 is mapped by one of the first 64 too. */
  ghost predicate TailRepeats(group: seq<Vma>, fileMin: nat) {
    forall x: nat | Mapped(Unscanned(group), fileMin, x) :: Mapped(Kept(group), fileMin, x)
  }

  /** A mapped page lies inside the span of its VMA. */
  lemma PageInSpan(s: Span, group: seq<Vma>, m: nat, fileMin: nat, filePages: nat, x: nat)
    requires Stands(s, group) && m < |group| && Fits(group[m], fileMin, filePages) && MapsPage(group[m], fileMin, x)
    ensures s.lo <= fileMin + x * PAGE_SIZE < s.hi && x < filePages
  {
    PageBytes(group[m], fileMin, filePages, x);
  }

  lemma PageBytes(r: Vma, fileMin: nat, filePages: nat, x: nat)
    requires Fits(r, fileMin, filePages) && MapsPage(r, fileMin, x)
    ensures r.offset <= fileMin + x * PAGE_SIZE < FileEnd(r) && x < filePages
  {
  }

  /** No page is mapped from two spans. */
  lemma OneSpanPerPage(spans: seq<Span>, groups: seq<seq<Vma>>, i: nat, m: nat, k: nat, n: nat,
                       fileMin: nat, filePages: nat, x: nat)
    requires |spans| == |groups| && (forall c | 0 <= c < |spans| :: Stands(spans[c], groups[c]))
    requires forall c, d | 0 <= c < d < |spans| :: spans[c].hi < spans[d].lo
    requires i < |groups| && m < |groups[i]| && k < |groups| && n < |groups[k]|
    requires Fits(groups[i][m], fileMin, filePages) && MapsPage(groups[i][m], fileMin, x)
    requires Fits(groups[k][n], fileMin, filePages) && MapsPage(groups[k][n], fileMin, x)
    ensures i == k
  {
    PageInSpan(spans[i], groups[i], m, fileMin, filePages, x);
    PageInSpan(spans[k], groups[k], n, fileMin, filePages, x);
  }

  lemma {:induction false} SourceFrom(spans: seq<Span>, j: nat) returns (c: nat, v: nat)
    requires j < |Sources(spans)|
    ensures c < |spans| && v < |spans[c].vmas| && spans[c].vmas[v] == Sources(spans)[j]
  {
    var n := |spans| - 1;
    if j < |Sources(spans[..n])| {
      c, v := SourceFrom(spans[..n], j);
    } else {
      c, v := n, j - |Sources(spans[..n])|;
    }
  }

  lemma MappedBy(rs: seq<Vma>, r: Vma, fileMin: nat, x: nat)
    requires r in rs && MapsPage(r, fileMin, x)
    ensures Mapped(rs, fileMin, x)
  {
    var i :| 0 <= i < |rs| && rs[i] == r;
    assert MapsPage(rs[i], fileMin, x);
  }

  lemma KeptOrUnscanned(group: seq<Vma>, m: nat, fileMin: nat, x: nat)
    requires m < |group| && MapsPage(group[m], fileMin, x)
    ensures Mapped(Kept(group), fileMin, x) || Mapped(Unscanned(group), fileMin, x)
  {
    if m >= MAX_VMAS_PER_COAL {
      assert group[m] == Unscanned(group)[m - MAX_VMAS_PER_COAL];
      MappedBy(Unscanned(group), group[m], fileMin, x);
    } else {
      assert group[m] == Kept(group)[m];
      MappedBy(Kept(group), group[m], fileMin, x);
    }
  }

  lemma KeptIsScanned(spans: seq<Span>, i: nat, fileMin: nat, x: nat)
    requires i < |spans| && Mapped(spans[i].vmas, fileMin, x)
    ensures Mapped(Sources(spans), fileMin, x)
  {
    var v :| 0 <= v < |spans[i].vmas| && MapsPage(spans[i].vmas[v], fileMin, x);
    SourceFits(spans, i, v);
    MappedBy(Sources(spans), spans[i].vmas[v], fileMin, x);
  }

  lemma ScannedWhenTailRepeats(rs: seq<Vma>, spans: seq<Span>, groups: seq<seq<Vma>>, fileMin: nat, x: nat)
    requires Coalesced(rs, spans, groups) && Mapped(rs, fileMin, x)
    requires forall i | 0 <= i < |groups| :: TailRepeats(groups[i], fileMin)
    ensures Mapped(Sources(spans), fileMin, x)
  {
    var j :| 0 <= j < |rs| && MapsPage(rs[j], fileMin, x);
    var i, m := FlattenFrom(groups, j);
    KeptOrUnscanned(groups[i], m, fileMin, x);
    assert TailRepeats(groups[i], fileMin) && Stands(spans[i], groups[i]);
    KeptIsScanned(spans, i, fileMin, x);
  }

  /** A page of a run that is scanned at all is scanned through that run. */
  /** The VMA that is scanned for page x is the kept VMA v of run c. */
  lemma ScannedIn(spans: seq<Span>, groups: seq<seq<Vma>>, fileMin: nat, x: nat) returns (c: nat, v: nat)
    requires |spans| == |groups| && (forall i | 0 <= i < |spans| :: Stands(spans[i], groups[i]))
    requires Mapped(Sources(spans), fileMin, x)
    ensures c < |groups| && v < |Kept(groups[c])| && v < |groups[c]| && groups[c][v] == Kept(groups[c])[v]
    ensures MapsPage(groups[c][v], fileMin, x)
  {
    var k :| 0 <= k < |Sources(spans)| && MapsPage(Sources(spans)[k], fileMin, x);
    c, v := SourceFrom(spans, k);
    assert Stands(spans[c], groups[c]);
  }

  lemma ScannedInOwnRun(rs: seq<Vma>, spans: seq<Span>, groups: seq<seq<Vma>>, fileMin: nat, filePages: nat,
                        i: nat, m: nat, x: nat)
    requires Coalesced(rs, spans, groups) && (forall r | r in rs :: Fits(r, fileMin, filePages))
    requires i < |groups| && m < |groups[i]| && MapsPage(groups[i][m], fileMin, x) && Mapped(Sources(spans), fileMin, x)
    ensures Mapped(Kept(groups[i]), fileMin, x)
  {
    var c, v := ScannedIn(spans, groups, fileMin, x);
    FlattenHas(groups, c, v);
    FlattenHas(groups, i, m);
    OneSpanPerPage(spans, groups, i, m, c, v, fileMin, filePages, x);
    MappedBy(Kept(groups[i]), groups[c][v], fileMin, x);
  }

  lemma TailPage(rs: seq<Vma>, spans: seq<Span>, groups: seq<seq<Vma>>, fileMin: nat, filePages: nat, i: nat, m: nat,
      x: nat)
    requires Coalesced(rs, spans, groups) && (forall r | r in rs :: Fits(r, fileMin, filePages))
    requires DistinctPages(rs, fileMin, filePages) <= DistinctPages(Sources(spans), fileMin, filePages)
    requires i < |groups| && m < |groups[i]| && MapsPage(groups[i][m], fileMin, x)
    ensures Mapped(Kept(groups[i]), fileMin, x)
  {
    FlattenHas(groups, i, m);
    PageBytes(groups[i][m], fileMin, filePages, x);
    MappedBy(rs, groups[i][m], fileMin, x);
    assert x in DistinctPages(rs, fileMin, filePages);
    ScannedInOwnRun(rs, spans, groups, fileMin, filePages, i, m, x);
  }

  lemma TailRepeatsWhenScanned(rs: seq<Vma>, spans: seq<Span>, groups: seq<seq<Vma>>, fileMin: nat, filePages: nat,
      i: nat)
    requires Coalesced(rs, spans, groups) && i < |groups| && forall r | r in rs :: Fits(r, fileMin, filePages)
    requires DistinctPages(rs, fileMin, filePages) <= DistinctPages(Sources(spans), fileMin, filePages)
    ensures TailRepeats(groups[i], fileMin)
  {
    forall x: nat | Mapped(Unscanned(groups[i]), fileMin, x) ensures Mapped(Kept(groups[i]), fileMin, x) {
      var t :| 0 <= t < |Unscanned(groups[i])| && MapsPage(Unscanned(groups[i])[t], fileMin, x);
      TailPage(rs, spans, groups, fileMin, filePages, i, t + MAX_VMAS_PER_COAL, x);
    }
  }

  /** EVERY PAGE COUNTED: the scan reaches all distinct pages exactly when, in every merged run,
      the VMAs beyond the first 64 map no page that the first 64 do not map. */
  lemma AllCountedIff(rs: seq<Vma>, spans: seq<Span>, groups: seq<seq<Vma>>, fileMin: nat, filePages: nat)
    requires Coalesced(rs, spans, groups) && forall r | r in rs :: Fits(r, fileMin, filePages)
    ensures |DistinctPages(Sources(spans), fileMin, filePages)| == |DistinctPages(rs, fileMin, filePages)|
       <==> forall i | 0 <= i < |groups| :: TailRepeats(groups[i], fileMin)
  {
    var scanned, mapped := DistinctPages(Sources(spans), fileMin, filePages), DistinctPages(rs, fileMin, filePages);
    SourcesAreMapped(rs, spans, groups, fileMin, filePages);
    SubsetSize(scanned, mapped);
    if forall i | 0 <= i < |groups| :: TailRepeats(groups[i], fileMin) {
      forall x | x in mapped ensures x in scanned {
        ScannedWhenTailRepeats(rs, spans, groups, fileMin, x);
      }
    }
    if scanned == mapped {
      forall i | 0 <= i < |groups| ensures TailRepeats(groups[i], fileMin) {
        TailRepeatsWhenScanned(rs, spans, groups, fileMin, filePages, i);
      }
    }
  }

  /** The limit is real: of 65 one-page VMAs in a row, the last is merged but not scanned. */
  lemma SixtyFifthIsNotScanned(rs: seq<Vma>)
    requires |rs| == 65 && forall i | 0 <= i < 65 :: rs[i] == Vma(i * PAGE_SIZE, (i + 1) * PAGE_SIZE, i * PAGE_SIZE)
    ensures Coalesced(rs, [Span(0, 65 * PAGE_SIZE, rs[..64])], [rs])
    ensures Mapped(rs, 0, 64) && !Mapped(rs[..64], 0, 64) && !TailRepeats(rs, 0)
  {
    assert Flatten([rs]) == Flatten([]) + rs == rs;
    assert FileEnd(rs[64]) == 65 * PAGE_SIZE;
    forall x | 0 <= x < 65 * PAGE_SIZE ensures Covered(rs, x) {
      assert MapsByte(rs[x / PAGE_SIZE], x);
    }
    assert MapsPage(rs[64], 0, 64) && Unscanned(rs)[0] == rs[64];
    MappedBy(Unscanned(rs), rs[64], 0, 64);
  }

  /** The scanned range reaches from the first mapped file byte to the last. */
  ghost predicate RangeOf(rs: seq<Vma>, fileMin: nat, filePages: nat) {
    && (forall r | r in rs :: fileMin <= r.offset && FileEnd(r) <= fileMin + filePages * PAGE_SIZE)
    && (exists r | r in rs :: r.offset == fileMin)
    && (exists r | r in rs :: FileEnd(r) == fileMin + filePages * PAGE_SIZE)
  }

  /** One snapshot: range, merge, scan.  The range is that of the VMAs, every block counts its own
      pages, and together they count the distinct file pages that the process maps, exactly when
      no run has a page that only a VMA beyond its first 64 maps. */
  method Snapshot(rs: seq<Vma>, ppb: nat, pm: PageMap)
    returns (bl: seq<Block>, totalDirty: nat, fileMin: nat, filePages: nat, order: seq<nat>,
             ghost spans: seq<Span>, ghost groups: seq<seq<Vma>>, ghost first: map<nat, nat>)
    requires rs != [] && ppb > 0 && forall r | r in rs :: Aligned(r)
    ensures RangeOf(rs, fileMin, filePages)
    ensures BlocksRight(bl, totalDirty, spans, fileMin, filePages, ppb, pm, first)
    ensures Permutation(order, |rs|) && Sorting.Ordered(OffsetKeys(rs), order)
    ensures |Flatten(groups)| == |rs| && Coalesced(Flatten(groups), spans, groups)
    ensures forall a | 0 <= a < |rs| :: Flatten(groups)[a] == rs[order[a]]
    ensures SumTotal(bl) == |DistinctPages(rs, fileMin, filePages)|
       <==> forall i | 0 <= i < |groups| :: TailRepeats(groups[i], fileMin)
    ensures (forall i | 0 <= i < |groups| :: |groups[i]| <= MAX_VMAS_PER_COAL) ==>
              SumTotal(bl) == |DistinctPages(rs, fileMin, filePages)|
  {
    var fileMax, sorted, merged;
    fileMin, fileMax := FileRange(rs);
    filePages := (fileMax - fileMin) / PAGE_SIZE;
    order, sorted, merged, groups := CoalesceAll(rs);
    RangeIs(rs, fileMin, fileMax);
    SourcesFitRange(rs, order, sorted, merged, groups, fileMin, fileMax);
    bl, totalDirty, first := ScanFile(merged, fileMin, filePages, ppb, pm);
    spans := merged;
    AllCountedIff(sorted, spans, groups, fileMin, filePages);
    DistinctPermuted(rs, order, sorted, fileMin, filePages);
  }

  lemma RangeIs(rs: seq<Vma>, lo: nat, hi: nat)
    requires (forall r | r in rs :: Aligned(r)) && lo <= hi
    requires forall i | 0 <= i < |rs| :: lo <= rs[i].offset && FileEnd(rs[i]) <= hi
    requires (exists i | 0 <= i < |rs| :: rs[i].offset == lo) && (exists i | 0 <= i < |rs| :: FileEnd(rs[i]) == hi)
    ensures RangeOf(rs, lo, (hi - lo) / PAGE_SIZE)
  {
    var i :| 0 <= i < |rs| && rs[i].offset == lo;
    var k :| 0 <= k < |rs| && FileEnd(rs[k]) == hi;
    assert rs[i] in rs && rs[k] in rs;
    EndAligned(rs[k]);
    assert (hi - lo) % PAGE_SIZE == 0;
  }

  lemma SourcesFitRange(rs: seq<Vma>, order: seq<nat>, sorted: seq<Vma>, spans: seq<Span>, groups: seq<seq<Vma>>,
      lo: nat, hi: nat)
    requires (forall r | r in rs :: Aligned(r)) && Coalesced(sorted, spans, groups) && lo <= hi
    requires Permutation(order, |rs|) && |sorted| == |rs| && forall a | 0 <= a < |rs| :: sorted[a] == rs[order[a]]
    requires forall i | 0 <= i < |rs| :: lo <= rs[i].offset && FileEnd(rs[i]) <= hi
    requires (exists i | 0 <= i < |rs| :: rs[i].offset == lo) && (exists i | 0 <= i < |rs| :: FileEnd(rs[i]) == hi)
    ensures forall r | r in sorted :: Fits(r, lo, (hi - lo) / PAGE_SIZE)
    ensures forall r | r in Sources(spans) :: r in sorted
  {
    assert forall i | 0 <= i < |spans| :: Stands(spans[i], groups[i]);
    forall r | r in sorted ensures Fits(r, lo, (hi - lo) / PAGE_SIZE) {
      var a :| 0 <= a < |sorted| && sorted[a] == r;
      assert rs[order[a]] == r;
      RangeFits(rs, lo, hi, r);
    }
    forall r | r in Sources(spans) ensures r in sorted {
      SourcesAreInput(sorted, spans, groups, r);
    }
  }

  /** As few blocks as hold the file. Block by block and in total: `first` maps every distinct page of
      the scanned VMAs to the virtual page of its first visit, each block counts the pages and the
      flags it holds. */
  ghost predicate BlocksRight(bl: seq<Block>, totalDirty: nat, spans: seq<Span>, fileMin: nat, filePages: nat,
      ppb: nat, pm: PageMap, first: map<nat, nat>)
    requires ppb > 0
  {
    && filePages <= |bl| * ppb < filePages + ppb && Visited(Sources(spans), fileMin, filePages, first)
    && (forall b | 0 <= b < |bl| :: BlockMeans(bl[b], ppb, b, first, pm))
    && SumTotal(bl) == |DistinctPages(Sources(spans), fileMin, filePages)|
    && SumDirty(bl) == totalDirty == |Dirty(first, pm)|
  }

  /** One scan of the spans, from empty blocks and an empty bitmap. */
  method ScanFile(spans: seq<Span>, fileMin: nat, filePages: nat, ppb: nat, pm: PageMap)
    returns (bl: seq<Block>, totalDirty: nat, ghost first: map<nat, nat>)
    requires ppb > 0 && forall r | r in Sources(spans) :: Fits(r, fileMin, filePages)
    ensures BlocksRight(bl, totalDirty, spans, fileMin, filePages, ppb, pm, first)
    ensures SumTotal(bl) == |DistinctPages(Sources(spans), fileMin, filePages)| && SumDirty(bl) == totalDirty
  {
    var scan := new Scan(fileMin, filePages, ppb);
    scan.ScanSpans(spans, pm);
    bl, totalDirty, first := scan.bl[..], scan.totalDirty, scan.first;
    SnapshotCounts(scan.V(), Sources(spans), fileMin, filePages, ppb, pm);
    FewestBlocks(filePages, ppb);
  }
}
