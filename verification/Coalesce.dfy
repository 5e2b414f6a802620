/** Merging the VMAs of one file into spans of file offsets (pagemon_viz_v2.c). */
module Coalesce {
  import opened SetSizes
  import opened Sorting

  const MAX_VMAS_PER_COAL: nat := 64

  /** One mapping of the file: virtual addresses [start, end), file bytes from offset on. */
  datatype Vma = Vma(start: nat, end: nat, offset: nat)

  function Size(r: Vma): nat {
    if r.end >= r.start then r.end - r.start else 0
  }

  function FileEnd(r: Vma): nat {
    r.offset + Size(r)
  }

  /** File byte x is mapped: its address lies inside. */
  predicate MapsByte(r: Vma, x: int) {
    r.offset <= x && r.start + (x - r.offset) < r.end
  }

  /** A coalesced region; at most 64 of its VMAs are kept as scanning sources. */
  datatype Span = Span(lo: nat, hi: nat, vmas: seq<Vma>)

  ghost predicate Covered(rs: seq<Vma>, x: int) {
    exists i | 0 <= i < |rs| :: MapsByte(rs[i], x)
  }

  ghost predicate InSpans(spans: seq<Span>, x: int) {
    exists i | 0 <= i < |spans| :: spans[i].lo <= x < spans[i].hi
  }

  ghost predicate ByOffset(rs: seq<Vma>) {
    forall i, j | 0 <= i <= j < |rs| :: rs[i].offset <= rs[j].offset
  }

  /** The VMAs of all spans, in order. */
  function Flatten(groups: seq<seq<Vma>>): seq<Vma> {
    if groups == [] then [] else Flatten(groups[..|groups| - 1]) + groups[|groups| - 1]
  }

  function Sources(spans: seq<Span>): seq<Vma> {
    if spans == [] then [] else Sources(spans[..|spans| - 1]) + spans[|spans| - 1].vmas
  }

  function Kept(group: seq<Vma>): seq<Vma> {
    if |group| <= MAX_VMAS_PER_COAL then group else group[..MAX_VMAS_PER_COAL]
  }

  /** Span s stands for the VMAs of `group`: it reaches from their least to their greatest file
      byte, every byte of it is mapped by one of them, and it keeps the first 64. */
  ghost predicate Stands(s: Span, group: seq<Vma>) {
    && group != [] && s.lo == group[0].offset && s.vmas == Kept(group)
    && (forall i | 0 <= i < |group| :: s.lo <= group[i].offset && FileEnd(group[i]) <= s.hi)
    && (exists i | 0 <= i < |group| :: FileEnd(group[i]) == s.hi)
    && (forall x | s.lo <= x < s.hi :: Covered(group, x))
  }

  /** The spans partition the VMAs into maximal runs without a gap. */
  ghost predicate Coalesced(rs: seq<Vma>, spans: seq<Span>, groups: seq<seq<Vma>>) {
    && |groups| == |spans| && Flatten(groups) == rs
    && (forall i | 0 <= i < |spans| :: Stands(spans[i], groups[i]))
    && Apart(spans)
  }

  /** There is a gap between any two spans. */
  ghost predicate Apart(spans: seq<Span>) {
    forall i, j | 0 <= i < j < |spans| :: spans[i].hi < spans[j].lo
  }

  lemma FlattenSnoc(groups: seq<seq<Vma>>, g: seq<Vma>)
    ensures Flatten(groups + [g]) == Flatten(groups) + g
  {
    assert (groups + [g])[..|groups|] == groups;
  }

  /** The next VMA touches the last span. */
  lemma Extend(s: Span, group: seq<Vma>, r: Vma)
    requires Stands(s, group) && s.lo <= r.offset <= s.hi
    ensures Stands(Span(s.lo, if FileEnd(r) > s.hi then FileEnd(r) else s.hi, Kept(group + [r])), group + [r])
  {
    var g := group + [r];
    var hi := if FileEnd(r) > s.hi then FileEnd(r) else s.hi;
    assert g[|group|] == r;
    forall x | s.lo <= x < hi ensures Covered(g, x) {
      if x < s.hi {
        assert Covered(group, x);
        var i :| 0 <= i < |group| && MapsByte(group[i], x);
        assert MapsByte(g[i], x);
      } else {
        assert MapsByte(g[|group|], x);
      }
    }
    if hi == s.hi {
      var i :| 0 <= i < |group| && FileEnd(group[i]) == s.hi;
      assert FileEnd(g[i]) == hi;
    }
  }

  lemma Single(r: Vma)
    ensures Stands(Span(r.offset, FileEnd(r), [r]), [r])
  {
    forall x | r.offset <= x < FileEnd(r) ensures Covered([r], x) {
      assert MapsByte([r][0], x);
    }
  }

  function Grown(s: Span, r: Vma): Span {
    Span(s.lo, if FileEnd(r) > s.hi then FileEnd(r) else s.hi,
         if |s.vmas| < MAX_VMAS_PER_COAL then s.vmas + [r] else s.vmas)
  }

  /** Overlapping or adjacent: the last span grows. */
  lemma GrowLast(rs: seq<Vma>, spans: seq<Span>, groups: seq<seq<Vma>>, r: Vma)
    requires Coalesced(rs, spans, groups) && spans != []
    requires spans[|spans| - 1].lo <= r.offset <= spans[|spans| - 1].hi
    ensures var n := |spans| - 1;
            Coalesced(rs + [r], spans[..n] + [Grown(spans[n], r)], groups[..n] + [groups[n] + [r]])
  {
    var n := |spans| - 1;
    assert Stands(spans[n], groups[n]);
    Extend(spans[n], groups[n], r);
    ExtendLast(rs, spans, groups, r);
    ReplaceLast(rs, spans, groups, Grown(spans[n], r), groups[n] + [r]);
  }

  lemma ReplaceKeepsApart(spans: seq<Span>, s: Span)
    requires Apart(spans) && spans != [] && s.lo == spans[|spans| - 1].lo
    ensures Apart(spans[..|spans| - 1] + [s])
  {
  }

  lemma ReplaceLast(rs: seq<Vma>, spans: seq<Span>, groups: seq<seq<Vma>>, s: Span, g: seq<Vma>)
    requires Coalesced(rs, spans, groups) && spans != [] && Stands(s, g) && s.lo == spans[|spans| - 1].lo
    ensures var n := |spans| - 1;
            var spans', groups' := spans[..n] + [s], groups[..n] + [g];
            (forall i | 0 <= i <= n :: Stands(spans'[i], groups'[i])) && Apart(spans')
  {
    var n := |spans| - 1;
    var spans', groups' := spans[..n] + [s], groups[..n] + [g];
    ReplaceKeepsApart(spans, s);
    forall i | 0 <= i <= n ensures Stands(spans'[i], groups'[i]) {
      assert i < n ==> spans'[i] == spans[i] && groups'[i] == groups[i] && Stands(spans[i], groups[i]);
    }
  }

  /** A gap: a new span opens. */
  lemma OpenSpan(rs: seq<Vma>, spans: seq<Span>, groups: seq<seq<Vma>>, r: Vma)
    requires Coalesced(rs, spans, groups)
    requires spans != [] ==> spans[|spans| - 1].hi < r.offset
    ensures Coalesced(rs + [r], spans + [Span(r.offset, FileEnd(r), [r])], groups + [[r]])
  {
    Single(r);
    FlattenSnoc(groups, [r]);
    var s', g' := spans + [Span(r.offset, FileEnd(r), [r])], groups + [[r]];
    forall i | 0 <= i < |s'| ensures Stands(s'[i], g'[i]) {
      assert i < |spans| ==> Stands(spans[i], groups[i]);
    }
    forall i, j | 0 <= i < j < |s'| ensures s'[i].hi < s'[j].lo {
      if i < |spans| - 1 && j == |spans| {
        assert spans[i].hi < spans[|spans| - 1].lo;
        assert Stands(spans[|spans| - 1], groups[|spans| - 1]);
      }
    }
  }

  /** The merge loop over VMAs in file-offset order. */
  method CoalesceSorted(rs: seq<Vma>) returns (spans: seq<Span>, ghost groups: seq<seq<Vma>>)
    requires ByOffset(rs)
    ensures Coalesced(rs, spans, groups)
    ensures forall x :: InSpans(spans, x) <==> Covered(rs, x)
  {
    spans, groups := [], [];
    var i := 0;
    while i < |rs|
      invariant i <= |rs| && Coalesced(rs[..i], spans, groups)
      invariant spans != [] && i < |rs| ==> spans[|spans| - 1].lo <= rs[i].offset
    {
      var r := rs[i];
      assert rs[..i + 1] == rs[..i] + [r];
      if spans != [] && r.offset <= spans[|spans| - 1].hi {
        var n := |spans| - 1;
        GrowLast(rs[..i], spans, groups, r);
        spans := spans[..n] + [Grown(spans[n], r)];
        groups := groups[..n] + [groups[n] + [r]];
      } else {
        OpenSpan(rs[..i], spans, groups, r);
        spans := spans + [Span(r.offset, FileEnd(r), [r])];
        groups := groups + [[r]];
      }
      i := i + 1;
    }
    assert rs[..i] == rs;
    forall x ensures InSpans(spans, x) <==> Covered(rs, x) {
      UnionPreserved(rs, spans, groups, x);
    }
  }

  lemma ExtendLast(rs: seq<Vma>, spans: seq<Span>, groups: seq<seq<Vma>>, r: Vma)
    requires Coalesced(rs, spans, groups) && spans != []
    ensures Flatten(groups[..|groups| - 1] + [groups[|groups| - 1] + [r]]) == rs + [r]
  {
    var n := |groups| - 1;
    assert groups == groups[..n] + [groups[n]];
    FlattenSnoc(groups[..n], groups[n]);
    FlattenSnoc(groups[..n], groups[n] + [r]);
    assert Flatten(groups[..n]) + (groups[n] + [r]) == Flatten(groups[..n]) + groups[n] + [r];
  }

  // ---- what the spans mean ----

  lemma {:induction false} FlattenHas(groups: seq<seq<Vma>>, i: nat, j: nat)
    requires i < |groups| && j < |groups[i]|
    ensures groups[i][j] in Flatten(groups)
  {
    var n := |groups| - 1;
    if i < n {
      FlattenHas(groups[..n], i, j);
    } else {
      assert Flatten(groups)[|Flatten(groups[..n])| + j] == groups[i][j];
    }
  }

  lemma {:induction false} FlattenFrom(groups: seq<seq<Vma>>, k: nat) returns (i: nat, j: nat)
    requires k < |Flatten(groups)|
    ensures i < |groups| && j < |groups[i]| && groups[i][j] == Flatten(groups)[k]
  {
    var n := |groups| - 1;
    if k < |Flatten(groups[..n])| {
      i, j := FlattenFrom(groups[..n], k);
    } else {
      i, j := n, k - |Flatten(groups[..n])|;
    }
  }

  /** SAME UNION: a file byte lies in a span exactly when some VMA maps it. */
  lemma UnionPreserved(rs: seq<Vma>, spans: seq<Span>, groups: seq<seq<Vma>>, x: int)
    requires Coalesced(rs, spans, groups)
    ensures InSpans(spans, x) <==> Covered(rs, x)
  {
    if InSpans(spans, x) {
      var i :| 0 <= i < |spans| && spans[i].lo <= x < spans[i].hi;
      assert Stands(spans[i], groups[i]);
      assert Covered(groups[i], x);
      var j :| 0 <= j < |groups[i]| && MapsByte(groups[i][j], x);
      FlattenHas(groups, i, j);
    }
    if Covered(rs, x) {
      var k :| 0 <= k < |rs| && MapsByte(rs[k], x);
      var i, j := FlattenFrom(groups, k);
      assert Stands(spans[i], groups[i]);
    }
  }

  /** REAL GAPS: between two spans lies a byte that no VMA maps. */
  lemma GapBetween(rs: seq<Vma>, spans: seq<Span>, groups: seq<seq<Vma>>, i: nat)
    requires Coalesced(rs, spans, groups) && i + 1 < |spans|
    ensures spans[i].hi < spans[i + 1].lo && !Covered(rs, spans[i].hi)
  {
    UnionPreserved(rs, spans, groups, spans[i].hi);
    assert Stands(spans[i], groups[i]);
  }

  lemma {:induction false} SourcesShorter(spans: seq<Span>, groups: seq<seq<Vma>>)
    requires |spans| == |groups| && forall i | 0 <= i < |spans| :: spans[i].vmas == Kept(groups[i])
    ensures |Sources(spans)| <= |Flatten(groups)|
    ensures |Sources(spans)| == |Flatten(groups)| <==> forall i | 0 <= i < |groups| :: |groups[i]| <= MAX_VMAS_PER_COAL
    ensures (forall i | 0 <= i < |groups| :: |groups[i]| <= MAX_VMAS_PER_COAL) ==> Sources(spans) == Flatten(groups)
  {
    if spans != [] {
      SourcesShorter(spans[..|spans| - 1], groups[..|spans| - 1]);
    }
  }

  /** EACH VMA ONCE: the spans keep exactly the input VMAs, in order, if and only if no span
      merges more than 64 of them. */
  lemma SourcesCompleteIff(rs: seq<Vma>, spans: seq<Span>, groups: seq<seq<Vma>>)
    requires Coalesced(rs, spans, groups)
    ensures Sources(spans) == rs <==> forall i | 0 <= i < |groups| :: |groups[i]| <= MAX_VMAS_PER_COAL
  {
    assert forall i | 0 <= i < |spans| :: Stands(spans[i], groups[i]);
    SourcesShorter(spans, groups);
  }

  // ---- sorting first ----

  function OffsetKeys(rs: seq<Vma>): (k: seq<(int, int)>)
    ensures |k| == |rs| && forall i | 0 <= i < |rs| :: k[i] == (rs[i].offset, 0 - Size(rs[i]))
  {
    seq(|rs|, i requires 0 <= i < |rs| => (rs[i].offset, 0 - Size(rs[i])))
  }

  /** Sort by file offset, longest first, then merge.  The order is fixed by the input, and with
      it which 64 VMAs a run keeps. */
  method CoalesceAll(rs: seq<Vma>)
      returns (order: seq<nat>, sorted: seq<Vma>, spans: seq<Span>, ghost groups: seq<seq<Vma>>)
    ensures Permutation(order, |rs|) && Ordered(OffsetKeys(rs), order) && |sorted| == |rs|
    ensures forall a | 0 <= a < |rs| :: sorted[a] == rs[order[a]]
    ensures Coalesced(sorted, spans, groups)
    ensures forall x :: InSpans(spans, x) <==> Covered(rs, x)
  {
    order := SortIndices(OffsetKeys(rs));
    sorted := seq(|rs|, a requires 0 <= a < |rs| => rs[order[a]]);
    forall a, b | 0 <= a <= b < |rs| ensures sorted[a].offset <= sorted[b].offset {
      if a < b {
        assert InOrder(OffsetKeys(rs), order[a], order[b]);
      }
    }
    spans, groups := CoalesceSorted(sorted);
    forall x ensures InSpans(spans, x) <==> Covered(rs, x) {
      UnionPreserved(sorted, spans, groups, x);
      CoveredPermuted(rs, order, sorted, x);
    }
  }

  lemma CoveredPermuted(rs: seq<Vma>, order: seq<nat>, sorted: seq<Vma>, x: int)
    requires Permutation(order, |rs|) && |sorted| == |rs| && forall a | 0 <= a < |rs| :: sorted[a] == rs[order[a]]
    ensures Covered(sorted, x) <==> Covered(rs, x)
  {
    if Covered(sorted, x) {
      var a :| 0 <= a < |rs| && MapsByte(sorted[a], x);
      assert MapsByte(rs[order[a]], x);
    }
    if Covered(rs, x) {
      var i :| 0 <= i < |rs| && MapsByte(rs[i], x);
      var a := PermutationCovers(order, |rs|, i);
      assert MapsByte(sorted[a], x);
    }
  }
}
