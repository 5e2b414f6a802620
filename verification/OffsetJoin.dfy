/** The offset join of examples/lmcache/kvio2perfetto.py: device commands are attributed to
    KV-object operations by byte range and time window, through a sorted list of slot bases
    and a binary search, and compared here with the join over all pairs. */
module OffsetJoin {
  import opened Scaling
  import opened SetSizes
  import opened Sorting
  import opened Wrappers

  const SLACK_NS: int := 5_000_000

  /** A semantic record; times are in nanoseconds. */
  datatype Semantic = Semantic(slotOffset: Option<int>, bytes: nat, startNs: int, endNs: int,
                               op: Option<string>, traceId: Option<nat>)

  datatype Geometry = Geometry(headerBytes: int, blockAlign: nat, lbaBytes: nat)

  /** One operation on a slot: byte extent [lo, hi), time window, device direction. */
  datatype Op = Op(lo: int, hi: int, t0: int, t1: int, dir: Option<string>)

  datatype Cmd = Cmd(slba: nat, nlb: nat, bytes: nat, ts: int, opName: Option<string>, userData: nat)

  function DirOf(op: Option<string>): Option<string> {
    if op == Some("store") then Some("write") else if op == Some("load") then Some("read") else None
  }

  /** The payload is rounded up to whole blocks; the window is widened on both sides. */
  function OpOf(g: Geometry, r: Semantic): Op
    requires g.blockAlign > 0 && r.slotOffset.Some?
  {
    var payload := (r.bytes + g.blockAlign - 1) / g.blockAlign * g.blockAlign;
    Op(r.slotOffset.value, r.slotOffset.value + g.headerBytes + payload,
       r.startNs - SLACK_NS, r.endNs + SLACK_NS, DirOf(r.op))
  }

  /** What an operation has to do with its record: it begins at the slot and holds the header and
      whole blocks, as few as the payload needs; its window reaches 5 ms past the record's times on
      both sides; a store is a device write, a load a device read, anything else neither. */
  ghost predicate Describes(g: Geometry, r: Semantic, o: Op)
    requires g.blockAlign > 0 && r.slotOffset.Some?
  {
    var payload := o.hi - o.lo - g.headerBytes;
    && o.lo == r.slotOffset.value && payload % g.blockAlign == 0 && r.bytes <= payload < r.bytes + g.blockAlign
    && o.t0 + SLACK_NS == r.startNs && o.t1 - SLACK_NS == r.endNs
    && (o.dir == Some("write") <==> r.op == Some("store")) && (o.dir == Some("read") <==> r.op == Some("load"))
    && (o.dir.Some? ==> o.dir.value in {"write", "read"})
  }

  /** That fixes the operation. */
  lemma DescribesOne(g: Geometry, r: Semantic, o: Op, o': Op)
    requires g.blockAlign > 0 && r.slotOffset.Some? && Describes(g, r, o) && Describes(g, r, o')
    ensures o == o'
  {
    var p, p' := o.hi - o.lo - g.headerBytes, o'.hi - o'.lo - g.headerBytes;
    assert p == p / g.blockAlign * g.blockAlign && p' == p' / g.blockAlign * g.blockAlign;
    Multiples(p / g.blockAlign, p' / g.blockAlign, g.blockAlign);
  }

  lemma Multiples(a: int, b: int, unit: nat)
    requires a * unit - b * unit < unit && b * unit - a * unit < unit
    ensures a == b
  {
    Scale(a + 1, b, unit);
    Scale(b + 1, a, unit);
  }

  lemma OpOfDescribes(g: Geometry, r: Semantic)
    requires g.blockAlign > 0 && r.slotOffset.Some?
    ensures Describes(g, r, OpOf(g, r))
  {
    var x := r.bytes + g.blockAlign - 1;
    var k := x / g.blockAlign;
    assert x == k * g.blockAlign + x % g.blockAlign;
    QuotientIs(k * g.blockAlign, k, g.blockAlign);
  }

  /** First byte of a command, and the byte after its last. */
  function Off(g: Geometry, c: Cmd): int {
    c.slba * Lba(g, c)
  }

  function Lba(g: Geometry, c: Cmd): nat {
    if c.nlb != 0 && c.bytes != 0 then c.bytes / c.nlb else g.lbaBytes
  }

  function End(g: Geometry, c: Cmd): int {
    Off(g, c) + if c.bytes != 0 then c.bytes else c.nlb * Lba(g, c)
  }

  /** What the join needs to know of a command. */
  datatype Access = Access(off: int, end: int, ts: int, dir: Option<string>)

  function AccessOf(g: Geometry, c: Cmd): Access {
    Access(Off(g, c), End(g, c), c.ts, c.opName)
  }

  datatype Verdict = Unique(op: nat) | CrossObject | GapSpill | Unmatched

  /** Where a command of nlb blocks lies: on blocks of equal size, which its bytes give if it has
      both, and the device's otherwise; it is as long as its bytes say, if they do. */
  lemma AccessMeans(g: Geometry, c: Cmd)
    ensures var a, known := AccessOf(g, c), c.nlb != 0 && c.bytes != 0;
            && a.ts == c.ts && a.dir == c.opName
            && (known ==> exists unit: nat :: a.off == c.slba * unit && c.nlb * unit <= c.bytes < c.nlb * (unit + 1))
            && (!known ==> a.off == c.slba * g.lbaBytes)
            && a.end - a.off == (if c.bytes != 0 then c.bytes else c.nlb * g.lbaBytes)
  {
    if c.nlb != 0 && c.bytes != 0 {
      var unit: nat := c.bytes / c.nlb;
      assert c.bytes == c.nlb * unit + c.bytes % c.nlb && c.nlb * (unit + 1) == c.nlb * unit + c.nlb;
      assert AccessOf(g, c).off == c.slba * unit;
    }
  }

  /** A command of whole blocks of any size lies on those blocks. */
  lemma WholeBlocksLie(g: Geometry, c: Cmd, unit: nat)
    requires WholeBlocks(c, unit) && unit > 0
    ensures AccessOf(g, c) == Access(c.slba * unit, (c.slba + c.nlb) * unit, c.ts, c.opName)
  {
    QuotientIs(c.bytes, unit, c.nlb);
    assert (c.slba + c.nlb) * unit == c.slba * unit + c.nlb * unit;
  }

  // ---- the join over all pairs ----

  predicate StartsIn(o: Op, c: Access) {
    o.lo <= c.off < o.hi
  }

  predicate InWindow(o: Op, c: Access) {
    o.t0 <= c.ts <= o.t1
  }

  /** c lies inside the slot of ops[i] during its window. */
  predicate Candidate(ops: seq<Op>, c: Access, i: int)
    requires 0 <= i < |ops|
  {
    StartsIn(ops[i], c) && c.end <= ops[i].hi && InWindow(ops[i], c)
  }

  /** The first candidate of the right direction; without one, the first candidate. */
  ghost predicate Best(ops: seq<Op>, c: Access, i: int)
    requires 0 <= i < |ops|
  {
    && Candidate(ops, c, i)
    && (forall k | 0 <= k < |ops| && Candidate(ops, c, k) && ops[k].dir == c.dir ::
          ops[i].dir == c.dir && i <= k)
    && (ops[i].dir != c.dir ==> forall k | 0 <= k < |ops| && Candidate(ops, c, k) :: i <= k)
  }

  /** c starts in a slot and runs past its end. */
  ghost predicate Spills(ops: seq<Op>, c: Access) {
    exists i | 0 <= i < |ops| :: StartsIn(ops[i], c) && ops[i].hi < c.end
  }

  /** Another slot begins before c ends. */
  ghost predicate ReachesAnother(ops: seq<Op>, c: Access) {
    exists i | 0 <= i < |ops| :: c.off < ops[i].lo < c.end
  }

  ghost predicate BruteForce(ops: seq<Op>, c: Access, v: Verdict) {
    match v
    case Unique(i) => i < |ops| && Best(ops, c, i)
    case CrossObject => Spills(ops, c) && ReachesAnother(ops, c)
    case GapSpill => Spills(ops, c) && !ReachesAnother(ops, c)
    case Unmatched => !Spills(ops, c) && forall i | 0 <= i < |ops| :: !Candidate(ops, c, i)
  }

  /** Slots are non-empty, slots of different bases are disjoint, and all operations at one
      base have one extent. */
  ghost predicate DisjointSlots(ops: seq<Op>) {
    && (forall i | 0 <= i < |ops| :: ops[i].lo < ops[i].hi)
    && (forall i, j | 0 <= i < |ops| && 0 <= j < |ops| && ops[i].lo < ops[j].lo :: ops[i].hi <= ops[j].lo)
    && (forall i, j | 0 <= i < |ops| && 0 <= j < |ops| && ops[i].lo == ops[j].lo :: ops[i].hi == ops[j].hi)
  }

  /** The reference join answers in exactly one way. */
  lemma BruteForceIsFunctional(ops: seq<Op>, c: Access, v: Verdict, w: Verdict)
    requires DisjointSlots(ops) && BruteForce(ops, c, v) && BruteForce(ops, c, w)
    ensures v == w
  {
  }

  // ---- the indexed join ----

  /** byLo lists the operations of each base in input order; ulos are the bases, ascending. */
  ghost predicate Indexed(ops: seq<Op>, byLo: map<int, seq<nat>>, ulos: seq<int>) {
    && (forall a, b | 0 <= a < b < |ulos| :: ulos[a] < ulos[b])
    && (forall a | 0 <= a < |ulos| :: ulos[a] in byLo && byLo[ulos[a]] != [])
    && (forall i | 0 <= i < |ops| :: ops[i].lo in byLo && i in byLo[ops[i].lo])
    && (forall lo | lo in byLo :: lo in ulos && ListsBase(ops, byLo[lo], lo))
  }

  ghost predicate ListsBase(ops: seq<Op>, idx: seq<nat>, lo: int) {
    && (forall a | 0 <= a < |idx| :: idx[a] < |ops| && ops[idx[a]].lo == lo)
    && (forall a, b | 0 <= a < b < |idx| :: idx[a] < idx[b])
  }

  method BisectRight(a: seq<int>, x: int) returns (j: nat)
    requires forall k, l | 0 <= k < l < |a| :: a[k] < a[l]
    ensures j <= |a| && (forall k | 0 <= k < j :: a[k] <= x) && (forall k | j <= k < |a| :: x < a[k])
  {
    var lo, hi := 0, |a|;
    while lo < hi
      invariant 0 <= lo <= hi <= |a|
      invariant (forall k | 0 <= k < lo :: a[k] <= x) && (forall k | hi <= k < |a| :: x < a[k])
    {
      var mid := (lo + hi) / 2;
      if x < a[mid] {
        hi := mid;
      } else {
        lo := mid + 1;
      }
    }
    j := lo;
  }

  /** best is the first operation listed that is in the window and of the right direction;
      without one, the first in the window. */
  ghost predicate Picked(ops: seq<Op>, idx: seq<nat>, c: Access, best: Option<nat>)
    requires forall a | 0 <= a < |idx| :: idx[a] < |ops|
  {
    && (best.None? <==> forall a | 0 <= a < |idx| :: !InWindow(ops[idx[a]], c))
    && (best.Some? ==>
          && best.value in idx && InWindow(ops[best.value], c)
          && forall a | 0 <= a < |idx| && InWindow(ops[idx[a]], c) ::
               if ops[best.value].dir == c.dir
               then ops[idx[a]].dir == c.dir ==> best.value <= idx[a]
               else ops[idx[a]].dir != c.dir && best.value <= idx[a])
  }

  /** Scan the operations of one slot: the first in the window, unless one of the right
      direction follows. */
  method PickByWindow(ops: seq<Op>, idx: seq<nat>, c: Access) returns (best: Option<nat>)
    requires forall a | 0 <= a < |idx| :: idx[a] < |ops|
    requires forall a, b | 0 <= a < b < |idx| :: idx[a] < idx[b]
    ensures Picked(ops, idx, c, best)
  {
    best := None;
    var a := 0;
    while a < |idx|
      invariant a <= |idx|
      invariant best.None? <==> forall b | 0 <= b < a :: !InWindow(ops[idx[b]], c)
      invariant best.Some? ==> best.value in idx && InWindow(ops[best.value], c) && ops[best.value].dir != c.dir
      invariant best.Some? ==> forall b | 0 <= b < |idx| && InWindow(ops[idx[b]], c) :: best.value <= idx[b]
      invariant forall b | 0 <= b < a && InWindow(ops[idx[b]], c) :: ops[idx[b]].dir != c.dir
    {
      if InWindow(ops[idx[a]], c) {
        if best.None? {
          best := Some(idx[a]);
        }
        if ops[idx[a]].dir == c.dir {
          best := Some(idx[a]);
          return;
        }
      }
      a := a + 1;
    }
  }

  /** The extents the code works with: all operations at one base get the end of the first. */
  ghost function Uniform(ops: seq<Op>): (u: seq<Op>)
    ensures |u| == |ops| && forall i | 0 <= i < |ops| :: u[i] == ops[i].(hi := FirstEnd(ops, ops[i].lo))
  {
    seq(|ops|, i requires 0 <= i < |ops| => ops[i].(hi := FirstEnd(ops, ops[i].lo)))
  }

  ghost function FirstEnd(ops: seq<Op>, lo: int): int {
    if ops == [] then 0 else if ops[0].lo == lo then ops[0].hi else FirstEnd(ops[1..], lo)
  }

  lemma {:induction false} FirstEndIs(ops: seq<Op>, i: nat)
    requires i < |ops| && forall k | 0 <= k < i :: ops[k].lo != ops[i].lo
    ensures FirstEnd(ops, ops[i].lo) == ops[i].hi
  {
    if i > 0 {
      FirstEndIs(ops[1..], i - 1);
    }
  }

  lemma UniformIndexed(ops: seq<Op>, byLo: map<int, seq<nat>>, ulos: seq<int>)
    requires Indexed(ops, byLo, ulos)
    ensures Indexed(Uniform(ops), byLo, ulos)
    ensures forall lo | lo in byLo && byLo[lo] != [] :: Uniform(ops)[byLo[lo][0]] == ops[byLo[lo][0]]
  {
    forall lo | lo in byLo ensures ListsBase(Uniform(ops), byLo[lo], lo) {
      assert ListsBase(ops, byLo[lo], lo);
    }
    forall lo | lo in byLo && byLo[lo] != [] ensures Uniform(ops)[byLo[lo][0]] == ops[byLo[lo][0]] {
      assert ListsBase(ops, byLo[lo], lo);
      forall k | 0 <= k < byLo[lo][0] ensures ops[k].lo != lo {
        assert ops[k].lo in byLo && k in byLo[ops[k].lo];
      }
      FirstEndIs(ops, byLo[lo][0]);
    }
  }

  /** Operations that agree on the extent of their slot are left as they are. */
  lemma UniformIsIdentity(ops: seq<Op>)
    requires DisjointSlots(ops)
    ensures Uniform(ops) == ops
  {
    forall i | 0 <= i < |ops| ensures FirstEnd(ops, ops[i].lo) == ops[i].hi {
      var k := LeastAt(ops, ops[i].lo, i);
      FirstEndIs(ops, k);
    }
  }

  lemma {:induction false} LeastAt(ops: seq<Op>, lo: int, i: nat) returns (k: nat)
    requires i < |ops| && ops[i].lo == lo
    ensures k <= i && ops[k].lo == lo && forall j | 0 <= j < k :: ops[j].lo != lo
  {
    if j :| 0 <= j < i && ops[j].lo == lo {
      k := LeastAt(ops, lo, j);
    } else {
      k := i;
    }
  }

  /** One command through the index: exactly the all-pairs join over the extents the code
      uses, hence over the real ones whenever each slot has one extent. */
  method JoinOne(ops: seq<Op>, byLo: map<int, seq<nat>>, ulos: seq<int>, c: Access) returns (v: Verdict)
    requires Indexed(ops, byLo, ulos)
    ensures v.Unique? ==> v.op < |ops|
    ensures DisjointSlots(Uniform(ops)) ==> BruteForce(Uniform(ops), c, v)
    ensures DisjointSlots(ops) ==> BruteForce(ops, c, v)
  {
    ghost var u := Uniform(ops);
    UniformIndexed(ops, byLo, ulos);
    if DisjointSlots(ops) {
      UniformIsIdentity(ops);
    }
    var j := BisectRight(ulos, c.off);
    if j == 0 {
      NoSlotBelow(u, byLo, ulos, c);
      return Unmatched;
    }
    var idx := byLo[ulos[j - 1]];
    assert ListsBase(ops, idx, ulos[j - 1]);
    var hi := ops[idx[0]].hi;
    if c.off >= hi {
      v := Unmatched;
    } else if c.end > hi {
      v := if j < |ulos| && ulos[j] < c.end then CrossObject else GapSpill;
    } else {
      var best := PickByWindow(ops, idx, c);
      v := if best.None? then Unmatched else Unique(best.value);
      PickedUniform(ops, idx, c, best);
      if DisjointSlots(u) {
        WindowOutcome(u, byLo, ulos, c, j, best);
      }
    }
    if DisjointSlots(u) && (c.off >= hi || c.end > hi) {
      SpaceOutcome(u, byLo, ulos, c, j);
    }
  }

  lemma PickedUniform(ops: seq<Op>, idx: seq<nat>, c: Access, best: Option<nat>)
    requires (forall a | 0 <= a < |idx| :: idx[a] < |ops|) && Picked(ops, idx, c, best)
    ensures Picked(Uniform(ops), idx, c, best)
  {
    var u := Uniform(ops);
    assert forall i | 0 <= i < |ops| :: InWindow(u[i], c) == InWindow(ops[i], c) && u[i].dir == ops[i].dir;
  }

  /** Position j splits the bases at the first byte of c. */
  ghost predicate SplitAt(ulos: seq<int>, c: Access, j: nat) {
    && 0 < j <= |ulos|
    && (forall k | 0 <= k < j :: ulos[k] <= c.off) && (forall k | j <= k < |ulos| :: c.off < ulos[k])
  }

  lemma SpaceOutcome(ops: seq<Op>, byLo: map<int, seq<nat>>, ulos: seq<int>, c: Access, j: nat)
    requires Indexed(ops, byLo, ulos) && DisjointSlots(ops) && SplitAt(ulos, c, j)
    requires byLo[ulos[j - 1]][0] < |ops|
    requires var hi := ops[byLo[ulos[j - 1]][0]].hi; c.off >= hi || c.end > hi
    ensures BruteForce(ops, c, if c.off >= ops[byLo[ulos[j - 1]][0]].hi then Unmatched
                               else if j < |ulos| && ulos[j] < c.end then CrossObject else GapSpill)
  {
    OnlySlot(ops, byLo, ulos, c, j);
    NextBase(ops, byLo, ulos, c, j);
    var first := byLo[ulos[j - 1]][0];
    if c.off < ops[first].hi {
      assert StartsIn(ops[first], c);
    }
  }

  lemma WindowOutcome(ops: seq<Op>, byLo: map<int, seq<nat>>, ulos: seq<int>, c: Access, j: nat, best: Option<nat>)
    requires Indexed(ops, byLo, ulos) && DisjointSlots(ops) && SplitAt(ulos, c, j)
    requires ListsBase(ops, byLo[ulos[j - 1]], ulos[j - 1])
    requires Picked(ops, byLo[ulos[j - 1]], c, best)
    requires var hi := ops[byLo[ulos[j - 1]][0]].hi; c.off < hi && c.end <= hi
    ensures BruteForce(ops, c, if best.None? then Unmatched else Unique(best.value))
  {
    OnlySlot(ops, byLo, ulos, c, j);
    var idx := byLo[ulos[j - 1]];
    forall i | 0 <= i < |ops| ensures Candidate(ops, c, i) <==> i in idx && InWindow(ops[i], c) {
    }
  }

  /** Slots are non-empty and slots of different bases are disjoint. */
  ghost predicate SeparateBases(ops: seq<Op>) {
    && (forall i | 0 <= i < |ops| :: ops[i].lo < ops[i].hi)
    && (forall i, j | 0 <= i < |ops| && 0 <= j < |ops| && ops[i].lo < ops[j].lo :: ops[i].hi <= ops[j].lo)
  }

  /** All operations at one base have one extent. */
  ghost predicate OneExtent(ops: seq<Op>) {
    forall i, j | 0 <= i < |ops| && 0 <= j < |ops| && ops[i].lo == ops[j].lo :: ops[i].hi == ops[j].hi
  }

  lemma UniformEnd(ops: seq<Op>, i: nat) returns (k: nat)
    requires i < |ops|
    ensures k < |ops| && ops[k].lo == ops[i].lo && FirstEnd(ops, ops[i].lo) == ops[k].hi
  {
    k := LeastAt(ops, ops[i].lo, i);
    FirstEndIs(ops, k);
  }

  lemma {:induction false} AfterAllWindows(ops: seq<Op>) returns (ts: int)
    ensures forall i | 0 <= i < |ops| :: ops[i].t1 < ts
  {
    ts := 0;
    for n := 0 to |ops|
      invariant forall i | 0 <= i < n :: ops[i].t1 < ts
    {
      ts := if ops[n].t1 < ts then ts else ops[n].t1 + 1;
    }
  }

  /** A command outside all windows that no uniform slot sees spilling is left unmatched. */
  lemma LeftUnmatched(ops: seq<Op>, c: Access)
    requires forall i | 0 <= i < |ops| :: ops[i].t1 < c.ts
    requires forall i | 0 <= i < |ops| :: ops[i].lo <= c.off < FirstEnd(ops, ops[i].lo) ==>
            c.end <= FirstEnd(ops, ops[i].lo)
    ensures BruteForce(Uniform(ops), c, Unmatched)
  {
  }

  /** All slots begin and end on a block boundary; with a block of one byte they always do. */
  ghost predicate OnGrid(ops: seq<Op>, unit: nat) {
    unit > 0 && forall i | 0 <= i < |ops| :: 0 <= ops[i].lo && ops[i].lo % unit == 0 && ops[i].hi % unit == 0
  }

  ghost predicate WholeBlocks(c: Cmd, unit: nat) {
    c.nlb > 0 && c.bytes == c.nlb * unit
  }

  /** The command record of an access to whole blocks. */
  lemma CommandFor(g: Geometry, a: Access, unit: nat) returns (c: Cmd)
    requires unit > 0 && 0 <= a.off < a.end && a.off % unit == 0 && a.end % unit == 0
    ensures WholeBlocks(c, unit) && AccessOf(g, c) == a
  {
    var first, last := a.off / unit, a.end / unit;
    assert a.off == first * unit && a.end == last * unit;
    var n := last - first;
    assert n * unit == a.end - a.off;
    assert n > 0;
    c := Cmd(first, n, n * unit, a.ts, a.dir, 0);
    QuotientIs(n * unit, unit, n);
  }

  lemma NextBlock(x: nat, unit: nat)
    requires unit > 0 && x % unit == 0
    ensures (x + unit) % unit == 0
  {
    var k := x / unit;
    assert x == k * unit && (k + 1) * unit == k * unit + unit;
    QuotientIs(x + unit, k + 1, unit);
  }

  lemma Outside(ops: seq<Op>, c: Access, j: nat)
    requires SeparateBases(ops) && j < |ops| && ops[j].lo <= c.off
    requires FirstEnd(ops, ops[j].lo) <= c.off < ops[j].hi
    ensures forall i | 0 <= i < |ops| :: !(ops[i].lo <= c.off < FirstEnd(ops, ops[i].lo))
  {
    forall i | 0 <= i < |ops| ensures !(ops[i].lo <= c.off < FirstEnd(ops, ops[i].lo)) {
      var k := UniformEnd(ops, i);
    }
  }

  lemma SpillsUnseen(ops: seq<Op>, j: nat, ts: int, past: int) returns (a: Access)
    requires SeparateBases(ops) && j < |ops| && ops[j].hi != FirstEnd(ops, ops[j].lo) && past > ops[j].hi
    requires forall i | 0 <= i < |ops| :: ops[i].t1 < ts
    ensures a == if ops[j].hi < FirstEnd(ops, ops[j].lo) then Access(ops[j].lo, FirstEnd(ops, ops[j].lo), ts, None)
                 else Access(FirstEnd(ops, ops[j].lo), past, ts, None)
    ensures ops[j].lo <= a.off < ops[j].hi < a.end
    ensures BruteForce(Uniform(ops), a, Unmatched) && !BruteForce(ops, a, Unmatched)
  {
    var first := FirstEnd(ops, ops[j].lo);
    var f := UniformEnd(ops, j);
    a := if ops[j].hi < first then Access(ops[j].lo, first, ts, None) else Access(first, past, ts, None);
    forall i | 0 <= i < |ops| && ops[i].lo <= a.off < FirstEnd(ops, ops[i].lo)
      ensures a.end <= FirstEnd(ops, ops[i].lo)
    {
      var k := UniformEnd(ops, i);
    }
    LeftUnmatched(ops, a);
    assert StartsIn(ops[j], a) && ops[j].hi < a.end;
  }

  /** Where an operation ends elsewhere than the first of its base, some command record of whole
      blocks is judged differently: it spills, and the code calls it unmatched. */
  lemma MixedExtentsDiffer(g: Geometry, ops: seq<Op>, j: nat, unit: nat) returns (c: Cmd)
    requires SeparateBases(ops) && OnGrid(ops, unit) && j < |ops| && ops[j].hi != FirstEnd(ops, ops[j].lo)
    ensures WholeBlocks(c, unit)
    ensures BruteForce(Uniform(ops), AccessOf(g, c), Unmatched) && !BruteForce(ops, AccessOf(g, c), Unmatched)
  {
    var f := UniformEnd(ops, j);
    var ts := AfterAllWindows(ops);
    var past := ops[j].hi + unit;
    NextBlock(ops[j].hi, unit);
    var a := SpillsUnseen(ops, j, ts, past);
    c := CommandFor(g, a, unit);
  }

  lemma {:induction false} BestExists(ops: seq<Op>, c: Access, j: nat) returns (i: nat)
    requires j < |ops| && Candidate(ops, c, j)
    ensures i < |ops| && Best(ops, c, i)
    decreases if ops[j].dir == c.dir then 0 else 1, j
  {
    if k: nat :|
      k < |ops| && Candidate(ops, c, k) && ops[k].dir == c.dir && (ops[j].dir != c.dir || k < j)
    {
      i := BestExists(ops, c, k);
    } else if k: nat :| k < j && Candidate(ops, c, k) && ops[j].dir != c.dir {
      i := BestExists(ops, c, k);
    } else {
      i := j;
    }
  }

  /** LOST ATTRIBUTION: if an operation is longer than the first of its base, a command record
      inside it and its window is attributed by the reference and left unmatched by the code. */
  lemma LongerExtentIsLost(g: Geometry, ops: seq<Op>, j: nat, unit: nat) returns (c: Cmd, i: nat)
    requires SeparateBases(ops) && OnGrid(ops, unit)
    requires j < |ops| && ops[j].t0 <= ops[j].t1 && FirstEnd(ops, ops[j].lo) < ops[j].hi
    ensures WholeBlocks(c, unit) && i < |ops|
    ensures BruteForce(Uniform(ops), AccessOf(g, c), Unmatched) && BruteForce(ops, AccessOf(g, c), Unique(i))
  {
    var f := UniformEnd(ops, j);
    var a := Access(FirstEnd(ops, ops[j].lo), ops[j].hi, ops[j].t0, ops[j].dir);
    c := CommandFor(g, a, unit);
    Outside(ops, a, j);
    i := BestExists(ops, a, j);
  }

  /** EXACT CONDITION: over separate slots, whatever the code may answer to a command record of
      whole blocks is an answer of the all-pairs join if and only if all operations at one base
      have one extent. */
  lemma ExactIffOneExtent(g: Geometry, ops: seq<Op>, unit: nat)
    requires SeparateBases(ops) && OnGrid(ops, unit)
    ensures (forall c: Cmd, v | WholeBlocks(c, unit) && BruteForce(Uniform(ops), AccessOf(g, c), v) ::
               BruteForce(ops, AccessOf(g, c), v))
       <==> OneExtent(ops)
  {
    if OneExtent(ops) {
      UniformIsIdentity(ops);
    } else {
      var i, j :| 0 <= i < |ops| && 0 <= j < |ops| && ops[i].lo == ops[j].lo && ops[i].hi != ops[j].hi;
      var c := MixedExtentsDiffer(g, ops, if ops[i].hi != FirstEnd(ops, ops[i].lo) then i else j, unit);
    }
  }

  lemma NoSlotBelow(ops: seq<Op>, byLo: map<int, seq<nat>>, ulos: seq<int>, c: Access)
    requires Indexed(ops, byLo, ulos) && forall k | 0 <= k < |ulos| :: c.off < ulos[k]
    ensures BruteForce(ops, c, Unmatched)
  {
  }

  /** With disjoint slots, only the slot of the greatest base can contain the first byte. */
  lemma OnlySlot(ops: seq<Op>, byLo: map<int, seq<nat>>, ulos: seq<int>, c: Access, j: nat)
    requires Indexed(ops, byLo, ulos) && DisjointSlots(ops) && SplitAt(ulos, c, j)
    ensures var idx := byLo[ulos[j - 1]];
            && idx != [] && idx[0] < |ops|
            && (forall i | 0 <= i < |ops| && StartsIn(ops[i], c) ::
                  ops[i].lo == ulos[j - 1] && i in idx && ops[i].hi == ops[idx[0]].hi)
            && (forall i | i in idx :: i < |ops| && ops[i].lo <= c.off && ops[i].hi == ops[idx[0]].hi)
  {
    var lo := ulos[j - 1];
    var first := byLo[lo][0];
    assert ListsBase(ops, byLo[lo], lo);
    forall i | 0 <= i < |ops| && StartsIn(ops[i], c) ensures ops[i].lo == lo {
      var a :| 0 <= a < |ulos| && ulos[a] == ops[i].lo;
      assert a < j;
      assert ops[first].lo == lo;
    }
  }

  lemma NextBase(ops: seq<Op>, byLo: map<int, seq<nat>>, ulos: seq<int>, c: Access, j: nat)
    requires Indexed(ops, byLo, ulos) && SplitAt(ulos, c, j)
    ensures ReachesAnother(ops, c) <==> j < |ulos| && ulos[j] < c.end
  {
    if j < |ulos| && ulos[j] < c.end {
      assert ListsBase(ops, byLo[ulos[j]], ulos[j]);
      assert ops[byLo[ulos[j]][0]].lo == ulos[j];
    }
  }

  // ---- building the index ----

  ghost predicate Building(ops: seq<Op>, n: nat, byLo: map<int, seq<nat>>, los: seq<int>)
    requires n <= |ops|
  {
    && (forall a, b | 0 <= a < b < |los| :: los[a] != los[b])
    && (forall a | 0 <= a < |los| :: los[a] in byLo && byLo[los[a]] != [])
    && (forall i | 0 <= i < n :: ops[i].lo in byLo && i in byLo[ops[i].lo])
    && (forall lo | lo in byLo :: lo in los && ListsBase(ops, byLo[lo], lo))
    && (forall lo, i | lo in byLo && i in byLo[lo] :: i < n)
  }

  lemma AppendToBase(ops: seq<Op>, i: nat, byLo: map<int, seq<nat>>, los: seq<int>)
    requires i < |ops| && Building(ops, i, byLo, los) && ops[i].lo in byLo
    ensures Building(ops, i + 1, byLo[ops[i].lo := byLo[ops[i].lo] + [i]], los)
  {
    var lo := ops[i].lo;
    var idx := byLo[lo] + [i];
    assert ListsBase(ops, byLo[lo], lo) && idx[|byLo[lo]|] == i;
    assert forall a | 0 <= a < |byLo[lo]| :: byLo[lo][a] in byLo[lo];
    assert ListsBase(ops, idx, lo);
    forall k | k in byLo[lo] ensures k in idx {
      var a :| 0 <= a < |byLo[lo]| && byLo[lo][a] == k;
      assert idx[a] == k;
    }
  }

  lemma OpenBase(ops: seq<Op>, i: nat, byLo: map<int, seq<nat>>, los: seq<int>)
    requires i < |ops| && Building(ops, i, byLo, los) && ops[i].lo !in byLo
    ensures Building(ops, i + 1, byLo[ops[i].lo := [i]], los + [ops[i].lo])
  {
    var lo := ops[i].lo;
    assert (los + [lo])[|los|] == lo && [i][0] == i;
    forall x | x in los ensures x in los + [lo] {
      var a :| 0 <= a < |los| && los[a] == x;
      assert (los + [lo])[a] == x;
    }
  }

  method BuildIndex(ops: seq<Op>) returns (byLo: map<int, seq<nat>>, ulos: seq<int>)
    ensures Indexed(ops, byLo, ulos)
  {
    byLo := map[];
    var los: seq<int> := [];
    var i := 0;
    while i < |ops|
      invariant i <= |ops| && Building(ops, i, byLo, los)
    {
      var lo := ops[i].lo;
      if lo in byLo {
        AppendToBase(ops, i, byLo, los);
        byLo := byLo[lo := byLo[lo] + [i]];
      } else {
        OpenBase(ops, i, byLo, los);
        byLo := byLo[lo := [i]];
        los := los + [lo];
      }
      i := i + 1;
    }
    ulos := SortDistinct(los);
    forall a | 0 <= a < |ulos| ensures ulos[a] in byLo && byLo[ulos[a]] != [] {
      assert ulos[a] in ulos;
    }
  }

  method SortDistinct(los: seq<int>) returns (ulos: seq<int>)
    requires forall a, b | 0 <= a < b < |los| :: los[a] != los[b]
    ensures forall a, b | 0 <= a < b < |ulos| :: ulos[a] < ulos[b]
    ensures forall x :: x in ulos <==> x in los
  {
    var keys := seq(|los|, a requires 0 <= a < |los| => (los[a], 0));
    var p := SortIndices(keys);
    ulos := seq(|los|, a requires 0 <= a < |los| => los[p[a]]);
    forall a, b | 0 <= a < b < |ulos| ensures ulos[a] < ulos[b] {
      assert InOrder(keys, p[a], p[b]);
    }
    forall x | x in los ensures x in ulos {
      var i :| 0 <= i < |los| && los[i] == x;
      var a := PermutationCovers(p, |los|, i);
      assert ulos[a] == x;
    }
  }

  // ---- the whole join, with its accounting ----

  datatype Stats = Stats(unique: nat, cross: nat, gap: nat, unmatched: nat, groundTruth: nat, agree: nat, extra: nat,
                         cookies: nat)

  /** The command stream: a record without slba is not looked at. */
  datatype Event = NoSlba | HasSlba(c: Cmd)

  function Cookie(c: Cmd): nat {
    c.userData / 0x1_0000_0000
  }

  /** The cookie names the operation the command was attributed to. */
  predicate Agrees(sem: seq<Semantic>, ids: seq<nat>, v: Verdict, cookie: nat) {
    v.Unique? && v.op < |ids| && ids[v.op] < |sem| && sem[ids[v.op]].traceId == Some(cookie)
  }

  /** What a counter counts. */
  datatype Counter = OfAddress | OfUnique | OfCross | OfGap | OfUnmatched | OfCookie | OfTruth | OfAgree | OfExtra

  /** A command with an address, judged v, counts there. */
  predicate CountsAs(sem: seq<Semantic>, ids: seq<nat>, e: Event, v: Verdict, t: Counter) {
    e.HasSlba? && match t
      case OfAddress => true
      case OfUnique => v.Unique?
      case OfCross => v.CrossObject?
      case OfGap => v.GapSpill?
      case OfUnmatched => v.Unmatched?
      case OfCookie => Cookie(e.c) != 0
      case OfTruth => v.Unique? && Cookie(e.c) != 0
      case OfAgree => v.Unique? && Cookie(e.c) != 0 && v.op < |ids| && ids[v.op] < |sem|
                      && sem[ids[v.op]].traceId == Some(Cookie(e.c))
      case OfExtra => v.Unique? && Cookie(e.c) == 0
  }

  /** The commands that count there. */
  ghost function Counted(sem: seq<Semantic>, ids: seq<nat>, events: seq<Event>, verdicts: seq<Verdict>, t: Counter)
    : set<nat>
    requires |events| == |verdicts|
  {
    set k: nat | k < |events| && CountsAs(sem, ids, events[k], verdicts[k], t)
  }

  /** Every counter is the number of commands of its kind. */
  ghost predicate Accounts(st: Stats, sem: seq<Semantic>, ids: seq<nat>, events: seq<Event>, verdicts: seq<Verdict>)
    requires |events| == |verdicts|
  {
    forall t :: Value(st, t) == |Counted(sem, ids, events, verdicts, t)|
  }

  function Value(st: Stats, t: Counter): nat {
    match t
    case OfAddress => st.unique + st.cross + st.gap + st.unmatched
    case OfUnique => st.unique
    case OfCross => st.cross
    case OfGap => st.gap
    case OfUnmatched => st.unmatched
    case OfCookie => st.cookies
    case OfTruth => st.groundTruth
    case OfAgree => st.agree
    case OfExtra => st.extra
  }

  lemma CountedSnoc(sem: seq<Semantic>, ids: seq<nat>, events: seq<Event>, verdicts: seq<Verdict>, e: Event,
      v: Verdict, t: Counter)
    requires |events| == |verdicts|
    ensures |Counted(sem, ids, events + [e], verdicts + [v], t)| ==
            |Counted(sem, ids, events, verdicts, t)| + One(CountsAs(sem, ids, e, v, t))
  {
    var n := |events|;
    var before, after := Counted(sem, ids, events, verdicts, t), Counted(sem, ids, events + [e], verdicts + [v], t);
    assert n in after <==> CountsAs(sem, ids, e, v, t);
    assert after - {n} == before;
  }

  lemma TallyCounts(st: Stats, sem: seq<Semantic>, ids: seq<nat>, e: Event, v: Verdict, t: Counter)
    requires e.HasSlba?
    ensures Value(Tally(st, v, Cookie(e.c), Agrees(sem, ids, v, Cookie(e.c))), t) ==
            Value(st, t) + One(CountsAs(sem, ids, e, v, t))
  {
  }

  lemma AccountsSnoc(st: Stats, sem: seq<Semantic>, ids: seq<nat>, events: seq<Event>, verdicts: seq<Verdict>,
      e: Event, v: Verdict, cookie: nat, agrees: bool)
    requires |events| == |verdicts| && Accounts(st, sem, ids, events, verdicts)
    requires e.HasSlba? ==> cookie == Cookie(e.c) && agrees == Agrees(sem, ids, v, cookie)
    ensures Accounts(if e.HasSlba? then Tally(st, v, cookie, agrees) else st, sem, ids, events + [e], verdicts + [v])
  {
    var st' := if e.HasSlba? then Tally(st, v, cookie, agrees) else st;
    forall t ensures Value(st', t) == |Counted(sem, ids, events + [e], verdicts + [v], t)| {
      CountedSnoc(sem, ids, events, verdicts, e, v, t);
      if e.HasSlba? {
        TallyCounts(st, sem, ids, e, v, t);
      }
    }
  }

  lemma AccountsEmpty(sem: seq<Semantic>, ids: seq<nat>)
    ensures Accounts(Stats(0, 0, 0, 0, 0, 0, 0, 0), sem, ids, [], [])
  {
    forall t ensures Value(Stats(0, 0, 0, 0, 0, 0, 0, 0), t) == |Counted(sem, ids, [], [], t)| {
      assert Counted(sem, ids, [], [], t) == {};
    }
  }

  /** PARTITION: the four outcomes are those of different commands and of all with an address; of
      the unique ones, those with a cookie and those without. */
  lemma KindsPartition(sem: seq<Semantic>, ids: seq<nat>, events: seq<Event>, verdicts: seq<Verdict>)
    requires |events| == |verdicts|
    ensures var of := t => Counted(sem, ids, events, verdicts, t);
            && of(OfUnique) !! of(OfCross) !! of(OfGap) !! of(OfUnmatched)
            && of(OfAddress) == of(OfUnique) + of(OfCross) + of(OfGap) + of(OfUnmatched)
            && of(OfTruth) !! of(OfExtra) && of(OfUnique) == of(OfTruth) + of(OfExtra)
            && of(OfAgree) <= of(OfTruth) <= of(OfCookie)
  {
  }

  /** The trace id given to a command: that of the operation it was attributed to, else 0. */
  function TidOf(v: Verdict, ids: seq<nat>): nat
    requires v.Unique? ==> v.op < |ids|
  {
    if v.Unique? then ids[v.op] + 1 else 0
  }

  /** The counters after one command; a cookie in user_data is the ground truth for it. */
  function Tally(st: Stats, v: Verdict, cookie: nat, agrees: bool): Stats {
    Judge(st.(cookies := st.cookies + One(cookie != 0)), v, cookie, agrees)
  }

  function Judge(st: Stats, v: Verdict, cookie: nat, agrees: bool): Stats {
    match v
    case Unique(_) =>
      var s := st.(unique := st.unique + 1);
      if cookie != 0 then s.(groundTruth := s.groundTruth + 1, agree := s.agree + if agrees then 1 else 0)
      else s.(extra := s.extra + 1)
    case CrossObject => st.(cross := st.cross + 1)
    case GapSpill => st.(gap := st.gap + 1)
    case Unmatched => st.(unmatched := st.unmatched + 1)
  }

  /** ops are the operations of the first n semantic records that name a slot, all of them and in
      order; ids say which record each came from. */
  ghost predicate Listed(g: Geometry, sem: seq<Semantic>, n: nat, ops: seq<Op>, ids: seq<nat>)
    requires g.blockAlign > 0 && n <= |sem|
  {
    && |ops| == |ids|
    && (forall k | 0 <= k < |ids| :: ids[k] < n && sem[ids[k]].slotOffset.Some? && Describes(g, sem[ids[k]], ops[k]))
    && (forall k, l | 0 <= k < l < |ids| :: ids[k] < ids[l])
    && (forall i | 0 <= i < n && sem[i].slotOffset.Some? :: i in ids)
  }

  method Extents(g: Geometry, sem: seq<Semantic>) returns (ops: seq<Op>, ids: seq<nat>)
    requires g.blockAlign > 0
    ensures Listed(g, sem, |sem|, ops, ids)
  {
    ops, ids := [], [];
    var i := 0;
    while i < |sem|
      invariant i <= |sem| && Listed(g, sem, i, ops, ids)
    {
      if sem[i].slotOffset.Some? {
        assert (ids + [i])[|ids|] == i;
        OpOfDescribes(g, sem[i]);
        ops, ids := ops + [OpOf(g, sem[i])], ids + [i];
      }
      i := i + 1;
    }
  }

  /** Event e was handled as the all-pairs join says, over the extents that the code uses and hence
      over the real ones when each slot has one: v is its verdict, tid its trace id. */
  ghost predicate Attributed(g: Geometry, ops: seq<Op>, ids: seq<nat>, e: Event, tid: nat, v: Verdict) {
    && (v.Unique? ==> v.op < |ids|)
    && tid == (if e.HasSlba? && v.Unique? then ids[v.op] + 1 else 0)
    && (DisjointSlots(Uniform(ops)) && e.HasSlba? ==> BruteForce(Uniform(ops), AccessOf(g, e.c), v))
    && (DisjointSlots(ops) && e.HasSlba? ==> BruteForce(ops, AccessOf(g, e.c), v))
  }

  /** One turn of the loop over the commands. */
  method AttributeEvent(g: Geometry, sem: seq<Semantic>, ops: seq<Op>, ids: seq<nat>, byLo: map<int, seq<nat>>,
      ulos: seq<int>, e: Event)
    returns (v: Verdict, tid: nat, cookie: nat, agrees: bool)
    requires Indexed(ops, byLo, ulos) && |ids| == |ops| && forall k | 0 <= k < |ids| :: ids[k] < |sem|
    ensures Attributed(g, ops, ids, e, tid, v)
    ensures e.HasSlba? ==> cookie == Cookie(e.c) && agrees == Agrees(sem, ids, v, cookie)
  {
    v, tid, cookie, agrees := Unmatched, 0, 0, false;
    if e.HasSlba? {
      v := JoinOne(ops, byLo, ulos, AccessOf(g, e.c));
      cookie := Cookie(e.c);
      agrees := v.Unique? && sem[ids[v.op]].traceId == Some(cookie);
      tid := TidOf(v, ids);
    }
  }

  /** The first commands were all handled so. */
  ghost predicate AllAttributed(g: Geometry, ops: seq<Op>, ids: seq<nat>, events: seq<Event>, tids: seq<nat>,
      verdicts: seq<Verdict>) {
    && |tids| == |verdicts| <= |events|
    && forall k | 0 <= k < |tids| :: Attributed(g, ops, ids, events[k], tids[k], verdicts[k])
  }

  lemma AttributedSnoc(g: Geometry, ops: seq<Op>, ids: seq<nat>, events: seq<Event>, tids: seq<nat>,
      verdicts: seq<Verdict>, tid: nat, v: Verdict)
    requires AllAttributed(g, ops, ids, events, tids, verdicts) && |tids| < |events|
    requires Attributed(g, ops, ids, events[|tids|], tid, v)
    ensures AllAttributed(g, ops, ids, events, tids + [tid], verdicts + [v])
  {
    var tids', verdicts' := tids + [tid], verdicts + [v];
    forall k | 0 <= k < |tids'| ensures Attributed(g, ops, ids, events[k], tids'[k], verdicts'[k]) {
      assert k < |tids| ==> tids'[k] == tids[k] && verdicts'[k] == verdicts[k];
    }
  }

  /** The loop over the commands. */
  method JoinAll(g: Geometry, sem: seq<Semantic>, ops: seq<Op>, ids: seq<nat>, byLo: map<int, seq<nat>>,
      ulos: seq<int>, events: seq<Event>)
    returns (tids: seq<nat>, st: Stats, ghost verdicts: seq<Verdict>)
    requires Indexed(ops, byLo, ulos) && |ids| == |ops| && forall k | 0 <= k < |ids| :: ids[k] < |sem|
    ensures |tids| == |events| && AllAttributed(g, ops, ids, events, tids, verdicts)
    ensures Accounts(st, sem, ids, events, verdicts)
  {
    tids, verdicts, st := [], [], Stats(0, 0, 0, 0, 0, 0, 0, 0);
    AccountsEmpty(sem, ids);
    var n := 0;
    while n < |events|
      invariant n == |tids| <= |events| && AllAttributed(g, ops, ids, events, tids, verdicts)
      invariant Accounts(st, sem, ids, events[..n], verdicts)
    {
      var e := events[n];
      assert events[..n + 1] == events[..n] + [e];
      var v, tid, cookie, agrees := AttributeEvent(g, sem, ops, ids, byLo, ulos, e);
      AccountsSnoc(st, sem, ids, events[..n], verdicts, e, v, cookie, agrees);
      AttributedSnoc(g, ops, ids, events, tids, verdicts, tid, v);
      if e.HasSlba? {
        st := Tally(st, v, cookie, agrees);
      }
      tids, verdicts := tids + [tid], verdicts + [v];
      n := n + 1;
    }
    assert events[..n] == events;
  }

  /** Every command is attributed as the all-pairs join says, and the four outcomes add up to
      the commands that carry an slba. */
  method Join(g: Geometry, sem: seq<Semantic>, events: seq<Event>)
    returns (tids: seq<nat>, st: Stats, ops: seq<Op>, ids: seq<nat>, ghost verdicts: seq<Verdict>)
    requires g.blockAlign > 0
    ensures Listed(g, sem, |sem|, ops, ids) && |tids| == |events|
    ensures AllAttributed(g, ops, ids, events, tids, verdicts) && Accounts(st, sem, ids, events, verdicts)
    ensures st.unique + st.cross + st.gap + st.unmatched == |set k: nat | k < |events| && events[k].HasSlba?|
  {
    ops, ids := Extents(g, sem);
    var byLo, ulos := BuildIndex(ops);
    tids, st, verdicts := JoinAll(g, sem, ops, ids, byLo, ulos, events);
    assert Counted(sem, ids, events, verdicts, OfAddress) == set k: nat | k < |events| && events[k].HasSlba?;
  }

  // ---- occurrence segmentation ----

  /** How many operation ends lie before time ts. */
  function EndsBefore(ends: seq<int>, ts: int): nat {
    if ends == [] then 0 else EndsBefore(ends[..|ends| - 1], ts) + if ends[|ends| - 1] < ts then 1 else 0
  }

  lemma {:induction false} EndsBeforeSplit(ends: seq<int>, ts: int, j: nat)
    requires j <= |ends| && (forall k | 0 <= k < j :: ends[k] < ts) && (forall k | j <= k < |ends| :: ts <= ends[k])
    ensures EndsBefore(ends, ts) == j
  {
    if ends != [] {
      var n := |ends| - 1;
      EndsBeforeSplit(ends[..n], ts, if j == |ends| then n else j);
    }
  }

  lemma {:induction false} EndsBeforeIs(ends: seq<int>, ts: int)
    ensures EndsBefore(ends, ts) == |set k: nat | k < |ends| && ends[k] < ts|
  {
    var late := set k: nat | k < |ends| && ends[k] < ts;
    if ends == [] {
      assert late == {};
    } else {
      var n := |ends| - 1;
      EndsBeforeIs(ends[..n], ts);
      assert late - {n} == set k: nat | k < n && ends[..n][k] < ts;
      assert n in late <==> ends[n] < ts;
    }
  }

  /** One pass over time-sorted commands: each belongs to the first occurrence that ends no
      earlier, commands after the last end to the last occurrence. */
  method Segment(times: seq<int>, ends: seq<int>) returns (occ: seq<nat>)
    requires forall a, b | 0 <= a <= b < |times| :: times[a] <= times[b]
    requires forall a, b | 0 <= a <= b < |ends| :: ends[a] <= ends[b]
    requires ends != []
    ensures |occ| == |times|
    ensures forall k | 0 <= k < |times| ::
              var before := EndsBefore(ends, times[k]);
              occ[k] == if before < |ends| then before else |ends| - 1
  {
    occ := [];
    var j := 0;
    while |occ| < |times|
      invariant |occ| <= |times| && j < |ends|
      invariant forall k | 0 <= k < j && |occ| < |times| :: ends[k] < times[|occ|]
      invariant forall k | 0 <= k < |occ| ::
                  var before := EndsBefore(ends, times[k]);
                  occ[k] == if before < |ends| then before else |ends| - 1
    {
      var ts := times[|occ|];
      while j < |ends| - 1 && ts > ends[j]
        invariant j < |ends| && forall k | 0 <= k < j :: ends[k] < ts
      {
        j := j + 1;
      }
      EndsBeforeSplit(ends, ts, if ends[j] < ts then j + 1 else j);
      occ := occ + [j];
    }
  }
}
