/** The FIFO of free buffer slots (nvme_uring_cmd_smoke.c). */
module FreeSlots {

  lemma NextIndex(x: nat, n: nat)
    requires x < n
    ensures (x + 1) % n == if x + 1 == n then 0 else x + 1
  {
  }

  class FreeSlotQueue {
    const slots: array<nat>
    var head: nat
    var tail: nat
    var count: nat

    ghost var Contents: seq<nat>

    ghost predicate Valid()
      reads this, slots
    {
      && slots.Length > 0 && count <= slots.Length && head < slots.Length
      && tail == (if head + count < slots.Length then head + count else head + count - slots.Length)
      && |Contents| == count
      && forall i | 0 <= i < count ::
           Contents[i] == slots[if head + i < slots.Length then head + i else head + i - slots.Length]
    }

    constructor (capacity: nat)
      requires capacity > 0
      ensures Valid() && fresh(slots) && slots.Length == capacity
      ensures Contents == seq(capacity, i => i)
    {
      slots := new nat[capacity](i => i);
      head, tail, count := 0, 0, capacity;
      Contents := seq(capacity, i => i);
    }

    method Take() returns (ok: bool, slot: nat)
      requires Valid()
      modifies this
      ensures Valid() && ok == (old(Contents) != [])
      ensures old(Contents) == if ok then [slot] + Contents else Contents
    {
      if count == 0 {
        return false, 0;
      }
      slot := slots[head];
      assert slot == Contents[0];
      NextIndex(head, slots.Length);
      head := (head + 1) % slots.Length;
      count := count - 1;
      Contents := Contents[1..];
      ok := true;
    }

    method Release(slot: nat) returns (ok: bool)
      requires Valid()
      modifies this, slots
      ensures Valid() && ok == (slot < slots.Length && |old(Contents)| < slots.Length)
      ensures Contents == if ok then old(Contents) + [slot] else old(Contents)
    {
      if slot >= slots.Length || count >= slots.Length {
        return false;
      }
      slots[tail] := slot;
      NextIndex(tail, slots.Length);
      tail := (tail + 1) % slots.Length;
      count := count + 1;
      Contents := Contents + [slot];
      ok := true;
    }
  }
}

/** The scheduler's bookkeeping as a value, and what each of its steps keeps. */
module SlotInvariant {
  import opened Bitmap
  import opened RingSchedule
  import opened SetSizes
  import opened Sorting

  /** Bit 63 of a command time marks a completed command; below it is the latency. */
  const LATENCY_DONE_BIT: nat := 0x8000_0000_0000_0000

  /** `inflight` lists the sequence numbers submitted and not yet completed; it belongs to the
      ring.  `began` and `ended` log when each command was stamped and when it completed.
      Everything else belongs to the workload loop. */
  datatype View = View(slots: nat, count: nat, qd: nat, free: seq<nat>, times: seq<nat>, owner: seq<nat>,
                       busy: seq<bool>, touched: seq<bv8>, nTouched: nat, submitted: nat, completed: nat,
                       inflight: seq<nat>, began: seq<nat>, ended: seq<nat>)

  function Min(a: nat, b: nat): nat {
    if a < b then a else b
  }

  ghost predicate Distinct(s: seq<nat>) {
    forall a, b | 0 <= a < b < |s| :: s[a] != s[b]
  }

  /** Free slots and the slots owned by commands in flight partition 0 .. slots-1, and no more
      than qd commands are in flight. */
  ghost predicate Partition(v: View) {
    && |v.busy| == v.slots && |v.owner| == v.count
    && v.completed <= v.submitted <= v.count && |v.inflight| == v.submitted - v.completed <= v.qd
    && Distinct(v.free) && (forall a | 0 <= a < |v.free| :: v.free[a] < v.slots && !v.busy[v.free[a]])
    && Distinct(v.inflight) && (forall a | 0 <= a < |v.inflight| :: v.inflight[a] < v.submitted)
    && (forall a | 0 <= a < |v.inflight| :: v.owner[v.inflight[a]] < v.slots && v.busy[v.owner[v.inflight[a]]])
    && (forall a, b | 0 <= a < b < |v.inflight| :: v.owner[v.inflight[a]] != v.owner[v.inflight[b]])
    && |v.free| + |v.inflight| == v.slots
  }

  /** First in, first out: until every slot has been used once, slot k is taken by command k. */
  ghost predicate FirstUse(v: View) {
    forall k: nat | v.submitted + k < v.slots :: k < |v.free| && v.free[k] == v.submitted + k
  }

  ghost predicate TouchedOnce(v: View) {
    && Holds(v.touched, v.slots, UpTo(Min(v.submitted, v.slots)))
    && v.nTouched == Min(v.submitted, v.slots)
  }

  /** Commands before `stamped` carry a submission time if in flight, a latency if done. */
  ghost predicate Stamped(v: View, stamped: nat, now: nat) {
    && |v.times| == |v.began| == |v.ended| == v.count && stamped <= v.submitted <= v.count
    && (forall q | stamped <= q < v.count :: v.times[q] == 0)
    && (forall q | stamped <= q < v.submitted :: q in v.inflight)
    && (forall q | 0 <= q < stamped ::
          if q in v.inflight then 0 < v.times[q] == v.began[q] <= now else Timed(v, q))
    && now < LATENCY_DONE_BIT
  }

  /** The recorded latency of a finished command is the time from its submission to its end. */
  ghost predicate Timed(v: View, q: nat)
    requires q < |v.times| == |v.began| == |v.ended|
  {
    v.began[q] <= v.ended[q] && v.times[q] == LATENCY_DONE_BIT + (v.ended[q] - v.began[q])
  }

  ghost predicate Inv(v: View, stamped: nat, now: nat) {
    Partition(v) && FirstUse(v) && TouchedOnce(v) && Stamped(v, stamped, now)
  }

  /** Before the first command: all slots free and in order, nothing stamped or touched. */
  ghost predicate Fresh(v: View) {
    && |v.busy| == v.slots && |v.owner| == |v.times| == |v.began| == |v.ended| == v.count
    && v.free == seq(v.slots, i => i) && v.inflight == [] && v.submitted == v.completed == v.nTouched == 0
    && (forall s | 0 <= s < v.slots :: !v.busy[s]) && (forall q | 0 <= q < v.count :: v.times[q] == 0)
    && Holds(v.touched, v.slots, {})
  }

  lemma FreshInv(v: View, now: nat)
    requires Fresh(v) && now < LATENCY_DONE_BIT
    ensures Inv(v, 0, now)
  {
    assert UpTo(0) == {};
    assert Partition(v);
    assert TouchedOnce(v);
  }

  /** The bitmap with bit x set, and how many bits that changes. */
  function Marked(bytes: seq<bv8>, x: nat): seq<bv8>
    requires x / 8 < |bytes|
  {
    if Test(bytes, x) then bytes else WithBit(bytes, x)
  }

  function NewMarks(bytes: seq<bv8>, x: nat): nat
    requires x / 8 < |bytes|
  {
    if Test(bytes, x) then 0 else 1
  }

  function AfterSubmit(v: View): View
    requires v.free != [] && v.free[0] < |v.busy| && v.free[0] / 8 < |v.touched| && v.submitted < |v.owner|
  {
    var slot := v.free[0];
    v.(free := v.free[1..], owner := v.owner[v.submitted := slot], busy := v.busy[slot := true],
       touched := Marked(v.touched, slot), nTouched := v.nTouched + NewMarks(v.touched, slot),
       submitted := v.submitted + 1, inflight := v.inflight + [v.submitted])
  }

  /** Command number k in flight completes at time t with the given latency. */
  function AfterComplete(v: View, k: nat, latency: nat, t: nat): View
    requires k < |v.inflight| && v.inflight[k] < |v.times| == |v.ended|
    requires v.inflight[k] < |v.owner| && v.owner[v.inflight[k]] < |v.busy|
  {
    var q := v.inflight[k];
    v.(ended := v.ended[q := t], times := v.times[q := latency + LATENCY_DONE_BIT], busy := v.busy[v.owner[q] := false],
       free := v.free + [v.owner[q]], completed := v.completed + 1, inflight := Without(v.inflight, k))
  }

  /** As many slots are left untouched as the queue says; a taken slot is free of owners. */
  lemma SubmitKeepsPartition(v: View)
    requires Partition(v) && v.free != [] && v.submitted < v.count && v.free[0] / 8 < |v.touched|
    requires v.submitted - v.completed < v.qd
    ensures !v.busy[v.free[0]]
    ensures Partition(AfterSubmit(v))
  {
    assert !v.busy[v.free[0]];
    var w := AfterSubmit(v);
    assert forall a | 0 <= a < |w.free| :: w.free[a] == v.free[a + 1];
    assert forall a | 0 <= a < |v.inflight| :: w.owner[v.inflight[a]] == v.owner[v.inflight[a]];
  }

  /** The bitmap after one more submission: a slot is new exactly while some are unused. */
  lemma TouchSlot(bytes: seq<bv8>, n: nat, m: nat, slot: nat)
    requires Holds(bytes, n, UpTo(Min(m, n))) && slot < n && (m < n ==> slot == m)
    ensures slot / 8 < |bytes|
    ensures Test(bytes, slot) <==> m >= n
    ensures Holds(Marked(bytes, slot), n, UpTo(Min(m + 1, n))) && NewMarks(bytes, slot) == if m >= n then 0 else 1
  {
    UpToMeans(Min(m, n));
    assert Test(bytes, slot) <==> slot in UpTo(Min(m, n));
    if m < n {
      HoldsWithBit(bytes, n, UpTo(m), slot);
      assert UpTo(m) + {slot} == UpTo(m + 1);
    }
  }

  lemma SubmitKeepsTouched(v: View)
    requires FirstUse(v) && TouchedOnce(v) && v.free != [] && v.free[0] < v.slots == |v.busy|
    requires v.submitted < v.count == |v.owner|
    ensures v.free[0] / 8 < |v.touched|
    ensures TouchedOnce(AfterSubmit(v))
  {
    assert v.submitted < v.slots ==> v.free[0] == v.submitted + 0;
    TouchSlot(v.touched, v.slots, v.submitted, v.free[0]);
  }

  lemma SubmitKeepsFirstUse(v: View)
    requires Partition(v) && FirstUse(v) && v.free != [] && v.submitted < v.count && v.free[0] / 8 < |v.touched|
    ensures FirstUse(AfterSubmit(v))
  {
    forall k: nat | v.submitted + 1 + k < v.slots ensures k + 1 < |v.free| && v.free[1..][k] == v.submitted + 1 + k {
      assert v.submitted + (k + 1) < v.slots;
    }
  }

  lemma InRest(s: seq<nat>, e: nat, q: nat)
    ensures q in s + [e] <==> q in s || q == e
  {
  }

  lemma SubmitKeepsStamped(v: View, stamped: nat, now: nat)
    requires Partition(v) && Stamped(v, stamped, now) && v.free != [] && v.submitted < v.count
    requires v.free[0] / 8 < |v.touched|
    ensures Stamped(AfterSubmit(v), stamped, now)
  {
    forall q | 0 <= q <= v.submitted
      ensures q in v.inflight + [v.submitted] <==> q in v.inflight || q == v.submitted
    {
      InRest(v.inflight, v.submitted, q);
    }
  }

  lemma SubmitKeepsInv(v: View, stamped: nat, now: nat)
    requires Inv(v, stamped, now) && v.free != [] && v.submitted < v.count && v.submitted - v.completed < v.qd
    ensures v.free[0] / 8 < |v.touched| && v.free[0] < v.slots && !v.busy[v.free[0]]
    ensures Inv(AfterSubmit(v), stamped, now)
  {
    SubmitKeepsTouched(v);
    SubmitKeepsPartition(v);
    SubmitKeepsFirstUse(v);
    SubmitKeepsStamped(v, stamped, now);
  }

  lemma WithoutMembers(s: seq<nat>, k: nat, q: nat)
    requires k < |s| && Distinct(s)
    ensures q in Without(s, k) <==> q in s && q != s[k]
  {
    if q in s && q != s[k] {
      var a :| 0 <= a < |s| && s[a] == q;
      assert Without(s, k)[if a < k then a else a - 1] == q;
    }
  }

  /** The whole batch since `first` gets submission time t. */
  function AfterStamp(v: View, first: nat, t: nat): (w: View)
    requires first <= v.submitted <= |v.times|
  {
    v.(times := Overwritten(v.times, first, v.submitted, t), began := Overwritten(v.began, first, v.submitted, t))
  }

  lemma StampKeepsInv(v: View, first: nat, now: nat, t: nat)
    requires Inv(v, first, now) && 0 < t && now <= t < LATENCY_DONE_BIT
    ensures Inv(AfterStamp(v, first, t), v.submitted, t)
  {
  }

  lemma LaterIsFine(v: View, stamped: nat, now: nat, t: nat)
    requires Inv(v, stamped, now) && now <= t < LATENCY_DONE_BIT
    ensures Inv(v, stamped, t)
  {
  }

  lemma CompleteKeepsPartition(v: View, k: nat, latency: nat, t: nat)
    requires Partition(v) && k < |v.inflight| && |v.times| == |v.ended| == v.count
    ensures |v.free| < v.slots
    ensures Partition(AfterComplete(v, k, latency, t))
  {
    var w := AfterComplete(v, k, latency, t);
    var s := v.owner[v.inflight[k]];
    assert forall a | 0 <= a < |w.inflight| :: w.inflight[a] == v.inflight[if a < k then a else a + 1];
    forall a | 0 <= a < |w.inflight| ensures v.owner[w.inflight[a]] != s {
      assert w.inflight[a] == v.inflight[if a < k then a else a + 1];
    }
  }

  lemma CompleteKeepsStamped(v: View, k: nat, latency: nat, now: nat)
    requires Partition(v) && Stamped(v, v.submitted, now) && k < |v.inflight|
    requires latency + v.times[v.inflight[k]] == now
    ensures Stamped(AfterComplete(v, k, latency, now), v.submitted, now)
  {
    var w := AfterComplete(v, k, latency, now);
    assert v.inflight[k] in v.inflight;
    forall q | 0 <= q < v.submitted
      ensures if q in w.inflight then 0 < w.times[q] == w.began[q] <= now else Timed(w, q)
    {
      WithoutMembers(v.inflight, k, q);
    }
  }

  lemma CompleteKeepsRest(v: View, k: nat, latency: nat, t: nat)
    requires Partition(v) && FirstUse(v) && TouchedOnce(v) && k < |v.inflight| && |v.times| == |v.ended| == v.count
    ensures FirstUse(AfterComplete(v, k, latency, t)) && TouchedOnce(AfterComplete(v, k, latency, t))
  {
  }

  /** A command in flight has a slot, which is busy, and a submission time that has passed. */
  lemma InflightHas(v: View, k: nat, now: nat)
    requires Inv(v, v.submitted, now) && k < |v.inflight|
    ensures v.inflight[k] < v.count && v.owner[v.inflight[k]] < v.slots && v.busy[v.owner[v.inflight[k]]]
    ensures 0 < v.times[v.inflight[k]] <= now && |v.free| < v.slots
  {
    assert v.inflight[k] in v.inflight;
  }

  lemma CompleteKeepsInv(v: View, k: nat, latency: nat, now: nat)
    requires Inv(v, v.submitted, now) && k < |v.inflight| && latency + v.times[v.inflight[k]] == now
    ensures v.owner[v.inflight[k]] < v.slots
    ensures Inv(AfterComplete(v, k, latency, now), v.submitted, now)
  {
    CompleteKeepsPartition(v, k, latency, now);
    CompleteKeepsRest(v, k, latency, now);
    CompleteKeepsStamped(v, k, latency, now);
  }

  /** Below the depth there is a free slot, so the loop stops where the schedule says. */
  lemma QueueIsFull(v: View, ring: Ring, calls: nat)
    requires Partition(v) && v.qd <= v.slots
    requires v.submitted >= v.count || v.submitted - v.completed >= v.qd || |v.free| == 0
    ensures var q := Queue(calls, v.submitted, |v.inflight|); Filled(ring, v.count, v.qd, q) == q
  {
  }

  /** Every recorded time is marked done and holds end minus begin. */
  ghost predicate Latencies(times: seq<nat>, began: seq<nat>, ended: seq<nat>) {
    && |times| == |began| == |ended|
    && forall q | 0 <= q < |times| :: began[q] <= ended[q] && times[q] == LATENCY_DONE_BIT + (ended[q] - began[q])
  }

  /** When the last command has completed, every slot is free, none is busy, and exactly the
      first min(count, slots) have been used. */
  lemma DoneMeans(v: View, now: nat)
    requires Partition(v) && TouchedOnce(v) && Stamped(v, v.submitted, now) && v.completed == v.count
    ensures |v.free| == v.slots
    ensures forall s | 0 <= s < v.slots :: !v.busy[s]
    ensures v.nTouched == Min(v.count, v.slots)
    ensures forall s: nat | s < v.slots :: Test(v.touched, s) <==> s < Min(v.count, v.slots)
    ensures Latencies(v.times, v.began, v.ended)
  {
    assert forall q | 0 <= q < v.count :: Timed(v, q);
    UpToMeans(Min(v.count, v.slots));
    forall s: nat | s < v.slots ensures !v.busy[s] {
      var a := PermutationCovers(v.free, v.slots, s);
    }
  }
}

/** When each command is stamped and when it completes, as the ring alone decides it: the
    workload without its slots, times and checks. */
module RingSchedule {

  /** The answers of the ring and the clock, by call number.  The ring is well behaved by
      construction: it completes only outstanding commands, each once, has room for an SQE
      when none is outstanding, and a wait for one completion returns with at least one. */
  datatype Ring = Ring(sqe: nat -> bool, pick: nat -> nat, more: nat -> bool, res: nat -> int, clock: nat -> nat)

  predicate Grants(ring: Ring, call: nat) {
    ring.sqe(call)
  }

  predicate More(ring: Ring, call: nat) {
    ring.more(call)
  }

  function Pick(ring: Ring, call: nat, n: nat): (k: nat)
    requires n > 0
    ensures k < n
  {
    ring.pick(call) % n
  }

  function Res(ring: Ring, call: nat): int {
    ring.res(call)
  }

  function Now(ring: Ring, call: nat): nat {
    ring.clock(call)
  }

  /** How many commands were submitted and are outstanding after a number of calls. */
  datatype Queue = Queue(calls: nat, submitted: nat, outstanding: nat)

  /** The commands in flight after a number of calls, the time each command was stamped and the
      time it completed, and the error count with its first result. */
  datatype Schedule = Schedule(calls: nat, submitted: nat, inflight: seq<nat>, began: seq<nat>, ended: seq<nat>,
                               errors: nat, firstRes: int)

  function Start(count: nat): Schedule {
    Schedule(0, 0, [], seq(count, _ => 0), seq(count, _ => 0), 0, 0)
  }

  /** The commands completed. */
  function Completed(s: Schedule): int {
    s.submitted - |s.inflight|
  }

  function Range(a: nat, b: nat): (r: seq<nat>)
    requires a <= b
    ensures |r| == b - a
  {
    if a == b then [] else Range(a, b - 1) + [b - 1]
  }

  lemma RangeSnoc(s: seq<nat>, a: nat, b: nat)
    requires a <= b
    ensures s + Range(a, b) + [b] == s + Range(a, b + 1)
  {
  }

  function Without(s: seq<nat>, k: nat): (r: seq<nat>)
    requires k < |s|
    ensures |r| == |s| - 1
  {
    s[..k] + s[k + 1..]
  }

  function Overwritten(times: seq<nat>, first: nat, last: nat, t: nat): (r: seq<nat>)
    ensures |r| == |times| && forall q | 0 <= q < |r| :: r[q] == if first <= q < last then t else times[q]
  {
    seq(|times|, q requires 0 <= q < |times| => if first <= q < last then t else times[q])
  }

  function Submitting(q: Queue): Queue {
    Queue(q.calls + 1, q.submitted + 1, q.outstanding + 1)
  }

  /** Submissions until all commands are out, qd are outstanding or the ring grants no SQE. */
  function Filled(ring: Ring, count: nat, qd: nat, q: Queue): (r: Queue)
    ensures q.submitted <= r.submitted && q.calls <= r.calls
    ensures r.outstanding - q.outstanding == r.submitted - q.submitted
    ensures q.submitted <= count ==> r.submitted <= count
    ensures q.submitted < count && qd > 0 ==> r.outstanding > 0
    decreases count - q.submitted
  {
    if q.submitted >= count || q.outstanding >= qd then q
    else if q.outstanding == 0 || Grants(ring, q.calls) then Filled(ring, count, qd, Submitting(q))
    else q.(calls := q.calls + 1)
  }

  lemma FilledStep(ring: Ring, count: nat, qd: nat, q: Queue)
    requires q.submitted < count && q.outstanding < qd
    ensures Filled(ring, count, qd, q) == if q.outstanding == 0 || Grants(ring, q.calls)
                                          then Filled(ring, count, qd, Submitting(q)) else q.(calls := q.calls + 1)
  {
  }

  /** The ring takes command number i of a batch: it is asked in the i-th call, and an idle queue is
      never refused. */
  predicate Takes(ring: Ring, q: Queue, i: nat) {
    q.outstanding + i == 0 || Grants(ring, q.calls + i)
  }

  /** HOW FAR A BATCH GOES, over call numbers: each of its n commands was taken in a call of its own,
      in a row; then all commands are out or the depth is reached, and the batch used n calls, or
      the next call was refused, and it used n + 1. */
  lemma {:induction false} FilledMeans(ring: Ring, count: nat, qd: nat, q: Queue)
    ensures var r := Filled(ring, count, qd, q);
            var n := r.submitted - q.submitted;
            && (forall i: nat | i < n :: Takes(ring, q, i) && q.submitted + i < count && q.outstanding + i < qd)
            && (if r.submitted >= count || r.outstanding >= qd then r.calls == q.calls + n
                else !Takes(ring, q, n) && r.calls == q.calls + n + 1)
    decreases count - q.submitted
  {
    if q.submitted < count && q.outstanding < qd && Takes(ring, q, 0) {
      var next := Submitting(q);
      FilledMeans(ring, count, qd, next);
      var n := Filled(ring, count, qd, q).submitted - q.submitted;
      forall i: nat | i < n ensures Takes(ring, q, i) && q.submitted + i < count && q.outstanding + i < qd {
        if i > 0 {
          assert Takes(ring, next, i - 1);
        }
      }
      assert Takes(ring, q, n) == Takes(ring, next, n - 1);
    }
  }

  /** The queue is filled and the new batch stamped with the time of the next call. */
  function Stamping(ring: Ring, count: nat, qd: nat, s: Schedule): (r: Schedule)
    ensures Completed(r) == Completed(s) && (s.submitted <= count ==> r.submitted <= count)
    ensures qd > 0 && s.submitted <= count && Completed(s) < count ==> r.inflight != []
  {
    var q := Filled(ring, count, qd, Queue(s.calls, s.submitted, |s.inflight|));
    s.(calls := q.calls, submitted := q.submitted, inflight := s.inflight + Range(s.submitted, q.submitted),
       began := Overwritten(s.began, s.submitted, q.submitted, Now(ring, q.calls)))
  }

  /** WHEN A BATCH IS STAMPED: in the first call after its submissions, all of it at the same time,
      and nothing else. */
  lemma StampingMeans(ring: Ring, count: nat, qd: nat, s: Schedule)
    ensures var r := Stamping(ring, count, qd, s);
            && Queue(r.calls, r.submitted, |r.inflight|) ==
               Filled(ring, count, qd, Queue(s.calls, s.submitted, |s.inflight|))
            && |r.began| == |s.began| && r.ended == s.ended
            && (forall q | 0 <= q < |s.began| ::
                  r.began[q] == if s.submitted <= q < r.submitted then Now(ring, r.calls) else s.began[q])
            && |r.inflight| == |s.inflight| + (r.submitted - s.submitted) && s.inflight <= r.inflight
            && (forall j | |s.inflight| <= j < |r.inflight| :: r.inflight[j] == s.submitted + (j - |s.inflight|))
  {
    var r := Stamping(ring, count, qd, s);
    RangeIs(s.submitted, r.submitted);
  }

  lemma {:induction false} RangeIs(a: nat, b: nat)
    requires a <= b
    ensures forall i: nat | i < b - a :: Range(a, b)[i] == a + i
    decreases b
  {
    if a < b {
      RangeIs(a, b - 1);
    }
  }

  /** The next call delivers the command that the ring picks among those in flight. */
  function Delivered(ring: Ring, s: Schedule): (r: Schedule)
    requires s.inflight != []
    ensures |r.inflight| == |s.inflight| - 1 && r.submitted == s.submitted
  {
    var k, res := Pick(ring, s.calls, |s.inflight|), Res(ring, s.calls);
    var q := s.inflight[k];
    Schedule(s.calls + 1, s.submitted, Without(s.inflight, k), s.began,
             Overwritten(s.ended, q, q + 1, Now(ring, s.calls)),
             if res != 0 then s.errors + 1 else s.errors,
             if res != 0 && s.errors == 0 then res else s.firstRes)
  }

  lemma DeliveredIs(ring: Ring, s: Schedule, r: Schedule, k: nat)
    requires k < |s.inflight| && k == Pick(ring, s.calls, |s.inflight|) && s.inflight[k] < |s.ended|
    requires r.calls == s.calls + 1 && r.submitted == s.submitted && r.began == s.began
    requires r.inflight == Without(s.inflight, k) && r.ended == s.ended[s.inflight[k] := Now(ring, s.calls)]
    requires var res := Res(ring, s.calls);
             && r.errors == s.errors + (if res == 0 then 0 else 1)
             && r.firstRes == if res != 0 && s.errors == 0 then res else s.firstRes
    ensures r == Delivered(ring, s)
  {
    assert r.ended == Delivered(ring, s).ended;
  }

  /** Deliveries as long as the ring has more. */
  function Drained(ring: Ring, s: Schedule): (r: Schedule)
    ensures |r.inflight| <= |s.inflight| && r.submitted == s.submitted
    decreases |s.inflight|
  {
    if s.inflight != [] && More(ring, s.calls) then Drained(ring, Delivered(ring, s)) else s
  }

  /** HOW FAR A WAIT DRAINS, over call numbers: one command per call, as long as the ring has more and
      some are in flight. */
  lemma {:induction false} DrainedMeans(ring: Ring, s: Schedule)
    ensures var r := Drained(ring, s);
            var n := |s.inflight| - |r.inflight|;
            && r.calls == s.calls + n && (forall c | s.calls <= c < r.calls :: More(ring, c))
            && (r.inflight == [] || !More(ring, r.calls))
    decreases |s.inflight|
  {
    if s.inflight != [] && More(ring, s.calls) {
      DrainedMeans(ring, Delivered(ring, s));
    }
  }

  /** WHO COMPLETES in a call, and when: the command that the ring picks leaves the flight, the
      others stay in order, and the time of the call is its end. */
  lemma DeliveredMeans(ring: Ring, s: Schedule)
    requires s.inflight != []
    ensures var r, k := Delivered(ring, s), ring.pick(s.calls) % |s.inflight|;
            && r.calls == s.calls + 1 && r.began == s.began && |r.ended| == |s.ended|
            && r.inflight == s.inflight[..k] + s.inflight[k + 1..]
            && (forall q | 0 <= q < |s.ended| ::
                  r.ended[q] == if q == s.inflight[k] then ring.clock(s.calls) else s.ended[q])
            && r.errors - s.errors == (if ring.res(s.calls) == 0 then 0 else 1)
            && (s.errors > 0 || r.errors == 0 ==> r.firstRes == s.firstRes)
            && (s.errors == 0 && r.errors > 0 ==> r.firstRes == ring.res(s.calls))
  {
  }

  /** One turn: fill the queue, stamp the batch, wait for one completion, take what is there. */
  function Turn(ring: Ring, count: nat, qd: nat, s: Schedule): (r: Schedule)
    requires qd > 0 && s.submitted <= count && Completed(s) < count
    ensures r.submitted <= count && Completed(r) > Completed(s)
  {
    Drained(ring, Delivered(ring, Stamping(ring, count, qd, s)))
  }

  /** Turns until all commands have completed. */
  function Finished(ring: Ring, count: nat, qd: nat, s: Schedule): Schedule
    requires qd > 0 && s.submitted <= count
    decreases count - Completed(s)
  {
    if Completed(s) < count then Finished(ring, count, qd, Turn(ring, count, qd, s)) else s
  }
}

/** The workload loop itself: it keeps up to qd commands outstanding, each in a buffer slot
    of its own, and carries runtime self-checks.  The ring decides how many SQEs it grants,
    which outstanding command completes next and how many completions one wait returns. */
module SlotScheduler {
  import opened Bitmap
  import opened FreeSlots
  import opened RingSchedule
  import opened SlotInvariant
  import opened Wrappers

  /** A monotonic clock that has started and stays below 2^63 ns. */
  ghost predicate GoodClock(ring: Ring) {
    && (forall m, n | 0 <= m <= n :: Now(ring, m) <= Now(ring, n))
    && (forall n: nat :: 0 < Now(ring, n) < LATENCY_DONE_BIT)
  }

  /** set_fatal: the first failing check is the one reported. */
  function Check(fatal: Option<string>, fails: bool, stage: string): Option<string> {
    if fatal.None? && fails then Some(stage) else fatal
  }

  class Workload {
    const count: nat
    const qd: nat
    const slots: nat
    const free: FreeSlotQueue
    const times: array<nat>
    const owner: array<nat>
    const busy: array<bool>
    const touched: array<bv8>
    var nTouched: nat
    var submitted: nat
    var completed: nat
    var errors: nat
    var firstCqeRes: int
    var inflight: seq<nat>
    ghost var began: seq<nat>
    ghost var ended: seq<nat>

    ghost predicate Shape()
      reads this, free, free.slots
    {
      && free.Valid() && free.slots.Length == slots
      && times.Length == owner.Length == count && busy.Length == slots && touched.Length == (slots + 7) / 8
      && Apart()
    }

    /** The arrays are different objects. */
    ghost predicate Apart()
    {
      && free.slots != times && free.slots != owner && times != owner
      && busy as object != touched && busy as object != times && busy as object != owner && busy as object != free.slots
      && touched as object != times && touched as object != owner && touched as object != free.slots
    }

    ghost function V(): View
      requires Shape()
      reads this, free, free.slots, times, owner, busy, touched
    {
      View(slots, count, qd, free.Contents, times[..], owner[..], busy[..], touched[..], nTouched,
           submitted, completed, inflight, began, ended)
    }

    /** Holds always.  Asserting it opens the invariant, which is otherwise passed on unread. */
    ghost predicate Open(key: nat) {
      true
    }

    /** The invariant. */
    ghost predicate Valid(stamped: nat, now: nat)
      reads this, free, free.slots, times, owner, busy, touched
    {
      forall key: nat {:trigger Open(key)} :: Open(key) ==> Shape() && Inv(V(), stamped, now)
    }

    /** Where the run stands in the schedule of its ring. */
    ghost function S(calls: nat): Schedule
      reads this
    {
      Schedule(calls, submitted, inflight, began, ended, errors, firstCqeRes)
    }

    ghost function Q(calls: nat): Queue
      reads this
    {
      Queue(calls, submitted, |inflight|)
    }

    /** What the invariant says about the numbers of commands. */
    lemma Numbers(stamped: nat, now: nat)
      requires Valid(stamped, now)
      ensures |inflight| == submitted - completed <= qd && submitted <= count && |ended| == count
      ensures forall a | 0 <= a < |inflight| :: inflight[a] < count
    {
      assert Open(0);
    }

    lemma QueueIsFilled(ring: Ring, calls: nat, stamped: nat, now: nat)
      requires Valid(stamped, now) && qd <= slots
      requires submitted >= count || submitted - completed >= qd || free.count == 0
      ensures Filled(ring, count, qd, Q(calls)) == Q(calls)
    {
      assert Open(0);
      QueueIsFull(V(), ring, calls);
    }

    /** What it says at the end. */
    lemma AllDone(now: nat)
      requires Valid(submitted, now) && completed == count
      ensures Shape() && submitted == count && |free.Contents| == slots && (forall s | 0 <= s < slots :: !busy[s])
      ensures nTouched == Min(count, slots) && Latencies(times[..], began, ended)
      ensures forall s: nat | s < slots :: Test(touched[..], s) <==> s < Min(count, slots)
    {
      assert Open(0);
      DoneMeans(V(), now);
    }

    constructor (count: nat, qd: nat, slots: nat)
      requires 0 < qd <= slots
      ensures this.count == count && this.qd == qd && this.slots == slots
      ensures fresh(free) && fresh(free.slots) && fresh(times) && fresh(owner) && fresh(busy) && fresh(touched)
      ensures Shape() && S(0) == Start(count) && completed == 0
      ensures forall now: nat | now < LATENCY_DONE_BIT :: Valid(0, now)
    {
      this.count, this.qd, this.slots := count, qd, slots;
      free := new FreeSlotQueue(slots);
      times := new nat[count](_ => 0);
      owner := new nat[count](_ => 0);
      busy := new bool[slots](_ => false);
      touched := new bv8[(slots + 7) / 8](_ => 0);
      nTouched, submitted, completed, errors, firstCqeRes, inflight := 0, 0, 0, 0, 0, [];
      began, ended := seq(count, _ => 0), seq(count, _ => 0);
      new;
      HoldsNothing(touched[..], slots);
      assert Fresh(V());
      forall now: nat | now < LATENCY_DONE_BIT ensures Valid(0, now) {
        FreshInv(V(), now);
      }
    }

    method MarkTouched(slot: nat)
      requires slot / 8 < touched.Length
      modifies this`nTouched, touched
      ensures touched[..] == Marked(old(touched[..]), slot)
      ensures nTouched == old(nTouched) + NewMarks(old(touched[..]), slot)
    {
      if touched[slot / 8] & Mask(slot % 8) == 0 {
        touched[slot / 8] := touched[slot / 8] | Mask(slot % 8);
        nTouched := nTouched + 1;
      }
    }

    method Record(slot: nat)
      requires Apart() && slot < busy.Length && slot / 8 < touched.Length && submitted < owner.Length
      modifies this`nTouched, this`submitted, this`inflight, owner, busy, touched
      ensures busy[..] == old(busy[..])[slot := true] && owner[..] == old(owner[..])[old(submitted) := slot]
      ensures touched[..] == Marked(old(touched[..]), slot)
      ensures nTouched == old(nTouched) + NewMarks(old(touched[..]), slot)
      ensures submitted == old(submitted) + 1 && inflight == old(inflight) + [old(submitted)]
    {
      busy[slot] := true;
      owner[submitted] := slot;
      MarkTouched(slot);
      inflight := inflight + [submitted];
      submitted := submitted + 1;
    }

    /** Take a slot for the next command and record it everywhere. */
    method TakeAndRecord() returns (fails: bool)
      requires Shape() && submitted < count && free.Contents != [] && free.Contents[0] < slots
      modifies this`nTouched, this`submitted, this`inflight, free, owner, busy, touched
      ensures Shape() && V() == AfterSubmit(old(V()))
      ensures fails == old(busy[free.Contents[0]])
    {
      ghost var v := V();
      var ok, slot := free.Take();
      assert slot == v.free[0] && free.Contents == v.free[1..];
      fails := !ok || busy[slot];
      Record(slot);
      assert free.Contents == v.free[1..] && times[..] == v.times;
      assert owner[..] == v.owner[v.submitted := slot] && busy[..] == v.busy[slot := true];
      assert touched[..] == Marked(v.touched, slot) && nTouched == v.nTouched + NewMarks(v.touched, slot);
    }

    method Submit(ghost stamped: nat, ghost now: nat) returns (fails: bool)
      requires Valid(stamped, now) && submitted < count && free.count > 0
      requires submitted - completed < qd
      modifies this`nTouched, this`submitted, this`inflight, free, owner, busy, touched
      ensures !fails && Valid(stamped, now)
      ensures submitted == old(submitted) + 1 && inflight == old(inflight) + [old(submitted)]
    {
      assert Open(0);
      SubmitKeepsInv(V(), stamped, now);
      fails := TakeAndRecord();
    }

    /** All commands of a batch get the same submission time. */
    method StampTimes(first: nat, t: nat)
      requires first <= submitted <= times.Length
      modifies times
      ensures forall q | 0 <= q < times.Length :: times[q] == if first <= q < submitted then t else old(times[q])
    {
      ghost var before := times[..];
      var q := first;
      while q < submitted
        invariant first <= q <= submitted <= times.Length
        invariant forall r | 0 <= r < times.Length :: times[r] == if first <= r < q then t else before[r]
      {
        times[q] := t;
        q := q + 1;
      }
    }

    method Stamp(first: nat, t: nat, ghost now: nat)
      requires Valid(first, now) && first <= submitted && 0 < t && now <= t < LATENCY_DONE_BIT
      modifies this`began, times
      ensures Valid(submitted, t)
      ensures began == Overwritten(old(began), first, submitted, t)
    {
      assert Open(0);
      ghost var v := V();
      StampKeepsInv(v, first, now, t);
      StampTimes(first, t);
      began := Overwritten(began, first, submitted, t);
      assert times[..] == AfterStamp(v, first, t).times;
    }

    method CountError(res: int)
      modifies this`errors, this`firstCqeRes
      ensures errors == old(errors) + if res == 0 then 0 else 1
      ensures firstCqeRes == if res != 0 && old(errors) == 0 then res else old(firstCqeRes)
    {
      if res != 0 {
        if errors == 0 {
          firstCqeRes := res;
        }
        errors := errors + 1;
      }
    }

    /** The latency replaces the time, and the slot is free again. */
    method Settle(q: nat, slot: nat, latency: nat) returns (ok: bool)
      requires Shape() && q < count && slot < slots && |free.Contents| < slots
      modifies free, free.slots, times, busy
      ensures Shape() && ok && free.Contents == old(free.Contents) + [slot]
      ensures times[..] == old(times[..])[q := latency + LATENCY_DONE_BIT] && busy[..] == old(busy[..])[slot := false]
    {
      times[q] := latency + LATENCY_DONE_BIT;
      busy[slot] := false;
      ok := free.Release(slot);
    }

    /** The bookkeeping of one completion. */
    method Retire(k: nat, q: nat, slot: nat, latency: nat, res: int, ghost t: nat) returns (ok: bool)
      requires Shape() && k < |inflight| && q == inflight[k] && q < count && slot == owner[q] && slot < slots
      requires |free.Contents| < slots && |ended| == count
      modifies this`inflight, this`completed, this`ended, this`errors, this`firstCqeRes, free, free.slots, times, busy
      ensures Shape() && ok && V() == AfterComplete(old(V()), k, latency, t)
      ensures errors == old(errors) + if res == 0 then 0 else 1
      ensures firstCqeRes == if res != 0 && old(errors) == 0 then res else old(firstCqeRes)
    {
      ok := Settle(q, slot, latency);
      CountError(res);
      inflight := Without(inflight, k);
      completed := completed + 1;
      ended := ended[q := t];
    }

    /** The checks on one completion queue entry. */
    method CheckEntry(k: nat, t: nat) returns (fatal: Option<string>, q: nat, slot: nat, latency: nat)
      requires Shape() && Valid(submitted, t) && k < |inflight|
      ensures fatal.None? && q == inflight[k] && q < count && slot == owner[q] && slot < slots
      ensures latency + times[q] == t && |free.Contents| < slots
    {
      assert Open(0);
      q := inflight[k];
      InflightHas(V(), k, t);
      fatal := Check(None, q >= count || times[q] == 0 || times[q] >= LATENCY_DONE_BIT, "cqe-sequence");
      slot := owner[q];
      fatal := Check(fatal, !busy[slot], "cqe-slot-ownership");
      fatal := Check(fatal, t < times[q], "command-clock-order");
      latency := t - times[q];
      fatal := Check(fatal, latency >= LATENCY_DONE_BIT, "command-latency");
    }

    /** One completion queue entry, from its checks to the release of its slot. */
    method Complete(k: nat, t: nat, res: int, ghost now: nat) returns (fatal: Option<string>)
      requires Valid(submitted, now) && k < |inflight| && now <= t < LATENCY_DONE_BIT
      modifies this`inflight, this`completed, this`ended, this`errors, this`firstCqeRes, free, free.slots, times, busy
      ensures fatal.None? && Valid(submitted, t) && completed == old(completed) + 1
      ensures inflight == Without(old(inflight), k)
      ensures old(inflight)[k] < |old(ended)| && ended == old(ended)[old(inflight)[k] := t]
      ensures errors == old(errors) + if res == 0 then 0 else 1
      ensures firstCqeRes == if res != 0 && old(errors) == 0 then res else old(firstCqeRes)
    {
      assert Open(0);
      LaterIsFine(V(), submitted, now, t);
      var q, slot, latency;
      fatal, q, slot, latency := CheckEntry(k, t);
      CompleteKeepsInv(V(), k, latency, t);
      var ok := Retire(k, q, slot, latency, res, t);
      fatal := Check(fatal, !ok, "release-free-slot");
    }

    /** The completion that the ring delivers next. */
    method Deliver(ring: Ring, call: nat, ghost now: nat) returns (fatal: Option<string>, calls: nat)
      requires Valid(submitted, now) && GoodClock(ring) && now <= Now(ring, call) && inflight != []
      modifies this`inflight, this`completed, this`ended, this`errors, this`firstCqeRes, free, free.slots, times, busy
      ensures fatal.None? && Valid(submitted, Now(ring, call)) && completed == old(completed) + 1
      ensures calls == call + 1 && S(calls) == Delivered(ring, old(S(call)))
    {
      ghost var s := S(call);
      var k := Pick(ring, call, |inflight|);
      fatal := Complete(k, Now(ring, call), Res(ring, call), now);
      calls := call + 1;
      DeliveredIs(ring, s, S(calls), k);
    }

    /** Fill the queue: submit until all commands are out, qd are outstanding, no slot is free
        or the ring grants no SQE.  It grants one whenever nothing is outstanding. */
    method SubmitBatch(ring: Ring, call: nat, ghost now: nat) returns (fatal: Option<string>, calls: nat)
      requires Valid(submitted, now) && qd <= slots
      modifies this`nTouched, this`submitted, this`inflight, free, owner, busy, touched
      ensures fatal.None? && Valid(old(submitted), now)
      ensures Q(calls) == Filled(ring, count, qd, old(Q(call)))
      ensures old(submitted) <= submitted && inflight == old(inflight) + Range(old(submitted), submitted)
    {
      fatal, calls := None, call;
      ghost var first, filled := submitted, Filled(ring, count, qd, Q(call));
      var granted := true;
      while fatal.None? && submitted < count && submitted - completed < qd && free.count > 0 && granted
        invariant fatal.None? && Valid(first, now)
        invariant first <= submitted && inflight == old(inflight) + Range(first, submitted)
        invariant filled == if granted then Filled(ring, count, qd, Q(calls)) else Q(calls)
        decreases count - submitted, granted
      {
        RangeSnoc(old(inflight), first, submitted);
        granted, fatal := SubmitOne(ring, calls, first, now);
        calls := calls + 1;
      }
      if granted {
        QueueIsFilled(ring, calls, first, now);
      }
    }

    /** Ask the ring for an SQE and, if it grants one, submit the next command. */
    method SubmitOne(ring: Ring, call: nat, ghost stamped: nat, ghost now: nat)
        returns (granted: bool, fatal: Option<string>)
      requires Valid(stamped, now)
      requires submitted < count && submitted - completed < qd && free.count > 0
      modifies this`nTouched, this`submitted, this`inflight, free, owner, busy, touched
      ensures fatal.None? && Valid(stamped, now)
      ensures Filled(ring, count, qd, old(Q(call))) ==
              if granted then Filled(ring, count, qd, Q(call + 1)) else Q(call + 1)
      ensures if granted then submitted == old(submitted) + 1 && inflight == old(inflight) + [old(submitted)]
              else submitted == old(submitted) && inflight == old(inflight)
    {
      fatal := None;
      Numbers(stamped, now);
      FilledStep(ring, count, qd, Q(call));
      granted := submitted == completed || Grants(ring, call);
      if granted {
        var fails := Submit(stamped, now);
        fatal := Check(fatal, fails, "take-free-slot");
      }
    }

    /** Reap completions in whatever order and number the ring delivers them, at least one. */
    method Reap(ring: Ring, call: nat, ghost now: nat) returns (fatal: Option<string>, calls: nat)
      requires Valid(submitted, now) && GoodClock(ring) && now <= Now(ring, call) && inflight != []
      modifies this`inflight, this`completed, this`ended, this`errors, this`firstCqeRes, free, free.slots, times, busy
      ensures fatal.None? && completed > old(completed)
      ensures calls > 0 && Valid(submitted, Now(ring, calls - 1))
      ensures S(calls) == Drained(ring, Delivered(ring, old(S(call))))
    {
      fatal, calls := Deliver(ring, call, now);
      ghost var last, drained := call, Drained(ring, S(calls));
      while fatal.None? && inflight != [] && More(ring, calls)
        invariant fatal.None? && completed > old(completed) && calls == last + 1
        invariant Valid(submitted, Now(ring, last)) && Drained(ring, S(calls)) == drained
        decreases |inflight|
      {
        ghost var before := last;
        last := calls;
        fatal, calls := Deliver(ring, calls, Now(ring, before));
      }
    }

    /** The whole workload.  Whatever the ring does, no self-check fires, every command
        completes, every slot comes back and exactly min(count, slots) slots were used.  The
        latency of a command is the time from the call that stamped it to the call that delivered
        it, both given by the schedule of the ring alone, and so are the errors. */
    method Run(ring: Ring) returns (fatal: Option<string>)
      requires Shape() && 0 < qd <= slots && GoodClock(ring)
      requires S(0) == Start(count) && completed == 0 && Valid(0, 0)
      modifies this, free, free.slots, times, owner, busy, touched
      ensures Shape() && fatal.None? && completed == submitted == count
      ensures |free.Contents| == slots && (forall s | 0 <= s < slots :: !busy[s])
      ensures nTouched == Min(count, slots)
      ensures forall s: nat | s < slots :: Test(touched[..], s) <==> s < Min(count, slots)
      ensures var end := Finished(ring, count, qd, Start(count));
              && Latencies(times[..], end.began, end.ended)
              && errors == end.errors && firstCqeRes == end.firstRes
    {
      fatal := None;
      var calls: nat := 0;
      ghost var now: nat := 0;
      Numbers(0, 0);
      while fatal.None? && completed < count
        invariant fatal.None? && now <= Now(ring, calls) && Valid(submitted, now)
        invariant submitted <= count && submitted - |inflight| == completed
        invariant Finished(ring, count, qd, S(calls)) == Finished(ring, count, qd, Start(count))
        decreases count - completed
      {
        fatal, calls := Round(ring, calls, now);
        now := Now(ring, calls - 1);
        Numbers(submitted, now);
      }
      AllDone(now);
      fatal := Check(fatal, free.count != slots, "free-slot-accounting");
      var stage := Validate();
      fatal := if fatal.None? then stage else fatal;
    }

    /** One turn of the loop: fill the queue, stamp the batch, wait for completions. */
    method Round(ring: Ring, call: nat, ghost now: nat) returns (fatal: Option<string>, calls: nat)
      requires Valid(submitted, now) && GoodClock(ring) && now <= Now(ring, call)
      requires 0 < qd <= slots && completed < count && submitted <= count && submitted - |inflight| == completed
      modifies this, free, free.slots, times, owner, busy, touched
      ensures fatal.None? && completed > old(completed)
      ensures calls > 0 && Valid(submitted, Now(ring, calls - 1))
      ensures S(calls) == Turn(ring, count, qd, old(S(call)))
    {
      fatal, calls := Fill(ring, call, now);
      if fatal.None? {
        fatal, calls := Reap(ring, calls, Now(ring, calls));
      }
    }

    /** Submit a batch and stamp it with the time of submission. */
    method Fill(ring: Ring, call: nat, ghost now: nat) returns (fatal: Option<string>, calls: nat)
      requires Valid(submitted, now) && GoodClock(ring) && now <= Now(ring, call)
      requires 0 < qd <= slots && completed < count
      modifies this`nTouched, this`submitted, this`inflight, this`began, free, times, owner, busy, touched
      ensures fatal.None? && calls >= call
      ensures Valid(submitted, Now(ring, calls)) && inflight != []
      ensures S(calls) == Stamping(ring, count, qd, old(S(call)))
    {
      var first := submitted;
      Numbers(first, now);
      fatal, calls := SubmitBatch(ring, call, now);
      Numbers(first, now);
      fatal := Check(fatal, first == submitted && submitted == completed, "prepare-sqe");
      Stamp(first, Now(ring, calls), now);
    }

    /** The final validation of the slot state. */
    method Validate() returns (fatal: Option<string>)
      requires busy.Length == slots
      ensures fatal == if exists s | 0 <= s < slots :: busy[s] then Some("slot-still-inflight")
                       else if nTouched != Min(count, slots) then Some("touched-slot-validation")
                       else None
    {
      var anyBusy, s := false, 0;
      while s < slots
        invariant s <= slots && (anyBusy <==> exists k | 0 <= k < s :: busy[k])
      {
        anyBusy := anyBusy || busy[s];
        s := s + 1;
      }
      fatal := Check(None, anyBusy, "slot-still-inflight");
      fatal := Check(fatal, nTouched != Min(count, slots), "touched-slot-validation");
    }
  }
}
