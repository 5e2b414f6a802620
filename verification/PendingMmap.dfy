/** The pending-mmap table (syscall_replayer.c): the arguments of an mmap entry record
    wait under (pid, timestamp) for the exit record.  Clearing a slot leaves no
    tombstone, so later lookups can stop early at the hole. */
module PendingMmap {
  import opened Probing
  import opened Wrappers

  const MMAP_PENDING_MAX: nat := 1024

  datatype Key = Key(pid: bv32, timestampNs: bv64)

  datatype Args = Args(prot: int, mapFlags: int, mmapLen: nat, resolvedFd: int, offset: int)

  function Hash(k: Key): nat {
    ((((k.pid as bv64) * 2654435761) ^ k.timestampNs) % 1024) as nat
  }

  type Table = seq<Slot<Key, Args>>

  datatype Op = Set(k: Key, v: Args) | Clear(k: Key)

  /** The table itself: three probe loops over one array. */
  class PendingTable {
    const slots: array<Slot<Key, Args>>

    constructor ()
      ensures fresh(slots) && slots.Length == MMAP_PENDING_MAX
      ensures slots[..] == Empty(MMAP_PENDING_MAX)
    {
      slots := new Slot<Key, Args>[MMAP_PENDING_MAX](_ => Vacant);
    }

    method Set(k: Key, v: Args) returns (rc: int)
      modifies slots
      ensures slots[..] == Put(old(slots[..]), Hash(k), k, v)
      ensures rc == if Locate(old(slots[..]), Hash(k), k).Some? then 0 else -1
    {
      var r := Probe(slots, Hash(k), k);
      match r
      case Some(b) =>
        slots[b] := Taken(k, v);
        rc := 0;
      case None =>
        rc := -1;
    }

    method Get(k: Key) returns (r: Option<Args>)
      ensures r == Lookup(slots[..], Hash(k), k)
    {
      var p := Probe(slots, Hash(k), k);
      if p.Some? && slots[p.value].Taken? {
        r := Some(slots[p.value].val);
      } else {
        r := None;
      }
    }

    method Clear(k: Key)
      modifies slots
      ensures slots[..] == Remove(old(slots[..]), Hash(k), k)
    {
      var r := Probe(slots, Hash(k), k);
      if r.Some? && slots[r.value].Taken? {
        slots[r.value] := Vacant;
      }
    }
  }

  function Empty(n: nat): Table {
    seq(n, _ => Vacant)
  }

  function Apply(hash: Key -> nat, t: Table, op: Op): (t': Table)
    ensures |t'| == |t|
  {
    match op
    case Set(k, v) => Put(t, hash(k), k, v)
    case Clear(k) => Remove(t, hash(k), k)
  }

  /** The table after a run of operations on an empty table of n slots.  Everything below
      holds for any hash function; the class above uses `Hash`. */
  function After(hash: Key -> nat, n: nat, ops: seq<Op>): (t: Table)
    ensures |t| == n
  {
    if ops == [] then Empty(n) else Apply(hash, After(hash, n, ops[..|ops| - 1]), ops[|ops| - 1])
  }

  lemma AfterSnoc(hash: Key -> nat, n: nat, ops: seq<Op>, m: nat)
    requires m < |ops|
    ensures After(hash, n, ops[..m + 1]) == Apply(hash, After(hash, n, ops[..m]), ops[m])
  {
    assert ops[..m + 1][..m] == ops[..m];
  }

  /** Each (pid, timestamp) names one mmap call, so it is set at most once. */
  ghost predicate SetOnce(ops: seq<Op>) {
    forall i, j | 0 <= i < j < |ops| && ops[i].Set? && ops[j].Set? :: ops[i].k != ops[j].k
  }

  /** The slots that operation op would turn vacant. */
  function Vacates(hash: Key -> nat, t: Table, op: Op): set<nat> {
    if op.Clear? && Locate(t, hash(op.k), op.k).Some? && Lookup(t, hash(op.k), op.k).Some?
    then {Locate(t, hash(op.k), op.k).value}
    else {}
  }

  /** The slots turned vacant by the operations after the m-th. */
  function EmptiedSince(hash: Key -> nat, n: nat, ops: seq<Op>, m: nat): set<nat> {
    if |ops| <= m + 1 then {}
    else EmptiedSince(hash, n, ops[..|ops| - 1], m) + Vacates(hash, After(hash, n, ops[..|ops| - 1]), ops[|ops| - 1])
  }

  /** Operation j of the run vacated slot b. */
  ghost predicate VacatedBy(hash: Key -> nat, n: nat, ops: seq<Op>, j: nat, b: nat) {
    j < |ops| && b in Vacates(hash, After(hash, n, ops[..j]), ops[j])
  }

  lemma VacatedByPrefix(hash: Key -> nat, n: nat, ops: seq<Op>, j: nat, b: nat)
    requires j < |ops| - 1
    ensures VacatedBy(hash, n, ops[..|ops| - 1], j, b) <==> VacatedBy(hash, n, ops, j, b)
  {
    assert ops[..|ops| - 1][..j] == ops[..j];
  }

  /** A slot was emptied since if and only if some later operation vacated it when it ran. */
  lemma {:induction false} EmptiedMeans(hash: Key -> nat, n: nat, ops: seq<Op>, m: nat, b: nat)
    ensures b in EmptiedSince(hash, n, ops, m) <==> exists j: nat | m < j :: VacatedBy(hash, n, ops, j, b)
    decreases |ops|
  {
    if |ops| > m + 1 {
      var last := |ops| - 1;
      EmptiedMeans(hash, n, ops[..last], m, b);
      assert VacatedBy(hash, n, ops, last, b) <==> b in Vacates(hash, After(hash, n, ops[..last]), ops[last]);
      if j: nat :| m < j && VacatedBy(hash, n, ops[..last], j, b) {
        VacatedByPrefix(hash, n, ops, j, b);
      }
      if j: nat :| m < j < last && VacatedBy(hash, n, ops, j, b) {
        VacatedByPrefix(hash, n, ops, j, b);
      }
    }
  }

  /** Operation m of the run stored its arguments on the d-th probe. */
  ghost predicate StoredAt(hash: Key -> nat, n: nat, ops: seq<Op>, m: nat, d: nat)
    requires m < |ops| && d < n
  {
    && ops[m].Set?
    && Locate(After(hash, n, ops[..m]), hash(ops[m].k), ops[m].k) == Some(At(n, hash(ops[m].k), d))
    && PathBusy(After(hash, n, ops[..m]), hash(ops[m].k), ops[m].k, d)
  }

  /** A successful set has such a d. */
  lemma SetStores(hash: Key -> nat, n: nat, ops: seq<Op>, m: nat) returns (d: nat)
    requires m < |ops| && ops[m].Set?
    requires Locate(After(hash, n, ops[..m]), hash(ops[m].k), ops[m].k).Some?
    ensures d < n && StoredAt(hash, n, ops, m, d)
  {
    d := LocateFromPath(After(hash, n, ops[..m]), hash(ops[m].k), ops[m].k, 0);
  }

  /** SOUNDNESS: whatever a slot holds was stored by a set of the run. */
  lemma {:induction false} SlotsWereSet(hash: Key -> nat, n: nat, ops: seq<Op>, b: nat) returns (m: nat)
    requires b < n && After(hash, n, ops)[b].Taken?
    ensures m < |ops| && ops[m] == Set(After(hash, n, ops)[b].key, After(hash, n, ops)[b].val)
    decreases |ops|
  {
    if ops == [] {
      assert false;
    }
    var last := |ops| - 1;
    if After(hash, n, ops[..last])[b] == After(hash, n, ops)[b] {
      m := SlotsWereSet(hash, n, ops[..last], b);
    } else {
      m := last;
    }
  }

  /** A lookup returns nothing or exactly the arguments stored for that key. */
  lemma LookupSound(hash: Key -> nat, n: nat, ops: seq<Op>, k: Key)
    ensures var r := Lookup(After(hash, n, ops), hash(k), k);
            && (r.Some? ==> Set(k, r.value) in ops)
            && (SetOnce(ops) ==> forall m | 0 <= m < |ops| && ops[m].Set? && ops[m].k == k ::
                  r == None || r == Some(ops[m].v))
  {
    var t := After(hash, n, ops);
    var r := Locate(t, hash(k), k);
    if r.Some? && t[r.value].Taken? {
      var m' := SlotsWereSet(hash, n, ops, r.value);
    }
  }

  /** One operation changes a slot only by storing its own key there or by emptying it. */
  lemma ApplyChanges(hash: Key -> nat, t: Table, op: Op, b: nat)
    requires b < |t| && Apply(hash, t, op)[b] != t[b]
    ensures op.Set? ==> Stops(t[b], op.k) && Apply(hash, t, op)[b] == Taken(op.k, op.v)
    ensures op.Clear? ==> b in Vacates(hash, t, op) && Apply(hash, t, op)[b].Vacant?
  {
  }

  /** What a stored key can rely on after any further operations: its slot is untouched ... */
  lemma {:induction false} StoredStays(hash: Key -> nat, n: nat, ops: seq<Op>, m: nat, d: nat)
    requires SetOnce(ops) && m < |ops| && d < n && StoredAt(hash, n, ops, m, d)
    requires At(n, hash(ops[m].k), d) !in EmptiedSince(hash, n, ops, m)
    ensures After(hash, n, ops)[At(n, hash(ops[m].k), d)] == Taken(ops[m].k, ops[m].v)
    decreases |ops|
  {
    var last, b := |ops| - 1, At(n, hash(ops[m].k), d);
    if last != m {
      var t := After(hash, n, ops[..last]);
      assert ops[..last][..m] == ops[..m];
      StoredStays(hash, n, ops[..last], m, d);
      if Apply(hash, t, ops[last])[b] != t[b] {
        ApplyChanges(hash, t, ops[last], b);
      }
    }
  }

  /** ... and an earlier slot of its path holds another key, or is vacant and was emptied since. */
  lemma {:induction false} PathStays(hash: Key -> nat, n: nat, ops: seq<Op>, m: nat, d: nat, i: nat)
    requires SetOnce(ops) && m < |ops| && i < d < n && StoredAt(hash, n, ops, m, d)
    ensures var b := At(n, hash(ops[m].k), i);
            var s := After(hash, n, ops)[b];
            !Stops(s, ops[m].k) || (s.Vacant? && b in EmptiedSince(hash, n, ops, m))
    decreases |ops|
  {
    var last, b := |ops| - 1, At(n, hash(ops[m].k), i);
    if last == m {
      if At(n, hash(ops[m].k), d) == b {
        AtInjective(n, hash(ops[m].k), i, d);
      }
    } else {
      var t := After(hash, n, ops[..last]);
      assert ops[..last][..m] == ops[..m];
      PathStays(hash, n, ops[..last], m, d, i);
      if Apply(hash, t, ops[last])[b] != t[b] {
        ApplyChanges(hash, t, ops[last], b);
      }
    }
  }

  /** COMPLETENESS: a stored key whose slot was not emptied is found, with its own arguments,
      exactly when no earlier slot of its probe path is vacant now ... */
  lemma LookupFindsIff(hash: Key -> nat, n: nat, ops: seq<Op>, m: nat, d: nat)
    requires SetOnce(ops) && m < |ops| && d < n && StoredAt(hash, n, ops, m, d)
    requires At(n, hash(ops[m].k), d) !in EmptiedSince(hash, n, ops, m)
    ensures Lookup(After(hash, n, ops), hash(ops[m].k), ops[m].k) == Some(ops[m].v)
            <==> forall i | 0 <= i < d :: After(hash, n, ops)[At(n, hash(ops[m].k), i)].Taken?
    ensures Lookup(After(hash, n, ops), hash(ops[m].k), ops[m].k) != Some(ops[m].v)
            ==> Lookup(After(hash, n, ops), hash(ops[m].k), ops[m].k) == None
  {
    var k, h, t := ops[m].k, hash(ops[m].k), After(hash, n, ops);
    StoredStays(hash, n, ops, m, d);
    forall i | 0 <= i < d
      ensures t[At(n, h, i)].Taken? ==> t[At(n, h, i)].key != k
    {
      PathStays(hash, n, ops, m, d, i);
    }
    if PathBusy(t, h, k, d) {
      LocateFromIs(t, h, k, 0, d);
    } else {
      var e := LocateFromPath(t, h, k, 0);
      assert e < d;
    }
  }

  /** ... so after a successful set, a key that was not cleared is missed only if a slot earlier
      on its path was cleared after it was stored. */
  lemma MissIsExplained(hash: Key -> nat, n: nat, ops: seq<Op>, m: nat) returns (d: nat, i: nat)
    requires SetOnce(ops) && m < |ops| && ops[m].Set?
    requires var r := Locate(After(hash, n, ops[..m]), hash(ops[m].k), ops[m].k);
             r.Some? && r.value !in EmptiedSince(hash, n, ops, m)
    requires Lookup(After(hash, n, ops), hash(ops[m].k), ops[m].k) != Some(ops[m].v)
    ensures i < d < n && StoredAt(hash, n, ops, m, d)
    ensures At(n, hash(ops[m].k), i) in EmptiedSince(hash, n, ops, m)
  {
    d := SetStores(hash, n, ops, m);
    LookupFindsIff(hash, n, ops, m, d);
    i :| 0 <= i < d && After(hash, n, ops)[At(n, hash(ops[m].k), i)].Vacant?;
    PathStays(hash, n, ops, m, d, i);
  }

  /** The hole is real: of any two colliding calls, clearing the first hides the second. */
  lemma ClearHidesCollidingKey(hash: Key -> nat, n: nat, a: Key, b: Key, va: Args, vb: Args)
    requires n >= 2 && a != b && hash(a) % n == hash(b) % n
    ensures var ops := [Set(a, va), Set(b, vb), Clear(a)];
            && SetOnce(ops)
            && Lookup(After(hash, n, ops[..2]), hash(b), b) == Some(vb)
            && Lookup(After(hash, n, ops), hash(b), b) == None
  {
    var ops := [Set(a, va), Set(b, vb), Clear(a)];
    var h := hash(b);
    assert forall x: nat :: At(n, x, 0) == x % n;
    var p, q := At(n, h, 0), At(n, h, 1);
    if p == q {
      AtInjective(n, h, 0, 1);
    }
    AfterSnoc(hash, n, ops, 0);
    AfterSnoc(hash, n, ops, 1);
    AfterSnoc(hash, n, ops, 2);
    assert ops[..0] == [] && ops[..3] == ops;
    var t0 := Empty(n);
    var t1 := t0[p := Taken(a, va)];
    LocateFromIs(t0, hash(a), a, 0, 0);
    assert After(hash, n, ops[..1]) == t1;
    var t2 := t1[q := Taken(b, vb)];
    LocateFromIs(t1, h, b, 0, 1);
    assert After(hash, n, ops[..2]) == t2;
    LocateFromIs(t2, h, b, 0, 1);
    LocateFromIs(t2, hash(a), a, 0, 0);
    var t3 := t2[p := Vacant];
    assert After(hash, n, ops) == t3;
    LocateFromIs(t3, h, b, 0, 0);
  }
}
