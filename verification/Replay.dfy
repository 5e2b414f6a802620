/** The replay engine (syscall_replayer.c): one reader routes the records of a capture to
    per-pid workers over bounded queues, each worker takes its records in order, meets the
    other workers at the write barrier before each I/O record, dispatches the record and
    counts the outcome, and the reader finally shuts every queue down.  `Step` runs reader
    and workers in every possible interleaving. */
module Replay {
  import BarrierCounters
  import opened RingBuffer
  import opened SetSizes
  import opened Wrappers

  const MAX_WORKERS: nat := 256

  /** A parsed record; `body` stands for the fields the scheduling does not look at. */
  datatype Record = Record(pid: nat, nr: int, ret: int, body: nat)

  /** `parties` is the number of pids the barrier was set up for before the replay starts. */
  datatype Mode = Mode(serial: bool, verify: bool, parties: nat)

  /** The barrier exists in per-process mode with at least two pids. */
  predicate BarrierOn(mode: Mode) {
    !mode.serial && mode.parties >= 2
  }

  predicate IsIo(nr: int) {
    nr == 0 || nr == 1 || nr == 17 || nr == 18 || nr == 19 || nr == 20 || nr == 74
  }

  /** What became of a dispatched record. */
  datatype Class = Ok | Failed | Skipped | Mismatch

  /** Syscalls whose return values differ between capture and replay by nature. */
  predicate ReturnsExempt(nr: int) {
    nr == 9 || nr == 11 || nr == 2 || nr == 257
  }

  function Classify(mode: Mode, r: Record, actualRet: int): Class {
    if actualRet == -2 then Skipped
    else if actualRet == -1 then Failed
    else if mode.verify && !ReturnsExempt(r.nr) && r.ret != -1 && actualRet != r.ret then Mismatch
    else Ok
  }

  datatype Counters = Counters(total: nat, ok: nat, failed: nat, skipped: nat, mismatch: nat)

  function Counted(c: Counters, k: Class): Counters {
    match k
    case Ok => c.(ok := c.ok + 1)
    case Failed => c.(failed := c.failed + 1)
    case Skipped => c.(skipped := c.skipped + 1)
    case Mismatch => c.(mismatch := c.mismatch + 1)
  }

  function Sorted(c: Counters): nat {
    c.ok + c.failed + c.skipped + c.mismatch
  }

  /** Where a worker stands with the record in its hand: none, on its way to the barrier,
      waiting there for a generation to close, or past it. */
  datatype Gate = Idle | Arriving | Waiting(gen: nat) | Through

  /** `inHand` is the record taken from the queue and not yet dispatched. */
  datatype Worker = Worker(key: nat, queue: seq<Record>, inHand: Option<Record>, gate: Gate,
                           shutdown: bool, exited: bool, c: Counters)

  /** Record r was handled by worker w; `ret` is what its dispatch returned (0 when routed). */
  datatype Entry = Entry(w: nat, r: Record, ret: int)

  /** `routed` is what the reader has enqueued so far, `log` what has been dispatched so
      far, both in the order in which it happened; `bar` are the barrier's counters and `late`
      the timeouts charged to its current generation by waiters of closed ones. */
  datatype State = State(routed: seq<Entry>, workers: seq<Worker>, log: seq<Entry>,
                         bar: BarrierCounters.Counters, late: nat)

  datatype Event =
    | Route
    | Shutdown(w: nat)
    | Take(w: nat)
    | Arrive(w: nat)
    | Wake(w: nat)
    | Timeout(w: nat)
    | Dispatch(w: nat, actualRet: int)
    | Exit(w: nat)

  // ---- routing ----

  function KeyOf(mode: Mode, pid: nat): nat {
    if mode.serial then 0 else pid
  }

  function Keys(ws: seq<Worker>): seq<nat> {
    seq(|ws|, i requires 0 <= i < |ws| => ws[i].key)
  }

  /** The first worker with this key; else a new one; else, with the pool full, worker 0. */
  function RouteFrom(keys: seq<nat>, key: nat, i: nat): nat
    requires i <= |keys|
    decreases |keys| - i
  {
    if i < |keys| then if keys[i] == key then i else RouteFrom(keys, key, i + 1)
    else if |keys| >= MAX_WORKERS then 0
    else |keys|
  }

  /** The lookup loop of the worker pool. */
  method PoolGet(mode: Mode, keys: seq<nat>, pid: nat) returns (w: nat)
    ensures w == RouteFrom(keys, KeyOf(mode, pid), 0)
  {
    var i := 0;
    while i < |keys|
      invariant i <= |keys|
      invariant RouteFrom(keys, KeyOf(mode, pid), 0) == RouteFrom(keys, KeyOf(mode, pid), i)
    {
      if keys[i] == KeyOf(mode, pid) {
        return i;
      }
      i := i + 1;
    }
    return if |keys| >= MAX_WORKERS then 0 else |keys|;
  }

  lemma {:induction false} RouteFromSpec(keys: seq<nat>, key: nat, i: nat)
    requires i <= |keys|
    ensures var w := RouteFrom(keys, key, i);
            if key in keys[i..] then i <= w < |keys| && keys[w] == key && key !in keys[i..w]
            else w == if |keys| >= MAX_WORKERS then 0 else |keys|
    decreases |keys| - i
  {
    if i < |keys| {
      RouteFromSpec(keys, key, i + 1);
      assert keys[i..] == [keys[i]] + keys[i + 1..];
      var w := RouteFrom(keys, key, i + 1);
      if key in keys[i + 1..] && keys[i] != key {
        assert keys[i..w] == [keys[i]] + keys[i + 1..w];
      }
    }
  }

  lemma {:induction false} RouteFromIs(keys: seq<nat>, key: nat, w: nat, i: nat)
    requires i <= w < |keys| && keys[w] == key && forall j | i <= j < w :: keys[j] != key
    ensures RouteFrom(keys, key, i) == w
    decreases w - i
  {
    if i < w {
      RouteFromIs(keys, key, w, i + 1);
    }
  }

  // ---- the transition system ----

  function Fresh(key: nat): Worker {
    Worker(key, [], None, Idle, false, false, Counters(0, 0, 0, 0, 0))
  }

  /** The pool after the reader has looked up the worker of this pid. */
  function PoolAfter(mode: Mode, ws: seq<Worker>, pid: nat): seq<Worker> {
    if RouteFrom(Keys(ws), KeyOf(mode, pid), 0) == |ws| then ws + [Fresh(KeyOf(mode, pid))] else ws
  }

  function Target(mode: Mode, ws: seq<Worker>, pid: nat): nat {
    RouteFrom(Keys(ws), KeyOf(mode, pid), 0)
  }

  lemma TargetInPool(mode: Mode, ws: seq<Worker>, pid: nat)
    ensures Target(mode, ws, pid) < |PoolAfter(mode, ws, pid)|
  {
    RouteFromSpec(Keys(ws), KeyOf(mode, pid), 0);
  }

  predicate Enabled(mode: Mode, input: seq<Record>, s: State, e: Event) {
    match e
    case Route =>
      && |s.routed| < |input|
      && var pid := input[|s.routed|].pid;
         var ws, w := PoolAfter(mode, s.workers, pid), Target(mode, s.workers, pid);
         w < |ws| && |ws[w].queue| < RING_BUF_SIZE - 1 && !ws[w].shutdown
    case Shutdown(w) => |s.routed| >= |input| && w < |s.workers| && !s.workers[w].shutdown
    case Take(w) => w < |s.workers| && !s.workers[w].exited && s.workers[w].inHand.None? && s.workers[w].queue != []
    case Arrive(w) => w < |s.workers| && s.workers[w].gate.Arriving?
    case Wake(w) => w < |s.workers| && s.workers[w].gate.Waiting? && s.workers[w].gate.gen != s.bar.generation
    case Timeout(w) => w < |s.workers| && s.workers[w].gate.Waiting?
    case Dispatch(w, _) => w < |s.workers| && s.workers[w].inHand.Some? && s.workers[w].gate.Through?
    case Exit(w) =>
      && w < |s.workers| && !s.workers[w].exited && s.workers[w].inHand.None?
      && s.workers[w].queue == [] && s.workers[w].shutdown
  }

  function Step(mode: Mode, input: seq<Record>, s: State, e: Event): State
    requires Enabled(mode, input, s, e)
  {
    match e
    case Route =>
      var r := input[|s.routed|];
      var ws, w := PoolAfter(mode, s.workers, r.pid), Target(mode, s.workers, r.pid);
      s.(routed := s.routed + [Entry(w, r, 0)], workers := ws[w := ws[w].(queue := ws[w].queue + [r])])
    case Shutdown(w) => s.(workers := s.workers[w := s.workers[w].(shutdown := true)])
    case Take(w) =>
      var k := s.workers[w];
      var gate := if BarrierOn(mode) && IsIo(k.queue[0].nr) then Arriving else Through;
      s.(workers := s.workers[w := k.(queue := k.queue[1..], inHand := Some(k.queue[0]), gate := gate,
                                      c := k.c.(total := k.c.total + 1))])
    case Arrive(w) =>
      var (bar, a) := BarrierCounters.OnArrive(s.bar);
      var gate := if a.MustWait? then Waiting(a.myGen) else Through;
      s.(workers := s.workers[w := s.workers[w].(gate := gate)], bar := bar, late := if a.Released? then 0 else s.late)
    case Wake(w) => s.(workers := s.workers[w := s.workers[w].(gate := Through)])
    case Timeout(w) =>
      s.(workers := s.workers[w := s.workers[w].(gate := Through)], bar := BarrierCounters.OnTimeout(s.bar),
         late := if s.workers[w].gate.gen != s.bar.generation then s.late + 1 else s.late)
    case Dispatch(w, actualRet) =>
      var k := s.workers[w];
      var r := k.inHand.value;
      s.(workers := s.workers[w := k.(inHand := None, gate := Idle, c := Counted(k.c, Classify(mode, r, actualRet)))],
         log := s.log + [Entry(w, r, actualRet)])
    case Exit(w) =>
      var bar := if BarrierOn(mode) then BarrierCounters.OnUnregister(s.bar) else s.bar;
      s.(workers := s.workers[w := s.workers[w].(exited := true)], bar := bar,
         late := if bar.generation != s.bar.generation then 0 else s.late)
  }

  function Init(mode: Mode): State {
    State([], [], [], BarrierCounters.Counters(mode.parties, 0, 0), 0)
  }

  ghost predicate IsRun(mode: Mode, input: seq<Record>, s: State, es: seq<Event>)
    decreases |es|
  {
    es == [] || (Enabled(mode, input, s, es[0]) && IsRun(mode, input, Step(mode, input, s, es[0]), es[1..]))
  }

  ghost function Exec(mode: Mode, input: seq<Record>, s: State, es: seq<Event>): State
    requires IsRun(mode, input, s, es)
    decreases |es|
  {
    if es == [] then s else Exec(mode, input, Step(mode, input, s, es[0]), es[1..])
  }

  predicate Finished(input: seq<Record>, s: State) {
    |s.routed| >= |input| && forall w | 0 <= w < |s.workers| :: s.workers[w].exited
  }

  // ---- projections ----

  function Records(l: seq<Entry>): (rs: seq<Record>)
    ensures |rs| == |l|
  {
    seq(|l|, i requires 0 <= i < |l| => l[i].r)
  }

  /** The records of one pid, in order. */
  function OfPid(rs: seq<Record>, pid: nat): seq<Record> {
    if rs == [] then []
    else OfPid(rs[..|rs| - 1], pid) + if rs[|rs| - 1].pid == pid then [rs[|rs| - 1]] else []
  }

  /** The records handled by one worker, in order. */
  function ByWorker(l: seq<Entry>, w: nat): seq<Record> {
    if l == [] then []
    else ByWorker(l[..|l| - 1], w) + if l[|l| - 1].w == w then [l[|l| - 1].r] else []
  }

  /** How many dispatches of worker w ended in class k. */
  function ClassCount(mode: Mode, l: seq<Entry>, w: nat, k: Class): nat {
    if l == [] then 0
    else
      var e := l[|l| - 1];
      ClassCount(mode, l[..|l| - 1], w, k) + if e.w == w && Classify(mode, e.r, e.ret) == k then 1 else 0
  }

  lemma ClassCountSnoc(mode: Mode, l: seq<Entry>, e: Entry, w: nat)
    ensures forall k :: ClassCount(mode, l + [e], w, k) ==
                        ClassCount(mode, l, w, k) + if e.w == w && Classify(mode, e.r, e.ret) == k then 1 else 0
  {
    assert (l + [e])[..|l|] == l;
  }

  ghost predicate Breakdown(mode: Mode, l: seq<Entry>, w: nat, c: Counters) {
    && c.ok == ClassCount(mode, l, w, Ok) && c.failed == ClassCount(mode, l, w, Failed)
    && c.skipped == ClassCount(mode, l, w, Skipped) && c.mismatch == ClassCount(mode, l, w, Mismatch)
  }

  lemma ByWorkerSnoc(l: seq<Entry>, e: Entry, w: nat)
    ensures ByWorker(l + [e], w) == ByWorker(l, w) + if e.w == w then [e.r] else []
  {
    assert (l + [e])[..|l|] == l;
  }

  lemma {:induction false} OfPidConcat(a: seq<Record>, b: seq<Record>, pid: nat)
    ensures OfPid(a + b, pid) == OfPid(a, pid) + OfPid(b, pid)
  {
    if b == [] {
      assert a + b == a;
    } else {
      var n := |b| - 1;
      assert (a + b)[..|a + b| - 1] == a + b[..n];
      OfPidConcat(a, b[..n], pid);
    }
  }

  /** If one worker handles all records of a pid, its share shows them in full and in order. */
  lemma {:induction false} PidThroughWorker(l: seq<Entry>, pid: nat, w: nat)
    requires forall i | 0 <= i < |l| && l[i].r.pid == pid :: l[i].w == w
    ensures OfPid(Records(l), pid) == OfPid(ByWorker(l, w), pid)
  {
    if l != [] {
      var n := |l| - 1;
      PidThroughWorker(l[..n], pid, w);
      assert Records(l)[..n] == Records(l[..n]) && Records(l)[n] == l[n].r;
      assert ByWorker(l, w) == ByWorker(l[..n], w) + if l[n].w == w then [l[n].r] else [];
      if l[n].w == w {
        OfPidConcat(ByWorker(l[..n], w), [l[n].r], pid);
        assert [l[n].r][..0] == [];
        assert OfPid([l[n].r], pid) == if l[n].r.pid == pid then [l[n].r] else [];
      } else {
        assert ByWorker(l, w) == ByWorker(l[..n], w);
        assert OfPid(Records(l), pid) == OfPid(Records(l)[..n], pid);
      }
    }
  }

  // ---- what the projections list ----

  /** The records of pid before place n. */
  ghost function PidUpTo(rs: seq<Record>, n: nat, pid: nat): set<nat>
    requires n <= |rs|
  {
    set i: nat | i < n && rs[i].pid == pid
  }

  lemma PidStep(rs: seq<Record>, n: nat, pid: nat)
    requires n < |rs|
    ensures |PidUpTo(rs, n + 1, pid)| == |PidUpTo(rs, n, pid)| + if rs[n].pid == pid then 1 else 0
  {
    assert n in PidUpTo(rs, n + 1, pid) <==> rs[n].pid == pid;
    assert PidUpTo(rs, n + 1, pid) - {n} == PidUpTo(rs, n, pid);
  }

  /** The records of a pid are listed in order: record j comes after as many as there are records of
      its pid before it. */
  lemma {:induction false} OfPidLists(rs: seq<Record>, n: nat, pid: nat)
    requires n <= |rs|
    ensures |OfPid(rs[..n], pid)| == |PidUpTo(rs, n, pid)|
    ensures forall j: nat | j < n && rs[j].pid == pid ::
              |PidUpTo(rs, j, pid)| < |OfPid(rs[..n], pid)| && OfPid(rs[..n], pid)[|PidUpTo(rs, j, pid)|] == rs[j]
    decreases n
  {
    if n > 0 {
      OfPidLists(rs, n - 1, pid);
      PidStep(rs, n - 1, pid);
      assert rs[..n][..n - 1] == rs[..n - 1];
    }
  }

  /** The dispatches of worker w before place n. */
  ghost function WorkerUpTo(l: seq<Entry>, n: nat, w: nat): set<nat>
    requires n <= |l|
  {
    set i: nat | i < n && l[i].w == w
  }

  lemma WorkerStep(l: seq<Entry>, n: nat, w: nat)
    requires n < |l|
    ensures |WorkerUpTo(l, n + 1, w)| == |WorkerUpTo(l, n, w)| + if l[n].w == w then 1 else 0
  {
    assert n in WorkerUpTo(l, n + 1, w) <==> l[n].w == w;
    assert WorkerUpTo(l, n + 1, w) - {n} == WorkerUpTo(l, n, w);
  }

  lemma {:induction false} ByWorkerLists(l: seq<Entry>, n: nat, w: nat)
    requires n <= |l|
    ensures |ByWorker(l[..n], w)| == |WorkerUpTo(l, n, w)|
    ensures forall j: nat | j < n && l[j].w == w ::
              |WorkerUpTo(l, j, w)| < |ByWorker(l[..n], w)| && ByWorker(l[..n], w)[|WorkerUpTo(l, j, w)|] == l[j].r
    decreases n
  {
    if n > 0 {
      ByWorkerLists(l, n - 1, w);
      WorkerStep(l, n - 1, w);
      assert l[..n][..n - 1] == l[..n - 1];
    }
  }

  // ---- the invariant ----

  function Hand(k: Worker): seq<Record> {
    if k.inHand.Some? then [k.inHand.value] else []
  }

  function InTransit(k: Worker): seq<Record> {
    Hand(k) + k.queue
  }

  /** The worker that owns a pid for good: a pid once routed never moves, also after folding. */
  ghost predicate Owns(mode: Mode, ws: seq<Worker>, w: nat, pid: nat) {
    && w == Target(mode, ws, pid) && w < |ws|
    && (KeyOf(mode, pid) in Keys(ws) || |ws| == MAX_WORKERS)
  }

  ghost predicate OwnedBy(mode: Mode, ws: seq<Worker>, l: seq<Entry>) {
    forall i | 0 <= i < |l| :: Owns(mode, ws, l[i].w, l[i].r.pid)
  }

  /** No record is lost, duplicated or reordered on its way through a worker. */
  ghost predicate Conserved(mode: Mode, s: State, w: nat)
    requires w < |s.workers|
  {
    var k := s.workers[w];
    && ByWorker(s.routed, w) == ByWorker(s.log, w) + InTransit(k)
    && Sorted(k.c) == |ByWorker(s.log, w)|
    && k.c.total == Sorted(k.c) + |Hand(k)|
    && Breakdown(mode, s.log, w, k.c)
    && (k.exited ==> k.queue == [] && k.inHand.None?) && (k.inHand.None? <==> k.gate.Idle?)
    && |k.queue| < RING_BUF_SIZE
  }

  ghost predicate Inv(mode: Mode, input: seq<Record>, s: State) {
    && |s.routed| <= |input| && Records(s.routed) == input[..|s.routed|]
    && |s.workers| <= MAX_WORKERS
    && OwnedBy(mode, s.workers, s.routed)
    && OwnedBy(mode, s.workers, s.log)
    && (forall w | 0 <= w < |s.workers| :: Conserved(mode, s, w))
    && (forall w | 0 <= w < |s.workers| :: s.workers[w].shutdown ==> |s.routed| == |input|)
    && (forall w | 0 <= w < |s.workers| :: s.workers[w].exited ==> s.workers[w].shutdown)
  }

  /** Growing the pool never changes the owner of a pid already routed. */
  lemma OwnershipStable(mode: Mode, ws: seq<Worker>, pid: nat, w: nat, p: nat)
    requires |ws| <= MAX_WORKERS && Owns(mode, ws, w, p)
    ensures Owns(mode, PoolAfter(mode, ws, pid), w, p)
  {
    var ws', key := PoolAfter(mode, ws, pid), KeyOf(mode, p);
    RouteFromSpec(Keys(ws), key, 0);
    RouteFromSpec(Keys(ws), KeyOf(mode, pid), 0);
    if ws' != ws {
      assert Keys(ws') == Keys(ws) + [KeyOf(mode, pid)];
      assert forall j | 0 <= j < w :: Keys(ws')[j] == Keys(ws)[0..w][j] != key;
      RouteFromIs(Keys(ws'), key, w, 0);
      assert Keys(ws')[w] == key;
    }
  }

  lemma RoutedIsOwned(mode: Mode, ws: seq<Worker>, pid: nat)
    requires |ws| <= MAX_WORKERS
    ensures Owns(mode, PoolAfter(mode, ws, pid), Target(mode, ws, pid), pid)
    ensures |PoolAfter(mode, ws, pid)| <= MAX_WORKERS
  {
    var ws', key := PoolAfter(mode, ws, pid), KeyOf(mode, pid);
    RouteFromSpec(Keys(ws), key, 0);
    if ws' != ws {
      assert Keys(ws') == Keys(ws) + [key] && Keys(ws')[|ws|] == key;
      assert forall j | 0 <= j < |ws| :: Keys(ws')[j] == Keys(ws)[j] && Keys(ws)[j] in Keys(ws)[0..];
      RouteFromIs(Keys(ws'), key, |ws|, 0);
    }
  }

  /** Changing a worker in place leaves all owners as they were. */
  lemma OwnsIgnoresUpdates(mode: Mode, ws: seq<Worker>, w: nat, k: Worker, l: seq<Entry>)
    requires w < |ws| && k.key == ws[w].key && OwnedBy(mode, ws, l)
    ensures OwnedBy(mode, ws[w := k], l)
  {
    assert Keys(ws[w := k]) == Keys(ws);
  }

  lemma {:induction false} NoShare(l: seq<Entry>, w: nat)
    requires forall i | 0 <= i < |l| :: l[i].w != w
    ensures ByWorker(l, w) == []
  {
    if l != [] {
      NoShare(l[..|l| - 1], w);
    }
  }

  lemma {:induction false} NoClass(mode: Mode, l: seq<Entry>, w: nat)
    requires forall i | 0 <= i < |l| :: l[i].w != w
    ensures forall k :: ClassCount(mode, l, w, k) == 0
  {
    if l != [] {
      NoClass(mode, l[..|l| - 1], w);
    }
  }

  lemma RouteKeepsInv(mode: Mode, input: seq<Record>, s: State)
    requires Inv(mode, input, s) && Enabled(mode, input, s, Route)
    ensures Inv(mode, input, Step(mode, input, s, Route))
  {
    var r, s' := input[|s.routed|], Step(mode, input, s, Route);
    var ws, w := PoolAfter(mode, s.workers, r.pid), Target(mode, s.workers, r.pid);
    RoutedIsOwned(mode, s.workers, r.pid);
    forall i | 0 <= i < |s.routed| ensures Owns(mode, ws, s.routed[i].w, s.routed[i].r.pid) {
      OwnershipStable(mode, s.workers, r.pid, s.routed[i].w, s.routed[i].r.pid);
    }
    forall i | 0 <= i < |s.log| ensures Owns(mode, ws, s.log[i].w, s.log[i].r.pid) {
      OwnershipStable(mode, s.workers, r.pid, s.log[i].w, s.log[i].r.pid);
    }
    OwnsIgnoresUpdates(mode, ws, w, s'.workers[w], s'.routed);
    OwnsIgnoresUpdates(mode, ws, w, s'.workers[w], s.log);
    forall v | 0 <= v < |s'.workers| ensures Conserved(mode, s', v) {
      RouteConserves(mode, input, s, v);
    }
    assert Records(s'.routed) == input[..|s'.routed|];
  }

  lemma RouteConservesOld(mode: Mode, input: seq<Record>, s: State, v: nat)
    requires Enabled(mode, input, s, Route) && v < |s.workers| && Conserved(mode, s, v)
    requires (s.workers[v].exited ==> s.workers[v].shutdown) && v < |Step(mode, input, s, Route).workers|
    ensures Conserved(mode, Step(mode, input, s, Route), v)
  {
    var r := input[|s.routed|];
    var e, s' := Entry(Target(mode, s.workers, r.pid), r, 0), Step(mode, input, s, Route);
    ByWorkerSnoc(s.routed, e, v);
    assert s'.workers[v] == if e.w == v then s.workers[v].(queue := s.workers[v].queue + [r]) else s.workers[v];
    assert InTransit(s'.workers[v]) == InTransit(s.workers[v]) + if e.w == v then [r] else [];
  }

  lemma RouteConservesNew(mode: Mode, input: seq<Record>, s: State)
    requires Inv(mode, input, s) && Enabled(mode, input, s, Route)
    requires |Step(mode, input, s, Route).workers| > |s.workers|
    ensures Conserved(mode, Step(mode, input, s, Route), |s.workers|)
  {
    var r, v := input[|s.routed|], |s.workers|;
    ByWorkerSnoc(s.routed, Entry(Target(mode, s.workers, r.pid), r, 0), v);
    NoShare(s.routed, v);
    NoShare(s.log, v);
    NoClass(mode, s.log, v);
  }

  lemma RouteConserves(mode: Mode, input: seq<Record>, s: State, v: nat)
    requires Inv(mode, input, s) && Enabled(mode, input, s, Route)
    requires v < |Step(mode, input, s, Route).workers|
    ensures Conserved(mode, Step(mode, input, s, Route), v)
  {
    if v < |s.workers| {
      assert Conserved(mode, s, v);
      RouteConservesOld(mode, input, s, v);
    } else {
      assert v == |s.workers|;
      RouteConservesNew(mode, input, s);
    }
  }

  lemma DispatchKeepsInv(mode: Mode, input: seq<Record>, s: State, w: nat, ret: int)
    requires Inv(mode, input, s) && Enabled(mode, input, s, Dispatch(w, ret))
    ensures Inv(mode, input, Step(mode, input, s, Dispatch(w, ret)))
  {
    var s' := Step(mode, input, s, Dispatch(w, ret));
    var e := Entry(w, s.workers[w].inHand.value, ret);
    HandIsOwned(mode, input, s, w);
    OwnsIgnoresUpdates(mode, s.workers, w, s'.workers[w], s.routed);
    OwnsIgnoresUpdates(mode, s.workers, w, s'.workers[w], s.log + [e]);
    forall v | 0 <= v < |s'.workers| ensures Conserved(mode, s', v) {
      DispatchConserves(mode, input, s, w, ret, v);
    }
  }

  lemma BreakdownSnoc(mode: Mode, l: seq<Entry>, e: Entry, w: nat, c: Counters)
    requires Breakdown(mode, l, w, c)
    ensures Breakdown(mode, l + [e], w, if e.w == w then Counted(c, Classify(mode, e.r, e.ret)) else c)
  {
    ClassCountSnoc(mode, l, e, w);
  }

  /** The dispatching worker moves one record from its hand to the log. */
  lemma DispatchOwn(mode: Mode, input: seq<Record>, s: State, w: nat, ret: int)
    requires Enabled(mode, input, s, Dispatch(w, ret)) && Conserved(mode, s, w)
    ensures Conserved(mode, Step(mode, input, s, Dispatch(w, ret)), w)
  {
    var s' := Step(mode, input, s, Dispatch(w, ret));
    var k, k' := s.workers[w], s'.workers[w];
    var done, r := ByWorker(s.log, w), k.inHand.value;
    ByWorkerSnoc(s.log, Entry(w, r, ret), w);
    BreakdownSnoc(mode, s.log, Entry(w, r, ret), w, k.c);
    assert done + InTransit(k) == (done + [r]) + k.queue;
    assert InTransit(k') == k.queue;
    assert Sorted(k'.c) == Sorted(k.c) + 1;
  }

  lemma DispatchOther(mode: Mode, input: seq<Record>, s: State, w: nat, ret: int, v: nat)
    requires Enabled(mode, input, s, Dispatch(w, ret)) && v < |s.workers| && v != w && Conserved(mode, s, v)
    ensures Conserved(mode, Step(mode, input, s, Dispatch(w, ret)), v)
  {
    var e, s' := Entry(w, s.workers[w].inHand.value, ret), Step(mode, input, s, Dispatch(w, ret));
    assert s'.workers[v] == s.workers[v] && s'.log == s.log + [e] && s'.routed == s.routed;
    ByWorkerSnoc(s.log, e, v);
    BreakdownSnoc(mode, s.log, e, v, s.workers[v].c);
  }

  lemma DispatchConserves(mode: Mode, input: seq<Record>, s: State, w: nat, ret: int, v: nat)
    requires Inv(mode, input, s) && Enabled(mode, input, s, Dispatch(w, ret)) && v < |s.workers|
    ensures Conserved(mode, Step(mode, input, s, Dispatch(w, ret)), v)
  {
    assert Conserved(mode, s, v);
    if v == w {
      DispatchOwn(mode, input, s, w, ret);
    } else {
      DispatchOther(mode, input, s, w, ret, v);
    }
  }

  /** Worker k may become k': it keeps the records it was given, and no counter but the total
      moves. */
  predicate SameRecords(k: Worker, k': Worker) {
    && k'.key == k.key && InTransit(k') == InTransit(k) && |k'.queue| <= |k.queue|
    && k'.c == k.c.(total := k'.c.total) && k'.c.total - |Hand(k')| == k.c.total - |Hand(k)|
    && (k'.exited ==> k'.queue == [] && k'.inHand.None?) && (k'.inHand.None? <==> k'.gate.Idle?)
  }

  lemma LocalStepIs(mode: Mode, input: seq<Record>, s: State, e: Event)
    requires Enabled(mode, input, s, e) && !e.Route? && !e.Dispatch? && Conserved(mode, s, e.w)
    ensures var s' := Step(mode, input, s, e);
            && s'.routed == s.routed && s'.log == s.log && |s'.workers| == |s.workers|
            && s'.workers == s.workers[e.w := s'.workers[e.w]]
            && SameRecords(s.workers[e.w], s'.workers[e.w])
            && (s'.workers[e.w].shutdown != s.workers[e.w].shutdown ==> |s.routed| >= |input|)
            && (s.workers[e.w].shutdown ==> s'.workers[e.w].shutdown)
            && (s'.workers[e.w].exited && !s.workers[e.w].exited ==> s.workers[e.w].shutdown)
  {
  }

  lemma UpdateKeepsConserved(mode: Mode, s: State, s': State, w: nat, v: nat)
    requires w < |s.workers| && v < |s.workers| && s'.routed == s.routed && s'.log == s.log
    requires |s'.workers| == |s.workers| && s'.workers == s.workers[w := s'.workers[w]]
    requires SameRecords(s.workers[w], s'.workers[w]) && Conserved(mode, s, v)
    ensures Conserved(mode, s', v)
  {
  }

  lemma LocalStepKeepsInv(mode: Mode, input: seq<Record>, s: State, e: Event)
    requires Inv(mode, input, s) && Enabled(mode, input, s, e) && !e.Route? && !e.Dispatch?
    ensures Inv(mode, input, Step(mode, input, s, e))
  {
    var s' := Step(mode, input, s, e);
    LocalStepIs(mode, input, s, e);
    OwnsIgnoresUpdates(mode, s.workers, e.w, s'.workers[e.w], s.routed);
    OwnsIgnoresUpdates(mode, s.workers, e.w, s'.workers[e.w], s.log);
    forall v | 0 <= v < |s'.workers| ensures Conserved(mode, s', v) {
      UpdateKeepsConserved(mode, s, s', e.w, v);
    }
  }

  /** What a worker holds was routed to it, so its pid is owned by that worker. */
  lemma HandIsOwned(mode: Mode, input: seq<Record>, s: State, w: nat)
    requires Inv(mode, input, s) && w < |s.workers| && s.workers[w].inHand.Some?
    ensures Owns(mode, s.workers, w, s.workers[w].inHand.value.pid)
  {
    assert Conserved(mode, s, w);
    var share := ByWorker(s.routed, w);
    assert share[|ByWorker(s.log, w)|] == s.workers[w].inHand.value;
    var i := ShareComesFrom(s.routed, w, |ByWorker(s.log, w)|);
  }

  lemma {:induction false} ShareComesFrom(l: seq<Entry>, w: nat, j: nat) returns (i: nat)
    requires j < |ByWorker(l, w)|
    ensures i < |l| && l[i].w == w && l[i].r == ByWorker(l, w)[j]
  {
    var n := |l| - 1;
    if j < |ByWorker(l[..n], w)| {
      i := ShareComesFrom(l[..n], w, j);
    } else {
      i := n;
    }
  }

  lemma StepKeepsInv(mode: Mode, input: seq<Record>, s: State, e: Event)
    requires Inv(mode, input, s) && Enabled(mode, input, s, e)
    ensures Inv(mode, input, Step(mode, input, s, e))
  {
    if e.Route? {
      RouteKeepsInv(mode, input, s);
    } else if e.Dispatch? {
      DispatchKeepsInv(mode, input, s, e.w, e.actualRet);
    } else {
      LocalStepKeepsInv(mode, input, s, e);
    }
  }

  lemma {:induction false} RunKeepsInv(mode: Mode, input: seq<Record>, s: State, es: seq<Event>)
    requires Inv(mode, input, s) && IsRun(mode, input, s, es)
    ensures Inv(mode, input, Exec(mode, input, s, es))
    decreases |es|
  {
    if es != [] {
      StepKeepsInv(mode, input, s, es[0]);
      RunKeepsInv(mode, input, Step(mode, input, s, es[0]), es[1..]);
    }
  }

  // ---- what every run achieves ----

  /** Some interleaving leads from the start to s. */
  ghost predicate Reachable(mode: Mode, input: seq<Record>, s: State) {
    exists es :: IsRun(mode, input, Init(mode), es) && Exec(mode, input, Init(mode), es) == s
  }

  lemma {:induction false} ExecSnoc(mode: Mode, input: seq<Record>, s: State, es: seq<Event>, e: Event)
    requires IsRun(mode, input, s, es) && Enabled(mode, input, Exec(mode, input, s, es), e)
    ensures IsRun(mode, input, s, es + [e])
    ensures Exec(mode, input, s, es + [e]) == Step(mode, input, Exec(mode, input, s, es), e)
    decreases |es|
  {
    if es == [] {
      assert es + [e] == [e];
    } else {
      assert (es + [e])[0] == es[0] && (es + [e])[1..] == es[1..] + [e];
      ExecSnoc(mode, input, Step(mode, input, s, es[0]), es[1..], e);
    }
  }

  lemma ReachableStep(mode: Mode, input: seq<Record>, s: State, e: Event)
    requires Reachable(mode, input, s) && Enabled(mode, input, s, e)
    ensures Reachable(mode, input, Step(mode, input, s, e))
  {
    var es :| IsRun(mode, input, Init(mode), es) && Exec(mode, input, Init(mode), es) == s;
    ExecSnoc(mode, input, Init(mode), es, e);
    assert Exec(mode, input, Init(mode), es + [e]) == Step(mode, input, s, e);
  }

  lemma ReachableInv(mode: Mode, input: seq<Record>, s: State)
    requires Reachable(mode, input, s)
    ensures Inv(mode, input, s)
  {
    var es :| IsRun(mode, input, Init(mode), es) && Exec(mode, input, Init(mode), es) == s;
    assert Records(Init(mode).routed) == [];
    RunKeepsInv(mode, input, Init(mode), es);
  }

  /** ORDER over every interleaving: what has been dispatched of one pid is always a prefix,
      in file order, of what has been routed of it, whichever worker handles that pid. */
  lemma PidOrderPreserved(mode: Mode, input: seq<Record>, s: State, pid: nat)
    requires Reachable(mode, input, s)
    ensures |s.routed| <= |input|
    ensures OfPid(Records(s.log), pid) <= OfPid(input[..|s.routed|], pid)
  {
    ReachableInv(mode, input, s);
    PidSplit(mode, input, s, pid);
  }

  /** The routed records of a pid are its dispatched ones followed by those in transit. */
  lemma PidSplit(mode: Mode, input: seq<Record>, s: State, pid: nat)
    requires Inv(mode, input, s)
    ensures OfPid(Records(s.log), pid) <= OfPid(input[..|s.routed|], pid)
    ensures Finished(input, s) ==> OfPid(Records(s.log), pid) == OfPid(input, pid)
  {
    var w := Target(mode, s.workers, pid);
    PidThroughWorker(s.routed, pid, w);
    PidThroughWorker(s.log, pid, w);
    if w < |s.workers| {
      ShareSplit(mode, s, w, pid);
    } else {
      NoShare(s.routed, w);
      NoShare(s.log, w);
    }
    assert Finished(input, s) ==> input[..|s.routed|] == input;
  }

  lemma ShareSplit(mode: Mode, s: State, w: nat, pid: nat)
    requires w < |s.workers| && Conserved(mode, s, w)
    ensures OfPid(ByWorker(s.log, w), pid) <= OfPid(ByWorker(s.routed, w), pid)
    ensures s.workers[w].exited ==> OfPid(ByWorker(s.log, w), pid) == OfPid(ByWorker(s.routed, w), pid)
  {
    OfPidConcat(ByWorker(s.log, w), InTransit(s.workers[w]), pid);
    if s.workers[w].exited {
      assert InTransit(s.workers[w]) == [];
    }
  }

  // ---- the serial mode ----

  /** All records go to one worker. */
  ghost predicate OneWorker(s: State) {
    |s.workers| <= 1 && forall w | 0 <= w < |s.workers| :: s.workers[w].key == 0
  }

  lemma StepKeepsOneWorker(mode: Mode, input: seq<Record>, s: State, e: Event)
    requires mode.serial && OneWorker(s) && Enabled(mode, input, s, e)
    ensures OneWorker(Step(mode, input, s, e))
  {
    if e.Route? {
      RouteFromSpec(Keys(s.workers), 0, 0);
      assert |s.workers| == 1 ==> Keys(s.workers)[0..][0] == 0;
    }
  }

  lemma {:induction false} RunKeepsOneWorker(mode: Mode, input: seq<Record>, s: State, es: seq<Event>)
    requires mode.serial && OneWorker(s) && IsRun(mode, input, s, es)
    ensures OneWorker(Exec(mode, input, s, es))
    decreases |es|
  {
    if es != [] {
      StepKeepsOneWorker(mode, input, s, es[0]);
      RunKeepsOneWorker(mode, input, Step(mode, input, s, es[0]), es[1..]);
    }
  }

  lemma {:induction false} OnlyShare(l: seq<Entry>)
    requires forall i | 0 <= i < |l| :: l[i].w == 0
    ensures ByWorker(l, 0) == Records(l)
  {
    if l != [] {
      OnlyShare(l[..|l| - 1]);
      assert Records(l) == Records(l[..|l| - 1]) + [l[|l| - 1].r];
    }
  }

  lemma OneWorkerInOrder(mode: Mode, input: seq<Record>, s: State)
    requires Inv(mode, input, s) && |s.workers| <= 1
    ensures Records(s.log) <= Records(s.routed)
  {
    forall i | 0 <= i < |s.log| ensures s.log[i].w == 0 {
      assert Owns(mode, s.workers, s.log[i].w, s.log[i].r.pid);
    }
    forall i | 0 <= i < |s.routed| ensures s.routed[i].w == 0 {
      assert Owns(mode, s.workers, s.routed[i].w, s.routed[i].r.pid);
    }
    OnlyShare(s.log);
    OnlyShare(s.routed);
    if |s.workers| == 1 {
      assert Conserved(mode, s, 0);
    }
  }

  /** SERIAL MODE over every interleaving: there is one worker at most, and what has been
      dispatched is a prefix of the whole capture, across all pids. */
  lemma SerialKeepsFileOrder(mode: Mode, input: seq<Record>, s: State)
    requires mode.serial && Reachable(mode, input, s)
    ensures |s.workers| <= 1 && Records(s.log) <= input
  {
    ReachableInv(mode, input, s);
    var es :| IsRun(mode, input, Init(mode), es) && Exec(mode, input, Init(mode), es) == s;
    RunKeepsOneWorker(mode, input, Init(mode), es);
    OneWorkerInOrder(mode, input, s);
  }

  // ---- sums over the pool ----

  function Plus(c: Counters, d: Counters): Counters {
    Counters(c.total + d.total, c.ok + d.ok, c.failed + d.failed, c.skipped + d.skipped, c.mismatch + d.mismatch)
  }

  /** The sum of the counters of the first n workers. */
  function SumTotals(ws: seq<Worker>, n: nat): Counters
    requires n <= |ws|
  {
    if n == 0 then Counters(0, 0, 0, 0, 0) else Plus(SumTotals(ws, n - 1), ws[n - 1].c)
  }

  /** The counter sums that the reader prints after joining all workers. */
  method Totals(ws: seq<Worker>) returns (c: Counters)
    ensures c == SumTotals(ws, |ws|)
  {
    c := Counters(0, 0, 0, 0, 0);
    var i := 0;
    while i < |ws|
      invariant i <= |ws| && c == SumTotals(ws, i)
    {
      c := Plus(c, ws[i].c);
      i := i + 1;
    }
  }

  /** A dispatch of r that returned ret ends so: -2 is a skip and -1 a failure; of the rest, with
      verification on, a captured return that is known and comparable and differs is a mismatch. */
  predicate EndsAs(mode: Mode, r: Record, ret: int, k: Class) {
    var differs := mode.verify && r.nr !in {2, 9, 11, 257} && r.ret != -1 && ret != r.ret;
    match k
    case Skipped => ret == -2
    case Failed => ret == -1
    case Mismatch => ret !in {-2, -1} && differs
    case Ok => ret !in {-2, -1} && !differs
  }

  /** The dispatches of a log that ended in class k, whoever made them. */
  ghost function Ended(mode: Mode, l: seq<Entry>, k: Class): set<nat> {
    set i: nat | i < |l| && EndsAs(mode, l[i].r, l[i].ret, k)
  }

  lemma EndedSnoc(mode: Mode, l: seq<Entry>, e: Entry, k: Class)
    ensures |Ended(mode, l + [e], k)| == |Ended(mode, l, k)| + if EndsAs(mode, e.r, e.ret, k) then 1 else 0
  {
    assert Ended(mode, l + [e], k) == Ended(mode, l, k) + if EndsAs(mode, e.r, e.ret, k) then {|l|} else {};
  }

  /** The dispatches by worker w that ended in class k. */
  ghost function OwnEnds(mode: Mode, l: seq<Entry>, w: nat, k: Class): nat -> bool {
    (i: nat) => i < |l| && l[i].w == w && EndsAs(mode, l[i].r, l[i].ret, k)
  }

  /** A worker's count of a class is the number of its own dispatches that ended in it. */
  lemma {:induction false} ClassCountIs(mode: Mode, l: seq<Entry>, n: nat, w: nat, k: Class)
    requires n <= |l|
    ensures ClassCount(mode, l[..n], w, k) == |Chosen(n, OwnEnds(mode, l, w, k))|
    decreases n
  {
    if n > 0 {
      ClassCountIs(mode, l, n - 1, w, k);
      ChosenStep(n - 1, OwnEnds(mode, l, w, k));
      assert l[..n][..n - 1] == l[..n - 1];
    }
  }

  /** What the first n workers counted in class k, together. */
  function ClassShares(mode: Mode, l: seq<Entry>, n: nat, k: Class): nat {
    if n == 0 then 0 else ClassShares(mode, l, n - 1, k) + ClassCount(mode, l, n - 1, k)
  }

  lemma {:induction false} ClassSharesOfEmpty(mode: Mode, n: nat, k: Class)
    ensures ClassShares(mode, [], n, k) == 0
  {
    if n > 0 {
      ClassSharesOfEmpty(mode, n - 1, k);
    }
  }

  lemma {:induction false} ClassSharesSnoc(mode: Mode, l: seq<Entry>, e: Entry, n: nat, k: Class)
    ensures ClassShares(mode, l + [e], n, k) ==
            ClassShares(mode, l, n, k) + if e.w < n && EndsAs(mode, e.r, e.ret, k) then 1 else 0
  {
    if n > 0 {
      ClassSharesSnoc(mode, l, e, n - 1, k);
      ClassCountSnoc(mode, l, e, n - 1);
    }
  }

  /** The workers' counts of a class partition the dispatches that ended in it. */
  lemma {:induction false} ClassSharesAddUp(mode: Mode, l: seq<Entry>, n: nat, k: Class)
    requires forall i | 0 <= i < |l| :: l[i].w < n
    ensures ClassShares(mode, l, n, k) == |Ended(mode, l, k)|
  {
    if l == [] {
      ClassSharesOfEmpty(mode, n, k);
    } else {
      var rest, e := l[..|l| - 1], l[|l| - 1];
      ClassSharesAddUp(mode, rest, n, k);
      ClassSharesSnoc(mode, rest, e, n, k);
      EndedSnoc(mode, rest, e, k);
      assert l == rest + [e];
    }
  }

  lemma {:induction false} TotalsAreClasses(mode: Mode, s: State, n: nat)
    requires n <= |s.workers| && forall w | 0 <= w < n :: Breakdown(mode, s.log, w, s.workers[w].c)
    ensures var c := SumTotals(s.workers, n);
            && c.ok == ClassShares(mode, s.log, n, Ok) && c.failed == ClassShares(mode, s.log, n, Failed)
            && c.skipped == ClassShares(mode, s.log, n, Skipped)
            && c.mismatch == ClassShares(mode, s.log, n, Mismatch)
  {
    if n > 0 {
      TotalsAreClasses(mode, s, n - 1);
      assert Breakdown(mode, s.log, n - 1, s.workers[n - 1].c);
    }
  }

  /** Each summed counter is the number of dispatches that ended in its class. */
  ghost predicate CountsLog(mode: Mode, l: seq<Entry>, c: Counters) {
    && c.ok == |Ended(mode, l, Ok)| && c.failed == |Ended(mode, l, Failed)|
    && c.skipped == |Ended(mode, l, Skipped)| && c.mismatch == |Ended(mode, l, Mismatch)|
  }

  /** COUNTERS in every reachable state: summed over the pool, each counts the dispatches of the
      whole log that ended in its class. */
  lemma TotalsCountLog(mode: Mode, input: seq<Record>, s: State)
    requires Reachable(mode, input, s)
    ensures CountsLog(mode, s.log, SumTotals(s.workers, |s.workers|))
  {
    ReachableInv(mode, input, s);
    var n := |s.workers|;
    forall w | 0 <= w < n ensures Breakdown(mode, s.log, w, s.workers[w].c) {
      assert Conserved(mode, s, w);
    }
    TotalsAreClasses(mode, s, n);
    assert forall i | 0 <= i < |s.log| :: Owns(mode, s.workers, s.log[i].w, s.log[i].r.pid);
    forall k ensures ClassShares(mode, s.log, n, k) == |Ended(mode, s.log, k)| {
      ClassSharesAddUp(mode, s.log, n, k);
    }
  }

  function Shares(l: seq<Entry>, n: nat): nat {
    if n == 0 then 0 else Shares(l, n - 1) + |ByWorker(l, n - 1)|
  }

  lemma {:induction false} SharesOfEmpty(n: nat)
    ensures Shares([], n) == 0
  {
    if n > 0 {
      SharesOfEmpty(n - 1);
    }
  }

  lemma {:induction false} SharesSnoc(l: seq<Entry>, e: Entry, n: nat)
    ensures Shares(l + [e], n) == Shares(l, n) + if e.w < n then 1 else 0
  {
    if n > 0 {
      SharesSnoc(l, e, n - 1);
      ByWorkerSnoc(l, e, n - 1);
    }
  }

  /** The workers' shares partition the log. */
  lemma {:induction false} SharesAddUp(l: seq<Entry>, n: nat)
    requires forall i | 0 <= i < |l| :: l[i].w < n
    ensures Shares(l, n) == |l|
  {
    if l == [] {
      SharesOfEmpty(n);
    } else {
      SharesAddUp(l[..|l| - 1], n);
      SharesSnoc(l[..|l| - 1], l[|l| - 1], n);
      assert l == l[..|l| - 1] + [l[|l| - 1]];
    }
  }

  /** The worker has dispatched and counted everything it was given. */
  ghost predicate Settled(s: State, w: nat)
    requires w < |s.workers|
  {
    s.workers[w].c.total == Sorted(s.workers[w].c) == |ByWorker(s.log, w)| == |ByWorker(s.routed, w)|
  }

  lemma ExitedIsSettled(mode: Mode, s: State, w: nat)
    requires w < |s.workers| && Conserved(mode, s, w) && s.workers[w].exited
    ensures Settled(s, w)
  {
  }

  lemma {:induction false} TotalsAreShares(s: State, n: nat)
    requires n <= |s.workers| && forall w | 0 <= w < n :: Settled(s, w)
    ensures SumTotals(s.workers, n).total == Shares(s.log, n)
    ensures Sorted(SumTotals(s.workers, n)) == Shares(s.log, n)
  {
    if n > 0 {
      TotalsAreShares(s, n - 1);
      assert Settled(s, n - 1);
    }
  }

  lemma {:induction false} SharesAgree(s: State, n: nat)
    requires n <= |s.workers| && forall w | 0 <= w < n :: Settled(s, w)
    ensures Shares(s.log, n) == Shares(s.routed, n)
  {
    if n > 0 {
      SharesAgree(s, n - 1);
      assert Settled(s, n - 1);
    }
  }

  lemma FinishedCounts(mode: Mode, input: seq<Record>, s: State)
    requires Inv(mode, input, s) && Finished(input, s)
    ensures SumTotals(s.workers, |s.workers|).total == Sorted(SumTotals(s.workers, |s.workers|)) == |s.log| == |input|
  {
    SharesAddUp(s.routed, |s.workers|);
    SharesAddUp(s.log, |s.workers|);
    forall w | 0 <= w < |s.workers| ensures Settled(s, w) {
      ExitedIsSettled(mode, s, w);
    }
    TotalsAreShares(s, |s.workers|);
    SharesAgree(s, |s.workers|);
  }

  /** CONSERVATION: a finished run has dispatched every pid's records completely and in file
      order, and the summed counters account for every record of the capture. */
  lemma FinishedRunIsComplete(mode: Mode, input: seq<Record>, s: State)
    requires Reachable(mode, input, s) && Finished(input, s)
    ensures forall pid: nat :: OfPid(Records(s.log), pid) == OfPid(input, pid)
    ensures SumTotals(s.workers, |s.workers|).total == Sorted(SumTotals(s.workers, |s.workers|)) == |s.log| == |input|
    ensures CountsLog(mode, s.log, SumTotals(s.workers, |s.workers|))
    ensures forall w | 0 <= w < |s.workers| :: Breakdown(mode, s.log, w, s.workers[w].c)
  {
    ReachableInv(mode, input, s);
    TotalsCountLog(mode, input, s);
    forall pid: nat ensures OfPid(Records(s.log), pid) == OfPid(input, pid) {
      PidSplit(mode, input, s, pid);
    }
    FinishedCounts(mode, input, s);
    forall w | 0 <= w < |s.workers| ensures Breakdown(mode, s.log, w, s.workers[w].c) {
      assert Conserved(mode, s, w);
    }
  }

  // ---- every run can be finished, and is finite ----

  /** A worker that has not exited, or that holds or has queued a record, can do something. */
  function NextOf(mode: Mode, s: State, w: nat): Event
    requires w < |s.workers|
  {
    var k := s.workers[w];
    match k.gate
    case Arriving => Arrive(w)
    case Waiting(_) => Timeout(w)
    case Through => Dispatch(w, 0)
    case Idle => if k.queue != [] then Take(w) else if k.shutdown then Exit(w) else Shutdown(w)
  }

  lemma FinishedIsStill(mode: Mode, input: seq<Record>, s: State, e: Event)
    requires Inv(mode, input, s) && Finished(input, s)
    ensures !Enabled(mode, input, s, e)
  {
    if !e.Route? && e.w < |s.workers| {
      assert Conserved(mode, s, e.w);
    }
  }

  /** NO DEADLOCK: a reachable state is finished or somebody can move, at worst by a timeout. */
  lemma SomebodyCanMove(mode: Mode, input: seq<Record>, s: State)
    requires Reachable(mode, input, s)
    ensures Finished(input, s) <==> !exists e :: Enabled(mode, input, s, e)
  {
    ReachableInv(mode, input, s);
    if Finished(input, s) {
      forall e ensures !Enabled(mode, input, s, e) {
        FinishedIsStill(mode, input, s, e);
      }
    } else {
      var e := SomeMove(mode, input, s);
    }
  }

  lemma SomeMove(mode: Mode, input: seq<Record>, s: State) returns (e: Event)
    requires Inv(mode, input, s) && !Finished(input, s)
    ensures Enabled(mode, input, s, e)
  {
    if w :| 0 <= w < |s.workers| && (!s.workers[w].gate.Idle? || s.workers[w].queue != []) {
      assert Conserved(mode, s, w);
      e := NextOf(mode, s, w);
    } else if |s.routed| < |input| {
      TargetInPool(mode, s.workers, input[|s.routed|].pid);
      e := Route;
    } else {
      var w :| 0 <= w < |s.workers| && !s.workers[w].exited;
      assert Conserved(mode, s, w);
      e := NextOf(mode, s, w);
    }
  }

  function GateWork(g: Gate): nat {
    match g case Arriving => 3 case Waiting(_) => 2 case Through => 1 case Idle => 0
  }

  function Work(k: Worker): nat {
    4 * |k.queue| + GateWork(k.gate) + (if k.shutdown then 0 else 1) + (if k.exited then 0 else 1)
  }

  function PoolWork(ws: seq<Worker>): nat {
    if ws == [] then 0 else PoolWork(ws[..|ws| - 1]) + Work(ws[|ws| - 1])
  }

  lemma {:induction false} PoolWorkUpdate(ws: seq<Worker>, w: nat, k: Worker)
    requires w < |ws|
    ensures PoolWork(ws[w := k]) == PoolWork(ws) - Work(ws[w]) + Work(k)
  {
    var n := |ws| - 1;
    if w == n {
      assert ws[w := k][..n] == ws[..n];
    } else {
      assert ws[w := k][..n] == ws[..n][w := k];
      PoolWorkUpdate(ws[..n], w, k);
    }
  }

  function Remaining(input: seq<Record>, s: State): nat
    requires |s.routed| <= |input|
  {
    7 * (|input| - |s.routed|) + PoolWork(s.workers)
  }

  lemma StepUsesWork(mode: Mode, input: seq<Record>, s: State, e: Event)
    requires |s.routed| <= |input| && Enabled(mode, input, s, e)
    ensures |Step(mode, input, s, e).routed| <= |input|
    ensures Remaining(input, Step(mode, input, s, e)) < Remaining(input, s)
  {
    if e.Route? {
      var r := input[|s.routed|];
      var ws, w := PoolAfter(mode, s.workers, r.pid), Target(mode, s.workers, r.pid);
      PoolWorkUpdate(ws, w, ws[w].(queue := ws[w].queue + [r]));
      if ws != s.workers {
        assert ws[..|ws| - 1] == s.workers;
      }
    } else {
      PoolWorkUpdate(s.workers, e.w, Step(mode, input, s, e).workers[e.w]);
    }
  }

  /** TERMINATION: no run is longer than seven times the capture, so together with
      `SomebodyCanMove` every maximal run is finished. */
  lemma {:induction false} RunsAreFinite(mode: Mode, input: seq<Record>, s: State, es: seq<Event>)
    requires |s.routed| <= |input| && IsRun(mode, input, s, es)
    ensures |es| <= Remaining(input, s)
    decreases |es|
  {
    if es != [] {
      StepUsesWork(mode, input, s, es[0]);
      RunsAreFinite(mode, input, Step(mode, input, s, es[0]), es[1..]);
    }
  }
}
