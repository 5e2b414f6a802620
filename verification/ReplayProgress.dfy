/** The replay engine and its write barrier together (syscall_replayer.c): every run of the
    engine is a run of the barrier protocol, and what can bring the engine to a halt that only
    the barrier's 10 ms timeout ends. */
module ReplayProgress {
  import BarrierCounters
  import BarrierProtocol
  import opened Replay
  import opened ReplayCounters
  import opened RingBuffer
  import opened SetSizes
  import opened Wrappers

  // ---- how many parties the barrier is set up for ----

  /** seen lists the non-zero pids of `all`, or as many of them as the table holds. */
  ghost predicate Collected(seen: seq<nat>, all: set<nat>) {
    && |seen| <= MAX_WORKERS
    && (forall a, b | 0 <= a < b < |seen| :: seen[a] != seen[b])
    && Elements(seen) <= all - {0}
    && (|seen| < MAX_WORKERS ==> all - {0} <= Elements(seen))
  }

  lemma CollectOne(seen: seq<nat>, all: set<nat>, pid: nat)
    requires Collected(seen, all) && |seen| < MAX_WORKERS && pid != 0 && pid !in Elements(seen)
    ensures Collected(seen + [pid], all + {pid})
  {
    ElementsSnoc(seen, pid);
    forall a, b | 0 <= a < b <= |seen| ensures (seen + [pid])[a] != (seen + [pid])[b] {
      assert seen[a] in Elements(seen);
    }
  }

  /** The pre-pass over the capture: distinct non-zero pids, at most 256. */
  method CountPids(lines: seq<nat>) returns (n: nat)
    ensures var pids := Elements(lines) - {0};
            n == if |pids| < MAX_WORKERS then |pids| else MAX_WORKERS
  {
    var seen: seq<nat> := [];
    for i := 0 to |lines|
      invariant Collected(seen, Elements(lines[..i]))
    {
      var pid := lines[i];
      assert lines[..i + 1] == lines[..i] + [pid];
      ElementsSnoc(lines[..i], pid);
      if pid != 0 {
        var found := Contains(seen, pid);
        if !found && |seen| < MAX_WORKERS {
          CollectOne(seen, Elements(lines[..i]), pid);
          seen := seen + [pid];
        }
      }
    }
    assert lines[..|lines|] == lines;
    DistinctSize(seen);
    SubsetSize(Elements(seen), Elements(lines) - {0});
    n := |seen|;
  }

  method Contains(seen: seq<nat>, pid: nat) returns (found: bool)
    ensures found <==> pid in Elements(seen)
  {
    found := false;
    var i := 0;
    while i < |seen| && !found
      invariant i <= |seen| && (found ==> pid in Elements(seen))
      invariant !found ==> forall j | 0 <= j < i :: seen[j] != pid
    {
      found := seen[i] == pid;
      i := i + 1;
    }
  }

  ghost predicate DistinctKeys(ws: seq<Worker>, pids: set<nat>) {
    && (forall i, j | 0 <= i < j < |ws| :: ws[i].key != ws[j].key)
    && (forall i | 0 <= i < |ws| :: ws[i].key in pids)
  }

  lemma StepKeepsKeys(mode: Mode, input: seq<Record>, s: State, e: Event, pids: set<nat>)
    requires !mode.serial && Enabled(mode, input, s, e) && DistinctKeys(s.workers, pids)
    requires forall i | 0 <= i < |input| :: input[i].pid in pids
    ensures DistinctKeys(Step(mode, input, s, e).workers, pids)
  {
    if e.Route? {
      var pid := input[|s.routed|].pid;
      RouteFromSpec(Keys(s.workers), pid, 0);
      assert Keys(s.workers)[0..] == Keys(s.workers);
      assert forall i | 0 <= i < |s.workers| :: Keys(s.workers)[i] == s.workers[i].key;
    }
  }

  lemma {:induction false} RunKeepsKeys(mode: Mode, input: seq<Record>, s: State, es: seq<Event>, pids: set<nat>)
    requires !mode.serial && IsRun(mode, input, s, es) && DistinctKeys(s.workers, pids)
    requires forall i | 0 <= i < |input| :: input[i].pid in pids
    ensures DistinctKeys(Exec(mode, input, s, es).workers, pids)
    decreases |es|
  {
    if es != [] {
      StepKeepsKeys(mode, input, s, es[0], pids);
      RunKeepsKeys(mode, input, Step(mode, input, s, es[0]), es[1..], pids);
    }
  }

  /** If the pids counted include those of all records, the pool never outgrows the barrier. */
  lemma PoolWithinParties(mode: Mode, input: seq<Record>, s: State, pids: set<nat>)
    requires !mode.serial && Reachable(mode, input, s)
    requires mode.parties == if |pids| < MAX_WORKERS then |pids| else MAX_WORKERS
    requires forall i | 0 <= i < |input| :: input[i].pid in pids
    ensures |s.workers| <= mode.parties
  {
    ReachableInv(mode, input, s);
    var es :| IsRun(mode, input, Init(mode), es) && Exec(mode, input, Init(mode), es) == s;
    RunKeepsKeys(mode, input, Init(mode), es, pids);
    DistinctSize(Keys(s.workers));
    assert forall k | k in Elements(Keys(s.workers)) :: k in pids;
    SubsetSize(Elements(Keys(s.workers)), pids);
  }

  // ---- every run of the engine is a run of the barrier ----

  /** What the barrier sees: the parties whose worker has not exited, existing or not, and who
      waits for which generation. */
  ghost function Project(mode: Mode, s: State): BarrierProtocol.State {
    BarrierProtocol.State(
      s.bar,
      set w | w in UpTo(mode.parties) && !(w < |s.workers| && s.workers[w].exited),
      map w: nat | w < |s.workers| && s.workers[w].gate.Waiting? :: s.workers[w].gate.gen,
      s.late)
  }

  /** The barrier event an engine event performs, if any. */
  function BarrierEvents(e: Event): seq<BarrierProtocol.Event> {
    match e
    case Arrive(w) => [BarrierProtocol.Arrive(w)]
    case Wake(w) => [BarrierProtocol.Wake(w)]
    case Timeout(w) => [BarrierProtocol.Timeout(w)]
    case Exit(w) => [BarrierProtocol.Unregister(w)]
    case _ => []
  }

  lemma RegisteredMeans(mode: Mode, s: State, w: nat)
    ensures w in Project(mode, s).registered <==> w < mode.parties && !(w < |s.workers| && s.workers[w].exited)
  {
    UpToMeans(mode.parties);
  }

  lemma SameProjection(mode: Mode, s: State, s': State)
    requires Undisturbed(s, s')
    ensures Project(mode, s') == Project(mode, s)
  {
    assert forall w | 0 <= w < |s.workers| :: Alike(s.workers[w], s'.workers[w]);
    assert Project(mode, s').registered == Project(mode, s).registered;
    assert Project(mode, s').blocked == Project(mode, s).blocked;
  }

  lemma OtherStepRefines(mode: Mode, input: seq<Record>, s: State, e: Event)
    requires Inv(mode, input, s) && Enabled(mode, input, s, e) && AwayFromBarrier(e)
    ensures Project(mode, Step(mode, input, s, e)) == Project(mode, s)
  {
    StepUndisturbed(mode, input, s, e);
    SameProjection(mode, s, Step(mode, input, s, e));
  }

  lemma ArriveRefines(mode: Mode, input: seq<Record>, s: State, w: nat)
    requires Enabled(mode, input, s, Arrive(w)) && !s.workers[w].exited && |s.workers| <= mode.parties
    ensures BarrierProtocol.Enabled(Project(mode, s), BarrierProtocol.Arrive(w))
    ensures Project(mode, Step(mode, input, s, Arrive(w)))
         == BarrierProtocol.Step(Project(mode, s), BarrierProtocol.Arrive(w))
  {
    RegisteredMeans(mode, s, w);
    var s' := Step(mode, input, s, Arrive(w));
    assert Project(mode, s').registered == Project(mode, s).registered;
    var blocked := Project(mode, s).blocked;
    assert Project(mode, s').blocked == match s'.workers[w].gate
      case Waiting(g) => blocked[w := g]
      case _ => blocked;
  }

  lemma LeaveRefines(mode: Mode, input: seq<Record>, s: State, e: Event)
    requires Inv(mode, input, s) && Enabled(mode, input, s, e) && (e.Wake? || e.Timeout?)
    ensures BarrierProtocol.Enabled(Project(mode, s), BarrierEvents(e)[0])
    ensures Project(mode, Step(mode, input, s, e)) == BarrierProtocol.Step(Project(mode, s), BarrierEvents(e)[0])
  {
    var s' := Step(mode, input, s, e);
    assert Project(mode, s').registered == Project(mode, s).registered;
    assert Project(mode, s').blocked == Project(mode, s).blocked - {e.w};
  }

  lemma ExitRefines(mode: Mode, input: seq<Record>, s: State, w: nat)
    requires Inv(mode, input, s) && BarrierOn(mode) && Enabled(mode, input, s, Exit(w)) && |s.workers| <= mode.parties
    ensures BarrierProtocol.Enabled(Project(mode, s), BarrierProtocol.Unregister(w))
    ensures Project(mode, Step(mode, input, s, Exit(w)))
         == BarrierProtocol.Step(Project(mode, s), BarrierProtocol.Unregister(w))
  {
    assert Conserved(mode, s, w);
    RegisteredMeans(mode, s, w);
    var s' := Step(mode, input, s, Exit(w));
    assert Project(mode, s').registered == Project(mode, s).registered - {w};
    assert Project(mode, s').blocked == Project(mode, s).blocked;
  }

  /** es are the barrier steps between two states of the protocol. */
  ghost predicate Leads(p: BarrierProtocol.State, es: seq<BarrierProtocol.Event>, p': BarrierProtocol.State) {
    BarrierProtocol.IsRun(p, es) && BarrierProtocol.Exec(p, es) == p'
  }

  lemma StepRefines(mode: Mode, input: seq<Record>, s: State, e: Event)
    requires Inv(mode, input, s) && BarrierOn(mode) && Enabled(mode, input, s, e) && |s.workers| <= mode.parties
    ensures Leads(Project(mode, s), BarrierEvents(e), Project(mode, Step(mode, input, s, e)))
  {
    var es := BarrierEvents(e);
    if !e.Route? {
      assert Conserved(mode, s, e.w);
    }
    match e {
      case Arrive(w) => ArriveRefines(mode, input, s, w);
      case Wake(_) => LeaveRefines(mode, input, s, e);
      case Timeout(_) => LeaveRefines(mode, input, s, e);
      case Exit(w) => ExitRefines(mode, input, s, w);
      case _ => OtherStepRefines(mode, input, s, e);
    }
    if es != [] {
      assert es[1..] == [];
    }
  }

  lemma {:induction false} LeadsConcat(p: BarrierProtocol.State, a: seq<BarrierProtocol.Event>,
      q: BarrierProtocol.State, b: seq<BarrierProtocol.Event>, r: BarrierProtocol.State)
    requires Leads(p, a, q) && Leads(q, b, r)
    ensures Leads(p, a + b, r)
    decreases |a|
  {
    if a == [] {
      assert a + b == b;
    } else {
      assert (a + b)[0] == a[0] && (a + b)[1..] == a[1..] + b;
      LeadsConcat(BarrierProtocol.Step(p, a[0]), a[1..], q, b, r);
    }
  }

  /** REFINEMENT: while the pool is within the parties counted, every run of the engine performs
      a run of the barrier protocol. */
  lemma {:induction false} RunRefines(mode: Mode, input: seq<Record>, s: State, es: seq<Event>)
    returns (bs: seq<BarrierProtocol.Event>)
    requires Inv(mode, input, s) && BarrierOn(mode) && IsRun(mode, input, s, es)
    requires |Exec(mode, input, s, es).workers| <= mode.parties
    ensures Leads(Project(mode, s), bs, Project(mode, Exec(mode, input, s, es)))
    decreases |es|
  {
    bs := [];
    if es != [] {
      var s' := Step(mode, input, s, es[0]);
      PoolGrows(mode, input, s, es);
      StepRefines(mode, input, s, es[0]);
      StepKeepsInv(mode, input, s, es[0]);
      var rest := RunRefines(mode, input, s', es[1..]);
      bs := BarrierEvents(es[0]) + rest;
      LeadsConcat(Project(mode, s), BarrierEvents(es[0]), Project(mode, s'), rest,
                  Project(mode, Exec(mode, input, s, es)));
    }
  }

  /** In particular the barrier's counters keep their meaning in every reachable state. */
  lemma BarrierInv(mode: Mode, input: seq<Record>, s: State)
    requires Reachable(mode, input, s) && BarrierOn(mode) && |s.workers| <= mode.parties
    ensures BarrierProtocol.Inv(Project(mode, s))
  {
    var es :| IsRun(mode, input, Init(mode), es) && Exec(mode, input, Init(mode), es) == s;
    assert Records(Init(mode).routed) == [];
    var bs := RunRefines(mode, input, Init(mode), es);
    var p := Project(mode, Init(mode));
    UpToMeans(mode.parties);
    assert p.registered == UpTo(mode.parties) && BarrierProtocol.Waiters(p) == {};
    BarrierProtocol.RunKeepsInv(p, bs);
  }

  // ---- when only a timeout helps ----

  /** Waiting for the reader: nothing in hand, nothing queued, not told to stop. */
  predicate Asleep(s: State, w: nat)
    requires w < |s.workers|
  {
    s.workers[w].gate.Idle? && s.workers[w].queue == [] && !s.workers[w].shutdown && !s.workers[w].exited
  }

  /** The next record belongs to a worker whose queue is full. */
  predicate ReaderBlocked(mode: Mode, input: seq<Record>, s: State) {
    && |s.routed| < |input|
    && var w := Target(mode, s.workers, input[|s.routed|].pid);
       w < |s.workers| && |s.workers[w].queue| >= RING_BUF_SIZE - 1
  }

  predicate ReaderDone(input: seq<Record>, s: State) {
    |s.routed| >= |input| && forall w | 0 <= w < |s.workers| :: s.workers[w].shutdown
  }

  predicate Halted(mode: Mode, input: seq<Record>, s: State) {
    && (exists w | 0 <= w < |s.workers| :: AtBarrier(s, w))
    && (forall w | 0 <= w < |s.workers| :: AtBarrier(s, w) || Asleep(s, w) || s.workers[w].exited)
    && (ReaderBlocked(mode, input, s) || ReaderDone(input, s))
  }

  /** Something can happen, but only a timeout. */
  ghost predicate OnlyTimeouts(mode: Mode, input: seq<Record>, s: State) {
    && (exists e :: Enabled(mode, input, s, e))
    && (forall e | Enabled(mode, input, s, e) :: e.Timeout?)
  }

  lemma HaltedAllowsOnlyTimeouts(mode: Mode, input: seq<Record>, s: State, e: Event)
    requires Inv(mode, input, s) && Halted(mode, input, s) && Enabled(mode, input, s, e)
    ensures e.Timeout?
  {
    if !e.Route? {
      assert Conserved(mode, s, e.w);
    }
  }

  lemma WorkerHalted(mode: Mode, input: seq<Record>, s: State, w: nat)
    requires Inv(mode, input, s) && OnlyTimeouts(mode, input, s) && w < |s.workers|
    ensures AtBarrier(s, w) || Asleep(s, w) || s.workers[w].exited
  {
    assert Conserved(mode, s, w);
    var k := s.workers[w];
    assert !Enabled(mode, input, s, Arrive(w)) && !Enabled(mode, input, s, Wake(w))
        && !Enabled(mode, input, s, Take(w));
    assert !Enabled(mode, input, s, Dispatch(w, 0)) && !Enabled(mode, input, s, Exit(w));
  }

  lemma ReaderHalted(mode: Mode, input: seq<Record>, s: State)
    requires Inv(mode, input, s) && OnlyTimeouts(mode, input, s)
    ensures ReaderBlocked(mode, input, s) || ReaderDone(input, s)
  {
    if |s.routed| < |input| {
      TargetInPool(mode, s.workers, input[|s.routed|].pid);
      assert !Enabled(mode, input, s, Route);
    } else {
      forall w | 0 <= w < |s.workers| ensures s.workers[w].shutdown {
        assert !Enabled(mode, input, s, Shutdown(w));
      }
    }
  }

  /** EXACT CONDITION: only a timeout can move the engine if and only if some worker waits for the
      current generation, every other one does so too, sleeps on its empty queue or has exited,
      and the reader is blocked on a full queue or done. */
  lemma OnlyTimeoutsIff(mode: Mode, input: seq<Record>, s: State)
    requires Reachable(mode, input, s)
    ensures OnlyTimeouts(mode, input, s) <==> Halted(mode, input, s)
  {
    ReachableInv(mode, input, s);
    if OnlyTimeouts(mode, input, s) {
      forall w | 0 <= w < |s.workers| ensures AtBarrier(s, w) || Asleep(s, w) || s.workers[w].exited {
        WorkerHalted(mode, input, s, w);
      }
      var e :| Enabled(mode, input, s, e);
      assert !Enabled(mode, input, s, Wake(e.w));
      assert AtBarrier(s, e.w);
      ReaderHalted(mode, input, s);
    }
    if Halted(mode, input, s) {
      forall e | Enabled(mode, input, s, e) ensures e.Timeout? {
        HaltedAllowsOnlyTimeouts(mode, input, s, e);
      }
      var w :| 0 <= w < |s.workers| && AtBarrier(s, w);
      assert Enabled(mode, input, s, Timeout(w));
    }
  }

  /** With no late timeout charged, a halt means that some party is missing: it has no worker, or
      its worker sleeps on an empty queue. */
  lemma HaltNeedsAbsentee(mode: Mode, input: seq<Record>, s: State) returns (w: nat)
    requires Inv(mode, input, s) && BarrierProtocol.Inv(Project(mode, s)) && |s.workers| <= mode.parties
    requires Halted(mode, input, s) && s.late == 0
    ensures w < mode.parties && (w >= |s.workers| || Asleep(s, w))
  {
    var p := Project(mode, s);
    var v :| 0 <= v < |s.workers| && AtBarrier(s, v);
    assert Conserved(mode, s, v);
    RegisteredMeans(mode, s, v);
    BarrierProtocol.NotStranded(p);
    w :| w in p.registered && w !in BarrierProtocol.Waiters(p);
    RegisteredMeans(mode, s, w);
  }

  ghost predicate TimeoutFree(es: seq<Event>) {
    forall i | 0 <= i < |es| :: !es[i].Timeout?
  }

  /** es is a run without timeouts that finishes the replay. */
  ghost predicate Finishes(mode: Mode, input: seq<Record>, s: State, es: seq<Event>) {
    TimeoutFree(es) && IsRun(mode, input, s, es) && Finished(input, Exec(mode, input, s, es))
  }

  lemma PrependFinishes(mode: Mode, input: seq<Record>, s: State, e: Event, rest: seq<Event>)
    requires Enabled(mode, input, s, e) && !e.Timeout? && Finishes(mode, input, Step(mode, input, s, e), rest)
    ensures Finishes(mode, input, s, [e] + rest)
  {
    assert ([e] + rest)[1..] == rest;
  }

  /** What an unfinished state without a halt can do. */
  lemma MoveWithoutTimeout(mode: Mode, input: seq<Record>, s: State) returns (e: Event)
    requires Reachable(mode, input, s) && !Finished(input, s) && !Halted(mode, input, s)
    ensures Enabled(mode, input, s, e) && !e.Timeout?
  {
    SomebodyCanMove(mode, input, s);
    OnlyTimeoutsIff(mode, input, s);
    e :| Enabled(mode, input, s, e) && !e.Timeout?;
  }

  lemma StepAfterRouting(mode: Mode, input: seq<Record>, s: State, e: Event)
    requires Enabled(mode, input, s, e) && !e.Timeout? && |s.routed| >= |input| && s.late == 0
    ensures var s' := Step(mode, input, s, e);
            s'.routed == s.routed && s'.late == 0 && |s'.workers| == |s.workers|
  {
  }

  /** PROGRESS: once everything is routed, with every party present and no late timeout charged,
      the replay can be finished without any timeout. */
  lemma {:induction false} DrainsWithoutTimeouts(mode: Mode, input: seq<Record>, s: State) returns (es: seq<Event>)
    requires Reachable(mode, input, s) && BarrierOn(mode)
    requires |s.routed| == |input| && |s.workers| == mode.parties && s.late == 0
    ensures Finishes(mode, input, s, es)
    decreases Remaining(input, s)
  {
    es := [];
    if !Finished(input, s) {
      ReachableInv(mode, input, s);
      BarrierInv(mode, input, s);
      if Halted(mode, input, s) {
        var w := HaltNeedsAbsentee(mode, input, s);
        assert false;
      }
      var e := MoveWithoutTimeout(mode, input, s);
      ReachableStep(mode, input, s, e);
      StepAfterRouting(mode, input, s, e);
      StepUsesWork(mode, input, s, e);
      var rest := DrainsWithoutTimeouts(mode, input, Step(mode, input, s, e));
      PrependFinishes(mode, input, s, e, rest);
      es := [e] + rest;
    }
  }

  // ---- both kinds of halt happen ----

  const TWO_PARTIES := Mode(false, true, 2)

  function WriteOf(pid: nat): Record {
    Record(pid, 1, 0, 0)
  }

  /** A capture in which one process writes 4097 times before another writes once. */
  function Burst(): (input: seq<Record>)
    ensures |input| == RING_BUF_SIZE + 2
    ensures forall i | 0 <= i <= RING_BUF_SIZE :: input[i] == WriteOf(1)
  {
    seq(RING_BUF_SIZE + 1, _ => WriteOf(1)) + [WriteOf(2)]
  }

  /** After k records of the burst, the first of them at the barrier. */
  function BurstState(k: nat): State
    requires 1 <= k <= RING_BUF_SIZE
  {
    State(seq(k, _ => Entry(0, WriteOf(1), 0)),
          [Worker(1, seq(k - 1, _ => WriteOf(1)), Some(WriteOf(1)), Waiting(0), false, false, Counters(1, 0, 0, 0, 0))],
          [], BarrierCounters.Counters(2, 1, 0), 0)
  }

  lemma BurstStarts()
    ensures Reachable(TWO_PARTIES, Burst(), BurstState(1))
  {
    var s0 := Init(TWO_PARTIES);
    assert IsRun(TWO_PARTIES, Burst(), s0, []) && Exec(TWO_PARTIES, Burst(), s0, []) == s0;
    assert Keys(s0.workers) == [];
    ReachableStep(TWO_PARTIES, Burst(), s0, Route);
    var s1 := Step(TWO_PARTIES, Burst(), s0, Route);
    ReachableStep(TWO_PARTIES, Burst(), s1, Take(0));
    var s2 := Step(TWO_PARTIES, Burst(), s1, Take(0));
    ReachableStep(TWO_PARTIES, Burst(), s2, Arrive(0));
    var s3 := Step(TWO_PARTIES, Burst(), s2, Arrive(0));
    assert s1.workers[0].queue == [WriteOf(1)];
    assert s3.routed == BurstState(1).routed && s3.workers[0].queue == BurstState(1).workers[0].queue;
    assert s3.workers == BurstState(1).workers;
  }

  lemma BurstRoutes(k: nat)
    requires 1 <= k < RING_BUF_SIZE
    ensures Enabled(TWO_PARTIES, Burst(), BurstState(k), Route)
    ensures Step(TWO_PARTIES, Burst(), BurstState(k), Route) == BurstState(k + 1)
  {
    var s := BurstState(k);
    assert Keys(s.workers) == [1];
    assert Target(TWO_PARTIES, s.workers, 1) == 0;
    assert seq(k - 1, _ => WriteOf(1)) + [WriteOf(1)] == seq(k, _ => WriteOf(1));
    assert seq(k, _ => Entry(0, WriteOf(1), 0)) + [Entry(0, WriteOf(1), 0)] == seq(k + 1, _ => Entry(0, WriteOf(1), 0));
  }

  lemma {:induction false} BurstReachable(k: nat)
    requires 1 <= k <= RING_BUF_SIZE
    ensures Reachable(TWO_PARTIES, Burst(), BurstState(k))
  {
    if k == 1 {
      BurstStarts();
    } else {
      BurstReachable(k - 1);
      BurstRoutes(k - 1);
      ReachableStep(TWO_PARTIES, Burst(), BurstState(k - 1), Route);
    }
  }

  /** The reader is blocked on the full queue of a worker that waits at the barrier for a process
      whose first record the reader has not reached: only the timeout helps, with none late. */
  lemma FullQueueHalts()
    ensures Reachable(TWO_PARTIES, Burst(), BurstState(RING_BUF_SIZE))
    ensures OnlyTimeouts(TWO_PARTIES, Burst(), BurstState(RING_BUF_SIZE)) && BurstState(RING_BUF_SIZE).late == 0
  {
    var s := BurstState(RING_BUF_SIZE);
    BurstReachable(RING_BUF_SIZE);
    assert Keys(s.workers) == [1] && Target(TWO_PARTIES, s.workers, 1) == 0;
    assert AtBarrier(s, 0);
    OnlyTimeoutsIff(TWO_PARTIES, Burst(), s);
  }

  /** One worker, with the only record at the barrier. */
  lemma OneWaits() returns (s: State)
    ensures Reachable(TWO_PARTIES, [WriteOf(1)], s) && |s.workers| == |s.routed| == 1 && s.late == 0
    ensures AtBarrier(s, 0) && !s.workers[0].shutdown
  {
    var input := [WriteOf(1)];
    var s0 := Init(TWO_PARTIES);
    assert IsRun(TWO_PARTIES, input, s0, []) && Exec(TWO_PARTIES, input, s0, []) == s0;
    assert Keys(s0.workers) == [];
    ReachableStep(TWO_PARTIES, input, s0, Route);
    var s1 := Step(TWO_PARTIES, input, s0, Route);
    ReachableStep(TWO_PARTIES, input, s1, Take(0));
    var s2 := Step(TWO_PARTIES, input, s1, Take(0));
    ReachableStep(TWO_PARTIES, input, s2, Arrive(0));
    s := Step(TWO_PARTIES, input, s2, Arrive(0));
  }

  /** A process counted by the pre-pass whose records are all filtered out never comes: the last
      write of the other one waits for it until the timeout. */
  lemma AbsentProcessHalts() returns (s: State)
    ensures var input := [WriteOf(1)];
            Reachable(TWO_PARTIES, input, s) && OnlyTimeouts(TWO_PARTIES, input, s) && s.late == 0
                && ReaderDone(input, s)
  {
    var input := [WriteOf(1)];
    var s3 := OneWaits();
    ReachableStep(TWO_PARTIES, input, s3, Shutdown(0));
    s := Step(TWO_PARTIES, input, s3, Shutdown(0));
    assert AtBarrier(s, 0);
    OnlyTimeoutsIff(TWO_PARTIES, input, s);
  }
}
