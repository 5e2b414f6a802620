/** What the counters of the write barrier mean inside the replay engine (syscall_replayer.c), for
    every pool of workers: also when a worker exists that the barrier was not set up for. */
module ReplayCounters {
  import BarrierCounters
  import opened Replay
  import opened SetSizes
  import opened Wrappers

  predicate AtBarrier(s: State, w: nat)
    requires w < |s.workers|
  {
    s.workers[w].gate == Waiting(s.bar.generation)
  }

  /** The workers that wait for the current generation, and those that have exited. */
  ghost function Waiters(s: State): set<nat> {
    set w: nat | w < |s.workers| && AtBarrier(s, w)
  }

  ghost function Gone(s: State): set<nat> {
    set w: nat | w < |s.workers| && s.workers[w].exited
  }

  ghost predicate Accounts(mode: Mode, s: State) {
    && s.bar.nActive == mode.parties - |Gone(s)|
    && s.bar.nWaiting == |Waiters(s)| - s.late
    && (s.bar.nWaiting <= 0 || s.bar.nWaiting < s.bar.nActive)
    && (forall w | 0 <= w < |s.workers| :: s.workers[w].gate.Waiting? ==> s.workers[w].gate.gen <= s.bar.generation)
  }

  /** To the barrier a worker looks as before. */
  predicate Alike(k: Worker, k': Worker) {
    k'.exited == k.exited && (k'.gate == k.gate || (!k.gate.Waiting? && !k'.gate.Waiting?))
  }

  /** The barrier and everyone at it are left alone; at most new workers come. */
  ghost predicate Undisturbed(s: State, s': State) {
    && s'.bar == s.bar && s'.late == s.late && |s.workers| <= |s'.workers|
    && (forall w | 0 <= w < |s.workers| :: Alike(s.workers[w], s'.workers[w]))
    && (forall w | |s.workers| <= w < |s'.workers| :: !s'.workers[w].exited && s'.workers[w].gate.Idle?)
  }

  predicate AwayFromBarrier(e: Event) {
    e.Route? || e.Shutdown? || e.Take? || e.Dispatch?
  }

  lemma RouteUndisturbed(mode: Mode, input: seq<Record>, s: State)
    requires Enabled(mode, input, s, Route)
    ensures Undisturbed(s, Step(mode, input, s, Route))
  {
  }

  lemma WorkerUndisturbed(mode: Mode, input: seq<Record>, s: State, e: Event)
    requires AwayFromBarrier(e) && !e.Route? && Enabled(mode, input, s, e)
    requires s.workers[e.w].inHand.None? <==> s.workers[e.w].gate.Idle?
    ensures Undisturbed(s, Step(mode, input, s, e))
  {
    var s' := Step(mode, input, s, e);
    assert s'.workers == s.workers[e.w := s'.workers[e.w]] && Alike(s.workers[e.w], s'.workers[e.w]);
  }

  lemma StepUndisturbed(mode: Mode, input: seq<Record>, s: State, e: Event)
    requires Inv(mode, input, s) && AwayFromBarrier(e) && Enabled(mode, input, s, e)
    ensures Undisturbed(s, Step(mode, input, s, e))
  {
    if e.Route? {
      RouteUndisturbed(mode, input, s);
    } else {
      assert Conserved(mode, s, e.w);
      WorkerUndisturbed(mode, input, s, e);
    }
  }

  lemma SameStanding(mode: Mode, s: State, s': State)
    requires Accounts(mode, s) && Undisturbed(s, s')
    ensures Accounts(mode, s')
  {
    assert forall w | 0 <= w < |s.workers| :: Alike(s.workers[w], s'.workers[w]);
    assert Waiters(s') == Waiters(s) && Gone(s') == Gone(s);
  }

  /** One worker changes while the generation stays. */
  lemma OneChanges(s: State, s': State, w: nat, k: Worker)
    requires w < |s.workers| && s'.workers == s.workers[w := k] && s'.bar.generation == s.bar.generation
    ensures |Waiters(s')| == |Waiters(s)| - One(AtBarrier(s, w)) + One(AtBarrier(s', w))
    ensures |Gone(s')| == |Gone(s)| - One(s.workers[w].exited) + One(k.exited)
  {
    DifferAt(Waiters(s'), Waiters(s), w);
    DifferAt(Gone(s'), Gone(s), w);
  }

  /** One worker changes and the generation closes. */
  lemma GenerationCloses(s: State, s': State, w: nat, k: Worker)
    requires w < |s.workers| && s'.workers == s.workers[w := k]
    requires s'.bar.generation > s.bar.generation && !k.gate.Waiting?
    requires forall v | 0 <= v < |s.workers| && s.workers[v].gate.Waiting? :: s.workers[v].gate.gen <= s.bar.generation
    ensures |Waiters(s')| == 0
    ensures |Gone(s')| == |Gone(s)| - One(s.workers[w].exited) + One(k.exited)
  {
    assert Waiters(s') == {};
    DifferAt(Gone(s'), Gone(s), w);
  }

  lemma ArriveAccounts(mode: Mode, input: seq<Record>, s: State, w: nat)
    requires Accounts(mode, s) && Enabled(mode, input, s, Arrive(w)) && !s.workers[w].exited
    ensures Accounts(mode, Step(mode, input, s, Arrive(w)))
  {
    var s' := Step(mode, input, s, Arrive(w));
    if s'.bar.generation != s.bar.generation {
      GenerationCloses(s, s', w, s'.workers[w]);
    } else {
      OneChanges(s, s', w, s'.workers[w]);
    }
  }

  lemma LeaveAccounts(mode: Mode, input: seq<Record>, s: State, e: Event)
    requires Accounts(mode, s) && Enabled(mode, input, s, e) && (e.Wake? || e.Timeout?)
    ensures Accounts(mode, Step(mode, input, s, e))
  {
    var s' := Step(mode, input, s, e);
    OneChanges(s, s', e.w, s'.workers[e.w]);
  }

  lemma ExitAccounts(mode: Mode, input: seq<Record>, s: State, w: nat)
    requires Accounts(mode, s) && BarrierOn(mode) && Enabled(mode, input, s, Exit(w)) && s.workers[w].gate.Idle?
    ensures Accounts(mode, Step(mode, input, s, Exit(w)))
  {
    var s' := Step(mode, input, s, Exit(w));
    if s'.bar.generation != s.bar.generation {
      GenerationCloses(s, s', w, s'.workers[w]);
    } else {
      OneChanges(s, s', w, s'.workers[w]);
    }
  }

  lemma StepAccounts(mode: Mode, input: seq<Record>, s: State, e: Event)
    requires Inv(mode, input, s) && Accounts(mode, s) && BarrierOn(mode) && Enabled(mode, input, s, e)
    ensures Accounts(mode, Step(mode, input, s, e))
  {
    if AwayFromBarrier(e) {
      StepUndisturbed(mode, input, s, e);
      SameStanding(mode, s, Step(mode, input, s, e));
    } else {
      assert Conserved(mode, s, e.w);
      match e {
        case Arrive(w) => ArriveAccounts(mode, input, s, w);
        case Exit(w) => ExitAccounts(mode, input, s, w);
        case _ => LeaveAccounts(mode, input, s, e);
      }
    }
  }

  lemma {:induction false} RunAccounts(mode: Mode, input: seq<Record>, s: State, es: seq<Event>)
    requires Inv(mode, input, s) && Accounts(mode, s) && BarrierOn(mode) && IsRun(mode, input, s, es)
    ensures Accounts(mode, Exec(mode, input, s, es))
    decreases |es|
  {
    if es != [] {
      StepAccounts(mode, input, s, es[0]);
      StepKeepsInv(mode, input, s, es[0]);
      RunAccounts(mode, input, Step(mode, input, s, es[0]), es[1..]);
    }
  }

  /** COUNTERS in every reachable state, whatever the pool: active is the parties less the exits,
      waiting the workers at the barrier less the late timeouts, and waiting stays below active. */
  lemma CountersMean(mode: Mode, input: seq<Record>, s: State)
    requires Reachable(mode, input, s) && BarrierOn(mode)
    ensures Accounts(mode, s)
  {
    var es :| IsRun(mode, input, Init(mode), es) && Exec(mode, input, Init(mode), es) == s;
    assert Records(Init(mode).routed) == [];
    assert Waiters(Init(mode)) == {} && Gone(Init(mode)) == {};
    RunAccounts(mode, input, Init(mode), es);
  }

  // ---- when a generation closes ----

  ghost predicate Closes(mode: Mode, input: seq<Record>, s: State, e: Event) {
    Enabled(mode, input, s, e) && Step(mode, input, s, e).bar.generation != s.bar.generation
  }

  /** Every other worker waits for the generation or has exited. */
  ghost predicate OthersArrived(s: State, v: nat) {
    forall w | 0 <= w < |s.workers| && w != v :: AtBarrier(s, w) || s.workers[w].exited
  }

  lemma ClosingCount(mode: Mode, input: seq<Record>, s: State, e: Event)
    requires Accounts(mode, s) && BarrierOn(mode) && Closes(mode, input, s, e)
    ensures (e.Arrive? || e.Exit?) && |Waiters(s)| + |Gone(s)| + 1 == mode.parties + s.late
  {
  }

  /** The others that wait or have exited are as many as all others exactly when they are all. */
  lemma OthersCount(s: State, v: nat)
    requires v < |s.workers| && !AtBarrier(s, v) && !s.workers[v].exited
    requires forall w | 0 <= w < |s.workers| :: !(AtBarrier(s, w) && s.workers[w].exited)
    ensures |Waiters(s)| + |Gone(s)| + 1 <= |s.workers|
    ensures OthersArrived(s, v) <==> |Waiters(s)| + |Gone(s)| + 1 == |s.workers|
  {
    UpToMeans(|s.workers|);
    var some, others := Waiters(s) + Gone(s), UpTo(|s.workers|) - {v};
    assert |some| == |Waiters(s)| + |Gone(s)| by {
      assert Waiters(s) !! Gone(s);
    }
    assert |others| == |s.workers| - 1;
    SubsetSize(some, others);
    if OthersArrived(s, v) {
      assert others <= some;
    }
    if others <= some {
      forall w | 0 <= w < |s.workers| && w != v ensures AtBarrier(s, w) || s.workers[w].exited {
        assert w in others && w in some;
      }
    }
  }

  /** SAFETY, exactly: a step closes a generation only when the pool has at least as many workers
      as the barrier has parties and late timeouts together, and then every other worker waits
      for that generation or has exited if and only if it has no more. */
  lemma ClosesOnlyWhenAllArrived(mode: Mode, input: seq<Record>, s: State, e: Event)
    requires Reachable(mode, input, s) && BarrierOn(mode) && Closes(mode, input, s, e)
    ensures (e.Arrive? || e.Exit?) && mode.parties + s.late <= |s.workers|
    ensures OthersArrived(s, e.w) <==> |s.workers| == mode.parties + s.late
  {
    ReachableInv(mode, input, s);
    CountersMean(mode, input, s);
    ClosingCount(mode, input, s, e);
    forall w | 0 <= w < |s.workers| ensures !(AtBarrier(s, w) && s.workers[w].exited) {
      assert Conserved(mode, s, w);
    }
    assert Conserved(mode, s, e.w);
    OthersCount(s, e.w);
  }

  lemma {:induction false} PoolGrows(mode: Mode, input: seq<Record>, s: State, es: seq<Event>)
    requires IsRun(mode, input, s, es)
    ensures |s.workers| <= |Exec(mode, input, s, es).workers|
    decreases |es|
  {
    if es != [] {
      PoolGrows(mode, input, Step(mode, input, s, es[0]), es[1..]);
    }
  }

  /** FREEZE over every run: as long as the pool is smaller than the parties and the late timeouts
      together, no generation closes.  So after one late timeout, in a pool that the barrier was
      set up for, none ever does. */
  lemma {:induction false} FrozenInEngine(mode: Mode, input: seq<Record>, s: State, es: seq<Event>)
    requires Reachable(mode, input, s) && BarrierOn(mode) && IsRun(mode, input, s, es)
    requires |Exec(mode, input, s, es).workers| < mode.parties + s.late
    ensures Exec(mode, input, s, es).bar.generation == s.bar.generation && Exec(mode, input, s, es).late >= s.late
    decreases |es|
  {
    if es != [] {
      PoolGrows(mode, input, s, es);
      if Closes(mode, input, s, es[0]) {
        ClosesOnlyWhenAllArrived(mode, input, s, es[0]);
      }
      ReachableStep(mode, input, s, es[0]);
      FrozenInEngine(mode, input, Step(mode, input, s, es[0]), es[1..]);
    }
  }

  // ---- a worker that no party stands for ----

  /** The pre-pass skips pid 0, the pool does not: of three writers the barrier counts two. */
  const TWO_COUNTED := Mode(false, true, 2)

  const UNCOUNTED: seq<Record> := [Record(1, 1, 0, 0), Record(2, 1, 0, 0), Record(0, 1, 0, 0)]

  /** Three workers, one record each, none taken yet. */
  lemma ThreeRouted() returns (s: State)
    ensures Reachable(TWO_COUNTED, UNCOUNTED, s) && |s.workers| == 3 && s.bar == Init(TWO_COUNTED).bar && s.late == 0
    ensures forall w | 0 <= w < 3 :: s.workers[w] == Fresh(UNCOUNTED[w].pid).(queue := [UNCOUNTED[w]])
  {
    s := Init(TWO_COUNTED);
    assert IsRun(TWO_COUNTED, UNCOUNTED, s, []) && Exec(TWO_COUNTED, UNCOUNTED, s, []) == s;
    for n := 0 to 3
      invariant Reachable(TWO_COUNTED, UNCOUNTED, s) && |s.workers| == |s.routed| == n
      invariant s.bar == Init(TWO_COUNTED).bar && s.late == 0
      invariant forall w | 0 <= w < n :: s.workers[w] == Fresh(UNCOUNTED[w].pid).(queue := [UNCOUNTED[w]])
    {
      RouteFromSpec(Keys(s.workers), UNCOUNTED[n].pid, 0);
      assert UNCOUNTED[n].pid !in Keys(s.workers)[0..];
      ReachableStep(TWO_COUNTED, UNCOUNTED, s, Route);
      s := Step(TWO_COUNTED, UNCOUNTED, s, Route);
    }
  }

  /** The failure happens: processes 1 and 0 meet and open the barrier, while the worker of
      process 2 has its write still queued. */
  lemma UncountedWorkerBreaksBarrier() returns (s: State)
    ensures Reachable(TWO_COUNTED, UNCOUNTED, s) && Closes(TWO_COUNTED, UNCOUNTED, s, Arrive(2)) && s.late == 0
    ensures |s.workers| == 3 && !AtBarrier(s, 1) && !s.workers[1].exited && s.workers[1].queue == [UNCOUNTED[1]]
  {
    var s0 := ThreeRouted();
    ReachableStep(TWO_COUNTED, UNCOUNTED, s0, Take(0));
    var s1 := Step(TWO_COUNTED, UNCOUNTED, s0, Take(0));
    ReachableStep(TWO_COUNTED, UNCOUNTED, s1, Arrive(0));
    var s2 := Step(TWO_COUNTED, UNCOUNTED, s1, Arrive(0));
    ReachableStep(TWO_COUNTED, UNCOUNTED, s2, Take(2));
    s := Step(TWO_COUNTED, UNCOUNTED, s2, Take(2));
  }
}
