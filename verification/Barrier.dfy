/** The generation-counting barrier of the replay engine (syscall_replayer.c).

    Each replay worker passes the barrier before an I/O syscall.  Membership only
    shrinks (a worker unregisters when its queue has drained) and a waiter may give
    up after 10 ms.  The lock is released only inside the timed wait, so one call is
    cut there into atomic steps: `Arrive` (entry up to the wait), then `Wake` or
    `Timeout`.  `BarrierProtocol` runs those steps in every possible order.
 */
module BarrierCounters {

  /** The counters guarded by the barrier's lock. */
  datatype Counters = Counters(nActive: int, nWaiting: int, generation: nat)

  /** What a caller of the barrier does after the first critical section. */
  datatype Arrival = PassThrough | Released | MustWait(myGen: nat)

  function Release(c: Counters): Counters {
    c.(nWaiting := 0, generation := c.generation + 1)
  }

  function OnArrive(c: Counters): (Counters, Arrival) {
    if c.nActive <= 1 then (c, PassThrough)
    else if c.nWaiting + 1 >= c.nActive then (Release(c), Released)
    else (c.(nWaiting := c.nWaiting + 1), MustWait(c.generation))
  }

  function OnTimeout(c: Counters): Counters {
    c.(nWaiting := c.nWaiting - 1)
  }

  function OnUnregister(c: Counters): Counters {
    var d := c.(nActive := c.nActive - 1);
    if d.nWaiting > 0 && d.nWaiting >= d.nActive then Release(d) else d
  }
}

/** Every interleaving of the registered workers over one barrier. */
module BarrierProtocol {
  import opened BarrierCounters
  import opened SetSizes

  type Worker = nat

  /** `blocked[t]` is the generation worker t read before it started to wait;
      `late` counts the timeouts, since the last release, taken by workers whose
      generation had already advanced.  Both are bookkeeping of the model. */
  datatype State = State(c: Counters, registered: set<Worker>, blocked: map<Worker, nat>, late: nat)

  datatype Event =
    | Arrive(t: Worker)
    | Wake(t: Worker)
    | Timeout(t: Worker)
    | Unregister(t: Worker)

  function Init(workers: set<Worker>): State {
    State(Counters(|workers|, 0, 0), workers, map[], 0)
  }

  predicate Enabled(s: State, e: Event) {
    match e
    case Arrive(t) => t in s.registered && t !in s.blocked
    case Wake(t) => t in s.blocked && s.blocked[t] != s.c.generation
    case Timeout(t) => t in s.blocked
    case Unregister(t) => t in s.registered && t !in s.blocked
  }

  function Step(s: State, e: Event): State
    requires Enabled(s, e)
  {
    match e
    case Arrive(t) =>
      var (c, a) := OnArrive(s.c);
      (match a
       case PassThrough => s
       case Released => s.(c := c, late := 0)
       case MustWait(g) => s.(c := c, blocked := s.blocked[t := g]))
    case Wake(t) => s.(blocked := s.blocked - {t})
    case Timeout(t) =>
      s.(c := OnTimeout(s.c), blocked := s.blocked - {t},
         late := if s.blocked[t] != s.c.generation then s.late + 1 else s.late)
    case Unregister(t) =>
      var c := OnUnregister(s.c);
      s.(c := c, registered := s.registered - {t},
         late := if c.generation != s.c.generation then 0 else s.late)
  }

  ghost predicate IsRun(s: State, es: seq<Event>)
    decreases |es|
  {
    es == [] || (Enabled(s, es[0]) && IsRun(Step(s, es[0]), es[1..]))
  }

  ghost function Exec(s: State, es: seq<Event>): State
    requires IsRun(s, es)
    decreases |es|
  {
    if es == [] then s else Exec(Step(s, es[0]), es[1..])
  }

  /** The workers blocked on the current generation. */
  function Waiters(s: State): set<Worker> {
    set t | t in s.blocked && s.blocked[t] == s.c.generation
  }

  /** What every reachable state satisfies; the third line from the end is the
      meaning of `nWaiting`. */
  ghost predicate Inv(s: State) {
    && s.blocked.Keys <= s.registered
    && (forall t <- s.blocked :: s.blocked[t] <= s.c.generation)
    && s.c.nActive == |s.registered|
    && s.c.nWaiting == |Waiters(s)| - s.late
    && (s.c.nWaiting <= 0 || s.c.nWaiting < s.c.nActive)
  }

  lemma ReleaseClearsWaiters(s: State, s': State)
    requires Inv(s) && s'.blocked == s.blocked && s'.c.generation == s.c.generation + 1
    ensures Waiters(s') == {}
  {
  }

  lemma ArriveKeepsInv(s: State, t: Worker)
    requires Inv(s) && Enabled(s, Arrive(t))
    ensures Inv(Step(s, Arrive(t)))
  {
    var s' := Step(s, Arrive(t));
    if s'.blocked != s.blocked {
      assert Waiters(s') == Waiters(s) + {t};
    } else if s' != s {
      ReleaseClearsWaiters(s, s');
    }
  }

  lemma WakeKeepsInv(s: State, t: Worker)
    requires Inv(s) && Enabled(s, Wake(t))
    ensures Inv(Step(s, Wake(t)))
  {
    assert Waiters(Step(s, Wake(t))) == Waiters(s);
  }

  lemma TimeoutKeepsInv(s: State, t: Worker)
    requires Inv(s) && Enabled(s, Timeout(t))
    ensures Inv(Step(s, Timeout(t)))
  {
    var s' := Step(s, Timeout(t));
    if s.blocked[t] == s.c.generation {
      assert Waiters(s') == Waiters(s) - {t} && t in Waiters(s);
    } else {
      assert Waiters(s') == Waiters(s);
    }
  }

  lemma UnregisterKeepsInv(s: State, t: Worker)
    requires Inv(s) && Enabled(s, Unregister(t))
    ensures Inv(Step(s, Unregister(t)))
  {
    var s' := Step(s, Unregister(t));
    if s'.c.generation != s.c.generation {
      ReleaseClearsWaiters(s, s');
    } else {
      assert Waiters(s') == Waiters(s);
    }
  }

  lemma StepKeepsInv(s: State, e: Event)
    requires Inv(s) && Enabled(s, e)
    ensures Inv(Step(s, e))
  {
    match e
    case Arrive(t) => ArriveKeepsInv(s, t);
    case Wake(t) => WakeKeepsInv(s, t);
    case Timeout(t) => TimeoutKeepsInv(s, t);
    case Unregister(t) => UnregisterKeepsInv(s, t);
  }

  /** Split a run at its last event. */
  lemma {:induction false} ExecSnoc(s: State, es: seq<Event>, e: Event)
    ensures IsRun(s, es + [e]) <==> (IsRun(s, es) && Enabled(Exec(s, es), e))
    ensures IsRun(s, es + [e]) ==> Exec(s, es + [e]) == Step(Exec(s, es), e)
    decreases |es|
  {
    if es == [] {
      assert es + [e] == [e];
    } else {
      assert (es + [e])[0] == es[0] && (es + [e])[1..] == es[1..] + [e];
      if Enabled(s, es[0]) {
        ExecSnoc(Step(s, es[0]), es[1..], e);
      }
    }
  }

  /** Every prefix of a run is a run, and one more event is one step. */
  lemma {:induction false} RunPrefix(s: State, es: seq<Event>, k: nat)
    requires IsRun(s, es) && k <= |es|
    ensures IsRun(s, es[..k])
    ensures k < |es| ==>
              && Enabled(Exec(s, es[..k]), es[k])
              && IsRun(s, es[..k + 1])
              && Exec(s, es[..k + 1]) == Step(Exec(s, es[..k]), es[k])
    decreases |es| - k
  {
    if k == |es| {
      assert es[..k] == es;
    } else {
      RunPrefix(s, es, k + 1);
      assert es[..k + 1] == es[..k] + [es[k]];
      ExecSnoc(s, es[..k], es[k]);
    }
  }

  /** The invariant holds in every reachable state. */
  lemma {:induction false} RunKeepsInv(s: State, es: seq<Event>)
    requires Inv(s) && IsRun(s, es)
    ensures Inv(Exec(s, es))
    decreases |es|
  {
    if es != [] {
      StepKeepsInv(s, es[0]);
      RunKeepsInv(Step(s, es[0]), es[1..]);
    }
  }

  /** Everyone who has to be at the barrier for event e to open it. */
  predicate EveryoneElseWaits(s: State, e: Event) {
    match e
    case Arrive(t) => |s.registered| >= 2 && s.registered - {t} <= Waiters(s)
    case Unregister(t) => s.registered - {t} != {} && s.registered - {t} <= Waiters(s)
    case _ => false
  }

  /** Exactly when a step opens the barrier: every still-registered worker has arrived
      and no late timeout has been charged to this generation. */
  lemma AdvancesIff(s: State, e: Event)
    requires Inv(s) && Enabled(s, e)
    ensures Step(s, e).c.generation != s.c.generation <==> EveryoneElseWaits(s, e) && s.late == 0
  {
    if e.Arrive? || e.Unregister? {
      var others := s.registered - {e.t};
      assert Waiters(s) <= others;
      SubsetSize(Waiters(s), others);
      assert |others| == |s.registered| - 1;
      assert others != {} <==> |others| > 0;
    }
  }

  /** The barrier object: each method is one critical section.  The ghost fields say who takes
      part; `Valid` is the protocol invariant, so the counters mean what they should. */
  class FlexBarrier {
    const nTotal: int
    var nActive: int
    var nWaiting: int
    var generation: nat
    ghost var registered: set<Worker>
    ghost var blocked: map<Worker, nat>
    ghost var late: nat

    ghost function V(): State
      reads this
    {
      State(Counters(nActive, nWaiting, generation), registered, blocked, late)
    }

    ghost predicate Valid()
      reads this
    {
      Inv(V())
    }

    constructor (n: int, ghost workers: set<Worker>)
      requires |workers| == n
      ensures Valid() && V() == Init(workers) && nTotal == n
    {
      nTotal, nActive, nWaiting, generation := n, n, 0, 0;
      registered, blocked, late := workers, map[], 0;
      new;
      assert Waiters(V()) == {};
    }

    /** A registered worker comes to the barrier.  Alone it passes.  It opens the barrier, and
        frees everyone who waits, exactly when all others wait and no late timeout is charged;
        otherwise it joins the waiters of the generation it read. */
    method Arrive(ghost t: Worker) returns (a: Arrival)
      requires Valid() && t in registered && t !in blocked
      modifies this
      ensures Valid() && V() == Step(old(V()), Event.Arrive(t))
      ensures a.PassThrough? <==> |old(registered)| <= 1
      ensures a.Released? <==> EveryoneElseWaits(old(V()), Event.Arrive(t)) && old(late) == 0
      ensures a.PassThrough? ==> V() == old(V())
      ensures a.Released? ==> generation == old(generation) + 1 && Waiters(V()) == {} && blocked == old(blocked)
      ensures a.MustWait? ==> a.myGen == generation == old(generation) && Waiters(V()) == old(Waiters(V())) + {t}
    {
      ghost var s := V();
      ArriveKeepsInv(s, t);
      AdvancesIff(s, Event.Arrive(t));
      if nActive <= 1 {
        return PassThrough;
      }
      var myGen := generation;
      nWaiting := nWaiting + 1;
      if nWaiting >= nActive {
        nWaiting := 0;
        generation := generation + 1;
        late := 0;
        a := Released;
        ReleaseClearsWaiters(s, V());
      } else {
        blocked := blocked[t := myGen];
        a := MustWait(myGen);
      }
    }

    /** The loop test of the timed wait: a waiter leaves as soon as its generation is closed. */
    method Leaves(ghost t: Worker, myGen: nat) returns (leaves: bool)
      requires Valid() && t in blocked && blocked[t] == myGen
      modifies this`blocked
      ensures Valid() && leaves == (t !in old(Waiters(V())))
      ensures leaves ==> V() == Step(old(V()), Event.Wake(t))
      ensures !leaves ==> V() == old(V())
    {
      leaves := generation != myGen;
      if leaves {
        WakeKeepsInv(V(), t);
        blocked := blocked - {t};
      }
    }

    /** ETIMEDOUT returned to a waiter.  Of a current waiter nothing remains; one whose generation
        is already closed is charged to the current generation, to which it never came. */
    method TimeOut(ghost t: Worker)
      requires Valid() && t in blocked
      modifies this
      ensures Valid() && V() == Step(old(V()), Event.Timeout(t)) && t !in blocked && generation == old(generation)
      ensures Waiters(V()) == old(Waiters(V())) - {t}
      ensures late > old(late) <==> t !in old(Waiters(V()))
    {
      ghost var s := V();
      TimeoutKeepsInv(s, t);
      nWaiting := nWaiting - 1;
      late := if blocked[t] != generation then late + 1 else late;
      blocked := blocked - {t};
    }

    /** A worker leaves for good, and frees the others exactly when all of them wait and no late
        timeout is charged. */
    method Unregister(ghost t: Worker)
      requires Valid() && t in registered && t !in blocked
      modifies this
      ensures Valid() && V() == Step(old(V()), Event.Unregister(t)) && registered == old(registered) - {t}
      ensures generation != old(generation) <==> EveryoneElseWaits(old(V()), Event.Unregister(t)) && old(late) == 0
      ensures Waiters(V()) == if generation != old(generation) then {} else old(Waiters(V()))
    {
      ghost var s := V();
      UnregisterKeepsInv(s, t);
      AdvancesIff(s, Event.Unregister(t));
      nActive := nActive - 1;
      registered := registered - {t};
      if nWaiting > 0 && nWaiting >= nActive {
        nWaiting := 0;
        generation := generation + 1;
        late := 0;
        ReleaseClearsWaiters(s, V());
      }
    }
  }

  /** A waiter of the current generation arrived in it and has done nothing since. */
  ghost predicate ArrivedAndStayed(s: State, es: seq<Event>, t: Worker, j: nat)
    requires IsRun(s, es)
  {
    && j < |es| && es[j] == Arrive(t)
    && (forall m | j < m < |es| :: es[m].t != t)
    && IsRun(s, es[..j])
    && Exec(s, es[..j]).c.generation == Exec(s, es).c.generation
  }

  lemma GenerationOnlyGrows(s: State, e: Event)
    requires Enabled(s, e)
    ensures s.c.generation <= Step(s, e).c.generation
  {
  }

  lemma {:induction false} WaiterArrived(s: State, es: seq<Event>, t: Worker) returns (j: nat)
    requires s.blocked == map[] && Inv(s) && IsRun(s, es)
    requires t in Waiters(Exec(s, es))
    ensures ArrivedAndStayed(s, es, t, j)
  {
    var n := |es| - 1;
    if es == [] {
      assert false;
    }
    var before := es[..n];
    RunPrefix(s, es, n);
    assert es[..n + 1] == es && es == before + [es[n]];
    var p := Exec(s, before);
    RunKeepsInv(s, before);
    GenerationOnlyGrows(p, es[n]);
    if es[n] == Arrive(t) {
      j := n;
    } else {
      j := WaiterArrived(s, before, t);
      assert before[..j] == es[..j];
    }
  }

  /** SAFETY over every run: whenever the generation advances at step k, each worker still
      registered afterwards either made the opening arrival itself, or arrived in the
      generation being closed and has been waiting ever since. */
  lemma AdvanceOnlyWhenAllArrived(workers: set<Worker>, es: seq<Event>, k: nat, u: Worker)
    requires IsRun(Init(workers), es) && k < |es|
    requires IsRun(Init(workers), es[..k]) && IsRun(Init(workers), es[..k + 1])
    requires Exec(Init(workers), es[..k + 1]).c.generation != Exec(Init(workers), es[..k]).c.generation
    requires u in Exec(Init(workers), es[..k + 1]).registered
    ensures es[k] == Arrive(u) || exists j :: ArrivedAndStayed(Init(workers), es[..k], u, j)
  {
    var s0 := Init(workers);
    assert Waiters(s0) == {};
    RunPrefix(s0, es, k);
    var s := Exec(s0, es[..k]);
    RunKeepsInv(s0, es[..k]);
    AdvancesIff(s, es[k]);
    if es[k] != Arrive(u) {
      var j := WaiterArrived(s0, es[..k], u);
    }
  }

  /** All registered workers sit on the current generation: only timeouts can happen. */
  predicate Stranded(s: State) {
    s.registered != {} && s.registered <= Waiters(s)
  }

  lemma StrandedMeansOnlyTimeouts(s: State)
    requires Inv(s) && s.registered != {}
    ensures Stranded(s) <==> forall e: Event :: Enabled(s, e) ==> e.Timeout?
  {
    if !Stranded(s) {
      var t :| t in s.registered && t !in Waiters(s);
      if t in s.blocked {
        assert Enabled(s, Wake(t));
      } else {
        assert Enabled(s, Arrive(t));
      }
    }
  }

  lemma NotStranded(s: State)
    requires Inv(s) && s.late == 0
    ensures !Stranded(s)
  {
    SubsetSize(Waiters(s), s.registered);
  }

  /** NO STRANDING over every run and every exit order: unless a late timeout has been
      charged to the current generation, somebody can move without a timeout. */
  lemma NeverStranded(workers: set<Worker>, es: seq<Event>)
    requires IsRun(Init(workers), es)
    requires Exec(Init(workers), es).late == 0
    ensures !Stranded(Exec(Init(workers), es))
  {
    assert Waiters(Init(workers)) == {};
    RunKeepsInv(Init(workers), es);
    NotStranded(Exec(Init(workers), es));
  }

  /** Exactly when the last arrival, or the last exit, strands everyone instead of releasing
      them: when a late timeout has been charged to the current generation. */
  lemma LastStepStrandsIff(s: State, e: Event)
    requires Inv(s) && Enabled(s, e) && EveryoneElseWaits(s, e)
    ensures Stranded(Step(s, e)) <==> s.late > 0
  {
    AdvancesIff(s, e);
    var s' := Step(s, e);
    if s.late == 0 {
      ReleaseClearsWaiters(s, s');
    } else {
      forall u | u in s'.registered ensures u in Waiters(s') {
        assert u != e.t ==> u in s.registered - {e.t} && u in Waiters(s);
      }
    }
  }

  ghost predicate TimeoutFree(es: seq<Event>) {
    forall i | 0 <= i < |es| :: !es[i].Timeout?
  }

  /** es is a timeout-free run from s after which nobody is blocked. */
  ghost predicate Frees(s: State, es: seq<Event>) {
    TimeoutFree(es) && IsRun(s, es) && Exec(s, es).blocked == map[]
  }

  lemma PrependFrees(s: State, e: Event, rest: seq<Event>)
    requires Enabled(s, e) && !e.Timeout? && Frees(Step(s, e), rest)
    ensures Frees(s, [e] + rest)
  {
    assert ([e] + rest)[1..] == rest;
  }

  /** Nobody waits on the current generation: waking the others frees them all. */
  lemma {:induction false} DrainStale(s: State) returns (es: seq<Event>)
    requires Inv(s) && Waiters(s) == {}
    ensures Frees(s, es)
    decreases s.blocked.Keys
  {
    if s.blocked == map[] {
      es := [];
    } else {
      var t :| t in s.blocked;
      assert t !in Waiters(s);
      var e := Wake(t);
      StepKeepsInv(s, e);
      assert Waiters(Step(s, e)) == Waiters(s);
      assert Step(s, e).blocked.Keys == s.blocked.Keys - {t};
      var rest := DrainStale(Step(s, e));
      PrependFrees(s, e, rest);
      es := [e] + rest;
    }
  }

  lemma WakeIsCloser(s: State, t: Worker)
    requires Inv(s) && t in s.blocked && t !in Waiters(s)
    ensures Waiters(Step(s, Wake(t))) == Waiters(s) && |Step(s, Wake(t)).blocked| < |s.blocked|
  {
    assert Step(s, Wake(t)).blocked.Keys == s.blocked.Keys - {t};
  }

  lemma ArriveIsCloser(s: State, t: Worker)
    requires Inv(s) && t in s.registered && t !in s.blocked && |s.registered| >= 2
    requires Step(s, Arrive(t)).c.generation == s.c.generation
    ensures Waiters(Step(s, Arrive(t))) == Waiters(s) + {t} && |Waiters(s) + {t}| == |Waiters(s)| + 1
    ensures Step(s, Arrive(t)).late == s.late
  {
    assert t !in Waiters(s);
  }

  /** A worker that does not wait wakes up or arrives: one stale waiter less or one waiter more. */
  lemma CloserToOpen(s: State, t: Worker)
    requires Inv(s) && s.late == 0 && t in s.registered && t !in Waiters(s) && |s.registered| >= 2
    requires Step(s, if t in s.blocked then Wake(t) else Arrive(t)).c.generation == s.c.generation
    ensures var s' := Step(s, if t in s.blocked then Wake(t) else Arrive(t));
            && s'.late == 0 && s'.registered == s.registered
            && (|Waiters(s')| > |Waiters(s)| || (Waiters(s') == Waiters(s) && |s'.blocked| < |s.blocked|))
  {
    if t in s.blocked {
      WakeIsCloser(s, t);
    } else {
      ArriveIsCloser(s, t);
    }
  }

  /** PROGRESS: from every reachable state with no late timeout charged, arrivals and
      wake-ups alone (no timeout, no exit needed) free every blocked worker. */
  lemma {:induction false} ReleaseIsReachable(s: State) returns (es: seq<Event>)
    requires Inv(s) && s.late == 0
    ensures Frees(s, es)
    decreases |s.registered| - |Waiters(s)|, |s.blocked|
  {
    SubsetSize(Waiters(s), s.registered);
    if Waiters(s) == {} {
      es := DrainStale(s);
    } else {
      assert Waiters(s) != s.registered;
      var t :| t in s.registered && t !in Waiters(s);
      var w :| w in Waiters(s);
      assert {w, t} <= s.registered;
      SubsetSize({w, t}, s.registered);
      var e := if t in s.blocked then Wake(t) else Arrive(t);
      var s' := Step(s, e);
      StepKeepsInv(s, e);
      var rest;
      if s'.c.generation != s.c.generation {
        ReleaseClearsWaiters(s, s');
        rest := DrainStale(s');
      } else {
        CloserToOpen(s, t);
        SubsetSize(Waiters(s'), s'.registered);
        rest := ReleaseIsReachable(s');
      }
      PrependFrees(s, e, rest);
      es := [e] + rest;
    }
  }

  /** FREEZE over every run: once a late timeout is charged, or fewer than two workers are left,
      the generation never changes again; the barrier delays everyone by its timeout forever. */
  lemma {:induction false} FrozenForever(s: State, es: seq<Event>)
    requires Inv(s) && IsRun(s, es) && (s.late > 0 || |s.registered| < 2)
    ensures Exec(s, es).c.generation == s.c.generation && Exec(s, es).late >= s.late
    decreases |es|
  {
    if es != [] {
      var s' := Step(s, es[0]);
      AdvancesIff(s, es[0]);
      StepKeepsInv(s, es[0]);
      if es[0].Unregister? && s.registered - {es[0].t} != {} {
        SubsetSize(s.registered - {es[0].t}, s.registered);
      }
      SubsetSize(s'.registered, s.registered);
      FrozenForever(s', es[1..]);
    }
  }

  /** A run from s that opens the barrier. */
  ghost predicate Opens(s: State, es: seq<Event>) {
    IsRun(s, es) && Exec(s, es).c.generation != s.c.generation
  }

  lemma PrependOpens(s: State, e: Event, rest: seq<Event>)
    requires Enabled(s, e) && Step(s, e).c.generation == s.c.generation && Opens(Step(s, e), rest)
    ensures Opens(s, [e] + rest)
  {
    assert ([e] + rest)[1..] == rest;
  }

  lemma {:induction false} CanOpen(s: State) returns (es: seq<Event>)
    requires Inv(s) && s.late == 0 && |s.registered| >= 2
    ensures Opens(s, es)
    decreases |s.registered| - |Waiters(s)|, |s.blocked|
  {
    SubsetSize(Waiters(s), s.registered);
    var t :| t in s.registered && t !in Waiters(s);
    var e := if t in s.blocked then Wake(t) else Arrive(t);
    var s' := Step(s, e);
    StepKeepsInv(s, e);
    if s'.c.generation != s.c.generation {
      es := [e];
    } else {
      CloserToOpen(s, t);
      SubsetSize(Waiters(s'), s'.registered);
      var rest := CanOpen(s');
      PrependOpens(s, e, rest);
      es := [e] + rest;
    }
  }

  /** EXACT CONDITION: the barrier can ever open again if and only if no late timeout is charged
      and at least two workers are left. */
  lemma OpensAgainIff(s: State)
    requires Inv(s)
    ensures (exists es :: Opens(s, es)) <==> s.late == 0 && |s.registered| >= 2
  {
    if s.late == 0 && |s.registered| >= 2 {
      var es := CanOpen(s);
    } else if es :| Opens(s, es) {
      FrozenForever(s, es);
    }
  }

  /** The failure happens: two workers, one timeout that races with a release, and from then on
      both wait on a generation that no run ever closes. */
  lemma LateTimeoutCanStrand()
    ensures var es := [Arrive(0), Arrive(1), Timeout(0), Arrive(0), Arrive(1)];
            && IsRun(Init({0, 1}), es)
            && Exec(Init({0, 1}), es).late == 1
            && Stranded(Exec(Init({0, 1}), es))
            && !exists more :: Opens(Exec(Init({0, 1}), es), more)
  {
    var s0 := Init({0, 1});
    var s1 := Step(s0, Arrive(0));
    var s2 := Step(s1, Arrive(1));
    var s3 := Step(s2, Timeout(0));
    var s4 := Step(s3, Arrive(0));
    var s5 := Step(s4, Arrive(1));
    assert s5 == State(Counters(2, 1, 1), {0, 1}, map[0 := 1, 1 := 1], 1);
    assert Waiters(s5) == {0, 1};
    var e4 := [Arrive(1)];
    var e3 := [Arrive(0), Arrive(1)];
    var e2 := [Timeout(0), Arrive(0), Arrive(1)];
    var e1 := [Arrive(1), Timeout(0), Arrive(0), Arrive(1)];
    var es := [Arrive(0), Arrive(1), Timeout(0), Arrive(0), Arrive(1)];
    assert e4[1..] == [] && e3[1..] == e4 && e2[1..] == e3 && e1[1..] == e2 && es[1..] == e1;
    assert IsRun(s4, e4) && Exec(s4, e4) == s5;
    assert IsRun(s3, e3) && Exec(s3, e3) == s5;
    assert IsRun(s2, e2) && Exec(s2, e2) == s5;
    assert IsRun(s1, e1) && Exec(s1, e1) == s5;
    OpensAgainIff(s5);
  }
}
