/** Request lifecycles of analyzers/blktrace_analyzer.py: queue, issue and completion events
    of one (sector, nblocks) key are matched first in, first out. */
module Lifecycle {
  import opened Wrappers

  datatype Action = Queue | Issue | Complete | Other

  datatype Event = Event(time: real, action: Action, sector: nat, nblocks: nat, isRead: bool)

  datatype Request = Request(sector: nat, nblocks: nat, isRead: bool,
                             queueTime: Option<real>, issueTime: Option<real>, completeTime: Option<real>)

  type Key = (nat, nat)

  function KeyOf(e: Event): Key {
    (e.sector, e.nblocks)
  }

  function MicrosBetween(from: Option<real>, to: Option<real>): Option<real> {
    if from.Some? && to.Some? then Some((to.value - from.value) * 1000000.0) else None
  }

  function Q2C(r: Request): Option<real> { MicrosBetween(r.queueTime, r.completeTime) }
  function D2C(r: Request): Option<real> { MicrosBetween(r.issueTime, r.completeTime) }
  function Q2D(r: Request): Option<real> { MicrosBetween(r.queueTime, r.issueTime) }

  ghost predicate Sorted(events: seq<Event>) {
    forall i, j | 0 <= i <= j < |events| :: events[i].time <= events[j].time
  }

  // ---- what the matching should be, one key at a time ----

  /** How many requests of this key are open after the first n events: a queue event opens one,
      an issue opens one only if none is open, a completion closes one if there is one. */
  function OpenCount(events: seq<Event>, n: nat, key: Key): nat
    requires n <= |events|
  {
    if n == 0 then 0
    else
      var k, e := OpenCount(events, n - 1, key), events[n - 1];
      if KeyOf(e) != key then k
      else match e.action
        case Queue => k + 1
        case Issue => if k == 0 then 1 else k
        case Complete => if k == 0 then 0 else k - 1
        case Other => k
  }

  /** Event n opens a request. */
  predicate Creates(events: seq<Event>, n: nat)
    requires n < |events|
  {
    events[n].action == Queue || (events[n].action == Issue && OpenCount(events, n, KeyOf(events[n])) == 0)
  }

  /** Event n closes a request. */
  predicate Closes(events: seq<Event>, n: nat)
    requires n < |events|
  {
    events[n].action == Complete && OpenCount(events, n, KeyOf(events[n])) > 0
  }

  /** The events among the first n that open a request of this key. */
  function Births(events: seq<Event>, n: nat, key: Key): (births: seq<nat>)
    requires n <= |events|
    ensures forall i | 0 <= i < |births| ::
              births[i] < n && KeyOf(events[births[i]]) == key && Creates(events, births[i])
  {
    if n == 0 then []
    else Births(events, n - 1, key) + if KeyOf(events[n - 1]) == key && Creates(events, n - 1) then [n - 1] else []
  }

  /** How many of the first n events close a request of this key. */
  function Deaths(events: seq<Event>, n: nat, key: Key): nat
    requires n <= |events|
  {
    if n == 0 then 0
    else Deaths(events, n - 1, key) + if KeyOf(events[n - 1]) == key && Closes(events, n - 1) then 1 else 0
  }

  /** CONSERVATION: created == completed + pending, for every key at every moment. */
  lemma {:induction false} CreatedIsCompletedPlusPending(events: seq<Event>, n: nat, key: Key)
    requires n <= |events|
    ensures |Births(events, n, key)| == Deaths(events, n, key) + OpenCount(events, n, key)
  {
    if n > 0 {
      CreatedIsCompletedPlusPending(events, n - 1, key);
    }
  }

  /** The issue time of request j of a key: an issue event belongs to the request whose number
      is the count of completions before it, and the last such event counts. */
  function IssueTime(events: seq<Event>, n: nat, key: Key, j: nat): Option<real>
    requires n <= |events|
  {
    if n == 0 then None
    else if KeyOf(events[n - 1]) == key && events[n - 1].action == Issue && Deaths(events, n - 1, key) == j then
      Some(events[n - 1].time)
    else IssueTime(events, n - 1, key, j)
  }

  /** Request j of a key, as the first n events leave it. */
  function RequestNo(events: seq<Event>, n: nat, key: Key, j: nat): Request
    requires n <= |events| && j < |Births(events, n, key)|
  {
    var birth := events[Births(events, n, key)[j]];
    Request(key.0, key.1, birth.isRead, if birth.action == Queue then Some(birth.time) else None,
            IssueTime(events, n, key, j), None)
  }

  /** The request that closing event d finishes: completion number j of a key finishes request
      number j of that key. */
  function FinishedBy(events: seq<Event>, d: nat): Request
    requires d < |events| && Closes(events, d)
  {
    var key := KeyOf(events[d]);
    CreatedIsCompletedPlusPending(events, d, key);
    RequestNo(events, d, key, Deaths(events, d, key)).(completeTime := Some(events[d].time))
  }

  /** All finished requests, in the order of their completion events. */
  function Finished(events: seq<Event>, n: nat): seq<Request>
    requires n <= |events|
  {
    if n == 0 then []
    else Finished(events, n - 1) + if Closes(events, n - 1) then [FinishedBy(events, n - 1)] else []
  }

  // ---- first in, first out ----

  /** The event that created the request which closing event d finishes. */
  function BirthOf(events: seq<Event>, d: nat): (b: nat)
    requires d < |events| && Closes(events, d)
    ensures b < d && Creates(events, b) && KeyOf(events[b]) == KeyOf(events[d])
  {
    CreatedIsCompletedPlusPending(events, d, KeyOf(events[d]));
    Births(events, d, KeyOf(events[d]))[Deaths(events, d, KeyOf(events[d]))]
  }

  lemma {:induction false} BirthsIncrease(events: seq<Event>, n: nat, key: Key)
    requires n <= |events|
    ensures var births := Births(events, n, key); forall i, j | 0 <= i < j < |births| :: births[i] < births[j]
  {
    if n > 0 {
      BirthsIncrease(events, n - 1, key);
      assert Births(events, n - 1, key) <= Births(events, n, key);
    }
  }

  lemma {:induction false} DeathsGrow(events: seq<Event>, m: nat, n: nat, key: Key)
    requires m <= n <= |events|
    ensures Deaths(events, m, key) <= Deaths(events, n, key)
    decreases n
  {
    if m < n {
      DeathsGrow(events, m, n - 1, key);
    }
  }

  /** FIFO: of two requests of one key, the one created first completes first. */
  lemma {:induction false} FirstInFirstOut(events: seq<Event>, d: nat, d': nat)
    requires d < |events| && d' < |events| && Closes(events, d) && Closes(events, d')
    requires KeyOf(events[d]) == KeyOf(events[d'])
    ensures d < d' <==> BirthOf(events, d) < BirthOf(events, d')
  {
    if d < d' {
      Earlier(events, d, d');
    } else if d' < d {
      Earlier(events, d', d);
    }
  }

  lemma {:induction false} Earlier(events: seq<Event>, d: nat, d': nat)
    requires d < d' < |events| && Closes(events, d) && Closes(events, d')
    requires KeyOf(events[d]) == KeyOf(events[d'])
    ensures BirthOf(events, d) < BirthOf(events, d')
  {
    var key := KeyOf(events[d]);
    CreatedIsCompletedPlusPending(events, d, key);
    CreatedIsCompletedPlusPending(events, d', key);
    DeathsGrow(events, d + 1, d', key);
    BirthsGrow(events, d, d', key);
    BirthsIncrease(events, d', key);
    assert Births(events, d, key)[Deaths(events, d, key)] == Births(events, d', key)[Deaths(events, d, key)];
  }

  // ---- what a finished request is, read off the events ----

  /** The births are the creating events of the key, each once. */
  lemma {:induction false} BirthsAre(events: seq<Event>, n: nat, key: Key, i: nat)
    requires n <= |events|
    ensures i in Births(events, n, key) <==> i < n && KeyOf(events[i]) == key && Creates(events, i)
  {
    if n > 0 {
      BirthsAre(events, n - 1, key, i);
    }
  }

  /** The closing events of the key among the first n. */
  ghost function Closing(events: seq<Event>, n: nat, key: Key): set<nat>
    requires n <= |events|
  {
    set i: nat | i < n && KeyOf(events[i]) == key && Closes(events, i)
  }

  lemma ClosingStep(events: seq<Event>, n: nat, key: Key)
    requires n < |events|
    ensures var hit := KeyOf(events[n]) == key && Closes(events, n);
            |Closing(events, n + 1, key)| == |Closing(events, n, key)| + if hit then 1 else 0
  {
    var before, after := Closing(events, n, key), Closing(events, n + 1, key);
    assert n in after <==> KeyOf(events[n]) == key && Closes(events, n);
    assert after - {n} == before;
  }

  lemma {:induction false} DeathsAre(events: seq<Event>, n: nat, key: Key)
    requires n <= |events|
    ensures Deaths(events, n, key) == |Closing(events, n, key)|
  {
    if n > 0 {
      DeathsAre(events, n - 1, key);
      ClosingStep(events, n - 1, key);
    }
  }

  /** No request of the key is closed from event m on before event n. */
  ghost predicate NoneClosed(events: seq<Event>, m: nat, n: nat, key: Key)
    requires n <= |events|
  {
    forall i | m <= i < n && KeyOf(events[i]) == key :: !Closes(events, i)
  }

  lemma {:induction false} SameDeaths(events: seq<Event>, m: nat, n: nat, key: Key)
    requires m <= n <= |events|
    ensures Deaths(events, m, key) == Deaths(events, n, key) <==> NoneClosed(events, m, n, key)
    decreases n
  {
    if m < n {
      SameDeaths(events, m, n - 1, key);
      DeathsGrow(events, m, n - 1, key);
    }
  }

  /** Event i issues the request that event n would close. */
  ghost predicate Issues(events: seq<Event>, i: nat, n: nat, key: Key)
    requires n <= |events|
  {
    i < n && KeyOf(events[i]) == key && events[i].action == Issue && NoneClosed(events, i, n, key)
  }

  /** That of the last such event is the issue time of the oldest open request. */
  lemma {:induction false} IssueTimeIs(events: seq<Event>, m: nat, n: nat, key: Key)
    requires m <= n <= |events|
    ensures match IssueTime(events, m, key, Deaths(events, n, key))
            case None => forall i: nat | i < m :: !Issues(events, i, n, key)
            case Some(t) => exists i: nat | i < m ::
              && Issues(events, i, n, key) && t == events[i].time
              && forall k: nat | i < k < m :: !Issues(events, k, n, key)
    decreases m
  {
    if m > 0 {
      IssueTimeIs(events, m - 1, n, key);
      SameDeaths(events, m - 1, n, key);
      if Issues(events, m - 1, n, key) {
        assert forall k: nat | m - 1 < k < m :: !Issues(events, k, n, key);
      }
    }
  }

  /** The request that event d closes: it has the place and direction of the event that created
      it, that event's time if it queued it, the time of the last issue of the key since the
      closing event before, and the time of event d. */
  lemma FinishedIs(events: seq<Event>, d: nat)
    requires d < |events| && Closes(events, d)
    ensures var r, birth, key := FinishedBy(events, d), events[BirthOf(events, d)], KeyOf(events[d]);
            && r.sector == events[d].sector && r.nblocks == events[d].nblocks && r.isRead == birth.isRead
            && r.completeTime == Some(events[d].time)
            && (if birth.action == Queue then r.queueTime == Some(birth.time) else r.queueTime == None)
            && (r.issueTime.None? ==> forall i: nat | i < d :: !Issues(events, i, d, key))
            && (r.issueTime.Some? ==> exists i: nat | i < d ::
                  && Issues(events, i, d, key) && r.issueTime.value == events[i].time
                  && forall k: nat | i < k < d :: !Issues(events, k, d, key))
  {
    var key := KeyOf(events[d]);
    CreatedIsCompletedPlusPending(events, d, key);
    IssueTimeIs(events, d, d, key);
  }

  /** As many requests of the key were created before it as were closed before event d. */
  lemma BirthNumber(events: seq<Event>, d: nat)
    requires d < |events| && Closes(events, d)
    ensures var key := KeyOf(events[d]);
            && |Births(events, BirthOf(events, d), key)| == |Closing(events, d, key)|
            && forall i :: i in Births(events, d, key) <==> 0 <= i < d && KeyOf(events[i]) == key && Creates(events, i)
  {
    var key, b := KeyOf(events[d]), BirthOf(events, d);
    CreatedIsCompletedPlusPending(events, d, key);
    DeathsAre(events, d, key);
    forall i ensures i in Births(events, d, key) <==> 0 <= i < d && KeyOf(events[i]) == key && Creates(events, i) {
      if i >= 0 {
        BirthsAre(events, d, key, i);
      }
    }
    BirthsGrow(events, b, d, key);
    BirthsIncrease(events, d, key);
    BirthsBelow(events, b, d, key);
  }

  /** The births below b are the first ones of the list. */
  lemma {:induction false} BirthsBelow(events: seq<Event>, b: nat, n: nat, key: Key)
    requires b < n <= |events| && KeyOf(events[b]) == key && Creates(events, b)
    ensures |Births(events, b, key)| < |Births(events, n, key)| && Births(events, n, key)[|Births(events, b, key)|] == b
    decreases n
  {
    if b < n - 1 {
      BirthsBelow(events, b, n - 1, key);
    }
  }

  /** The closing events among the first n, of any key. */
  ghost function AllClosing(events: seq<Event>, n: nat): set<nat>
    requires n <= |events|
  {
    set i: nat | i < n && Closes(events, i)
  }

  lemma AllClosingStep(events: seq<Event>, n: nat)
    requires n < |events|
    ensures |AllClosing(events, n + 1)| == |AllClosing(events, n)| + if Closes(events, n) then 1 else 0
  {
    var before, after := AllClosing(events, n), AllClosing(events, n + 1);
    assert n in after <==> Closes(events, n);
    assert after - {n} == before;
  }

  lemma {:induction false} FinishedCount(events: seq<Event>, n: nat)
    requires n <= |events|
    ensures |Finished(events, n)| == |AllClosing(events, n)|
  {
    if n > 0 {
      FinishedCount(events, n - 1);
      AllClosingStep(events, n - 1);
    }
  }

  /** The list of finished requests is in the order of their closing events: that of event d comes
      after as many as were closed before d. */
  lemma {:induction false} FinishedLists(events: seq<Event>, n: nat, d: nat)
    requires d < n <= |events| && Closes(events, d)
    ensures |AllClosing(events, d)| < |Finished(events, n)|
    ensures Finished(events, n)[|AllClosing(events, d)|] == FinishedBy(events, d)
    decreases n
  {
    if d == n - 1 {
      FinishedCount(events, d);
    } else {
      FinishedLists(events, n - 1, d);
    }
  }

  // ---- what the latencies mean ----

  lemma {:induction false} BirthsGrow(events: seq<Event>, m: nat, n: nat, key: Key)
    requires m <= n <= |events|
    ensures Births(events, m, key) <= Births(events, n, key)
    decreases n
  {
    if m < n {
      BirthsGrow(events, m, n - 1, key);
    }
  }

  /** No issue event belongs to a request that does not exist yet. */
  lemma {:induction false} NoEarlyIssue(events: seq<Event>, n: nat, key: Key, j: nat)
    requires n <= |events| && j >= |Births(events, n, key)|
    ensures IssueTime(events, n, key, j) == None
  {
    if n > 0 {
      NoEarlyIssue(events, n - 1, key, j);
      CreatedIsCompletedPlusPending(events, n - 1, key);
    }
  }

  /** A request is issued between its creation and now. */
  lemma {:induction false} IssuedAfterBirth(events: seq<Event>, n: nat, key: Key, j: nat)
    requires n <= |events| && Sorted(events) && j < |Births(events, n, key)|
    ensures var birth, at := events[Births(events, n, key)[j]], IssueTime(events, n, key, j);
            at.Some? ==>
              birth.time <= at.value && exists i: nat | i < n :: events[i].action == Issue && at.value == events[i].time
    ensures events[Births(events, n, key)[j]].action == Issue ==> IssueTime(events, n, key, j).Some?
  {
    CreatedIsCompletedPlusPending(events, n - 1, key);
    if j < |Births(events, n - 1, key)| {
      IssuedAfterBirth(events, n - 1, key, j);
      BirthsGrow(events, n - 1, n, key);
    } else {
      NoEarlyIssue(events, n - 1, key, j);
    }
  }

  /** latency microseconds lead from one time to the other; there is a latency exactly when both
      times are known. */
  ghost predicate Spans(latency: Option<real>, from: Option<real>, to: Option<real>) {
    && (latency.Some? <==> from.Some? && to.Some?)
    && (latency.Some? ==> from.value + latency.value / 1000000.0 == to.value)
  }

  /** LATENCIES: of a finished request, queue <= issue <= complete where set; at least one of
      queue and issue is set; each latency leads from its first time to its second; none is
      negative; software plus device time is the total. */
  lemma {:induction false} LatenciesMakeSense(events: seq<Event>, d: nat)
    requires Sorted(events) && d < |events| && Closes(events, d)
    ensures var r := FinishedBy(events, d);
            && (r.queueTime.Some? || r.issueTime.Some?) && r.completeTime.Some?
            && (r.queueTime.Some? && r.issueTime.Some? ==> r.queueTime.value <= r.issueTime.value)
            && (r.issueTime.Some? ==> r.issueTime.value <= r.completeTime.value)
            && (r.queueTime.Some? ==> r.queueTime.value <= r.completeTime.value)
            && Spans(Q2C(r), r.queueTime, r.completeTime) && Spans(D2C(r), r.issueTime, r.completeTime)
            && Spans(Q2D(r), r.queueTime, r.issueTime)
            && (Q2D(r).Some? && D2C(r).Some? ==> Q2C(r) == Some(Q2D(r).value + D2C(r).value))
            && NonNegative(Q2C(r)) && NonNegative(D2C(r)) && NonNegative(Q2D(r))
  {
    var key := KeyOf(events[d]);
    CreatedIsCompletedPlusPending(events, d, key);
    var j := Deaths(events, d, key);
    IssuedAfterBirth(events, d, key, j);
    assert events[Births(events, d, key)[j]].time <= events[d].time;
  }

  predicate NonNegative(latency: Option<real>) {
    latency.Some? ==> latency.value >= 0.0
  }

  // ---- the matching loop ----

  function Pending(pending: map<Key, seq<Request>>, key: Key): seq<Request> {
    if key in pending then pending[key] else []
  }

  /** The open requests of a key are its latest creations, oldest first. */
  ghost predicate PendingRight(events: seq<Event>, n: nat, key: Key, open: seq<Request>)
    requires n <= |events|
  {
    var births, deaths := Births(events, n, key), Deaths(events, n, key);
    && |open| == OpenCount(events, n, key) && |births| == deaths + |open|
    && forall k | 0 <= k < |open| :: open[k] == RequestNo(events, n, key, deaths + k)
  }

  ghost predicate AllPendingRight(events: seq<Event>, n: nat, pending: map<Key, seq<Request>>)
    requires n <= |events|
  {
    forall key: Key :: PendingRight(events, n, key, Pending(pending, key))
  }

  /** An event of another key, or one that neither opens, issues nor closes a request. */
  lemma {:induction false} NothingHappens(events: seq<Event>, n: nat, key: Key, open: seq<Request>)
    requires n < |events| && PendingRight(events, n, key, open)
    requires KeyOf(events[n]) != key || events[n].action == Other || (events[n].action == Complete && open == [])
    ensures PendingRight(events, n + 1, key, open)
  {
  }

  function NewRequest(e: Event): Request {
    Request(e.sector, e.nblocks, e.isRead,
            if e.action == Queue then Some(e.time) else None, if e.action == Issue then Some(e.time) else None, None)
  }

  /** A queue event, or an issue with nothing open, opens a request. */
  lemma {:induction false} CreateStep(events: seq<Event>, n: nat, open: seq<Request>)
    requires n < |events| && PendingRight(events, n, KeyOf(events[n]), open) && Creates(events, n)
    ensures PendingRight(events, n + 1, KeyOf(events[n]), open + [NewRequest(events[n])])
  {
    var key := KeyOf(events[n]);
    NoEarlyIssue(events, n, key, |Births(events, n, key)|);
  }

  /** An issue marks the oldest open request. */
  lemma {:induction false} IssueStep(events: seq<Event>, n: nat, open: seq<Request>)
    requires n < |events| && PendingRight(events, n, KeyOf(events[n]), open)
    requires events[n].action == Issue && open != []
    ensures PendingRight(events, n + 1, KeyOf(events[n]), open[0 := open[0].(issueTime := Some(events[n].time))])
  {
    var key := KeyOf(events[n]);
    assert Births(events, n + 1, key) == Births(events, n, key) && Deaths(events, n + 1, key) == Deaths(events, n, key);
    assert open[0] == RequestNo(events, n, key, Deaths(events, n, key) + 0);
  }

  /** A completion closes the oldest open request. */
  lemma {:induction false} CompleteStep(events: seq<Event>, n: nat, open: seq<Request>)
    requires n < |events| && PendingRight(events, n, KeyOf(events[n]), open)
    requires events[n].action == Complete && open != []
    ensures PendingRight(events, n + 1, KeyOf(events[n]), open[1..])
    ensures Finished(events, n + 1) == Finished(events, n) + [open[0].(completeTime := Some(events[n].time))]
  {
    var key := KeyOf(events[n]);
    var deaths := Deaths(events, n, key);
    assert Births(events, n + 1, key) == Births(events, n, key) && Deaths(events, n + 1, key) == deaths + 1;
    assert open[0] == RequestNo(events, n, key, deaths + 0);
    forall k | 0 <= k < |open[1..]| ensures open[1..][k] == RequestNo(events, n + 1, key, deaths + 1 + k) {
      assert open[k + 1] == RequestNo(events, n, key, deaths + (k + 1));
    }
  }

  /** One event touches one key only. */
  lemma {:induction false} OneKeyChanges(events: seq<Event>, n: nat, pending: map<Key, seq<Request>>,
      open: seq<Request>)
    requires n < |events| && AllPendingRight(events, n, pending)
    requires PendingRight(events, n + 1, KeyOf(events[n]), open)
    ensures AllPendingRight(events, n + 1, pending[KeyOf(events[n]) := open])
  {
    var pending' := pending[KeyOf(events[n]) := open];
    forall other: Key ensures PendingRight(events, n + 1, other, Pending(pending', other)) {
      if other != KeyOf(events[n]) {
        NothingHappens(events, n, other, Pending(pending, other));
        assert Pending(pending', other) == Pending(pending, other);
      }
    }
  }

  lemma {:induction false} NoKeyChanges(events: seq<Event>, n: nat, pending: map<Key, seq<Request>>)
    requires n < |events| && AllPendingRight(events, n, pending)
    requires events[n].action == Other || (events[n].action == Complete && Pending(pending, KeyOf(events[n])) == [])
    ensures AllPendingRight(events, n + 1, pending)
  {
    forall key: Key ensures PendingRight(events, n + 1, key, Pending(pending, key)) {
      NothingHappens(events, n, key, Pending(pending, key));
    }
  }

  /** What one event does to the open requests of its key. */
  lemma {:induction false} PendingStep(events: seq<Event>, n: nat, pending: map<Key, seq<Request>>)
    requires n < |events| && AllPendingRight(events, n, pending)
    ensures var e, open := events[n], Pending(pending, KeyOf(events[n]));
            var creates := e.action == Queue || (e.action == Issue && open == []);
            && (creates ==> AllPendingRight(events, n + 1, pending[KeyOf(e) := open + [NewRequest(e)]]))
            && (e.action == Issue && !creates ==>
                  AllPendingRight(events, n + 1, pending[KeyOf(e) := open[0 := open[0].(issueTime := Some(e.time))]]))
            && (e.action == Complete && open != [] ==>
                  && AllPendingRight(events, n + 1, pending[KeyOf(e) := open[1..]])
                  && Finished(events, n + 1) == Finished(events, n) + [open[0].(completeTime := Some(e.time))])
            && (e.action == Other || (e.action == Complete && open == []) ==> AllPendingRight(events, n + 1, pending))
            && (e.action != Complete || open == [] ==> Finished(events, n + 1) == Finished(events, n))
  {
    var e, open := events[n], Pending(pending, KeyOf(events[n]));
    assert PendingRight(events, n, KeyOf(e), open);
    if e.action == Queue || (e.action == Issue && open == []) {
      CreateStep(events, n, open);
      OneKeyChanges(events, n, pending, open + [NewRequest(e)]);
    } else if e.action == Issue {
      IssueStep(events, n, open);
      OneKeyChanges(events, n, pending, open[0 := open[0].(issueTime := Some(e.time))]);
    } else if e.action == Complete && open != [] {
      CompleteStep(events, n, open);
      OneKeyChanges(events, n, pending, open[1..]);
    } else {
      NoKeyChanges(events, n, pending);
    }
  }

  /** Every completion event that closes a request yields it, in event order, matched first in,
      first out; the other requests are still pending. */
  method ComputeLatencies(events: seq<Event>) returns (completed: seq<Request>, pending: map<Key, seq<Request>>)
    ensures completed == Finished(events, |events|)
    ensures AllPendingRight(events, |events|, pending)
  {
    completed, pending := [], map[];
    var n := 0;
    while n < |events|
      invariant n <= |events| && completed == Finished(events, n)
      invariant AllPendingRight(events, n, pending)
    {
      var e := events[n];
      var key := KeyOf(e);
      var open := Pending(pending, key);
      PendingStep(events, n, pending);
      if e.action == Queue {
        pending := pending[key := open + [NewRequest(e)]];
      } else if e.action == Issue {
        if open != [] {
          pending := pending[key := open[0 := open[0].(issueTime := Some(e.time))]];
        } else {
          pending := pending[key := open + [NewRequest(e)]];
        }
      } else if e.action == Complete {
        if open != [] {
          pending := pending[key := open[1..]];
          completed := completed + [open[0].(completeTime := Some(e.time))];
        }
      }
      n := n + 1;
    }
  }
}
