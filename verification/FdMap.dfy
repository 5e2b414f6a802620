/** Captured-fd to replay-fd translation (syscall_replayer.c): per captured pid, an
    open-addressed table of 64-deep stacks keyed by captured fd. */
module FdMap {
  import opened Probing
  import opened Wrappers

  const FD_MAP_BUCKETS: nat := 65536
  const MAX_FD: int := 65536
  const STACK_DEPTH: nat := 64

  type Fd = int
  type Table = seq<Slot<Fd, seq<Fd>>>

  function Hash(fd: Fd): nat {
    fd % FD_MAP_BUCKETS
  }

  function EmptyTable(): Table {
    seq(FD_MAP_BUCKETS, _ => Vacant)
  }

  /** A bucket whose stack has run empty is invalid, whatever key it still carries. */
  function Bucket(fd: Fd, stack: seq<Fd>): Slot<Fd, seq<Fd>> {
    if stack == [] then Vacant else Taken(fd, stack)
  }

  function StackOf(s: Slot<Fd, seq<Fd>>): seq<Fd> {
    if s.Taken? then s.val else []
  }

  /** A close without a replay fd: pop. */
  function Popped(stack: seq<Fd>): seq<Fd> {
    if stack == [] then [] else stack[..|stack| - 1]
  }

  /** Open: push, or overwrite the top of a full stack. */
  function Pushed(stack: seq<Fd>, fd: Fd): seq<Fd> {
    if |stack| < STACK_DEPTH then stack + [fd] else stack[..|stack| - 1] + [fd]
  }

  /** Close of a specific replay fd: its topmost entry goes, the ones above shift down. */
  function WithoutLast(stack: seq<Fd>, fd: Fd): seq<Fd> {
    if stack == [] then []
    else if stack[|stack| - 1] == fd then stack[..|stack| - 1]
    else WithoutLast(stack[..|stack| - 1], fd) + [stack[|stack| - 1]]
  }

  lemma {:induction false} WithoutLastAt(stack: seq<Fd>, fd: Fd, j: nat)
    requires j < |stack| && stack[j] == fd && forall i | j < i < |stack| :: stack[i] != fd
    ensures WithoutLast(stack, fd) == stack[..j] + stack[j + 1..]
  {
    var n := |stack| - 1;
    if j < n {
      WithoutLastAt(stack[..n], fd, j);
      assert stack[..n][..j] + stack[..n][j + 1..] + [stack[n]] == stack[..j] + stack[j + 1..];
    } else {
      assert stack[j + 1..] == [] && stack[..j] + [] == stack[..j];
    }
  }

  lemma {:induction false} WithoutAbsent(stack: seq<Fd>, fd: Fd)
    requires forall i | 0 <= i < |stack| :: stack[i] != fd
    ensures WithoutLast(stack, fd) == stack
  {
    if stack != [] {
      WithoutAbsent(stack[..|stack| - 1], fd);
    }
  }

  function Translate(t: Table, fd: Fd): int {
    match Lookup(t, Hash(fd), fd)
    case Some(stack) => if stack == [] then -1 else stack[|stack| - 1]
    case None => -1
  }

  /** Set: a replay fd is pushed, a negative one pops. */
  function AfterSet(t: Table, captured: Fd, replayed: Fd): (t': Table)
    ensures |t'| == |t|
  {
    match Locate(t, Hash(captured), captured)
    case Some(b) =>
      var stack := StackOf(t[b]);
      t[b := Bucket(captured, if replayed < 0 then Popped(stack) else Pushed(stack, replayed))]
    case None => t
  }

  function AfterClear(t: Table, captured: Fd, replayed: Fd): (t': Table)
    ensures |t'| == |t|
  {
    match Locate(t, Hash(captured), captured)
    case Some(b) => t[b := Bucket(captured, WithoutLast(StackOf(t[b]), replayed))]
    case None => t
  }

  /** Popping a captured fd is clearing the replay fd it means. */
  lemma PopIsClearOfTop(t: Table, captured: Fd, replayed: Fd)
    requires replayed < 0
    ensures AfterSet(t, captured, replayed) == AfterClear(t, captured, Translate(t, captured))
  {
  }

  /** The table in memory: parallel arrays of keys, validity, stack tops and stacks. */
  class FdTable {
    const capturedFd: array<Fd>
    const valid: array<bool>
    const stackTop: array<int>
    const replayedFds: array2<Fd>

    ghost predicate Valid()
      reads this, valid, stackTop
    {
      && capturedFd.Length == valid.Length == stackTop.Length == FD_MAP_BUCKETS
      && replayedFds.Length0 == FD_MAP_BUCKETS && replayedFds.Length1 == STACK_DEPTH
      && capturedFd != stackTop
      && (forall b | 0 <= b < FD_MAP_BUCKETS :: -1 <= stackTop[b] < STACK_DEPTH && (valid[b] <==> stackTop[b] >= 0))
    }

    ghost function Stack(b: nat): seq<Fd>
      requires Valid() && b < FD_MAP_BUCKETS
      reads this, valid, stackTop, replayedFds
    {
      seq(stackTop[b] + 1, k requires 0 <= k < STACK_DEPTH reads replayedFds => replayedFds[b, k])
    }

    ghost function BucketAt(b: nat): Slot<Fd, seq<Fd>>
      requires Valid() && b < FD_MAP_BUCKETS
      reads this, capturedFd, valid, stackTop, replayedFds
    {
      if valid[b] then Taken(capturedFd[b], Stack(b)) else Vacant
    }

    /** The table as a value. */
    ghost predicate Holds(t: Table)
      requires Valid()
      reads this, capturedFd, valid, stackTop, replayedFds
    {
      |t| == FD_MAP_BUCKETS && forall b | 0 <= b < FD_MAP_BUCKETS :: t[b] == BucketAt(b)
    }

    constructor ()
      ensures Valid() && Holds(EmptyTable())
      ensures fresh(capturedFd) && fresh(valid) && fresh(stackTop) && fresh(replayedFds)
    {
      capturedFd := new Fd[FD_MAP_BUCKETS](_ => 0);
      valid := new bool[FD_MAP_BUCKETS](_ => false);
      stackTop := new int[FD_MAP_BUCKETS](_ => -1);
      replayedFds := new Fd[FD_MAP_BUCKETS, STACK_DEPTH]((_, _) => 0);
    }

    /** The probe loop of the three operations. */
    method Probe(captured: Fd, ghost t: Table) returns (r: Option<nat>)
      requires Valid() && Holds(t)
      ensures r == Locate(t, Hash(captured), captured)
    {
      var i := 0;
      while i < FD_MAP_BUCKETS
        invariant 0 <= i <= FD_MAP_BUCKETS
        invariant Locate(t, Hash(captured), captured) == LocateFrom(t, Hash(captured), captured, i)
      {
        var b := At(FD_MAP_BUCKETS, Hash(captured), i);
        assert t[b] == BucketAt(b);
        if !valid[b] || capturedFd[b] == captured {
          return Some(b);
        }
        i := i + 1;
      }
      return None;
    }

    method Get(captured: Fd, ghost t: Table) returns (replayed: int)
      requires Valid() && Holds(t)
      ensures replayed == Translate(t, captured)
    {
      var r := Probe(captured, t);
      replayed := -1;
      if r.Some? && valid[r.value] {
        assert t[r.value] == BucketAt(r.value);
        replayed := replayedFds[r.value, stackTop[r.value]];
      }
    }

    method Set(captured: Fd, replayed: Fd, ghost t: Table)
      requires Valid() && Holds(t)
      modifies capturedFd, valid, stackTop, replayedFds
      ensures Valid() && Holds(AfterSet(t, captured, replayed))
    {
      var r := Probe(captured, t);
      if r.Some? {
        assert t[r.value] == BucketAt(r.value);
        if replayed < 0 {
          PopAt(r.value, captured);
        } else {
          PushAt(r.value, captured, replayed);
        }
        forall a | 0 <= a < FD_MAP_BUCKETS && a != r.value ensures t[a] == BucketAt(a) {
          assert t[a] == old(BucketAt(a));
        }
      }
    }

    method PopAt(b: nat, captured: Fd)
      requires Valid() && b < FD_MAP_BUCKETS
      modifies capturedFd, valid, stackTop
      ensures Valid() && BucketAt(b) == Bucket(captured, Popped(old(StackOf(BucketAt(b)))))
      ensures forall a | 0 <= a < FD_MAP_BUCKETS && a != b :: BucketAt(a) == old(BucketAt(a))
    {
      capturedFd[b], valid[b] := captured, true;
      if stackTop[b] >= 0 {
        stackTop[b] := stackTop[b] - 1;
      }
      if stackTop[b] < 0 {
        valid[b] := false;
      }
      assert Stack(b) == Popped(old(StackOf(BucketAt(b))));
      forall a | 0 <= a < FD_MAP_BUCKETS && a != b ensures BucketAt(a) == old(BucketAt(a)) {
        assert Stack(a) == old(Stack(a));
      }
    }

    method PushAt(b: nat, captured: Fd, replayed: Fd)
      requires Valid() && b < FD_MAP_BUCKETS
      modifies capturedFd, valid, stackTop, replayedFds
      ensures Valid() && BucketAt(b) == Bucket(captured, Pushed(old(StackOf(BucketAt(b))), replayed))
      ensures forall a | 0 <= a < FD_MAP_BUCKETS && a != b :: BucketAt(a) == old(BucketAt(a))
    {
      capturedFd[b], valid[b] := captured, true;
      if stackTop[b] < STACK_DEPTH - 1 {
        stackTop[b] := stackTop[b] + 1;
      }
      replayedFds[b, stackTop[b]] := replayed;
      assert Stack(b) == Pushed(old(StackOf(BucketAt(b))), replayed);
      forall a | 0 <= a < FD_MAP_BUCKETS && a != b ensures BucketAt(a) == old(BucketAt(a)) {
        assert Stack(a) == old(Stack(a));
      }
    }

    method ClearFd(captured: Fd, replayed: Fd, ghost t: Table)
      requires Valid() && Holds(t)
      modifies valid, stackTop, replayedFds
      ensures Valid() && Holds(AfterClear(t, captured, replayed))
    {
      var r := Probe(captured, t);
      if r.Some? && valid[r.value] {
        var b := r.value;
        assert t[b] == BucketAt(b);
        ghost var stack := Stack(b);
        var j := stackTop[b];
        while j >= 0 && replayedFds[b, j] != replayed
          invariant -1 <= j < |stack|
          invariant forall i | j < i < |stack| :: stack[i] != replayed
        {
          j := j - 1;
        }
        if j >= 0 {
          RemoveAt(b, j);
          WithoutLastAt(stack, replayed, j);
        } else {
          WithoutAbsent(stack, replayed);
        }
        forall a | 0 <= a < FD_MAP_BUCKETS && a != b ensures t[a] == BucketAt(a) {
          assert t[a] == old(BucketAt(a));
        }
      }
    }

    /** Shift the entries above j down by one. */
    method RemoveAt(b: nat, j: nat)
      requires Valid() && b < FD_MAP_BUCKETS && j <= stackTop[b]
      modifies valid, stackTop, replayedFds
      ensures Valid() && Stack(b) == old(Stack(b)[..j] + Stack(b)[j + 1..])
      ensures forall a | 0 <= a < FD_MAP_BUCKETS && a != b :: BucketAt(a) == old(BucketAt(a))
    {
      var k := j;
      while k < stackTop[b]
        invariant j <= k <= stackTop[b]
        invariant forall i | 0 <= i < STACK_DEPTH ::
                    replayedFds[b, i] == old(replayedFds[b, if j <= i < k then i + 1 else i])
        invariant forall a, i | 0 <= a < FD_MAP_BUCKETS && a != b && 0 <= i < STACK_DEPTH ::
                    replayedFds[a, i] == old(replayedFds[a, i])
        modifies replayedFds
      {
        replayedFds[b, k] := replayedFds[b, k + 1];
        k := k + 1;
      }
      stackTop[b] := stackTop[b] - 1;
      if stackTop[b] < 0 {
        valid[b] := false;
      }
      forall a | 0 <= a < FD_MAP_BUCKETS && a != b ensures BucketAt(a) == old(BucketAt(a)) {
        assert Stack(a) == old(Stack(a));
      }
    }
  }
}

/** All captured pids together: which replay fd a captured fd means after any history of
    opens and closes. */
module FdTranslation {
  import opened FdMap
  import opened Probing
  import opened SetSizes
  import opened Wrappers

  const MAX_TRACKED_PIDS: nat := 256

  type Pid = nat

  /** Successful syscalls: an open that returned `replayed`, a close of `captured`. */
  datatype Event = Open(pid: Pid, captured: Fd, replayed: Fd) | Close(pid: Pid, captured: Fd)

  /** The used prefix of the pid table, with one fd map per pid. */
  datatype State = State(pids: seq<Pid>, maps: seq<Table>)

  function IndexOf(pids: seq<Pid>, pid: Pid): (r: Option<nat>)
    ensures r.Some? ==> r.value < |pids| && pids[r.value] == pid
    ensures r.None? <==> pid !in pids
  {
    if pids == [] then None
    else if pids[|pids| - 1] == pid && pid !in pids[..|pids| - 1] then Some(|pids| - 1)
    else IndexOf(pids[..|pids| - 1], pid)
  }

  /** Look the pid up, giving it a fresh map on first sight.  Pid 0 marks a free slot and
      never gets a map. */
  function Acquire(s: State, pid: Pid): (r: (State, Option<nat>))
    requires |s.pids| == |s.maps|
    ensures |r.0.pids| == |r.0.maps|
    ensures r.1.Some? ==> r.1.value < |r.0.pids| && r.0.pids[r.1.value] == pid
  {
    match IndexOf(s.pids, pid)
    case Some(i) => (s, Some(i))
    case None =>
      if pid == 0 || |s.pids| == MAX_TRACKED_PIDS then (s, None)
      else (State(s.pids + [pid], s.maps + [EmptyTable()]), Some(|s.pids|))
  }

  /** The static pid table: two scans over one array, used slots first. */
  class PidTable {
    const pids: array<Pid>
    ghost var used: nat

    ghost predicate Valid()
      reads this, pids
    {
      && pids.Length == MAX_TRACKED_PIDS && used <= MAX_TRACKED_PIDS
      && forall i | 0 <= i < pids.Length :: pids[i] == 0 <==> i >= used
    }

    constructor ()
      ensures Valid() && used == 0 && fresh(pids)
    {
      pids := new Pid[MAX_TRACKED_PIDS](_ => 0);
      used := 0;
    }

    /** The slot of a pid.  A match on a free slot (pid 0) has no map. */
    method Slot(pid: Pid, ghost maps: seq<Table>) returns (r: Option<nat>)
      requires Valid() && |maps| == used
      modifies this, pids
      ensures Valid()
      ensures r == Acquire(old(State(pids[..used], maps)), pid).1
      ensures pids[..used] == Acquire(old(State(pids[..used], maps)), pid).0.pids
    {
      ghost var before := pids[..used];
      var i := 0;
      while i < MAX_TRACKED_PIDS && pids[i] != pid
        invariant 0 <= i <= MAX_TRACKED_PIDS
        invariant forall k | 0 <= k < i :: pids[k] != pid
      {
        i := i + 1;
      }
      if i < MAX_TRACKED_PIDS {
        if pid != 0 {
          FirstIndex(before, pid, i);
        }
        return if pid == 0 then None else Some(i);
      }
      assert pid !in before;
      i := 0;
      while i < MAX_TRACKED_PIDS && pids[i] != 0
        invariant 0 <= i <= MAX_TRACKED_PIDS
        invariant forall k | 0 <= k < i :: pids[k] != 0
      {
        i := i + 1;
      }
      if i < MAX_TRACKED_PIDS {
        pids[i] := pid;
        used := used + 1;
        assert pids[..used] == before + [pid];
        return Some(i);
      }
      return None;
    }
  }

  lemma {:induction false} FirstIndex(pids: seq<Pid>, pid: Pid, i: nat)
    requires i < |pids| && pids[i] == pid && forall k | 0 <= k < i :: pids[k] != pid
    ensures IndexOf(pids, pid) == Some(i)
  {
    if i < |pids| - 1 {
      assert pids[..|pids| - 1][i] == pid;
      FirstIndex(pids[..|pids| - 1], pid, i);
    }
  }

  predicate InRange(fd: Fd) {
    0 <= fd < MAX_FD
  }

  /** The replay fd a record of this pid gets for a captured fd; -1 when there is none. */
  function Resolve(s: State, pid: Pid, fd: Fd): int
    requires |s.pids| == |s.maps|
  {
    var (s', slot) := Acquire(s, pid);
    if slot.Some? && InRange(fd) then Translate(s'.maps[slot.value], fd) else -1
  }

  /** The map of the event's own pid after the event. */
  function OwnMap(t: Table, e: Event): Table {
    match e
    case Open(_, captured, replayed) => AfterSet(t, captured, replayed)
    case Close(_, captured) =>
      var replayed := if InRange(captured) then Translate(t, captured) else -1;
      if replayed < 0 then t else AfterClear(t, captured, replayed)
  }

  function Step(s: State, e: Event): (s': State)
    requires |s.pids| == |s.maps|
    ensures |s'.pids| == |s'.maps|
  {
    var (s1, slot) := Acquire(s, e.pid);
    if slot.None? then s1 else s1.(maps := s1.maps[slot.value := OwnMap(s1.maps[slot.value], e)])
  }

  function Exec(h: seq<Event>): (s: State)
    ensures |s.pids| == |s.maps|
  {
    if h == [] then State([], []) else Step(Exec(h[..|h| - 1]), h[|h| - 1])
  }

  /** The replay fd of the latest open of (pid, fd) that no later close has closed: scan
      backwards, letting each close cancel the nearest open before it. */
  function LatestUnclosed(h: seq<Event>, pid: Pid, fd: Fd, skip: nat): Option<Fd> {
    if h == [] then None
    else
      var e, rest := h[|h| - 1], h[..|h| - 1];
      if e.pid != pid || e.captured != fd then LatestUnclosed(rest, pid, fd, skip)
      else if e.Close? then LatestUnclosed(rest, pid, fd, skip + 1)
      else if skip > 0 then LatestUnclosed(rest, pid, fd, skip - 1)
      else Some(e.replayed)
  }

  /** The opens of (pid, fd) not yet closed, oldest first. */
  function Unclosed(h: seq<Event>, pid: Pid, fd: Fd): seq<Fd> {
    if h == [] then []
    else
      var e, stack := h[|h| - 1], Unclosed(h[..|h| - 1], pid, fd);
      if e.pid != pid || e.captured != fd then stack
      else if e.Open? then stack + [e.replayed]
      else if stack == [] then [] else stack[..|stack| - 1]
  }

  lemma {:induction false} LatestIsTop(h: seq<Event>, pid: Pid, fd: Fd, skip: nat)
    ensures var stack := Unclosed(h, pid, fd);
            LatestUnclosed(h, pid, fd, skip) ==
            if skip < |stack| then Some(stack[|stack| - 1 - skip]) else None
  {
    if h != [] {
      var e, rest := h[|h| - 1], h[..|h| - 1];
      if e.pid != pid || e.captured != fd {
        LatestIsTop(rest, pid, fd, skip);
      } else if e.Close? {
        LatestIsTop(rest, pid, fd, skip + 1);
      } else if skip > 0 {
        LatestIsTop(rest, pid, fd, skip - 1);
      }
    }
  }

  ghost function Pids(h: seq<Event>): set<Pid> {
    set i | 0 <= i < |h| :: h[i].pid
  }

  predicate OpensFd(e: Event, pid: Pid, fd: Fd) {
    e.Open? && e.pid == pid && e.captured == fd
  }

  ghost predicate Opened(h: seq<Event>, pid: Pid, fd: Fd) {
    exists i | 0 <= i < |h| :: OpensFd(h[i], pid, fd)
  }

  /** No two captured fds that one pid opened share a bucket.  A captured fd may be anything the
      trace holds: an open is stored under its captured return, also under -1. */
  ghost predicate NoClash(h: seq<Event>) {
    forall pid, a, b | Opened(h, pid, a) && Opened(h, pid, b) :: Hash(a) == Hash(b) ==> a == b
  }

  /** The limits of the tables: no clash, at most 256 non-zero pids, and at most 64 opens of one
      captured fd nested at any time. */
  ghost predicate WithinLimits(h: seq<Event>) {
    && (forall i | 0 <= i < |h| :: h[i].pid != 0 && (h[i].Open? ==> h[i].replayed >= 0))
    && NoClash(h)
    && |Pids(h)| <= MAX_TRACKED_PIDS
    && forall n, pid, fd | 0 <= n <= |h| && InRange(fd) :: |Unclosed(h[..n], pid, fd)| <= STACK_DEPTH
  }

  lemma OpenedGrows(h: seq<Event>, h': seq<Event>, pid: Pid, fd: Fd)
    requires h <= h' && Opened(h, pid, fd)
    ensures Opened(h', pid, fd)
  {
    var i :| 0 <= i < |h| && OpensFd(h[i], pid, fd);
    assert OpensFd(h'[i], pid, fd);
  }

  lemma NoClashOfPrefix(h: seq<Event>, h': seq<Event>)
    requires h <= h' && NoClash(h')
    ensures NoClash(h)
  {
    forall pid, a, b | Opened(h, pid, a) && Opened(h, pid, b) ensures Hash(a) == Hash(b) ==> a == b {
      OpenedGrows(h, h', pid, a);
      OpenedGrows(h, h', pid, b);
    }
  }

  lemma {:induction false} UnclosedWasOpened(h: seq<Event>, pid: Pid, fd: Fd)
    requires Unclosed(h, pid, fd) != []
    ensures Opened(h, pid, fd)
  {
    var e, rest := h[|h| - 1], h[..|h| - 1];
    if OpensFd(e, pid, fd) {
    } else {
      UnclosedWasOpened(rest, pid, fd);
      OpenedGrows(rest, h, pid, fd);
    }
  }

  lemma LimitsOfPrefix(h: seq<Event>)
    requires h != [] && WithinLimits(h)
    ensures WithinLimits(h[..|h| - 1])
  {
    var h' := h[..|h| - 1];
    assert Pids(h') <= Pids(h);
    assert Pids(h) == Pids(h') + (Pids(h) - Pids(h'));
    NoClashOfPrefix(h', h);
    forall n, pid, fd | 0 <= n <= |h'| && InRange(fd) ensures |Unclosed(h'[..n], pid, fd)| <= STACK_DEPTH {
      assert h'[..n] == h[..n];
    }
  }

  /** A bucket taken by a captured fd that no lookup asks for, such as -1. */
  ghost predicate Stray(s: Slot<Fd, seq<Fd>>, h: seq<Event>, pid: Pid, b: nat) {
    s.Taken? && !InRange(s.key) && Hash(s.key) == b && Opened(h, pid, s.key)
  }

  ghost predicate BucketMeans(s: Slot<Fd, seq<Fd>>, h: seq<Event>, pid: Pid, b: nat) {
    Stray(s, h, pid, b) || s == Bucket(b, Unclosed(h, pid, b))
  }

  /** Each bucket holds exactly the unclosed opens of its captured fd, or a stray. */
  ghost predicate MapMeans(t: Table, h: seq<Event>, pid: Pid) {
    |t| == FD_MAP_BUCKETS && forall b | 0 <= b < FD_MAP_BUCKETS :: BucketMeans(t[b], h, pid, b)
  }

  ghost predicate Sim(s: State, h: seq<Event>) {
    && |s.pids| == |s.maps|
    && (forall i, j | 0 <= i < j < |s.pids| :: s.pids[i] != s.pids[j])
    && Elements(s.pids) == Pids(h)
    && forall i | 0 <= i < |s.pids| :: MapMeans(s.maps[i], h, s.pids[i])
  }

  lemma InHomeBucket(t: Table, fd: Fd)
    requires |t| == FD_MAP_BUCKETS && Stops(t[Hash(fd)], fd)
    ensures Locate(t, Hash(fd), fd) == Some(Hash(fd))
  {
    assert At(|t|, Hash(fd), 0) == Hash(fd);
    LocateFromIs(t, Hash(fd), fd, 0, 0);
  }

  lemma HomeStops(t: Table, h: seq<Event>, h': seq<Event>, pid: Pid, fd: Fd)
    requires MapMeans(t, h, pid) && h <= h' && NoClash(h') && Opened(h', pid, fd)
    ensures Stops(t[Hash(fd)], fd)
  {
    var b := Hash(fd);
    assert BucketMeans(t[b], h, pid, b);
    if t[b].Taken? {
      if !Stray(t[b], h, pid, b) {
        UnclosedWasOpened(h, pid, b);
      }
      OpenedGrows(h, h', pid, t[b].key);
    }
  }

  /** A captured fd that the pid opened stays in its home bucket. */
  lemma HomeBucket(t: Table, h: seq<Event>, h': seq<Event>, pid: Pid, fd: Fd)
    requires MapMeans(t, h, pid) && h <= h' && NoClash(h') && Opened(h', pid, fd)
    ensures Locate(t, Hash(fd), fd) == Some(Hash(fd))
    ensures InRange(fd) ==> Hash(fd) == fd && StackOf(t[fd]) == Unclosed(h, pid, fd)
  {
    HomeStops(t, h, h', pid, fd);
    InHomeBucket(t, fd);
    assert BucketMeans(t[Hash(fd)], h, pid, Hash(fd));
  }

  lemma NotInBucket(x: Slot<Fd, seq<Fd>>, h: seq<Event>, pid: Pid, b: nat, fd: Fd)
    requires BucketMeans(x, h, pid, b) && InRange(fd) && Unclosed(h, pid, fd) == []
    ensures x.Taken? ==> x.key != fd
  {
  }

  lemma TranslateAt(t: Table, fd: Fd, b: nat)
    requires Locate(t, Hash(fd), fd) == Some(b)
    ensures var stack := StackOf(t[b]);
            Translate(t, fd) == if stack == [] then -1 else stack[|stack| - 1]
  {
  }

  lemma AbsentKey(t: Table, fd: Fd)
    requires forall b | 0 <= b < |t| :: t[b].Taken? ==> t[b].key != fd
    ensures Translate(t, fd) == -1
  {
  }

  /** The meaning of a lookup: the latest unclosed open. */
  lemma TranslateMeans(t: Table, h: seq<Event>, pid: Pid, fd: Fd)
    requires MapMeans(t, h, pid) && NoClash(h) && InRange(fd)
    ensures var stack := Unclosed(h, pid, fd);
            Translate(t, fd) == if stack == [] then -1 else stack[|stack| - 1]
  {
    if Unclosed(h, pid, fd) == [] {
      forall b | 0 <= b < |t| ensures t[b].Taken? ==> t[b].key != fd {
        NotInBucket(t[b], h, pid, b, fd);
      }
      AbsentKey(t, fd);
    } else {
      UnclosedWasOpened(h, pid, fd);
      HomeBucket(t, h, h, pid, fd);
      TranslateAt(t, fd, fd);
    }
  }

  lemma {:induction false} NoEventsNoOpens(h: seq<Event>, pid: Pid, fd: Fd)
    requires pid !in Pids(h)
    ensures Unclosed(h, pid, fd) == []
  {
    if h != [] {
      assert h[|h| - 1].pid in Pids(h);
      assert Pids(h[..|h| - 1]) <= Pids(h);
      NoEventsNoOpens(h[..|h| - 1], pid, fd);
    }
  }

  /** An event leaves what a bucket means unless it is an event of that captured fd. */
  lemma OtherBucketKeeps(x: Slot<Fd, seq<Fd>>, h: seq<Event>, e: Event, pid: Pid, b: nat)
    requires BucketMeans(x, h, pid, b) && (e.pid != pid || e.captured != b)
    ensures BucketMeans(x, h + [e], pid, b)
  {
    assert (h + [e])[..|h|] == h;
    if Stray(x, h, pid, b) {
      OpenedGrows(h, h + [e], pid, x.key);
    }
  }

  /** One event changes only the map of its own pid. */
  lemma OtherPidKeeps(t: Table, h: seq<Event>, e: Event, pid: Pid)
    requires MapMeans(t, h, pid) && e.pid != pid
    ensures MapMeans(t, h + [e], pid)
  {
    forall b | 0 <= b < FD_MAP_BUCKETS ensures BucketMeans(t[b], h + [e], pid, b) {
      OtherBucketKeeps(t[b], h, e, pid, b);
    }
  }

  /** The bucket of the captured fd itself after an open. */
  lemma OpenOwnBucket(t: Table, h: seq<Event>, e: Event)
    requires MapMeans(t, h, e.pid) && NoClash(h + [e]) && e.Open? && e.replayed >= 0
    requires InRange(e.captured) ==> |Unclosed(h, e.pid, e.captured)| < STACK_DEPTH
    ensures var home := Hash(e.captured);
            && Locate(t, home, e.captured) == Some(home)
            && BucketMeans(Bucket(e.captured, Pushed(StackOf(t[home]), e.replayed)), h + [e], e.pid, home)
  {
    var h' := h + [e];
    assert h'[..|h|] == h && OpensFd(h'[|h|], e.pid, e.captured);
    HomeBucket(t, h, h', e.pid, e.captured);
  }

  lemma OpenStep(t: Table, h: seq<Event>, e: Event)
    requires MapMeans(t, h, e.pid) && NoClash(h + [e]) && e.Open? && e.replayed >= 0
    requires InRange(e.captured) ==> |Unclosed(h, e.pid, e.captured)| < STACK_DEPTH
    ensures MapMeans(AfterSet(t, e.captured, e.replayed), h + [e], e.pid)
  {
    var h', home, t' := h + [e], Hash(e.captured), AfterSet(t, e.captured, e.replayed);
    OpenOwnBucket(t, h, e);
    forall b | 0 <= b < FD_MAP_BUCKETS ensures BucketMeans(t'[b], h', e.pid, b) {
      if b != home {
        OtherBucketKeeps(t[b], h, e, e.pid, b);
      }
    }
  }

  lemma CloseStep(t: Table, h: seq<Event>, e: Event)
    requires MapMeans(t, h, e.pid) && NoClash(h) && e.Close? && InRange(e.captured)
    requires Unclosed(h, e.pid, e.captured) != []
    ensures MapMeans(AfterClear(t, e.captured, Translate(t, e.captured)), h + [e], e.pid)
  {
    TranslateMeans(t, h, e.pid, e.captured);
    UnclosedWasOpened(h, e.pid, e.captured);
    HomeBucket(t, h, h, e.pid, e.captured);
    var h', home, t' := h + [e], Hash(e.captured), AfterClear(t, e.captured, Translate(t, e.captured));
    assert h'[..|h|] == h;
    forall b | 0 <= b < FD_MAP_BUCKETS ensures BucketMeans(t'[b], h', e.pid, b) {
      if b != home {
        OtherBucketKeeps(t[b], h, e, e.pid, b);
      }
    }
  }

  /** A close of an fd that means nothing changes nothing. */
  lemma IdleCloseStep(t: Table, h: seq<Event>, e: Event)
    requires MapMeans(t, h, e.pid) && e.Close?
    requires InRange(e.captured) ==> Unclosed(h, e.pid, e.captured) == []
    ensures MapMeans(t, h + [e], e.pid)
  {
    assert (h + [e])[..|h|] == h;
    forall b | 0 <= b < FD_MAP_BUCKETS ensures BucketMeans(t[b], h + [e], e.pid, b) {
      if b != e.captured {
        OtherBucketKeeps(t[b], h, e, e.pid, b);
      } else if Stray(t[b], h, e.pid, b) {
        OpenedGrows(h, h + [e], e.pid, t[b].key);
      }
    }
  }

  lemma OwnPidStep(t: Table, h: seq<Event>, e: Event)
    requires MapMeans(t, h, e.pid) && NoClash(h + [e])
    requires e.Open? ==> e.replayed >= 0
    requires e.Open? && InRange(e.captured) ==> |Unclosed(h, e.pid, e.captured)| < STACK_DEPTH
    requires forall i | 0 <= i < |h| && h[i].Open? :: h[i].replayed >= 0
    ensures MapMeans(OwnMap(t, e), h + [e], e.pid)
  {
    if e.Open? {
      OpenStep(t, h, e);
    } else {
      NoClashOfPrefix(h, h + [e]);
      if InRange(e.captured) {
        TranslateMeans(t, h, e.pid, e.captured);
        UnclosedNonNegative(h, e.pid, e.captured);
      }
      if InRange(e.captured) && Unclosed(h, e.pid, e.captured) != [] {
        CloseStep(t, h, e);
      } else {
        IdleCloseStep(t, h, e);
      }
    }
  }

  lemma {:induction false} UnclosedNonNegative(h: seq<Event>, pid: Pid, fd: Fd)
    requires forall i | 0 <= i < |h| && h[i].Open? :: h[i].replayed >= 0
    ensures forall k | 0 <= k < |Unclosed(h, pid, fd)| :: Unclosed(h, pid, fd)[k] >= 0
  {
    if h != [] {
      UnclosedNonNegative(h[..|h| - 1], pid, fd);
    }
  }

  /** Within the limits a pid always gets a map, and a fresh map means no opens. */
  lemma AcquireKeepsSim(s: State, h: seq<Event>, pid: Pid)
    requires Sim(s, h) && pid != 0 && |Pids(h) + {pid}| <= MAX_TRACKED_PIDS
    ensures var (s', slot) := Acquire(s, pid);
            && slot.Some?
            && (forall i, j | 0 <= i < j < |s'.pids| :: s'.pids[i] != s'.pids[j])
            && Elements(s'.pids) == Pids(h) + {pid}
            && (forall i | 0 <= i < |s'.pids| :: MapMeans(s'.maps[i], h, s'.pids[i]))
  {
    if pid !in s.pids {
      DistinctSize(s.pids);
      ElementsSnoc(s.pids, pid);
      assert pid !in Elements(s.pids);
      assert |Pids(h) + {pid}| == |Pids(h)| + 1;
      forall b | 0 <= b < FD_MAP_BUCKETS ensures BucketMeans(EmptyTable()[b], h, pid, b) {
        NoEventsNoOpens(h, pid, b);
      }
      assert MapMeans(EmptyTable(), h, pid);
    }
  }

  lemma PidsSnoc(h: seq<Event>, e: Event)
    ensures Pids(h + [e]) == Pids(h) + {e.pid}
  {
    var h' := h + [e];
    forall p | p in Pids(h) + {e.pid} ensures p in Pids(h') {
      if p == e.pid {
        assert h'[|h|].pid == p;
      } else {
        var i :| 0 <= i < |h| && h[i].pid == p;
        assert h'[i].pid == p;
      }
    }
  }

  /** What the limits of a history mean for its last event. */
  ghost predicate EventFits(h: seq<Event>, e: Event) {
    && NoClash(h + [e]) && e.pid != 0 && |Pids(h) + {e.pid}| <= MAX_TRACKED_PIDS
    && (forall i | 0 <= i < |h| && h[i].Open? :: h[i].replayed >= 0) && (e.Open? ==> e.replayed >= 0)
    && (e.Open? && InRange(e.captured) ==> |Unclosed(h, e.pid, e.captured)| < STACK_DEPTH)
  }

  lemma LastEventFits(h: seq<Event>)
    requires h != [] && WithinLimits(h)
    ensures EventFits(h[..|h| - 1], h[|h| - 1])
  {
    var rest, e := h[..|h| - 1], h[|h| - 1];
    assert h == rest + [e] && h[..|h|] == h;
    PidsSnoc(rest, e);
    assert forall i | 0 <= i < |rest| :: rest[i] == h[i];
    assert InRange(e.captured) ==> |Unclosed(h, e.pid, e.captured)| <= STACK_DEPTH;
  }

  lemma StepKeepsSim(s: State, h: seq<Event>, e: Event, h': seq<Event>)
    requires Sim(s, h) && EventFits(h, e) && h' == h + [e]
    ensures Sim(Step(s, e), h')
  {
    PidsSnoc(h, e);
    AcquireKeepsSim(s, h, e.pid);
    var (s1, slot) := Acquire(s, e.pid);
    OwnPidStep(s1.maps[slot.value], h, e);
    forall i | 0 <= i < |s1.pids| && i != slot.value ensures MapMeans(s1.maps[i], h + [e], s1.pids[i]) {
      OtherPidKeeps(s1.maps[i], h, e, s1.pids[i]);
    }
  }

  lemma {:induction false} ExecSim(h: seq<Event>)
    requires WithinLimits(h)
    ensures Sim(Exec(h), h)
  {
    if h != [] {
      var rest, e := h[..|h| - 1], h[|h| - 1];
      LimitsOfPrefix(h);
      ExecSim(rest);
      LastEventFits(h);
      StepKeepsSim(Exec(rest), rest, e, h);
    }
  }

  lemma {:induction false} TranslateIsLatest(t: Table, h: seq<Event>, pid: Pid, fd: Fd)
    requires MapMeans(t, h, pid) && NoClash(h) && InRange(fd)
    ensures Translate(t, fd) == match LatestUnclosed(h, pid, fd, 0) case Some(r) => r case None => -1
  {
    TranslateMeans(t, h, pid, fd);
    LatestIsTop(h, pid, fd, 0);
  }

  lemma {:induction false} ResolvesInState(s: State, h: seq<Event>, pid: Pid, fd: Fd)
    requires Sim(s, h) && NoClash(h) && InRange(fd) && pid != 0 && |Pids(h) + {pid}| <= MAX_TRACKED_PIDS
    ensures Resolve(s, pid, fd) == match LatestUnclosed(h, pid, fd, 0) case Some(r) => r case None => -1
  {
    AcquireKeepsSim(s, h, pid);
    var (s', slot) := Acquire(s, pid);
    TranslateIsLatest(s'.maps[slot.value], h, pid, fd);
  }

  /** TRANSLATION over every history within the limits: a captured fd means the replay fd of
      its latest unclosed open by the same pid, and nothing otherwise; one that no process can
      hold is never translated. */
  lemma {:induction false} ResolvesToLatestUnclosed(h: seq<Event>, pid: Pid, fd: Fd)
    requires WithinLimits(h) && pid != 0 && |Pids(h) + {pid}| <= MAX_TRACKED_PIDS
    ensures Resolve(Exec(h), pid, fd) ==
            if 0 <= fd < MAX_FD then match LatestUnclosed(h, pid, fd, 0) case Some(r) => r case None => -1
            else -1
  {
    if InRange(fd) {
      ExecSim(h);
      ResolvesInState(Exec(h), h, pid, fd);
    }
  }

  /** ISOLATION: events of other pids never change the answer. */
  lemma {:induction false} OtherPidsDoNotMatter(h: seq<Event>, h': seq<Event>, pid: Pid, fd: Fd)
    requires WithinLimits(h) && WithinLimits(h + h') && InRange(fd) && pid != 0
    requires |Pids(h + h') + {pid}| <= MAX_TRACKED_PIDS
    requires forall i | 0 <= i < |h'| :: h'[i].pid != pid
    ensures Resolve(Exec(h + h'), pid, fd) == Resolve(Exec(h), pid, fd)
    decreases |h'|
  {
    if h' == [] {
      assert h + h' == h;
    } else {
      var n := |h'| - 1;
      assert (h + h')[..|h + h'| - 1] == h + h'[..n];
      LimitsOfPrefix(h + h');
      SubsetPids(h + h'[..n], h + h', pid);
      OtherPidsDoNotMatter(h, h'[..n], pid, fd);
      ResolvesToLatestUnclosed(h + h', pid, fd);
      ResolvesToLatestUnclosed(h + h'[..n], pid, fd);
    }
  }

  lemma SubsetPids(h: seq<Event>, h': seq<Event>, pid: Pid)
    requires h <= h'
    ensures |Pids(h) + {pid}| <= |Pids(h') + {pid}|
  {
    var a, b := Pids(h) + {pid}, Pids(h') + {pid};
    assert forall i | 0 <= i < |h| :: h[i] == h'[i];
    assert b == a + (b - a);
  }

  /** The depth limit is needed: a 65th nested open overwrites the 64th, so once it is closed
      the answer skips one open. */
  lemma FullStackForgets(t: Table, fd: Fd, stack: seq<Fd>, x: Fd)
    requires |t| == FD_MAP_BUCKETS && InRange(fd) && x >= 0 && t[fd] == Taken(fd, stack) && |stack| == STACK_DEPTH
    ensures Translate(AfterSet(t, fd, x), fd) == x
    ensures Translate(AfterClear(AfterSet(t, fd, x), fd, x), fd) == stack[STACK_DEPTH - 2]
  {
    var t1 := AfterSet(t, fd, x);
    InHomeBucket(t, fd);
    InHomeBucket(t1, fd);
    TranslateAt(t1, fd, fd);
    var t2 := AfterClear(t1, fd, x);
    InHomeBucket(t2, fd);
    TranslateAt(t2, fd, fd);
  }

  lemma TranslateHome(t: Table, fd: Fd, stack: seq<Fd>)
    requires |t| == FD_MAP_BUCKETS && InRange(fd) && stack != [] && t[fd] == Taken(fd, stack)
    ensures Translate(t, fd) == stack[|stack| - 1]
  {
    InHomeBucket(t, fd);
    TranslateAt(t, fd, fd);
  }

  /** Exactly when an open and its close leave the answer as it was: when the stack was not
      full, or its two topmost entries are the same replay fd. */
  lemma OpenCloseRestoresIff(t: Table, fd: Fd, stack: seq<Fd>, x: Fd)
    requires |t| == FD_MAP_BUCKETS && InRange(fd) && x >= 0 && t[fd] == Bucket(fd, stack) && |stack| <= STACK_DEPTH
    ensures Translate(AfterClear(AfterSet(t, fd, x), fd, x), fd) == Translate(t, fd)
       <==> |stack| < STACK_DEPTH || stack[STACK_DEPTH - 2] == stack[STACK_DEPTH - 1]
  {
    if |stack| < STACK_DEPTH {
      OpenCloseUndoes(t, fd, stack, x);
    } else {
      FullStackForgets(t, fd, stack, x);
      TranslateHome(t, fd, stack);
    }
  }

  lemma OpenCloseUndoes(t: Table, fd: Fd, stack: seq<Fd>, x: Fd)
    requires |t| == FD_MAP_BUCKETS && InRange(fd) && x >= 0 && t[fd] == Bucket(fd, stack) && |stack| < STACK_DEPTH
    ensures AfterClear(AfterSet(t, fd, x), fd, x) == t
  {
    InHomeBucket(t, fd);
    var t1 := AfterSet(t, fd, x);
    assert t1[fd] == Taken(fd, stack + [x]);
    InHomeBucket(t1, fd);
    assert WithoutLast(stack + [x], x) == stack;
  }

  /** A first open takes the vacant bucket it finds ... */
  lemma SetVacant(t: Table, fd: Fd, x: Fd, b: nat)
    requires x >= 0 && Locate(t, Hash(fd), fd) == Some(b) && t[b].Vacant?
    ensures AfterSet(t, fd, x) == t[b := Taken(fd, [x])]
  {
    assert Pushed([], x) == [x];
  }

  /** ... and its close frees it. */
  lemma ClearOnly(t: Table, fd: Fd, x: Fd, b: nat)
    requires Locate(t, Hash(fd), fd) == Some(b) && t[b] == Taken(fd, [x])
    ensures AfterClear(t, fd, x) == t[b := Vacant]
  {
  }

  /** Captured fd 65536 takes bucket 0 and pushes fd 0 to bucket 1, and fd 1 to bucket 2. */
  lemma Displaced(a: Fd, b: Fd, c: Fd)
    requires a >= 0 && b >= 0 && c >= 0
    ensures AfterSet(AfterSet(AfterSet(EmptyTable(), 65536, a), 0, b), 1, c) ==
            EmptyTable()[0 := Taken(65536, [a])][1 := Taken(0, [b])][2 := Taken(1, [c])]
  {
    var t0 := EmptyTable();
    LocateFromIs(t0, Hash(65536), 65536, 0, 0);
    SetVacant(t0, 65536, a, 0);
    var t1 := t0[0 := Taken(65536, [a])];
    LocateFromIs(t1, Hash(0), 0, 0, 1);
    SetVacant(t1, 0, b, 1);
    var t2 := t1[1 := Taken(0, [b])];
    LocateFromIs(t2, Hash(1), 1, 0, 1);
    SetVacant(t2, 1, c, 2);
  }

  /** A clash does harm: closing the displaced fd 0 hides the open fd 1. */
  lemma OutOfRangeFdHides(a: Fd, b: Fd, c: Fd)
    requires a >= 0 && b >= 0 && c >= 0
    ensures var t := AfterSet(AfterSet(AfterSet(EmptyTable(), 65536, a), 0, b), 1, c);
            && Translate(t, 0) == b && Translate(t, 1) == c
            && Translate(AfterClear(t, 0, b), 1) == -1
  {
    Displaced(a, b, c);
    var t := EmptyTable()[0 := Taken(65536, [a])][1 := Taken(0, [b])][2 := Taken(1, [c])];
    LocateFromIs(t, Hash(0), 0, 0, 1);
    LocateFromIs(t, Hash(1), 1, 0, 1);
    TranslateAt(t, 0, 1);
    TranslateAt(t, 1, 2);
    ClearOnly(t, 0, b, 1);
    LocateFromIs(t[1 := Vacant], Hash(1), 1, 0, 0);
    TranslateAt(t[1 := Vacant], 1, 1);
  }
}
