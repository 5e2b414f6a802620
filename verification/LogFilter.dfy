/** The syscall-log filter (filter_syscall_log.py): exit records are dropped, each openat entry
    takes its return value from the matching exit, and writes that arrive before the openat
    of their descriptor are deferred until it has been emitted. */
module LogRecords {
  import opened Wrappers

  const EXIT_FD: int := 4294967295
  const EXIT_SIZE: int := 1
  const OPENAT_NR: int := 257
  const CLOSE_NR: int := 3

  /** A captured record; a field the log lacks is None.  `body` stands for the other fields. */
  datatype Rec = Rec(pid: int, nr: int, fd: Option<int>, size: Option<int>, filename: string, ret: Option<int>,
                     body: nat)

  function Or(f: Option<int>, default: int): int {
    if f.Some? then f.value else default
  }

  predicate IsGenericExit(r: Rec) {
    r.nr != OPENAT_NR && (Or(r.fd, 0) == -1 || Or(r.fd, 0) == EXIT_FD) && Or(r.size, 0) == EXIT_SIZE
  }

  predicate IsOpenatExit(r: Rec) {
    r.nr == OPENAT_NR && r.filename == ""
  }

  predicate IsOpenatEntry(r: Rec) {
    r.nr == OPENAT_NR && r.filename != ""
  }

  predicate Dropped(r: Rec) {
    IsOpenatExit(r) || IsGenericExit(r)
  }

  predicate IsWrite(r: Rec) {
    r.nr == 1 || r.nr == 18
  }

  /** The descriptor a write or close names, in the namespace of its process. */
  function KeyOf(r: Rec): (int, int) {
    (r.pid, Or(r.fd, -1))
  }

  // ---- what the filter is meant to do, read off the fields of the whole log ----

  /** The end and the start of an openat. */
  ghost predicate OpenatEnd(r: Rec) {
    r.nr == 257 && |r.filename| == 0
  }

  ghost predicate OpenatStart(r: Rec) {
    r.nr == 257 && |r.filename| > 0
  }

  /** The end of another call: descriptor -1, also as an unsigned number, and size 1. */
  ghost predicate OtherEnd(r: Rec) {
    r.nr != 257 && r.fd in {Some(-1), Some(4294967295)} && r.size == Some(1)
  }

  ghost predicate Vanishes(r: Rec) {
    OpenatEnd(r) || OtherEnd(r)
  }

  /** The return values of the openat exits of one process, in order. */
  function Exits(data: seq<Rec>, pid: int): seq<int> {
    if data == [] then []
    else
      var r := data[|data| - 1];
      Exits(data[..|data| - 1], pid) + if IsOpenatExit(r) && r.pid == pid then [Or(r.ret, -1)] else []
  }

  /** How many openat entries of one process precede record n. */
  function EntriesBefore(data: seq<Rec>, n: nat, pid: int): nat
    requires n <= |data|
  {
    if n == 0 then 0
    else EntriesBefore(data, n - 1, pid) + if IsOpenatEntry(data[n - 1]) && data[n - 1].pid == pid then 1 else 0
  }

  /** The openat exits, and the openat entries, of one process before record n. */
  ghost function ExitsUpTo(data: seq<Rec>, n: nat, pid: int): set<nat>
    requires n <= |data|
  {
    set i: nat | i < n && OpenatEnd(data[i]) && data[i].pid == pid
  }

  ghost function EntriesUpTo(data: seq<Rec>, n: nat, pid: int): set<nat>
    requires n <= |data|
  {
    set i: nat | i < n && OpenatStart(data[i]) && data[i].pid == pid
  }

  lemma ExitsStep(data: seq<Rec>, n: nat, pid: int)
    requires n < |data|
    ensures |ExitsUpTo(data, n + 1, pid)| ==
            |ExitsUpTo(data, n, pid)| + if OpenatEnd(data[n]) && data[n].pid == pid then 1 else 0
  {
    assert n in ExitsUpTo(data, n + 1, pid) <==> OpenatEnd(data[n]) && data[n].pid == pid;
    assert ExitsUpTo(data, n + 1, pid) - {n} == ExitsUpTo(data, n, pid);
  }

  lemma EntriesStep(data: seq<Rec>, n: nat, pid: int)
    requires n < |data|
    ensures |EntriesUpTo(data, n + 1, pid)| ==
            |EntriesUpTo(data, n, pid)| + if OpenatStart(data[n]) && data[n].pid == pid then 1 else 0
  {
    assert n in EntriesUpTo(data, n + 1, pid) <==> OpenatStart(data[n]) && data[n].pid == pid;
    assert EntriesUpTo(data, n + 1, pid) - {n} == EntriesUpTo(data, n, pid);
  }

  lemma {:induction false} EntriesBeforeIs(data: seq<Rec>, n: nat, pid: int)
    requires n <= |data|
    ensures EntriesBefore(data, n, pid) == |EntriesUpTo(data, n, pid)|
  {
    if n > 0 {
      EntriesBeforeIs(data, n - 1, pid);
      EntriesStep(data, n - 1, pid);
    }
  }

  lemma {:induction false} ExitsCount(data: seq<Rec>, n: nat, pid: int)
    requires n <= |data|
    ensures |Exits(data[..n], pid)| == |ExitsUpTo(data, n, pid)|
  {
    if n > 0 {
      ExitsCount(data, n - 1, pid);
      ExitsStep(data, n - 1, pid);
      assert data[..n][..n - 1] == data[..n - 1];
    }
  }

  /** The list of exits is in the order of the log: exit record j comes after as many as there are
      exits of its process before it. */
  lemma {:induction false} ExitsList(data: seq<Rec>, n: nat, j: nat)
    requires j < n <= |data| && OpenatEnd(data[j])
    ensures var exits, k := Exits(data[..n], data[j].pid), |ExitsUpTo(data, j, data[j].pid)|;
            k < |exits| && exits[k] == Or(data[j].ret, -1)
    decreases n
  {
    assert data[..n][..n - 1] == data[..n - 1];
    if j == n - 1 {
      ExitsCount(data, j, data[j].pid);
    } else {
      ExitsList(data, n - 1, j);
    }
  }

  /** Every number below the count of exits is that of an exit record. */
  lemma {:induction false} ExitNumber(data: seq<Rec>, n: nat, pid: int, k: nat) returns (j: nat)
    requires n <= |data| && k < |ExitsUpTo(data, n, pid)|
    ensures j < n && OpenatEnd(data[j]) && data[j].pid == pid && |ExitsUpTo(data, j, pid)| == k
    decreases n
  {
    assert ExitsUpTo(data, 0, pid) == {};
    ExitsStep(data, n - 1, pid);
    if k < |ExitsUpTo(data, n - 1, pid)| {
      j := ExitNumber(data, n - 1, pid, k);
    } else {
      j := n - 1;
    }
  }

  /** Exit record j answers entry i: as many exits of the process come before j as entries of it
      before i. */
  ghost predicate Answers(data: seq<Rec>, j: nat, i: nat)
    requires i < |data|
  {
    && j < |data| && OpenatStart(data[i]) && OpenatEnd(data[j]) && data[j].pid == data[i].pid
    && |ExitsUpTo(data, j, data[i].pid)| == |EntriesUpTo(data, i, data[i].pid)|
  }

  /** r is record i as it should come out: an entry returns what the exit that answers it returned,
      if that is a descriptor; nothing else changes. */
  ghost predicate ComesOut(data: seq<Rec>, i: nat, r: Rec)
    requires i < |data|
  {
    && (forall j: nat | Answers(data, j, i) && Or(data[j].ret, -1) >= 0 ::
          r == data[i].(ret := Some(Or(data[j].ret, -1))))
    && ((forall j: nat | Answers(data, j, i) :: Or(data[j].ret, -1) < 0) ==> r == data[i])
  }

  /** Record i is the k-th openat entry of its process, and the k-th exit of that process
      returned a descriptor. */
  predicate GetsExit(data: seq<Rec>, i: nat)
    requires i < |data|
  {
    var exits, k := Exits(data, data[i].pid), EntriesBefore(data, i, data[i].pid);
    IsOpenatEntry(data[i]) && k < |exits| && exits[k] >= 0
  }

  /** Record i as it should come out: such an entry returns that descriptor; nothing else
      changes. */
  function Patched(data: seq<Rec>, i: nat): Rec
    requires i < |data|
  {
    var r := data[i];
    if GetsExit(data, i) then r.(ret := Some(Exits(data, r.pid)[EntriesBefore(data, i, r.pid)])) else r
  }

  lemma AnswerIs(data: seq<Rec>, i: nat, j: nat)
    requires i < |data| && Answers(data, j, i)
    ensures var exits, k := Exits(data, data[i].pid), EntriesBefore(data, i, data[i].pid);
            k < |exits| && exits[k] == Or(data[j].ret, -1)
  {
    EntriesBeforeIs(data, i, data[i].pid);
    ExitsList(data, |data|, j);
    assert data[..|data|] == data;
  }

  lemma AnswerExists(data: seq<Rec>, i: nat) returns (j: nat)
    requires i < |data| && OpenatStart(data[i])
    requires EntriesBefore(data, i, data[i].pid) < |Exits(data, data[i].pid)|
    ensures Answers(data, j, i)
  {
    assert data[..|data|] == data;
    EntriesBeforeIs(data, i, data[i].pid);
    ExitsCount(data, |data|, data[i].pid);
    j := ExitNumber(data, |data|, data[i].pid, |EntriesUpTo(data, i, data[i].pid)|);
  }

  lemma GetsExitIff(data: seq<Rec>, i: nat)
    requires i < |data|
    ensures GetsExit(data, i) <==> exists j: nat :: Answers(data, j, i) && Or(data[j].ret, -1) >= 0
  {
    if GetsExit(data, i) {
      var j := AnswerExists(data, i);
      AnswerIs(data, i, j);
    }
    if j: nat :| Answers(data, j, i) && Or(data[j].ret, -1) >= 0 {
      AnswerIs(data, i, j);
    }
  }

  lemma PatchedComesOut(data: seq<Rec>, i: nat)
    requires i < |data|
    ensures ComesOut(data, i, Patched(data, i))
  {
    GetsExitIff(data, i);
    forall j: nat | Answers(data, j, i) ensures
      GetsExit(data, i) ==> Patched(data, i) == data[i].(ret := Some(Or(data[j].ret, -1))) {
      AnswerIs(data, i, j);
    }
  }

  /** Record i is an openat entry that returns descriptor fd to process pid. */
  predicate Opens(data: seq<Rec>, i: nat, key: (int, int))
    requires i < |data|
  {
    IsOpenatEntry(data[i]) && data[i].pid == key.0 && Or(Patched(data, i).ret, -1) == key.1
  }

  predicate Closes(r: Rec, key: (int, int)) {
    !Dropped(r) && r.nr == CLOSE_NR && KeyOf(r) == key && key.1 != -1 && key.1 != EXIT_FD
  }

  /** Before record n, the descriptor was opened and not closed since. */
  function OpenAt(data: seq<Rec>, n: nat, key: (int, int)): bool
    requires n <= |data|
  {
    if n == 0 then false
    else if Opens(data, n - 1, key) && key.1 >= 0 then true
    else if Closes(data[n - 1], key) then false
    else OpenAt(data, n - 1, key)
  }

  /** Record m is the start of an openat that returns the descriptor to the process. */
  ghost predicate Gives(data: seq<Rec>, m: nat, key: (int, int))
    requires m < |data|
  {
    OpenatStart(data[m]) && data[m].pid == key.0 && Or(Patched(data, m).ret, -1) == key.1
  }

  /** Record m opened the descriptor, and no record since closed it. */
  ghost predicate OpenedAt(data: seq<Rec>, m: nat, n: nat, key: (int, int))
    requires n <= |data|
  {
    m < n && Gives(data, m, key) && forall l | m < l < n :: !ClosedBy(data[l], key)
  }

  ghost predicate ClosedBy(r: Rec, key: (int, int)) {
    r.nr == 3 && !Vanishes(r) && r.pid == key.0 && r.fd == Some(key.1) && key.1 != 4294967295
  }

  lemma {:induction false} OpenAtIff(data: seq<Rec>, n: nat, key: (int, int))
    requires n <= |data|
    ensures OpenAt(data, n, key) <==> key.1 >= 0 && exists m: nat :: OpenedAt(data, m, n, key)
  {
    if n > 0 {
      OpenAtIff(data, n - 1, key);
      if key.1 >= 0 {
        if Opens(data, n - 1, key) {
          assert OpenedAt(data, n - 1, n, key);
        } else {
          if OpenAt(data, n, key) {
            var m: nat :| OpenedAt(data, m, n - 1, key);
            assert OpenedAt(data, m, n, key);
          }
          forall m: nat | OpenedAt(data, m, n, key) ensures OpenAt(data, n, key) {
            assert OpenedAt(data, m, n - 1, key);
          }
        }
      }
    }
  }

  /** An openat exit of the same process returning the descriptor comes within the window. */
  predicate ComesSoon(data: seq<Rec>, i: nat, lookahead: nat)
    requires i < |data|
  {
    exists k | i < k < |data| && k <= i + lookahead ::
      IsOpenatExit(data[k]) && data[k].pid == data[i].pid && data[k].ret == Some(Or(data[i].fd, -1))
  }

  /** Record i must wait: it is a write whose descriptor is not open, and within the window its process
      ends an openat that returns it. */
  ghost predicate MustWait(data: seq<Rec>, lookahead: nat, i: nat)
    requires i < |data|
  {
    var r, fd := data[i], Or(data[i].fd, -1);
    && r.nr in {1, 18} && !Vanishes(r)
    && !(fd >= 0 && exists m: nat :: OpenedAt(data, m, i, (r.pid, fd)))
    && exists k | i < k < |data| && k <= i + lookahead ::
         OpenatEnd(data[k]) && data[k].pid == r.pid && data[k].ret == Some(fd)
  }

  lemma MustWaitIff(data: seq<Rec>, lookahead: nat, i: nat)
    requires i < |data|
    ensures ShouldDefer(data, lookahead, i) <==> MustWait(data, lookahead, i)
  {
    OpenAtIff(data, i, KeyOf(data[i]));
  }

  predicate ShouldDefer(data: seq<Rec>, lookahead: nat, i: nat)
    requires i < |data|
  {
    !Dropped(data[i]) && IsWrite(data[i]) && !OpenAt(data, i, KeyOf(data[i])) && ComesSoon(data, i, lookahead)
  }

  /** A write to a descriptor that is not open and that no openat soon returns. */
  predicate NeverOpened(data: seq<Rec>, lookahead: nat, i: nat)
    requires i < |data|
  {
    !Dropped(data[i]) && IsWrite(data[i]) && !OpenAt(data, i, KeyOf(data[i])) && !ComesSoon(data, i, lookahead)
  }
}

/** The order in which records leave the filter, for records reduced to four facts. */
module LogOrder {
  import opened SetSizes
  import opened Wrappers

  type Key = (int, int)

  /** Per record: is it kept at all, must it wait, which descriptor does it name, and which
      does it open? */
  datatype Fact = Fact(live: bool, waits: bool, key: Key, opens: Option<Key>)

  /** `order` lists the records emitted so far by input index, `pending` the deferred writes
      that wait for their openat; `deferred` and `flushed` collect which those ever were. */
  datatype Core = Core(order: seq<nat>, pending: map<Key, seq<nat>>, deferred: set<nat>, flushed: set<nat>)

  ghost function Waiting(c: Core): set<nat> {
    c.deferred - c.flushed
  }

  ghost predicate Increasing(s: seq<nat>) {
    forall a, b | 0 <= a < b < |s| :: s[a] < s[b]
  }

  /** Every record that is not dropped has been emitted once or is waiting. */
  ghost predicate Complete(fs: seq<Fact>, n: nat, c: Core)
    requires n <= |fs|
  {
    && (forall a | 0 <= a < |c.order| :: c.order[a] < n && fs[c.order[a]].live && c.order[a] !in Waiting(c))
    && (forall a, b | 0 <= a < b < |c.order| :: c.order[a] != c.order[b])
    && (forall i | 0 <= i < n && fs[i].live :: i in c.order || i in Waiting(c))
  }

  /** The writes deferred so far are the ones that must wait. */
  ghost predicate DeferredRight(fs: seq<Fact>, n: nat, c: Core)
    requires n <= |fs|
  {
    && (forall i | i in c.deferred :: i < n && fs[i].live && fs[i].waits)
    && (forall i: nat | i < n && fs[i].live && fs[i].waits :: i in c.deferred)
    && c.flushed <= c.deferred
    && (forall a | 0 <= a < |c.order| && c.order[a] in c.deferred :: c.order[a] in c.flushed)
  }

  /** The waiting writes are queued by descriptor, oldest first. */
  ghost predicate Queued(fs: seq<Fact>, c: Core)
    requires forall i | i in c.deferred :: i < |fs|
  {
    && (forall key | key in c.pending :: Increasing(c.pending[key]))
    && (forall key, i | key in c.pending && i in c.pending[key] :: i in Waiting(c) && fs[i].key == key)
    && (forall i | i in Waiting(c) :: fs[i].key in c.pending && i in c.pending[fs[i].key])
  }

  /** Undeferred records keep their input order; so do deferred writes to one descriptor. */
  ghost predicate InOrder(fs: seq<Fact>, c: Core)
    requires forall a | 0 <= a < |c.order| :: c.order[a] < |fs|
    requires forall i | i in c.deferred :: i < |fs|
  {
    && (forall a, b | 0 <= a < b < |c.order| && c.order[a] !in c.deferred && c.order[b] !in c.deferred ::
          c.order[a] < c.order[b])
    && (forall a, b | 0 <= a < b < |c.order| && c.order[a] in c.deferred && c.order[b] in c.deferred
                      && fs[c.order[a]].key == fs[c.order[b]].key :: c.order[a] < c.order[b])
    && (forall a, i | 0 <= a < |c.order| && c.order[a] in c.deferred && i in Waiting(c)
                      && fs[c.order[a]].key == fs[i].key :: c.order[a] < i)
  }

  /** Record m opens the descriptor that write i waits for, and it is the first after i to do so. */
  ghost predicate FirstOpener(fs: seq<Fact>, i: nat, m: nat)
    requires i < |fs|
  {
    i < m < |fs| && fs[m].opens == Some(fs[i].key) && forall k | i < k < m :: fs[k].opens != Some(fs[i].key)
  }

  /** Positions a + 1 .. b of the output hold flushed writes to one descriptor. */
  ghost predicate FlushedRun(fs: seq<Fact>, order: seq<nat>, flushed: set<nat>, a: int, b: int)
    requires 0 <= a < b < |order| && forall k | 0 <= k < |order| :: order[k] < |fs|
  {
    forall k | a < k <= b :: order[k] in flushed && fs[order[k]].key == fs[order[b]].key
  }

  /** Write i leaves with the writes that follow record m at once. */
  ghost predicate RightBehind(fs: seq<Fact>, order: seq<nat>, flushed: set<nat>, m: nat, i: nat)
    requires forall k | 0 <= k < |order| :: order[k] < |fs|
  {
    exists a, b | 0 <= a < b < |order| && order[a] == m && order[b] == i :: FlushedRun(fs, order, flushed, a, b)
  }

  /** A deferred write leaves right behind the first openat of its descriptor, and not before. */
  ghost predicate InTime(fs: seq<Fact>, n: nat, c: Core, i: nat)
    requires i < |fs| && forall k | 0 <= k < |c.order| :: c.order[k] < |fs|
  {
    && (i in c.flushed <==> exists m: nat | m < n :: FirstOpener(fs, i, m))
    && (forall m: nat | m < n && FirstOpener(fs, i, m) :: RightBehind(fs, c.order, c.flushed, m, i))
  }

  ghost predicate Timely(fs: seq<Fact>, n: nat, c: Core)
    requires (forall k | 0 <= k < |c.order| :: c.order[k] < |fs|) && forall i | i in c.deferred :: i < |fs|
  {
    forall i | i in c.deferred :: InTime(fs, n, c, i)
  }

  /** What holds also between an openat and the flush behind it. */
  ghost predicate BaseInv(fs: seq<Fact>, n: nat, c: Core)
    requires n <= |fs|
  {
    Complete(fs, n, c) && DeferredRight(fs, n, c) && Queued(fs, c) && InOrder(fs, c)
  }

  ghost predicate CoreInv(fs: seq<Fact>, n: nat, c: Core)
    requires n <= |fs|
  {
    BaseInv(fs, n, c) && Timely(fs, n, c)
  }

  lemma StartCore(fs: seq<Fact>)
    ensures CoreInv(fs, 0, Core([], map[], {}, {}))
  {
  }

  // ---- the four things that happen to a record ----

  lemma DropStep(fs: seq<Fact>, n: nat, c: Core)
    requires n < |fs| && CoreInv(fs, n, c) && !fs[n].live && fs[n].opens.None?
    ensures CoreInv(fs, n + 1, c)
  {
    SameOrderTimely(fs, n, c, c);
  }

  function Keep(c: Core, n: nat): Core {
    c.(order := c.order + [n])
  }

  lemma RunStays(fs: seq<Fact>, order: seq<nat>, more: seq<nat>, flushed: set<nat>, flushed': set<nat>, m: nat, i: nat)
    requires (forall k | 0 <= k < |order| :: order[k] < |fs|) && (forall k | 0 <= k < |more| :: more[k] < |fs|)
    requires flushed <= flushed' && RightBehind(fs, order, flushed, m, i)
    ensures forall k | 0 <= k < |order + more| :: (order + more)[k] < |fs|
    ensures RightBehind(fs, order + more, flushed', m, i)
  {
    var a, b :| 0 <= a < b < |order| && order[a] == m && order[b] == i && FlushedRun(fs, order, flushed, a, b);
    var order' := order + more;
    assert order'[a] == m && order'[b] == i;
    assert FlushedRun(fs, order', flushed', a, b) by {
      assert forall k | a < k <= b :: order'[k] == order[k];
    }
  }

  /** Nothing opens its descriptor: a write that left in time still has, whatever else was
      emitted and flushed meanwhile. */
  lemma StaysInTime(fs: seq<Fact>, n: nat, c: Core, more: seq<nat>, c': Core, i: nat)
    requires n < |fs| && i < |fs| && (forall k | 0 <= k < |c.order| :: c.order[k] < |fs|)
    requires (forall k | 0 <= k < |more| :: more[k] < |fs|) && c'.order == c.order + more
    requires c.flushed <= c'.flushed && (i in c'.flushed ==> i in c.flushed)
    requires InTime(fs, n, c, i) && !FirstOpener(fs, i, n)
    ensures forall k | 0 <= k < |c'.order| :: c'.order[k] < |fs|
    ensures InTime(fs, n + 1, c', i)
  {
    forall m: nat | m < n + 1 && FirstOpener(fs, i, m) ensures RightBehind(fs, c.order + more, c'.flushed, m, i) {
      RunStays(fs, c.order, more, c.flushed, c'.flushed, m, i);
    }
  }

  lemma SameOrderTimely(fs: seq<Fact>, n: nat, c: Core, c': Core)
    requires n < |fs| && fs[n].opens.None? && c'.order == c.order && c'.flushed == c.flushed
    requires (forall k | 0 <= k < |c.order| :: c.order[k] < |fs|) && (forall i | i in c.deferred :: i < |fs|)
    requires Timely(fs, n, c) && c'.deferred <= c.deferred + {n} && n !in c.flushed
    ensures Timely(fs, n + 1, c')
  {
    forall i | i in c'.deferred ensures InTime(fs, n + 1, c', i) {
      if i in c.deferred {
        assert c.order + [] == c.order;
        StaysInTime(fs, n, c, [], c', i);
      }
    }
  }

  lemma KeepTimely(fs: seq<Fact>, n: nat, c: Core)
    requires n < |fs| && fs[n].opens.None?
    requires (forall k | 0 <= k < |c.order| :: c.order[k] < |fs|) && (forall i | i in c.deferred :: i < |fs|)
    requires Timely(fs, n, c)
    ensures forall k | 0 <= k < |c.order + [n]| :: (c.order + [n])[k] < |fs|
    ensures Timely(fs, n + 1, Keep(c, n))
  {
    forall i | i in c.deferred ensures InTime(fs, n + 1, Keep(c, n), i) {
      StaysInTime(fs, n, c, [n], Keep(c, n), i);
    }
  }

  lemma KeepComplete(fs: seq<Fact>, n: nat, c: Core)
    requires n < |fs| && Complete(fs, n, c) && n !in Waiting(c) && fs[n].live
    ensures Complete(fs, n + 1, Keep(c, n))
  {
    var order := c.order + [n];
    assert order[|c.order|] == n;
    forall i | i in c.order ensures i in order {
      var a :| 0 <= a < |c.order| && c.order[a] == i;
      assert order[a] == i;
    }
  }

  lemma KeepDeferred(fs: seq<Fact>, n: nat, c: Core)
    requires n < |fs| && DeferredRight(fs, n, c) && !fs[n].waits
    ensures DeferredRight(fs, n + 1, Keep(c, n))
  {
    var order := c.order + [n];
    assert forall a | 0 <= a < |order| :: order[a] == if a < |c.order| then c.order[a] else n;
  }

  lemma KeepInOrder(fs: seq<Fact>, n: nat, c: Core)
    requires n < |fs| && (forall a | 0 <= a < |c.order| :: c.order[a] < n)
    requires (forall i | i in c.deferred :: i < n) && InOrder(fs, c)
    ensures InOrder(fs, Keep(c, n))
  {
    var order := c.order + [n];
    assert forall a | 0 <= a < |order| :: order[a] == if a < |c.order| then c.order[a] else n;
  }

  lemma KeepStep(fs: seq<Fact>, n: nat, c: Core)
    requires n < |fs| && BaseInv(fs, n, c) && fs[n].live && !fs[n].waits
    ensures BaseInv(fs, n + 1, Keep(c, n))
    ensures Timely(fs, n, c) && fs[n].opens.None? ==> CoreInv(fs, n + 1, Keep(c, n))
  {
    KeepComplete(fs, n, c);
    KeepDeferred(fs, n, c);
    KeepInOrder(fs, n, c);
    if Timely(fs, n, c) && fs[n].opens.None? {
      KeepTimely(fs, n, c);
    }
  }

  function Queue(c: Core, key: Key): seq<nat> {
    if key in c.pending then c.pending[key] else []
  }

  function Defer(c: Core, n: nat, key: Key): Core {
    c.(pending := c.pending[key := Queue(c, key) + [n]], deferred := c.deferred + {n})
  }

  lemma DeferQueue(fs: seq<Fact>, n: nat, c: Core, key: Key)
    requires (forall i | i in c.deferred :: i < n && i < |fs|) && Queued(fs, c)
    ensures Increasing(Queue(c, key) + [n])
    ensures forall i :: i in Queue(c, key) + [n] <==> i in Queue(c, key) || i == n
    ensures forall i | i in Queue(c, key) :: i in Waiting(c) && fs[i].key == key
  {
    var q := Queue(c, key);
    forall a | 0 <= a < |q| ensures q[a] < n {
      assert q[a] in c.pending[key] && q[a] in Waiting(c);
    }
    assert (q + [n])[|q|] == n;
  }

  lemma DeferQueued(fs: seq<Fact>, n: nat, c: Core)
    requires n < |fs| && (forall i | i in c.deferred :: i < n) && Queued(fs, c) && c.flushed <= c.deferred
    ensures Queued(fs, Defer(c, n, fs[n].key))
  {
    var c' := Defer(c, n, fs[n].key);
    assert Waiting(c') == Waiting(c) + {n};
    DeferQueue(fs, n, c, fs[n].key);
  }

  lemma DeferComplete(fs: seq<Fact>, n: nat, c: Core)
    requires n < |fs| && Complete(fs, n, c) && DeferredRight(fs, n, c) && fs[n].live && fs[n].waits
    ensures Complete(fs, n + 1, Defer(c, n, fs[n].key)) && DeferredRight(fs, n + 1, Defer(c, n, fs[n].key))
  {
    assert Waiting(Defer(c, n, fs[n].key)) == Waiting(c) + {n};
  }

  lemma DeferInOrder(fs: seq<Fact>, n: nat, c: Core)
    requires n < |fs| && Complete(fs, n, c) && DeferredRight(fs, n, c) && InOrder(fs, c)
    ensures InOrder(fs, Defer(c, n, fs[n].key))
  {
    var c' := Defer(c, n, fs[n].key);
    assert Waiting(c') == Waiting(c) + {n};
    assert forall a | 0 <= a < |c.order| :: c.order[a] in c'.deferred <==> c.order[a] in c.deferred;
    forall a, i | 0 <= a < |c.order| && c.order[a] in c'.deferred && i in Waiting(c') && fs[c.order[a]].key == fs[i].key
      ensures c.order[a] < i
    {
    }
  }

  lemma DeferStep(fs: seq<Fact>, n: nat, c: Core)
    requires n < |fs| && CoreInv(fs, n, c) && fs[n].live && fs[n].waits && fs[n].opens.None?
    ensures CoreInv(fs, n + 1, Defer(c, n, fs[n].key))
    ensures |Defer(c, n, fs[n].key).deferred| == |c.deferred| + 1
  {
    assert n !in c.deferred;
    DeferComplete(fs, n, c);
    DeferInOrder(fs, n, c);
    DeferQueued(fs, n, c);
    SameOrderTimely(fs, n, c, Defer(c, n, fs[n].key));
  }

  /** The queue of a descriptor is emitted as a whole. */
  function Flush(c: Core, key: Key): Core {
    Core(c.order + Queue(c, key), c.pending - {key}, c.deferred, c.flushed + AsSet(Queue(c, key)))
  }

  function AsSet(s: seq<nat>): set<nat> {
    set i | i in s
  }

  lemma FlushWaiting(fs: seq<Fact>, c: Core, key: Key)
    requires (forall i | i in c.deferred :: i < |fs|) && Queued(fs, c)
    ensures forall i :: i in Waiting(Flush(c, key)) <==> i in Waiting(c) && fs[i].key != key
    ensures var q := Queue(c, key); forall a | 0 <= a < |q| :: q[a] in Waiting(c) && fs[q[a]].key == key
  {
    var q := Queue(c, key);
    forall a | 0 <= a < |q| ensures q[a] in Waiting(c) && fs[q[a]].key == key {
      assert q[a] in c.pending[key];
    }
  }

  lemma FlushComplete(fs: seq<Fact>, n: nat, c: Core, key: Key)
    requires n <= |fs| && Complete(fs, n, c) && DeferredRight(fs, n, c) && Queued(fs, c)
    ensures Complete(fs, n, Flush(c, key))
  {
    FlushWaiting(fs, c, key);
    var c', q := Flush(c, key), Queue(c, key);
    assert forall a | 0 <= a < |q| :: q[a] in q;
    forall i | 0 <= i < n && fs[i].live ensures i in c'.order || i in Waiting(c') {
      if i in c.order {
        var a :| 0 <= a < |c.order| && c.order[a] == i;
        assert c'.order[a] == i;
      } else if fs[i].key == key {
        var a :| 0 <= a < |q| && q[a] == i;
        assert c'.order[|c.order| + a] == i;
      }
    }
  }

  lemma FlushInOrder(fs: seq<Fact>, n: nat, c: Core, key: Key)
    requires n <= |fs| && Complete(fs, n, c) && DeferredRight(fs, n, c) && Queued(fs, c) && InOrder(fs, c)
    requires Complete(fs, n, Flush(c, key))
    ensures InOrder(fs, Flush(c, key))
  {
    FlushWaiting(fs, c, key);
    var c', q, m := Flush(c, key), Queue(c, key), |c.order|;
    forall a, b | 0 <= a < b < |c'.order| && c'.order[a] !in c.deferred && c'.order[b] !in c.deferred
      ensures c'.order[a] < c'.order[b]
    {
      NotQueued(c, q, b);
    }
    forall a, b | 0 <= a < b < |c'.order| && c'.order[a] in c.deferred && c'.order[b] in c.deferred
                  && fs[c'.order[a]].key == fs[c'.order[b]].key
      ensures c'.order[a] < c'.order[b]
    {
      if a < m <= b {
        assert q[b - m] in Waiting(c);
      }
    }
    forall a, i | 0 <= a < |c'.order| && c'.order[a] in c.deferred && i in Waiting(c')
        && fs[c'.order[a]].key == fs[i].key
      ensures c'.order[a] < i
    {
    }
  }

  lemma NotQueued(c: Core, q: seq<nat>, b: nat)
    requires b < |c.order + q| && (c.order + q)[b] !in c.deferred && forall a | 0 <= a < |q| :: q[a] in Waiting(c)
    ensures b < |c.order|
  {
  }

  lemma FlushStep(fs: seq<Fact>, n: nat, c: Core, key: Key)
    requires n <= |fs| && BaseInv(fs, n, c)
    ensures BaseInv(fs, n, Flush(c, key))
  {
    FlushWaiting(fs, c, key);
    FlushComplete(fs, n, c, key);
    FlushInOrder(fs, n, c, key);
  }

  /** The queue of the opened descriptor stands right behind its openat. */
  lemma QueueBehind(fs: seq<Fact>, order: seq<nat>, q: seq<nat>, flushed: set<nat>, n: nat, t: nat)
    requires n < |fs| && (forall k | 0 <= k < |order| :: order[k] < |fs|) && t < |q|
    requires forall k | 0 <= k < |q| :: q[k] < |fs| && q[k] in flushed
    requires forall k | 0 <= k < |q| :: fs[q[k]].key == fs[q[t]].key
    ensures forall k | 0 <= k < |order + [n] + q| :: (order + [n] + q)[k] < |fs|
    ensures RightBehind(fs, order + [n] + q, flushed, n, q[t])
  {
    var order', a, b := order + [n] + q, |order|, |order| + 1 + t;
    assert order'[a] == n && order'[b] == q[t];
    assert FlushedRun(fs, order', flushed, a, b) by {
      assert forall k | a < k <= b :: order'[k] == q[k - |order| - 1];
    }
  }

  /** What an openat of `key` and the flush behind it do to the output. */
  lemma OpenedOrder(fs: seq<Fact>, n: nat, c: Core, key: Key)
    requires n < |fs| && BaseInv(fs, n, c)
    ensures var c', q := Flush(Keep(c, n), key), Queue(c, key);
            && c'.order == c.order + [n] + q && c'.order == c.order + ([n] + q)
            && c'.deferred == c.deferred && c'.flushed == c.flushed + AsSet(q)
            && (forall j | 0 <= j < |q| :: q[j] in Waiting(c) && q[j] in c'.flushed && fs[q[j]].key == key)
            && (forall i :: i in c'.flushed <==> i in c.flushed || i in q)
            && (forall i :: i in q <==> i in c.deferred && i !in c.flushed && fs[i].key == key)
  {
    FlushWaiting(fs, c, key);
    assert Queue(Keep(c, n), key) == Queue(c, key);
    assert forall j | 0 <= j < |Queue(c, key)| :: Queue(c, key)[j] in Queue(c, key);
    assert c.order + [n] + Queue(c, key) == c.order + ([n] + Queue(c, key));
  }

  /** A write that waits for the opened descriptor leaves behind this openat. */
  lemma OpenOwn(fs: seq<Fact>, n: nat, c: Core, key: Key, i: nat)
    requires n < |fs| && BaseInv(fs, n, c) && Timely(fs, n, c) && fs[n].opens == Some(key)
    requires i in Waiting(c) && fs[i].key == key
    requires forall k | 0 <= k < |Flush(Keep(c, n), key).order| :: Flush(Keep(c, n), key).order[k] < |fs|
    ensures InTime(fs, n + 1, Flush(Keep(c, n), key), i)
  {
    OpenedOrder(fs, n, c, key);
    var c', q := Flush(Keep(c, n), key), Queue(c, key);
    NoneOpened(fs, n, c, i);
    assert FirstOpener(fs, i, n);
    var t :| 0 <= t < |q| && q[t] == i;
    QueueBehind(fs, c.order, q, c'.flushed, n, t);
    forall m: nat | m < n + 1 && FirstOpener(fs, i, m) ensures m == n {
    }
  }

  /** Any other deferred write is not concerned. */
  lemma OpenOther(fs: seq<Fact>, n: nat, c: Core, key: Key, i: nat)
    requires n < |fs| && BaseInv(fs, n, c) && Timely(fs, n, c) && fs[n].opens == Some(key)
    requires i in c.deferred && !(i in Waiting(c) && fs[i].key == key)
    requires forall k | 0 <= k < |Flush(Keep(c, n), key).order| :: Flush(Keep(c, n), key).order[k] < |fs|
    ensures InTime(fs, n + 1, Flush(Keep(c, n), key), i)
  {
    OpenedOrder(fs, n, c, key);
    var c', q := Flush(Keep(c, n), key), Queue(c, key);
    assert InTime(fs, n, c, i);
    if fs[i].key == key {
      OpenedAlready(fs, n, c, i);
    }
    StaysInTime(fs, n, c, [n] + q, c', i);
  }

  /** A waiting write has seen no openat of its descriptor. */
  lemma {:induction false} NoneOpened(fs: seq<Fact>, n: nat, c: Core, i: nat)
    requires n <= |fs| && BaseInv(fs, n, c) && Timely(fs, n, c) && i in Waiting(c)
    ensures forall k | i < k < n :: fs[k].opens != Some(fs[i].key)
  {
    assert InTime(fs, n, c, i);
    if k: nat :| i < k < n && fs[k].opens == Some(fs[i].key) {
      var m := FirstOpenerUpTo(fs, i, k);
    }
  }

  lemma {:induction false} FirstOpenerUpTo(fs: seq<Fact>, i: nat, k: nat) returns (m: nat)
    requires i < k < |fs| && fs[k].opens == Some(fs[i].key)
    ensures m <= k && FirstOpener(fs, i, m)
  {
    if j: nat :| i < j < k && fs[j].opens == Some(fs[i].key) {
      m := FirstOpenerUpTo(fs, i, j);
    } else {
      m := k;
    }
  }

  lemma OpenedAlready(fs: seq<Fact>, n: nat, c: Core, i: nat)
    requires n < |fs| && BaseInv(fs, n, c) && Timely(fs, n, c) && i in c.flushed
    ensures !FirstOpener(fs, i, n)
  {
    assert InTime(fs, n, c, i);
    var m: nat :| m < n && FirstOpener(fs, i, m);
  }

  /** An openat and the flush behind it. */
  lemma OpenStep(fs: seq<Fact>, n: nat, c: Core, key: Key)
    requires n < |fs| && CoreInv(fs, n, c) && fs[n].live && !fs[n].waits && fs[n].opens == Some(key)
    ensures BaseInv(fs, n + 1, Keep(c, n)) && CoreInv(fs, n + 1, Flush(Keep(c, n), key))
  {
    KeepStep(fs, n, c);
    FlushStep(fs, n + 1, Keep(c, n), key);
    forall i | i in c.deferred ensures InTime(fs, n + 1, Flush(Keep(c, n), key), i) {
      if i in Waiting(c) && fs[i].key == key {
        OpenOwn(fs, n, c, key, i);
      } else {
        OpenOther(fs, n, c, key, i);
      }
    }
  }

  lemma IncreasingSize(s: seq<nat>)
    requires Increasing(s)
    ensures |AsSet(s)| == |s|
  {
    DistinctSize(s);
    assert AsSet(s) == Elements(s);
  }

  lemma FlushCount(fs: seq<Fact>, c: Core, key: Key)
    requires (forall i | i in c.deferred :: i < |fs|) && Queued(fs, c)
    ensures |Flush(c, key).flushed| == |c.flushed| + |Queue(c, key)|
  {
    FlushWaiting(fs, c, key);
    IncreasingSize(Queue(c, key));
    assert c.flushed !! AsSet(Queue(c, key));
  }
}

/** The filter: two passes over the log. */
module LogFilter {
  import LogOrder
  import opened LogRecords
  import opened SetSizes
  import opened Sorting
  import opened Wrappers

  type Key = (int, int)
  type Core = LogOrder.Core

  datatype Stats = Stats(exits: nat, openatExits: nat, patched: nat, deferred: nat, flushed: nat, unregistered: nat)

  /** What the second pass carries along. */
  datatype State = State(queues: map<int, seq<int>>, registered: set<Key>, core: Core, kept: seq<Rec>, st: Stats)

  ghost function FactOf(data: seq<Rec>, lookahead: nat, i: nat): LogOrder.Fact
    requires i < |data|
  {
    LogOrder.Fact(!Dropped(data[i]), ShouldDefer(data, lookahead, i), KeyOf(data[i]),
                  if IsOpenatEntry(data[i]) then Some((data[i].pid, Or(Patched(data, i).ret, -1))) else None)
  }

  ghost function Facts(data: seq<Rec>, lookahead: nat): (fs: seq<LogOrder.Fact>)
    ensures |fs| == |data| && forall i | 0 <= i < |data| :: fs[i] == FactOf(data, lookahead, i)
  {
    seq(|data|, i requires 0 <= i < |data| => FactOf(data, lookahead, i))
  }

  // ---- first pass ----

  function QueueFor(queues: map<int, seq<int>>, pid: int): seq<int> {
    if pid in queues then queues[pid] else []
  }

  method CollectExits(data: seq<Rec>) returns (queues: map<int, seq<int>>)
    ensures forall pid :: QueueFor(queues, pid) == Exits(data, pid)
  {
    queues := map[];
    var i := 0;
    while i < |data|
      invariant i <= |data| && forall pid :: QueueFor(queues, pid) == Exits(data[..i], pid)
    {
      var r := data[i];
      assert data[..i + 1][..i] == data[..i];
      if IsOpenatExit(r) {
        queues := queues[r.pid := QueueFor(queues, r.pid) + [Or(r.ret, -1)]];
      }
      i := i + 1;
    }
    assert data[..i] == data;
  }

  // ---- second pass ----

  /** What is left of the exit values of a process after k entries have taken theirs. */
  function Rest(exits: seq<int>, k: nat): seq<int> {
    if k <= |exits| then exits[k..] else []
  }

  ghost predicate QueuesRight(data: seq<Rec>, n: nat, queues: map<int, seq<int>>)
    requires n <= |data|
  {
    forall pid :: QueueFor(queues, pid) == Rest(Exits(data, pid), EntriesBefore(data, n, pid))
  }

  ghost predicate RegisteredRight(data: seq<Rec>, n: nat, registered: set<Key>)
    requires n <= |data|
  {
    forall key: Key :: key in registered <==> OpenAt(data, n, key)
  }

  ghost predicate KeptRight(data: seq<Rec>, order: seq<nat>, kept: seq<Rec>) {
    |kept| == |order| && forall a | 0 <= a < |order| :: order[a] < |data| && kept[a] == Patched(data, order[a])
  }

  ghost predicate Counted(n: nat, core: Core, st: Stats) {
    && st.deferred == |core.deferred| && st.flushed == |core.flushed|
    && n + st.flushed == |core.order| + st.deferred + st.exits + st.openatExits
  }

  ghost function OpenatExits(data: seq<Rec>): (flags: seq<bool>)
    ensures |flags| == |data| && forall i | 0 <= i < |data| :: flags[i] <==> OpenatEnd(data[i])
  {
    seq(|data|, i requires 0 <= i < |data| => IsOpenatExit(data[i]))
  }

  ghost function GenericExits(data: seq<Rec>): (flags: seq<bool>)
    ensures |flags| == |data| && forall i | 0 <= i < |data| :: flags[i] <==> OtherEnd(data[i])
  {
    seq(|data|, i requires 0 <= i < |data| => IsGenericExit(data[i]))
  }

  ghost function PatchedEntries(data: seq<Rec>): (flags: seq<bool>)
    ensures |flags| == |data| && forall i | 0 <= i < |data| :: flags[i] <==> GetsExit(data, i)
  {
    seq(|data|, i requires 0 <= i < |data| => GetsExit(data, i))
  }

  ghost function Unregistered(data: seq<Rec>, lookahead: nat): (flags: seq<bool>)
    ensures |flags| == |data| && forall i | 0 <= i < |data| :: flags[i] <==> NeverOpened(data, lookahead, i)
  {
    seq(|data|, i requires 0 <= i < |data| => NeverOpened(data, lookahead, i))
  }

  /** The flagged records among the first n. */
  ghost function Where(flags: seq<bool>, n: nat): set<nat>
    requires n <= |flags|
  {
    set i: nat | i < n && flags[i]
  }

  lemma WhereStep(flags: seq<bool>, n: nat)
    requires n < |flags|
    ensures |Where(flags, n + 1)| == |Where(flags, n)| + One(flags[n])
  {
    assert Where(flags, n + 1) == Where(flags, n) + if flags[n] then {n} else {};
  }

  /** The other counters, each the number of records of its kind among the first n. */
  ghost predicate StatsRight(data: seq<Rec>, lookahead: nat, n: nat, st: Stats)
    requires n <= |data|
  {
    && st.openatExits == |Where(OpenatExits(data), n)| && st.exits == |Where(GenericExits(data), n)|
    && st.patched == |Where(PatchedEntries(data), n)| && st.unregistered == |Where(Unregistered(data, lookahead), n)|
  }

  /** What record n adds to those counters. */
  ghost predicate Ticked(data: seq<Rec>, lookahead: nat, n: nat, st: Stats, st': Stats)
    requires n < |data|
  {
    && st'.openatExits == st.openatExits + One(IsOpenatExit(data[n]))
    && st'.exits == st.exits + One(IsGenericExit(data[n]))
    && st'.patched == st.patched + One(GetsExit(data, n))
    && st'.unregistered == st.unregistered + One(NeverOpened(data, lookahead, n))
  }

  lemma StatsStep(data: seq<Rec>, lookahead: nat, n: nat, st: Stats, st': Stats)
    requires n < |data| && StatsRight(data, lookahead, n, st) && Ticked(data, lookahead, n, st, st')
    ensures StatsRight(data, lookahead, n + 1, st')
  {
    WhereStep(OpenatExits(data), n);
    WhereStep(GenericExits(data), n);
    WhereStep(PatchedEntries(data), n);
    WhereStep(Unregistered(data, lookahead), n);
  }

  lemma DropTicks(data: seq<Rec>, lookahead: nat, n: nat, st: Stats, st': Stats)
    requires n < |data| && Dropped(data[n])
    requires st' == if IsOpenatExit(data[n]) then st.(openatExits := st.openatExits + 1) else st.(exits := st.exits + 1)
    ensures Ticked(data, lookahead, n, st, st')
  {
  }

  lemma KeepTicks(data: seq<Rec>, lookahead: nat, n: nat, st: Stats)
    requires n < |data| && !Dropped(data[n]) && !IsOpenatEntry(data[n]) && !IsWrite(data[n])
    ensures Ticked(data, lookahead, n, st, st)
  {
  }

  lemma OpenatTicks(data: seq<Rec>, lookahead: nat, n: nat, st: Stats, st': Stats)
    requires n < |data| && IsOpenatEntry(data[n])
    requires st'.openatExits == st.openatExits && st'.exits == st.exits && st'.unregistered == st.unregistered
    requires st'.patched == st.patched + if GetsExit(data, n) then 1 else 0
    ensures Ticked(data, lookahead, n, st, st')
  {
  }

  lemma WriteTicks(data: seq<Rec>, lookahead: nat, n: nat, st: Stats, st': Stats)
    requires n < |data| && IsWrite(data[n]) && !Dropped(data[n])
    requires st'.openatExits == st.openatExits && st'.exits == st.exits && st'.patched == st.patched
    requires st'.unregistered == st.unregistered + if NeverOpened(data, lookahead, n) then 1 else 0
    ensures Ticked(data, lookahead, n, st, st')
  {
  }

  ghost predicate Inv(data: seq<Rec>, lookahead: nat, n: nat, s: State)
    requires n <= |data|
  {
    && LogOrder.CoreInv(Facts(data, lookahead), n, s.core)
    && QueuesRight(data, n, s.queues) && RegisteredRight(data, n, s.registered)
    && KeptRight(data, s.core.order, s.kept) && Counted(n, s.core, s.st)
  }

  /** An openat entry takes the next exit value of its process. */
  lemma PopRight(data: seq<Rec>, n: nat, queues: map<int, seq<int>>, pid: int)
    requires n < |data| && QueuesRight(data, n, queues) && IsOpenatEntry(data[n])
    ensures var r, q := data[n], QueueFor(queues, data[n].pid);
            QueueFor(if q != [] then queues[r.pid := q[1..]] else queues, pid) ==
            Rest(Exits(data, pid), EntriesBefore(data, n + 1, pid))
  {
    assert QueueFor(queues, pid) == Rest(Exits(data, pid), EntriesBefore(data, n, pid));
  }

  lemma PatchIsRight(data: seq<Rec>, n: nat, queues: map<int, seq<int>>)
    requires n < |data| && QueuesRight(data, n, queues) && IsOpenatEntry(data[n])
    ensures var r, q := data[n], QueueFor(queues, data[n].pid);
            && (GetsExit(data, n) <==> q != [] && q[0] >= 0)
            && Patched(data, n) == (if q != [] && q[0] >= 0 then r.(ret := Some(q[0])) else r)
            && QueuesRight(data, n + 1, if q != [] then queues[r.pid := q[1..]] else queues)
  {
    var r, q := data[n], QueueFor(queues, data[n].pid);
    assert q == Rest(Exits(data, r.pid), EntriesBefore(data, n, r.pid));
    forall pid ensures QueueFor(if q != [] then queues[r.pid := q[1..]] else queues, pid) ==
                       Rest(Exits(data, pid), EntriesBefore(data, n + 1, pid)) {
      PopRight(data, n, queues, pid);
    }
  }

  lemma QueuesStay(data: seq<Rec>, n: nat, queues: map<int, seq<int>>)
    requires n < |data| && QueuesRight(data, n, queues) && !IsOpenatEntry(data[n])
    ensures QueuesRight(data, n + 1, queues)
  {
  }

  lemma OpenRegisters(data: seq<Rec>, n: nat, registered: set<Key>)
    requires n < |data| && RegisteredRight(data, n, registered) && IsOpenatEntry(data[n])
    ensures var fd := Or(Patched(data, n).ret, -1);
            RegisteredRight(data, n + 1, if fd >= 0 then registered + {(data[n].pid, fd)} else registered)
  {
  }

  lemma CloseUnregisters(data: seq<Rec>, n: nat, registered: set<Key>)
    requires n < |data| && RegisteredRight(data, n, registered) && data[n].nr == CLOSE_NR && !Dropped(data[n])
    ensures var fd := Or(data[n].fd, -1);
            RegisteredRight(data, n + 1,
                            if fd != -1 && fd != EXIT_FD then registered - {(data[n].pid, fd)} else registered)
  {
  }

  lemma RegisteredStays(data: seq<Rec>, n: nat, registered: set<Key>)
    requires n < |data| && RegisteredRight(data, n, registered) && !IsOpenatEntry(data[n])
    requires Dropped(data[n]) || data[n].nr != CLOSE_NR
    ensures RegisteredRight(data, n + 1, registered)
  {
  }

  // ---- one record of the second pass ----

  function Emit(s: State, n: nat, r: Rec): State {
    s.(core := LogOrder.Keep(s.core, n), kept := s.kept + [r])
  }

  /** Emitting record n, which opens nothing, in place. */
  lemma EmitCore(data: seq<Rec>, lookahead: nat, n: nat, s: State, r: Rec)
    requires n < |data| && OutputRight(data, lookahead, n, s)
    requires !Dropped(data[n]) && !ShouldDefer(data, lookahead, n) && !IsOpenatEntry(data[n]) && r == Patched(data, n)
    ensures OutputRight(data, lookahead, n + 1, Emit(s, n, r))
  {
    LogOrder.KeepStep(Facts(data, lookahead), n, s.core);
  }

  lemma DropCore(data: seq<Rec>, lookahead: nat, n: nat, s: State, st: Stats)
    requires n < |data| && LogOrder.CoreInv(Facts(data, lookahead), n, s.core) && Dropped(data[n])
    requires Counted(n, s.core, s.st) && st.exits + st.openatExits == s.st.exits + s.st.openatExits + 1
    requires st.deferred == s.st.deferred && st.flushed == s.st.flushed
    ensures LogOrder.CoreInv(Facts(data, lookahead), n + 1, s.core) && Counted(n + 1, s.core, st)
  {
    LogOrder.DropStep(Facts(data, lookahead), n, s.core);
  }

  lemma DeferCore(data: seq<Rec>, lookahead: nat, n: nat, s: State)
    requires n < |data| && LogOrder.CoreInv(Facts(data, lookahead), n, s.core)
    requires Counted(n, s.core, s.st) && ShouldDefer(data, lookahead, n)
    ensures var c' := LogOrder.Defer(s.core, n, KeyOf(data[n]));
            && LogOrder.CoreInv(Facts(data, lookahead), n + 1, c') && c'.order == s.core.order
            && Counted(n + 1, c', s.st.(deferred := s.st.deferred + 1))
  {
    LogOrder.DeferStep(Facts(data, lookahead), n, s.core);
  }

  /** The queued writes of a descriptor leave right behind its openat. */
  function FlushBehind(data: seq<Rec>, s: State, key: Key): State
    requires forall a | 0 <= a < |LogOrder.Queue(s.core, key)| :: LogOrder.Queue(s.core, key)[a] < |data|
  {
    var q := LogOrder.Queue(s.core, key);
    s.(core := LogOrder.Flush(s.core, key), kept := s.kept + seq(|q|, a requires 0 <= a < |q| => data[q[a]]),
       st := s.st.(flushed := s.st.flushed + |q|))
  }

  lemma QueueInRange(data: seq<Rec>, lookahead: nat, n: nat, c: Core, key: Key)
    requires n <= |data| && LogOrder.BaseInv(Facts(data, lookahead), n, c)
    ensures var q := LogOrder.Queue(c, key);
            forall a | 0 <= a < |q| :: q[a] < |data| && Patched(data, q[a]) == data[q[a]]
  {
    var fs, q := Facts(data, lookahead), LogOrder.Queue(c, key);
    LogOrder.FlushWaiting(fs, c, key);
    forall a | 0 <= a < |q| ensures q[a] < |data| && Patched(data, q[a]) == data[q[a]] {
      assert q[a] in c.deferred && fs[q[a]].waits;
    }
  }

  lemma FlushKept(data: seq<Rec>, order: seq<nat>, kept: seq<Rec>, q: seq<nat>)
    requires KeptRight(data, order, kept)
    requires forall a | 0 <= a < |q| :: q[a] < |data| && Patched(data, q[a]) == data[q[a]]
    ensures KeptRight(data, order + q, kept + seq(|q|, a requires 0 <= a < |q| => data[q[a]]))
  {
  }

  /** Is there an openat exit for this write within the window? */
  method LooksAhead(data: seq<Rec>, i: nat, lookahead: nat) returns (found: bool)
    requires i < |data|
    ensures found <==> ComesSoon(data, i, lookahead)
  {
    found := false;
    var k := i + 1;
    while k < |data| && k <= i + lookahead && !found
      invariant i < k <= |data| || k == i + 1
      invariant found ==> ComesSoon(data, i, lookahead)
      invariant !found ==> forall m | i < m < k && m < |data| && m <= i + lookahead ::
                  !(IsOpenatExit(data[m]) && data[m].pid == data[i].pid && data[m].ret == Some(Or(data[i].fd, -1)))
    {
      found := IsOpenatExit(data[k]) && data[k].pid == data[i].pid && data[k].ret == Some(Or(data[i].fd, -1));
      k := k + 1;
    }
  }

  /** The entry with the return value of its exit, and the queues without that value. */
  method TakeExit(data: seq<Rec>, n: nat, queues: map<int, seq<int>>)
      returns (r: Rec, queues': map<int, seq<int>>, patched: bool)
    requires n < |data| && QueuesRight(data, n, queues) && IsOpenatEntry(data[n])
    ensures r == Patched(data, n) && QueuesRight(data, n + 1, queues') && r.pid == data[n].pid
    ensures patched <==> GetsExit(data, n)
  {
    var q := QueueFor(queues, data[n].pid);
    PatchIsRight(data, n, queues);
    r, queues', patched := data[n], queues, false;
    if q != [] {
      queues' := queues[r.pid := q[1..]];
      if q[0] >= 0 {
        r, patched := r.(ret := Some(q[0])), true;
      }
    }
  }

  /** Order, records and counters are right after n records. */
  ghost predicate OutputRight(data: seq<Rec>, lookahead: nat, n: nat, s: State)
    requires n <= |data|
  {
    && LogOrder.CoreInv(Facts(data, lookahead), n, s.core)
    && KeptRight(data, s.core.order, s.kept) && Counted(n, s.core, s.st)
  }

  /** The openat with the writes that wait for it behind. */
  lemma OpenatOutput(data: seq<Rec>, lookahead: nat, n: nat, s: State, r: Rec)
    requires n < |data| && OutputRight(data, lookahead, n, s) && IsOpenatEntry(data[n]) && r == Patched(data, n)
    ensures var e, key := Emit(s, n, r), (r.pid, Or(r.ret, -1));
            && (forall a | 0 <= a < |LogOrder.Queue(e.core, key)| :: LogOrder.Queue(e.core, key)[a] < |data|)
            && OutputRight(data, lookahead, n + 1, FlushBehind(data, e, key))
  {
    var key := (r.pid, Or(r.ret, -1));
    QueueInRange(data, lookahead, n, s.core, key);
    OpenatKept(data, n, s, r, LogOrder.Queue(s.core, key));
    LogOrder.FlushCount(Facts(data, lookahead), s.core, key);
    FlushCounted(n, s, Emit(s, n, r), key);
    LogOrder.OpenStep(Facts(data, lookahead), n, s.core, key);
  }

  lemma OpenatKept(data: seq<Rec>, n: nat, s: State, r: Rec, q: seq<nat>)
    requires n < |data| && KeptRight(data, s.core.order, s.kept) && r == Patched(data, n)
    requires forall a | 0 <= a < |q| :: q[a] < |data| && Patched(data, q[a]) == data[q[a]]
    ensures KeptRight(data, s.core.order + [n] + q, s.kept + [r] + seq(|q|, a requires 0 <= a < |q| => data[q[a]]))
  {
    FlushKept(data, s.core.order + [n], s.kept + [r], q);
  }

  lemma FlushCounted(n: nat, s: State, e: State, key: Key)
    requires Counted(n, s.core, s.st) && e.core == LogOrder.Keep(s.core, n) && e.st == s.st
    requires |LogOrder.Flush(s.core, key).flushed| == |s.core.flushed| + |LogOrder.Queue(s.core, key)|
    ensures Counted(n + 1, LogOrder.Flush(e.core, key), e.st.(flushed := e.st.flushed + |LogOrder.Queue(e.core, key)|))
  {
    assert LogOrder.Queue(e.core, key) == LogOrder.Queue(s.core, key);
  }

  method OnOpenat(data: seq<Rec>, lookahead: nat, n: nat, s: State) returns (s': State)
    requires n < |data| && Inv(data, lookahead, n, s) && IsOpenatEntry(data[n])
    ensures Inv(data, lookahead, n + 1, s') && Ticked(data, lookahead, n, s.st, s'.st)
    ensures var key := (data[n].pid, Or(Patched(data, n).ret, -1));
            && s'.core.order == s.core.order + [n] + LogOrder.Queue(s.core, key)
            && s'.core.pending == s.core.pending - {key}
  {
    var r, queues, patched := TakeExit(data, n, s.queues);
    OpenRegisters(data, n, s.registered);
    var fd := Or(r.ret, -1);
    var registered := if fd >= 0 then s.registered + {(r.pid, fd)} else s.registered;
    OpenatOutput(data, lookahead, n, s, r);
    var f := FlushBehind(data, Emit(s, n, r), (r.pid, fd));
    s' := f.(queues := queues, registered := registered,
             st := f.st.(patched := f.st.patched + if patched then 1 else 0));
    assert OutputRight(data, lookahead, n + 1, s');
    OpenatTicks(data, lookahead, n, s.st, s'.st);
  }

  method OnWrite(data: seq<Rec>, lookahead: nat, n: nat, s: State) returns (s': State)
    requires n < |data| && Inv(data, lookahead, n, s) && IsWrite(data[n]) && !Dropped(data[n])
    ensures Inv(data, lookahead, n + 1, s') && Ticked(data, lookahead, n, s.st, s'.st)
  {
    QueuesStay(data, n, s.queues);
    RegisteredStays(data, n, s.registered);
    var key := KeyOf(data[n]);
    s' := s;
    if key !in s.registered {
      var soon := LooksAhead(data, n, lookahead);
      if soon {
        DeferCore(data, lookahead, n, s);
        s' := s.(core := LogOrder.Defer(s.core, n, key), st := s.st.(deferred := s.st.deferred + 1));
        WriteTicks(data, lookahead, n, s.st, s'.st);
        return;
      }
      s' := s.(st := s.st.(unregistered := s.st.unregistered + 1));
    }
    EmitCore(data, lookahead, n, s', data[n]);
    s' := Emit(s', n, data[n]);
    WriteTicks(data, lookahead, n, s.st, s'.st);
  }

  method OnRecord(data: seq<Rec>, lookahead: nat, n: nat, s: State) returns (s': State)
    requires n < |data| && Inv(data, lookahead, n, s)
    ensures Inv(data, lookahead, n + 1, s') && Ticked(data, lookahead, n, s.st, s'.st)
  {
    var r := data[n];
    if IsOpenatExit(r) || IsGenericExit(r) {
      var st := if IsOpenatExit(r) then s.st.(openatExits := s.st.openatExits + 1) else s.st.(exits := s.st.exits + 1);
      DropCore(data, lookahead, n, s, st);
      DropTicks(data, lookahead, n, s.st, st);
      QueuesStay(data, n, s.queues);
      RegisteredStays(data, n, s.registered);
      s' := s.(st := st);
    } else if IsOpenatEntry(r) {
      s' := OnOpenat(data, lookahead, n, s);
    } else if r.nr == CLOSE_NR {
      var fd := Or(r.fd, -1);
      QueuesStay(data, n, s.queues);
      CloseUnregisters(data, n, s.registered);
      EmitCore(data, lookahead, n, s, r);
      KeepTicks(data, lookahead, n, s.st);
      s' := Emit(s, n, r);
      if fd != -1 && fd != EXIT_FD {
        s' := s'.(registered := s'.registered - {(r.pid, fd)});
      }
    } else if IsWrite(r) {
      s' := OnWrite(data, lookahead, n, s);
    } else {
      QueuesStay(data, n, s.queues);
      RegisteredStays(data, n, s.registered);
      EmitCore(data, lookahead, n, s, r);
      KeepTicks(data, lookahead, n, s.st);
      s' := Emit(s, n, r);
    }
  }

  // ---- the writes that never saw their openat ----

  /** The waiting writes, by ascending descriptor and, within one, in input order. */
  ghost predicate LateSoFar(fs: seq<LogOrder.Fact>, c: Core, done: set<Key>, late: seq<nat>)
    requires forall i | i in c.deferred :: i < |fs|
  {
    && (forall a | 0 <= a < |late| :: late[a] in LogOrder.Waiting(c) && fs[late[a]].key in done)
    && (forall i | i in LogOrder.Waiting(c) && fs[i].key in done :: i in late)
    && (forall a, b | 0 <= a < b < |late| :: LateBefore(fs[late[a]].key, late[a], fs[late[b]].key, late[b]))
  }

  predicate LateBefore(key: Key, i: nat, key': Key, j: nat) {
    LexLe(key, key') && (key == key' ==> i < j)
  }

  lemma LateNext(fs: seq<LogOrder.Fact>, c: Core, done: set<Key>, late: seq<nat>, key: Key)
    requires (forall i | i in c.deferred :: i < |fs|) && LogOrder.Queued(fs, c)
    requires LateSoFar(fs, c, done, late) && key in c.pending && forall k | k in done :: LexLe(k, key) && k != key
    ensures LateSoFar(fs, c, done + {key}, late + c.pending[key])
  {
    var q, more := c.pending[key], late + c.pending[key];
    forall a | 0 <= a < |q| ensures q[a] in LogOrder.Waiting(c) && fs[q[a]].key == key {
      assert q[a] in c.pending[key];
    }
    forall i | i in LogOrder.Waiting(c) && fs[i].key in done + {key} ensures i in more {
      if fs[i].key == key {
        var a :| 0 <= a < |q| && q[a] == i;
        assert more[|late| + a] == i;
      } else {
        var a :| 0 <= a < |late| && late[a] == i;
        assert more[a] == i;
      }
    }
    forall a, b | 0 <= a < b < |more| ensures LateBefore(fs[more[a]].key, more[a], fs[more[b]].key, more[b]) {
      assert a >= |late| ==> q[a - |late|] < q[b - |late|];
    }
  }

  lemma {:induction false} LeastKey(keys: set<Key>) returns (k: Key)
    requires keys != {}
    ensures k in keys && forall j | j in keys :: LexLe(k, j)
    decreases |keys|
  {
    k :| k in keys;
    if keys != {k} {
      assert keys - {k} != {} by {
        assert keys == (keys - {k}) + {k};
      }
      var m := LeastKey(keys - {k});
      k := if LexLe(k, m) then k else m;
    }
  }

  ghost function KeySet(ks: seq<Key>): set<Key> {
    set k | k in ks
  }

  ghost predicate Ascending(ks: seq<Key>) {
    forall a, b | 0 <= a < b < |ks| :: LexLe(ks[a], ks[b]) && ks[a] != ks[b]
  }

  ghost predicate AllBelow(ks: seq<Key>, rest: set<Key>) {
    forall a, j | 0 <= a < |ks| && j in rest :: LexLe(ks[a], j) && ks[a] != j
  }

  lemma AppendLeast(ks: seq<Key>, rest: set<Key>, key: Key)
    requires Ascending(ks) && AllBelow(ks, rest) && key in rest && forall j | j in rest :: LexLe(key, j)
    ensures Ascending(ks + [key]) && AllBelow(ks + [key], rest - {key})
    ensures KeySet(ks + [key]) == KeySet(ks) + {key}
  {
  }

  /** sorted(deferred_writes): the keys in ascending order. */
  method SortedKeys(keys: set<Key>) returns (ks: seq<Key>)
    ensures KeySet(ks) == keys && Ascending(ks)
  {
    ks := [];
    var rest := keys;
    while rest != {}
      invariant KeySet(ks) + rest == keys && Ascending(ks) && AllBelow(ks, rest)
      decreases |rest|
    {
      ghost var least := LeastKey(rest);
      var key :| key in rest && forall j | j in rest :: LexLe(key, j);
      AppendLeast(ks, rest, key);
      ks := ks + [key];
      rest := rest - {key};
    }
  }

  lemma EmitNext(data: seq<Rec>, lookahead: nat, c: Core, done: set<Key>, late: seq<nat>, kept: seq<Rec>, key: Key)
    requires LogOrder.CoreInv(Facts(data, lookahead), |data|, c) && KeptRight(data, c.order + late, kept)
    requires LateSoFar(Facts(data, lookahead), c, done, late) && key in c.pending
    requires forall k | k in done :: LexLe(k, key) && k != key
    ensures LateSoFar(Facts(data, lookahead), c, done + {key}, late + c.pending[key])
    ensures forall a | 0 <= a < |c.pending[key]| :: c.pending[key][a] < |data|
    ensures var q := c.pending[key];
            KeptRight(data, c.order + (late + q), kept + seq(|q|, a requires 0 <= a < |q| => data[q[a]]))
  {
    var q := c.pending[key];
    LateNext(Facts(data, lookahead), c, done, late, key);
    QueueInRange(data, lookahead, |data|, c, key);
    assert LogOrder.Queue(c, key) == q;
    KeptTail(data, c.order, late, q, kept);
  }

  lemma KeptTail(data: seq<Rec>, order: seq<nat>, late: seq<nat>, q: seq<nat>, kept: seq<Rec>)
    requires KeptRight(data, order + late, kept)
    requires forall a | 0 <= a < |q| :: q[a] < |data| && Patched(data, q[a]) == data[q[a]]
    ensures KeptRight(data, order + (late + q), kept + seq(|q|, a requires 0 <= a < |q| => data[q[a]]))
  {
    FlushKept(data, order + late, kept, q);
    assert order + late + q == order + (late + q);
  }

  /** The late writes in ascending order of (pid, fd). */
  method EmitLate(data: seq<Rec>, ghost lookahead: nat, c: Core, kept0: seq<Rec>)
      returns (kept: seq<Rec>, late: seq<nat>)
    requires LogOrder.CoreInv(Facts(data, lookahead), |data|, c) && KeptRight(data, c.order, kept0)
    ensures LateSoFar(Facts(data, lookahead), c, c.pending.Keys, late)
    ensures KeptRight(data, c.order + late, kept)
  {
    var ks := SortedKeys(c.pending.Keys);
    late, kept := [], kept0;
    assert c.order + late == c.order;
    var m := 0;
    while m < |ks|
      invariant m <= |ks| && KeptRight(data, c.order + late, kept)
      invariant LateSoFar(Facts(data, lookahead), c, KeySet(ks[..m]), late)
    {
      var key := ks[m];
      assert key in KeySet(ks);
      assert KeySet(ks[..m + 1]) == KeySet(ks[..m]) + {key};
      EmitNext(data, lookahead, c, KeySet(ks[..m]), late, kept, key);
      var q := c.pending[key];
      kept := kept + seq(|q|, a requires 0 <= a < |q| => data[q[a]]);
      late := late + q;
      m := m + 1;
    }
    assert ks[..m] == ks;
  }

  // ---- the whole filter ----

  /** Each record that is not an exit comes out exactly once. */
  ghost predicate OnceEach(data: seq<Rec>, order: seq<nat>) {
    && (forall a, b | 0 <= a < b < |order| :: order[a] != order[b])
    && (forall i: nat | i < |data| :: i in order <==> !Vanishes(data[i]))
  }

  /** Exactly the writes that should be are deferred; the other records keep their order. */
  ghost predicate OrderKept(data: seq<Rec>, lookahead: nat, order: seq<nat>, core: Core) {
    && (forall i: nat :: i in core.deferred <==> i < |data| && MustWait(data, lookahead, i))
    && (forall a, b | 0 <= a < b < |order| && order[a] !in core.deferred && order[b] !in core.deferred ::
        order[a] < order[b])
  }

  /** Record n is the first after write i to open the descriptor that i names. */
  ghost predicate FirstOpen(data: seq<Rec>, i: nat, n: nat)
    requires i < |data|
  {
    i < n < |data| && Gives(data, n, KeyOf(data[i])) && forall k | i < k < n :: !Gives(data, k, KeyOf(data[i]))
  }

  /** In the output only flushed writes to its own descriptor stand between record n and write i. */
  ghost predicate FollowsAtOnce(data: seq<Rec>, order: seq<nat>, flushed: set<nat>, n: nat, i: nat)
    requires i < |data| && forall a | 0 <= a < |order| :: order[a] < |data|
  {
    exists a, b | 0 <= a < b < |order| && order[a] == n && order[b] == i :: WritesBetween(data, order, flushed, a, b)
  }

  ghost predicate WritesBetween(data: seq<Rec>, order: seq<nat>, flushed: set<nat>, a: int, b: int)
    requires 0 <= a < b < |order| && forall k | 0 <= k < |order| :: order[k] < |data|
  {
    forall k | a < k <= b :: order[k] in flushed && KeyOf(data[order[k]]) == KeyOf(data[order[b]])
  }

  /** A deferred write is flushed exactly when some later record opens its descriptor, and then
      right behind the first that does; the others come last, by ascending process and descriptor.
      Deferred writes to one descriptor keep their order. */
  ghost predicate DeferredInTime(data: seq<Rec>, order: seq<nat>, core: Core)
    requires (forall a | 0 <= a < |order| :: order[a] < |data|) && forall i | i in core.deferred :: i < |data|
  {
    && (forall i | i in core.deferred :: i in core.flushed <==> exists n: nat :: FirstOpen(data, i, n))
    && (forall i, n: nat | i in core.deferred && FirstOpen(data, i, n) ::
        FollowsAtOnce(data, order, core.flushed, n, i))
    && core.order <= order && core.flushed <= core.deferred
    && (forall b | |core.order| <= b < |order| :: order[b] in core.deferred && order[b] !in core.flushed)
    && (forall b | 0 <= b < |core.order| :: order[b] in core.deferred ==> order[b] in core.flushed)
    && (forall a, b | |core.order| <= a < b < |order| ::
          LateBefore(KeyOf(data[order[a]]), order[a], KeyOf(data[order[b]]), order[b]))
    && (forall a, b | 0 <= a < b < |order| && order[a] in core.deferred && order[b] in core.deferred
                      && KeyOf(data[order[a]]) == KeyOf(data[order[b]]) :: order[a] < order[b])
  }

  /** The output, record for record: `order` gives the input index of each output record. */
  ghost predicate Filtered(data: seq<Rec>, lookahead: nat, kept: seq<Rec>, order: seq<nat>, core: Core) {
    && KeptRight(data, order, kept) && OnceEach(data, order)
    && (forall a | 0 <= a < |order| :: ComesOut(data, order[a], kept[a]))
    && OrderKept(data, lookahead, order, core) && DeferredInTime(data, order, core)
  }

  lemma LateCount(c: Core, late: seq<nat>)
    requires c.flushed <= c.deferred
    requires forall a, b | 0 <= a < b < |late| :: late[a] != late[b]
    requires forall i :: i in late <==> i in LogOrder.Waiting(c)
    ensures |late| == |c.deferred| - |c.flushed|
  {
    DistinctSize(late);
    assert Elements(late) == LogOrder.Waiting(c);
    assert c.deferred == LogOrder.Waiting(c) + c.flushed;
  }

  lemma LateIsWaiting(fs: seq<LogOrder.Fact>, c: Core, late: seq<nat>)
    requires (forall i | i in c.deferred :: i < |fs|) && LogOrder.Queued(fs, c)
    requires LateSoFar(fs, c, c.pending.Keys, late)
    ensures forall i :: i in late <==> i in LogOrder.Waiting(c)
    ensures forall a, b | 0 <= a < b < |late| :: late[a] != late[b]
  {
    forall i | i in LogOrder.Waiting(c) ensures i in late {
      assert fs[i].key in c.pending.Keys;
    }
  }

  lemma ConcludeOnce(data: seq<Rec>, lookahead: nat, c: Core, late: seq<nat>)
    requires LogOrder.Complete(Facts(data, lookahead), |data|, c)
    requires LogOrder.DeferredRight(Facts(data, lookahead), |data|, c)
    requires forall a, b | 0 <= a < b < |late| :: late[a] != late[b]
    requires forall i :: i in late <==> i in LogOrder.Waiting(c)
    ensures OnceEach(data, c.order + late)
  {
    var fs, order := Facts(data, lookahead), c.order + late;
    assert forall a | 0 <= a < |late| :: late[a] in late;
    forall i: nat | i < |data| ensures i in order <==> !Dropped(data[i]) {
      assert i in order <==> i in c.order || i in late;
      assert fs[i].live <==> !Dropped(data[i]);
    }
  }

  lemma DeferredAre(data: seq<Rec>, lookahead: nat, c: Core)
    requires LogOrder.DeferredRight(Facts(data, lookahead), |data|, c)
    ensures forall i: nat :: i in c.deferred <==> i < |data| && MustWait(data, lookahead, i)
  {
    forall i: nat | i < |data| ensures i in c.deferred <==> MustWait(data, lookahead, i) {
      MustWaitIff(data, lookahead, i);
      assert Facts(data, lookahead)[i] == FactOf(data, lookahead, i);
    }
  }

  lemma ConcludeOrder(data: seq<Rec>, lookahead: nat, c: Core, late: seq<nat>)
    requires LogOrder.CoreInv(Facts(data, lookahead), |data|, c)
    requires forall i :: i in late <==> i in LogOrder.Waiting(c)
    ensures OrderKept(data, lookahead, c.order + late, c)
  {
    var fs, order := Facts(data, lookahead), c.order + late;
    assert forall a | 0 <= a < |late| :: late[a] in late;
    assert forall a | 0 <= a < |order| :: order[a] == if a < |c.order| then c.order[a] else late[a - |c.order|];
    DeferredAre(data, lookahead, c);
  }

  lemma FirstOpenIs(data: seq<Rec>, lookahead: nat, i: nat, n: nat)
    requires i < |data|
    ensures FirstOpen(data, i, n) <==> LogOrder.FirstOpener(Facts(data, lookahead), i, n)
  {
    var fs := Facts(data, lookahead);
    assert forall k | 0 <= k < |data| :: fs[k].opens == Some(fs[i].key) <==> Opens(data, k, KeyOf(data[i]));
    assert forall k | 0 <= k < |data| :: Opens(data, k, KeyOf(data[i])) <==> Gives(data, k, KeyOf(data[i]));
  }

  lemma BehindInOutput(data: seq<Rec>, lookahead: nat, order: seq<nat>, late: seq<nat>, flushed: set<nat>,
      n: nat, i: nat)
    requires (forall a | 0 <= a < |order| :: order[a] < |data|) && (forall a | 0 <= a < |late| :: late[a] < |data|)
    requires i < |data| && LogOrder.RightBehind(Facts(data, lookahead), order, flushed, n, i)
    ensures FollowsAtOnce(data, order + late, flushed, n, i)
  {
    var fs := Facts(data, lookahead);
    var a, b :| 0 <= a < b < |order| && order[a] == n && order[b] == i
        && LogOrder.FlushedRun(fs, order, flushed, a, b);
    assert (order + late)[a] == n && (order + late)[b] == i;
    assert WritesBetween(data, order + late, flushed, a, b) by {
      assert forall k | a < k <= b :: (order + late)[k] == order[k];
    }
  }

  lemma ConcludeBehind(data: seq<Rec>, lookahead: nat, c: Core, late: seq<nat>, n: nat, i: nat)
    requires LogOrder.CoreInv(Facts(data, lookahead), |data|, c) && i in c.deferred && FirstOpen(data, i, n)
    requires forall a | 0 <= a < |late| :: late[a] < |data|
    ensures FollowsAtOnce(data, c.order + late, c.flushed, n, i)
  {
    FirstOpenIs(data, lookahead, i, n);
    assert LogOrder.InTime(Facts(data, lookahead), |data|, c, i);
    BehindInOutput(data, lookahead, c.order, late, c.flushed, n, i);
  }

  lemma ConcludeFlushed(data: seq<Rec>, lookahead: nat, c: Core, i: nat)
    requires LogOrder.CoreInv(Facts(data, lookahead), |data|, c) && i in c.deferred
    ensures i in c.flushed <==> exists n: nat :: FirstOpen(data, i, n)
  {
    var fs := Facts(data, lookahead);
    assert LogOrder.InTime(fs, |data|, c, i);
    if i in c.flushed {
      var m: nat :| m < |data| && LogOrder.FirstOpener(fs, i, m);
      FirstOpenIs(data, lookahead, i, m);
    }
    if n: nat :| FirstOpen(data, i, n) {
      FirstOpenIs(data, lookahead, i, n);
    }
  }

  lemma ConcludeLate(data: seq<Rec>, lookahead: nat, c: Core, late: seq<nat>)
    requires forall i | i in c.deferred :: i < |data|
    requires LateSoFar(Facts(data, lookahead), c, c.pending.Keys, late)
    requires forall a | 0 <= a < |c.order + late| :: (c.order + late)[a] < |data|
    ensures var order := c.order + late;
            && (forall b | |c.order| <= b < |order| :: order[b] in c.deferred && order[b] !in c.flushed)
            && (forall a, b | |c.order| <= a < b < |order| ::
                  LateBefore(KeyOf(data[order[a]]), order[a], KeyOf(data[order[b]]), order[b]))
  {
    var order := c.order + late;
    forall b | |c.order| <= b < |order| ensures order[b] in LogOrder.Waiting(c) {
      assert order[b] == late[b - |c.order|];
    }
    forall a, b | |c.order| <= a < b < |order|
      ensures LateBefore(KeyOf(data[order[a]]), order[a], KeyOf(data[order[b]]), order[b])
    {
      assert order[a] == late[a - |c.order|] && order[b] == late[b - |c.order|];
    }
  }

  lemma ConcludeSameKey(data: seq<Rec>, lookahead: nat, c: Core, late: seq<nat>, a: nat, b: nat)
    requires LogOrder.CoreInv(Facts(data, lookahead), |data|, c)
    requires LateSoFar(Facts(data, lookahead), c, c.pending.Keys, late)
    requires forall k | 0 <= k < |c.order + late| :: (c.order + late)[k] < |data|
    requires var order := c.order + late;
             && a < b < |order| && order[a] in c.deferred && order[b] in c.deferred
             && KeyOf(data[order[a]]) == KeyOf(data[order[b]])
    ensures (c.order + late)[a] < (c.order + late)[b]
  {
    var fs, m := Facts(data, lookahead), |c.order|;
    if b < m {
      assert fs[c.order[a]].key == fs[c.order[b]].key;
    } else if a < m {
      assert late[b - m] in LogOrder.Waiting(c) && fs[c.order[a]].key == fs[late[b - m]].key;
    } else {
      assert LateBefore(fs[late[a - m]].key, late[a - m], fs[late[b - m]].key, late[b - m]);
    }
  }

  lemma ConcludeDeferred(data: seq<Rec>, lookahead: nat, c: Core, late: seq<nat>)
    requires LogOrder.CoreInv(Facts(data, lookahead), |data|, c)
    requires LateSoFar(Facts(data, lookahead), c, c.pending.Keys, late)
    requires forall k | 0 <= k < |c.order + late| :: (c.order + late)[k] < |data|
    ensures DeferredInTime(data, c.order + late, c)
  {
    var order := c.order + late;
    forall i | i in c.deferred ensures i in c.flushed <==> exists n: nat :: FirstOpen(data, i, n) {
      ConcludeFlushed(data, lookahead, c, i);
    }
    forall i, n: nat | i in c.deferred && FirstOpen(data, i, n) ensures FollowsAtOnce(data, order, c.flushed, n, i) {
      ConcludeBehind(data, lookahead, c, late, n, i);
    }
    ConcludeLate(data, lookahead, c, late);
    forall a, b | 0 <= a < b < |order| && order[a] in c.deferred && order[b] in c.deferred
                  && KeyOf(data[order[a]]) == KeyOf(data[order[b]])
      ensures order[a] < order[b]
    {
      ConcludeSameKey(data, lookahead, c, late, a, b);
    }
    forall b | 0 <= b < |c.order| && order[b] in c.deferred ensures order[b] in c.flushed {
      assert order[b] == c.order[b];
    }
  }

  lemma Conclude(data: seq<Rec>, lookahead: nat, c: Core, late: seq<nat>, kept: seq<Rec>)
    requires LogOrder.CoreInv(Facts(data, lookahead), |data|, c) && KeptRight(data, c.order + late, kept)
    requires LateSoFar(Facts(data, lookahead), c, c.pending.Keys, late)
    ensures Filtered(data, lookahead, kept, c.order + late, c)
    ensures |late| == |c.deferred| - |c.flushed|
  {
    var order := c.order + late;
    forall a | 0 <= a < |order| ensures ComesOut(data, order[a], kept[a]) {
      PatchedComesOut(data, order[a]);
    }
    LateIsWaiting(Facts(data, lookahead), c, late);
    ConcludeOnce(data, lookahead, c, late);
    ConcludeOrder(data, lookahead, c, late);
    ConcludeDeferred(data, lookahead, c, late);
    LateCount(c, late);
  }

  lemma Finish(data: seq<Rec>, lookahead: nat, s: State, late: seq<nat>, kept: seq<Rec>)
    requires Inv(data, lookahead, |data|, s) && KeptRight(data, s.core.order + late, kept)
    requires LateSoFar(Facts(data, lookahead), s.core, s.core.pending.Keys, late)
    ensures Filtered(data, lookahead, kept, s.core.order + late, s.core)
    ensures s.st.deferred == s.st.flushed + |late| && s.st.deferred == |s.core.deferred|
            && s.st.flushed == |s.core.flushed|
    ensures |data| == |kept| + s.st.exits + s.st.openatExits
  {
    Conclude(data, lookahead, s.core, late, kept);
  }

  lemma StartInv(data: seq<Rec>, lookahead: nat, queues: map<int, seq<int>>)
    requires forall pid :: QueueFor(queues, pid) == Exits(data, pid)
    ensures Inv(data, lookahead, 0, State(queues, {}, LogOrder.Core([], map[], {}, {}), [], Stats(0, 0, 0, 0, 0, 0)))
  {
    LogOrder.StartCore(Facts(data, lookahead));
    StartTables(data, queues);
  }

  lemma StartTables(data: seq<Rec>, queues: map<int, seq<int>>)
    requires forall pid :: QueueFor(queues, pid) == Exits(data, pid)
    ensures QueuesRight(data, 0, queues) && RegisteredRight(data, 0, {}) && KeptRight(data, [], [])
  {
  }

  method FilterLog(data: seq<Rec>, lookahead: nat)
      returns (kept: seq<Rec>, st: Stats, late: nat, ghost order: seq<nat>, ghost core: Core)
    ensures Filtered(data, lookahead, kept, order, core)
    ensures st.deferred == st.flushed + late && st.deferred == |core.deferred| && st.flushed == |core.flushed|
    ensures |data| == |kept| + st.exits + st.openatExits && StatsRight(data, lookahead, |data|, st)
  {
    var queues := CollectExits(data);
    StartInv(data, lookahead, queues);
    var s := State(queues, {}, LogOrder.Core([], map[], {}, {}), [], Stats(0, 0, 0, 0, 0, 0));
    var n := 0;
    while n < |data|
      invariant n <= |data| && Inv(data, lookahead, n, s) && StatsRight(data, lookahead, n, s.st)
    {
      ghost var st0 := s.st;
      s := OnRecord(data, lookahead, n, s);
      StatsStep(data, lookahead, n, st0, s.st);
      n := n + 1;
    }
    var tail;
    kept, tail := EmitLate(data, lookahead, s.core, s.kept);
    core, order := s.core, s.core.order + tail;
    Finish(data, lookahead, s, tail, kept);
    st, late := s.st, |tail|;
  }
}
