/** The bounded queue in front of each replay worker (syscall_replayer.c).  Each method is
    one pass through the lock: where the source would sleep on a condition variable it
    reports `WouldBlock`. */
module RingBuffer {

  const RING_BUF_SIZE: nat := 4096
  const UINT32: nat := 0x1_0000_0000

  datatype EnqueueResult = Enqueued | EnqueueWouldBlock | Refused

  datatype DequeueResult<T> = Dequeued(x: T) | DequeueWouldBlock | Drained

  /** The entries from tail up to head, around the end of the buffer. */
  ghost function Window<T>(s: seq<T>, head: nat, tail: nat): (w: seq<T>)
    requires |s| == RING_BUF_SIZE && head < RING_BUF_SIZE && tail < RING_BUF_SIZE
    ensures |w| == if tail <= head then head - tail else RING_BUF_SIZE - tail + head
  {
    if tail <= head then s[tail..head] else s[tail..] + s[..head]
  }

  function Next(i: nat): nat
    requires i < RING_BUF_SIZE
  {
    (i + 1) % RING_BUF_SIZE
  }

  lemma WindowGrows<T>(s: seq<T>, head: nat, tail: nat, x: T)
    requires |s| == RING_BUF_SIZE && head < RING_BUF_SIZE && tail < RING_BUF_SIZE && Next(head) != tail
    ensures Window(s[head := x], Next(head), tail) == Window(s, head, tail) + [x]
  {
    var s' := s[head := x];
    if tail <= head {
      assert s'[tail..] == s[tail..head] + [x] + s[head + 1..];
    } else {
      assert s'[tail..] == s[tail..] && s'[..head + 1] == s[..head] + [x];
    }
  }

  lemma Associative<T>(a: seq<T>, b: seq<T>, c: seq<T>)
    ensures a + b + c == a + (b + c)
  {
  }

  lemma WindowShrinks<T>(s: seq<T>, head: nat, tail: nat)
    requires |s| == RING_BUF_SIZE && head < RING_BUF_SIZE && tail < RING_BUF_SIZE && head != tail
    ensures Window(s, head, tail) == [s[tail]] + Window(s, head, Next(tail))
  {
    if tail < head {
      assert Next(tail) == tail + 1;
      assert s[tail..head] == [s[tail]] + s[tail + 1..head];
    } else if tail + 1 < RING_BUF_SIZE {
      assert Next(tail) == tail + 1;
      assert s[tail..] == [s[tail]] + s[tail + 1..];
      Associative([s[tail]], s[tail + 1..], s[..head]);
    } else {
      assert Next(tail) == 0 && s[tail..] == [s[tail]] && s[0..head] == s[..head];
    }
  }

  class RingBuf<T(0)> {
    const entries: array<T>
    var head: nat
    var tail: nat
    var shutdown: bool

    ghost predicate Valid()
      reads this
    {
      entries.Length == RING_BUF_SIZE && head < RING_BUF_SIZE && tail < RING_BUF_SIZE
    }

    /** The queued entries, oldest first. */
    ghost function Contents(): (s: seq<T>)
      requires Valid()
      reads this, entries
      ensures |s| < RING_BUF_SIZE
    {
      Window(entries[..], head, tail)
    }

    constructor ()
      ensures Valid() && fresh(entries) && Contents() == [] && !shutdown
    {
      entries := new T[RING_BUF_SIZE];
      head, tail, shutdown := 0, 0, false;
    }

    /** `head - tail` is taken modulo 2^32 before it is reduced; the result is still the
        number of queued entries. */
    method Count() returns (n: nat)
      requires Valid()
      ensures n == |Contents()|
    {
      var difference := (head - tail) % UINT32;
      n := difference % RING_BUF_SIZE;
    }

    method Shutdown()
      requires Valid()
      modifies this
      ensures Valid() && shutdown && Contents() == old(Contents())
    {
      shutdown := true;
    }

    method Enqueue(x: T) returns (r: EnqueueResult)
      requires Valid()
      modifies this, entries
      ensures Valid() && shutdown == old(shutdown)
      ensures r.Refused? <==> shutdown
      ensures r.EnqueueWouldBlock? <==> !shutdown && |old(Contents())| == RING_BUF_SIZE - 1
      ensures Contents() == if r.Enqueued? then old(Contents()) + [x] else old(Contents())
    {
      if (head + 1) % RING_BUF_SIZE == tail && !shutdown {
        return EnqueueWouldBlock;
      }
      if shutdown {
        return Refused;
      }
      WindowGrows(entries[..], head, tail, x);
      entries[head] := x;
      head := (head + 1) % RING_BUF_SIZE;
      return Enqueued;
    }

    /** A queue that was shut down is drained before it reports the end. */
    method Dequeue() returns (r: DequeueResult<T>)
      requires Valid()
      modifies this
      ensures Valid() && shutdown == old(shutdown)
      ensures r.DequeueWouldBlock? <==> !shutdown && old(Contents()) == []
      ensures r.Drained? <==> shutdown && old(Contents()) == []
      ensures old(Contents()) == if r.Dequeued? then [r.x] + Contents() else Contents()
    {
      if head == tail && !shutdown {
        return DequeueWouldBlock;
      }
      if head == tail {
        return Drained;
      }
      var x := entries[tail];
      WindowShrinks(entries[..], head, tail);
      tail := (tail + 1) % RING_BUF_SIZE;
      return Dequeued(x);
    }
  }
}
