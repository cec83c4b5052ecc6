/** One direction of a pearsync channel: a fixed ring of `QUEUE` slots written
    by its producer and read by its consumer, plus the producer-private,
    growable circular overflow buffer (pearsync.c:27-140). */
module Queues {
  import opened Messages

  /** PEARSYNC_QUEUE, the number of ring slots (pearsync.h:8). */
  const QUEUE: nat := 1024

  ghost predicate IsPow2(n: nat)
    decreases n
  {
    if n <= 1 then n == 1 else n % 2 == 0 && IsPow2(n / 2)
  }

  lemma QueueIsPow2()
    ensures IsPow2(QUEUE)
  {
    assert IsPow2(1);
    assert IsPow2(2);
    assert IsPow2(4);
    assert IsPow2(8);
    assert IsPow2(16);
    assert IsPow2(32);
    assert IsPow2(64);
    assert IsPow2(128);
    assert IsPow2(256);
    assert IsPow2(512);
  }

  /** How far cursor `to` is ahead of cursor `from` in `n` circular slots. */
  function Dist(from: nat, to: nat, n: nat): (d: nat)
    requires from < n && to < n
    ensures d < n
  {
    if from <= to then to - from else n - from + to
  }

  /** The cursor after `x` in `n` circular slots. */
  function Next(x: nat, n: nat): (y: nat)
    requires x < n
    ensures y < n
  {
    if x + 1 == n then 0 else x + 1
  }

  /** `(to - from) & (n - 1)` for a power-of-two `n`, i.e. the Euclidean
      remainder, is the distance between the cursors. */
  lemma CursorDistance(from: nat, to: nat, n: nat)
    requires from < n && to < n
    ensures (to - from) % n == Dist(from, to, n)
  {
    if from <= to {
      ModSmall(to - from, n);
    } else {
      ModNegSmall(to - from, n);
    }
  }

  lemma ModSmall(d: int, n: int)
    requires 0 <= d < n
    ensures d % n == d
  {
  }

  /** A negative difference masked with `n - 1` wraps around once. */
  lemma ModNegSmall(d: int, n: int)
    requires -n <= d < 0
    ensures d % n == d + n
  {
    ModSmall(d + n, n);
    assert d == (d / n) * n + d % n;
  }

  /** `(x + 1) & (n - 1)` for a power-of-two `n` is the next cursor. */
  lemma NextCursor(x: nat, n: nat)
    requires x < n
    ensures (x + 1) % n == Next(x, n)
  {
    if x + 1 == n {
      assert (x + 1) % n == n % n == 0;
    }
  }

  /** The elements of circular storage `s` from cursor `from` (inclusive)
      up to cursor `to` (exclusive), oldest first. */
  function Window(s: seq<Msg>, from: nat, to: nat): (r: seq<Msg>)
    requires from < |s| && to < |s|
    ensures |r| == Dist(from, to, |s|)
    decreases Dist(from, to, |s|)
  {
    if from == to then [] else [s[from]] + Window(s, Next(from, |s|), to)
  }

  /** Writing at the write cursor and advancing it appends to the window,
      provided the advanced cursor does not land on the read cursor. */
  lemma {:induction false} WindowPush(s: seq<Msg>, from: nat, to: nat, m: Msg)
    requires from < |s| && to < |s| && Next(to, |s|) != from
    ensures Window(s[to := m], from, Next(to, |s|)) == Window(s, from, to) + [m]
    decreases Dist(from, to, |s|)
  {
    if from != to {
      WindowPush(s, Next(from, |s|), to, m);
    }
  }

  /** A window that does not wrap is a slice. */
  lemma {:induction false} WindowSlice(s: seq<Msg>, from: nat, to: nat)
    requires from <= to < |s|
    ensures Window(s, from, to) == s[from..to]
    decreases |s| - from
  {
    if from < to {
      WindowSlice(s, from + 1, to);
      assert s[from..to] == [s[from]] + s[from + 1..to];
    }
  }

  /** A circular buffer is full (keeps one slot free) exactly when the
      advanced write cursor would meet the read cursor. */
  lemma WindowFull(s: seq<Msg>, from: nat, to: nat)
    requires from < |s| && to < |s|
    ensures |Window(s, from, to)| == |s| - 1 <==> Next(to, |s|) == from
  {
  }

  /** Taking the oldest ring entry takes the oldest of ring-then-overflow. */
  lemma PopFront(ring: seq<Msg>, pending: seq<Msg>)
    requires ring != []
    ensures (ring + pending)[0] == ring[0]
    ensures (ring + pending)[1..] == ring[1..] + pending
  {
  }

  /** Moving the first `k` overflow entries to the end of the ring keeps
      ring-then-overflow as it was. */
  lemma MoveFront(ring: seq<Msg>, pending: seq<Msg>, k: nat)
    requires k <= |pending|
    ensures (ring + pending[..k]) + pending[k..] == ring + pending
  {
    assert pending == pending[..k] + pending[k..];
  }

  /** Moving overflow entry `i` to the end of a ring that holds `ring0`
      and the `i` entries before it. */
  lemma MoveOne(ring0: seq<Msg>, pending0: seq<Msg>, i: nat)
    requires i < |pending0|
    ensures pending0[i..] != [] && pending0[i..][0] == pending0[i]
    ensures (ring0 + pending0[..i]) + [pending0[i]] == ring0 + pending0[..i + 1]
    ensures pending0[i..][1..] == pending0[i + 1..]
    ensures |ring0 + pending0[..i + 1]| == |ring0| + i + 1
    ensures ring0 + pending0[..i] == [] <==> ring0 == [] && i == 0
  {
    assert pending0[..i + 1] == pending0[..i] + [pending0[i]];
  }

  /** Number of overflow entries moved into the ring by a drain loop that
      stops when overflow is empty or the ring is full. */
  function Moved(ringLen: nat, pendingLen: nat): (k: nat)
    requires ringLen < QUEUE
    ensures k <= pendingLen && ringLen + k <= QUEUE - 1
    ensures k == pendingLen || ringLen + k == QUEUE - 1
  {
    if pendingLen <= QUEUE - 1 - ringLen then pendingLen else QUEUE - 1 - ringLen
  }

  /** The copy loop of pearsync_overflow_push (pearsync.c:94-99), with the
      read cursor advanced under the mask of the OLD storage `src` (see
      AsWritten for the loop as written): fresh storage of `size` slots whose
      first `count` slots hold the entries of `src` from `tail` up to `head`,
      oldest first. */
  method CopyPending(src: array<Msg>, tail: nat, head: nat, size: nat)
    returns (dst: array<Msg>, count: nat)
    requires tail < src.Length && head < src.Length
    requires Dist(tail, head, src.Length) < size
    ensures fresh(dst) && dst.Length == size
    ensures count == Dist(tail, head, src.Length)
    ensures dst[..count] == Window(src[..], tail, head)
  {
    ghost var all := Window(src[..], tail, head);
    dst := new Msg[size];
    count := 0;
    var t: nat := tail;
    while t != head
      invariant t < src.Length && count <= |all|
      invariant Window(src[..], t, head) == all[count..]
      invariant dst[..count] == all[..count]
      decreases |all| - count
    {
      NextCursor(t, src.Length);
      dst[count] := src[t];
      t := (t + 1) % src.Length;
      count := count + 1;
    }
  }

  /** pearsync_queue_t (pearsync.h:15-25 as used by pearsync.c). The ghost
      `ring` and `pending` are the ring and overflow contents, oldest first. */
  class Queue {
    const buffer: array<Msg>
    var head: nat   // next ring slot to write, advanced by the producer
    var tail: nat   // next ring slot to read, advanced by the consumer

    var overflow: array<Msg>   // empty array for NULL
    var overflowSize: nat
    var overflowHead: nat
    var overflowTail: nat

    ghost var ring: seq<Msg>
    ghost var pending: seq<Msg>

    ghost predicate Valid()
      reads this, buffer, overflow
    {
      RingValid() && OverflowValid() && buffer != overflow
    }

    /** The ring holds `ring` between `tail` and `head`. */
    ghost predicate RingValid()
      reads this`head, this`tail, this`ring, buffer
    {
      && buffer.Length == QUEUE && head < QUEUE && tail < QUEUE
      && ring == Window(buffer[..], tail, head)
    }

    /** Overflow storage is absent (size 0), or has a power-of-two size of at
        least QUEUE and holds `pending` between its tail and head. */
    ghost predicate OverflowValid()
      reads this`overflow, this`overflowSize, this`overflowHead, this`overflowTail,
            this`pending, overflow
    {
      && overflow.Length == overflowSize
      && (overflowSize == 0 ==> overflowHead == 0 && overflowTail == 0 && pending == [])
      && (overflowSize != 0 ==>
            && IsPow2(overflowSize) && QUEUE <= overflowSize
            && overflowHead < overflowSize && overflowTail < overflowSize
            && pending == Window(overflow[..], overflowTail, overflowHead))
    }

    /** A queue as pearsync_queue_init leaves it, in fresh storage. */
    constructor ()
      ensures Valid() && fresh(buffer) && fresh(overflow)
      ensures ring == [] && pending == []
      ensures head == 0 && tail == 0
      ensures overflowSize == 0 && overflowHead == 0 && overflowTail == 0
    {
      buffer := new Msg[QUEUE];
      head, tail := 0, 0;
      overflow := new Msg[0];
      overflowSize, overflowHead, overflowTail := 0, 0, 0;
      ring, pending := [], [];
      new;
      assert buffer[..][0..0] == [];
    }

    /** pearsync_queue_init on an existing queue: both cursors to 0 and the
        overflow pointer to NULL. Anything held is dropped (the old overflow
        storage is not freed). */
    method Reset()
      requires Valid()
      modifies this`head, this`tail, this`ring, this`overflow, this`overflowSize,
               this`overflowHead, this`overflowTail, this`pending
      ensures Valid() && fresh(overflow)
      ensures ring == [] && pending == []
      ensures head == 0 && tail == 0
      ensures overflowSize == 0 && overflowHead == 0 && overflowTail == 0
    {
      tail, head := 0, 0;
      overflow := new Msg[0];
      overflowSize, overflowHead, overflowTail := 0, 0, 0;
      ring, pending := [], [];
    }

    /** `tail == head`: the ring holds nothing. */
    function RingEmpty(): (b: bool)
      reads this, buffer, overflow
      requires Valid()
      ensures b <==> ring == []
    {
      tail == head
    }

    /** `((head + 1) & MASK) == tail`: the ring holds QUEUE - 1 messages. */
    function RingFull(): (b: bool)
      reads this, buffer, overflow
      requires Valid()
      ensures b <==> |ring| == QUEUE - 1
    {
      WindowFull(buffer[..], tail, head);
      NextCursor(head, QUEUE);
      (head + 1) % QUEUE == tail
    }

    /** `overflow_tail == overflow_head`: overflow holds nothing. */
    function OverflowEmpty(): (b: bool)
      reads this, buffer, overflow
      requires Valid()
      ensures b <==> pending == []
    {
      overflowTail == overflowHead
    }

    /** The count pearsync_clear computes:
        `((head - tail) & MASK) + ((overflow_head - overflow_tail) & mask)`,
        where `mask` is `overflow_size - 1`, i.e. -1 (all bits) when there is
        no overflow storage. */
    function Length(): (n: nat)
      reads this, buffer, overflow
      requires Valid()
      ensures n == |ring| + |pending|
    {
      CursorDistance(tail, head, QUEUE);
      var ringLen := (head - tail) % QUEUE;
      if overflowSize == 0 then ringLen + (overflowHead - overflowTail)
      else
        CursorDistance(overflowTail, overflowHead, overflowSize);
        ringLen + (overflowHead - overflowTail) % overflowSize
    }

    /** pearsync_queue_push: fails, changing nothing, when the ring is full;
        otherwise stores `m` at `head` and advances `head`. */
    method Push(m: Msg) returns (ok: bool)
      requires Valid()
      modifies this`head, this`ring, buffer
      ensures Valid()
      ensures ok <==> (old(head) + 1) % QUEUE != tail
      ensures ok <==> |old(ring)| < QUEUE - 1
      ensures ring == if ok then old(ring) + [m] else old(ring)
      ensures !ok ==> head == old(head) && buffer[..] == old(buffer[..])
    {
      var next := (head + 1) % QUEUE;
      NextCursor(head, QUEUE);
      WindowFull(buffer[..], tail, head);
      if next == tail {
        return false;
      }
      WindowPush(buffer[..], tail, head, m);
      buffer[head] := m;
      assert buffer[..] == old(buffer[..])[old(head) := m];
      head := next;
      ring := ring + [m];
      ok := true;
    }

    /** pearsync_queue_shift: on an empty ring returns false and the
        sentinel `Zero`; otherwise returns the oldest message and advances
        `tail`. */
    method Shift() returns (ok: bool, m: Msg)
      requires Valid()
      modifies this`tail, this`ring
      ensures Valid()
      ensures ok <==> old(ring) != []
      ensures ok ==> m == old(ring)[0] && ring == old(ring)[1..]
      ensures !ok ==> m == Zero && ring == old(ring) && tail == old(tail)
    {
      if tail == head {
        return false, Zero;
      }
      NextCursor(tail, QUEUE);
      m := buffer[tail];
      tail := (tail + 1) % QUEUE;
      ring := ring[1..];
      ok := true;
    }

    /** pearsync_overflow_shift: false when overflow is empty, leaving the
        caller's slot as it was; otherwise pops the oldest entry. */
    method OverflowShift(slot: Msg) returns (ok: bool, m: Msg)
      requires Valid()
      modifies this`overflowTail, this`pending
      ensures Valid()
      ensures ok <==> old(pending) != []
      ensures ok ==> m == old(pending)[0] && pending == old(pending)[1..]
      ensures !ok ==> m == slot && pending == old(pending) && overflowTail == old(overflowTail)
    {
      if overflowTail == overflowHead {
        return false, slot;
      }
      NextCursor(overflowTail, overflowSize);
      m := overflow[overflowTail];
      overflowTail := (overflowTail + 1) % overflowSize;
      pending := pending[1..];
      ok := true;
    }

    /** The growth step of pearsync_overflow_push, with the copy loop
        advancing the old read cursor under the OLD mask (see AsWritten for
        the loop as written): storage of QUEUE slots when there is none,
        otherwise twice the old size, holding the pending entries
        oldest-first from slot 0. */
    method Grow()
      requires Valid()
      requires overflowSize == 0 || |pending| == overflowSize - 1
      modifies this`overflow, this`overflowSize, this`overflowHead, this`overflowTail
      ensures Valid() && fresh(overflow)
      ensures pending == old(pending)
      ensures overflowSize == if old(overflowSize) == 0 then QUEUE else 2 * old(overflowSize)
      ensures overflowTail == 0 && overflowHead == |pending| && overflowHead + 1 < overflowSize
    {
      var newOverflow, count;
      if overflowSize == 0 {
        overflowSize := QUEUE;
        QueueIsPow2();
        newOverflow, count := new Msg[overflowSize], 0;
      } else {
        overflowSize := overflowSize * 2;
        newOverflow, count := CopyPending(overflow, overflowTail, overflowHead, overflowSize);
      }
      overflow := newOverflow;
      overflowTail := 0;
      overflowHead := count;
      WindowSlice(overflow[..], 0, count);
    }

    /** pearsync_overflow_push: never fails. Grows the storage when there is
        none or when it is full, then appends `m` at `overflow_head`. */
    method OverflowPush(m: Msg)
      requires Valid()
      modifies this`overflow, this`overflowSize, this`overflowHead, this`overflowTail,
               this`pending, overflow
      ensures Valid() && (overflow == old(overflow) || fresh(overflow))
      ensures pending == old(pending) + [m]
      ensures overflowSize ==
        if old(overflowSize) == 0 then QUEUE
        else if |old(pending)| == old(overflowSize) - 1 then 2 * old(overflowSize)
        else old(overflowSize)
      ensures IsPow2(overflowSize)
    {
      if overflowSize != 0 {
        WindowFull(overflow[..], overflowTail, overflowHead);
        NextCursor(overflowHead, overflowSize);
      }
      if overflowSize == 0 || (overflowHead + 1) % overflowSize == overflowTail {
        Grow();
        NextCursor(overflowHead, overflowSize);
      }
      WindowPush(overflow[..], overflowTail, overflowHead, m);
      overflow[overflowHead] := m;
      overflowHead := (overflowHead + 1) % overflowSize;
      pending := pending + [m];
    }

    /** The queue half of a send (pearsync.c:262 and 270, 280 and 293):
        when `tryRing`, a ring push; if that is not tried or fails, an
        overflow push. Either way `m` is accepted by exactly one buffer. */
    method PushOrSpill(m: Msg, tryRing: bool) returns (ok: bool)
      requires Valid()
      modifies this`head, this`ring, buffer, this`overflow, this`overflowSize,
               this`overflowHead, this`overflowTail, this`pending, overflow
      ensures Valid() && (overflow == old(overflow) || fresh(overflow))
      ensures ok <==> tryRing && |old(ring)| < QUEUE - 1
      ensures ok ==> ring == old(ring) + [m] && pending == old(pending) && overflow == old(overflow)
      ensures !ok ==> ring == old(ring) && pending == old(pending) + [m]
    {
      ok := false;
      if tryRing {
        ok := Push(m);
      }
      if !ok {
        OverflowPush(m);
      }
    }

    /** The first loop of pearsync_clear: shifts the whole ring, oldest
        first, into `msgs` from slot `start` on. */
    method ShiftRingInto(msgs: array<Msg>, start: nat) returns (next: nat)
      requires Valid() && msgs != buffer && msgs != overflow
      requires start + |ring| <= msgs.Length
      modifies this`tail, this`ring, msgs
      ensures Valid() && ring == []
      ensures next == start + |old(ring)|
      ensures msgs[..start] == old(msgs[..start])
      ensures msgs[start..next] == old(ring)
    {
      next := start;
      while !RingEmpty()
        invariant Valid()
        invariant start <= next && next - start <= |old(ring)| && ring == old(ring)[next - start..]
        invariant msgs[..start] == old(msgs[..start])
        invariant msgs[start..next] == old(ring)[..next - start]
        decreases |ring|
      {
        var _, x := Shift();
        msgs[next] := x;
        next := next + 1;
      }
    }

    /** The second loop of pearsync_clear: shifts all of overflow, oldest
        first, into `msgs` from slot `start` on. */
    method ShiftOverflowInto(msgs: array<Msg>, start: nat) returns (next: nat)
      requires Valid() && msgs != buffer && msgs != overflow
      requires start + |pending| <= msgs.Length
      modifies this`overflowTail, this`pending, msgs
      ensures Valid() && pending == []
      ensures next == start + |old(pending)|
      ensures msgs[..start] == old(msgs[..start])
      ensures msgs[start..next] == old(pending)
    {
      next := start;
      var slot := Zero;
      while !OverflowEmpty()
        invariant Valid()
        invariant start <= next && next - start <= |old(pending)| && pending == old(pending)[next - start..]
        invariant msgs[..start] == old(msgs[..start])
        invariant msgs[start..next] == old(pending)[..next - start]
        decreases |pending|
      {
        var _, x := OverflowShift(slot);
        msgs[next] := x;
        next := next + 1;
      }
    }

    /** pearsync_clear: hands back `len` messages, the ring's oldest-first
        followed by overflow's oldest-first, and leaves the queue empty with
        its overflow storage released. */
    method Clear() returns (len: nat, msgs: array<Msg>)
      requires Valid()
      modifies this`tail, this`ring, this`overflow, this`overflowSize,
               this`overflowHead, this`overflowTail, this`pending
      ensures Valid() && fresh(msgs) && (overflow == old(overflow) || fresh(overflow))
      ensures len == msgs.Length == |old(ring)| + |old(pending)|
      ensures msgs[..] == old(ring) + old(pending)
      ensures ring == [] && pending == []
      ensures overflowSize == 0 && overflowHead == 0 && overflowTail == 0
    {
      len := Length();
      msgs := new Msg[len];
      var i := ShiftRingInto(msgs, 0);
      i := ShiftOverflowInto(msgs, i);
      assert msgs[..] == msgs[..|old(ring)|] + msgs[|old(ring)|..i];
      ReleaseOverflow();
    }

    /** The end of pearsync_clear: when there is overflow storage, it is
        freed and the overflow fields are zeroed. */
    method ReleaseOverflow()
      requires Valid() && pending == []
      modifies this`overflow, this`overflowSize, this`overflowHead, this`overflowTail
      ensures Valid() && (overflow == old(overflow) || fresh(overflow))
      ensures overflowSize == 0 && overflowHead == 0 && overflowTail == 0
    {
      if overflowSize != 0 {
        overflow := new Msg[0];
        overflowSize, overflowHead, overflowTail := 0, 0, 0;
      }
    }
  }
}
