/** Two places where pearsync.c does not do what its structure intends,
    modelled as written so the discrepancy can be stated. The rest of the
    model uses the corrected behaviour: Queues.CopyPending for the first,
    Queues.Queue.Clear for the second. */
module AsWritten {
  import opened Messages
  import opened Queues

  // ---------------------------------------------------------------------
  // Overflow growth (pearsync.c:90-99). After the size is doubled, `mask`
  // is the NEW mask, and the copy loop advances the OLD read cursor with it.

  /** The slots of the old overflow storage the copy loop reads, in order,
      starting from cursor `t`, until the cursor reaches `head`, with the
      cursor advanced by `(t + 1) & (newSize - 1)`. */
  function GrowReadsAsWritten(t: nat, head: nat, newSize: nat): (r: seq<nat>)
    requires t < newSize && head < newSize
    ensures |r| == Dist(t, head, newSize)
    decreases Dist(t, head, newSize)
  {
    if t == head then [] else [t] + GrowReadsAsWritten(Next(t, newSize), head, newSize)
  }

  /** The cursor walks up one slot at a time until it would pass the end of
      the NEW storage. */
  lemma {:induction false} GrowReadsAscend(t: nat, head: nat, newSize: nat, i: nat)
    requires t < newSize && head < newSize
    requires i < Dist(t, head, newSize) && t + i < newSize
    ensures GrowReadsAsWritten(t, head, newSize)[i] == t + i
    decreases i
  {
    if i > 0 {
      GrowReadsAscend(Next(t, newSize), head, newSize, i - 1);
    }
  }

  /** When the old contents do not wrap (`tail <= head`) the loop as written
      reads exactly the occupied slots, oldest first: the growth is sound. */
  lemma GrowReadsUnwrapped(size: nat, tail: nat, head: nat, i: nat)
    requires tail <= head < size && i < head - tail
    ensures |GrowReadsAsWritten(tail, head, 2 * size)| == head - tail
    ensures GrowReadsAsWritten(tail, head, 2 * size)[i] == tail + i < size
  {
    GrowReadsAscend(tail, head, 2 * size, i);
  }

  /** The growth is entered with full storage (`(head + 1) & mask == tail`).
      Whenever that storage wraps (`tail == head + 1`), the loop as written
      reads slot `size`, one past the end of the old storage, copies
      `2 * size - 1` entries instead of `size - 1`, and leaves
      `overflow_head` at `2 * size - 1`; the push that follows then moves
      `overflow_head` onto `overflow_tail` (0), so the overflow reads as
      empty and every pending message, the new one included, is lost. */
  lemma GrowReadsPastOldStorage(size: nat, tail: nat, head: nat)
    requires QUEUE <= size && tail == head + 1 < size
    ensures var r := GrowReadsAsWritten(tail, head, 2 * size);
            && |r| == 2 * size - 1
            && r[size - tail] == size
            && Next(|r|, 2 * size) == 0
  {
    GrowReadsAscend(tail, head, 2 * size, size - tail);
  }

  /** One input that reaches it: the first doubling, from QUEUE to 2 * QUEUE
      slots, with entries in slots 1 .. QUEUE - 1 and the write cursor back
      at slot 0. */
  lemma GrowReadsPastOldStorageExample()
    ensures GrowReadsAsWritten(1, 0, 2 * QUEUE)[QUEUE - 1] == QUEUE
  {
    GrowReadsPastOldStorage(QUEUE, 1, 0);
  }

  // ---------------------------------------------------------------------
  // Teardown (pearsync.c:120-131). The loop `while (pearsync_queue_shift(q, m))
  // m++;` ends with a failed shift, and a failed shift still stores the
  // sentinel {0, NULL} through `m` (pearsync.c:41-44) whenever `m` is not
  // NULL, i.e. whenever `l > 0`.

  /** A store of `value` into slot `slot` of the output array. */
  datatype Store = Store(slot: nat, value: Msg)

  /** Stores of the messages `s`, in order, into slots `start`,
      `start + 1`, ... */
  function Stores(s: seq<Msg>, start: nat): (w: seq<Store>)
    ensures |w| == |s|
    ensures forall i :: 0 <= i < |s| ==> w[i] == Store(start + i, s[i])
    decreases |s|
  {
    if s == [] then [] else [Store(start, s[0])] + Stores(s[1..], start + 1)
  }

  /** The stores pearsync_clear as written makes into the `l`-slot array:
      the ring loop's, the sentinel of its final failed shift (at slot
      `|ring|`, when the array exists), then the overflow loop's (a failed
      overflow shift stores nothing). */
  function ClearStoresAsWritten(ring: seq<Msg>, pending: seq<Msg>): (w: seq<Store>)
    ensures |w| == |ring| + |pending| + (if ring + pending == [] then 0 else 1)
  {
    var sentinel := if |ring| + |pending| > 0 then [Store(|ring|, Zero)] else [];
    Stores(ring, 0) + sentinel + Stores(pending, |ring|)
  }

  /** The clear as written stores past the end of its `l`-slot array
      exactly when the ring is non-empty and overflow is empty; otherwise
      every store is in bounds and the sentinel, if any, is overwritten by
      the first overflow entry. */
  lemma ClearStoresPastEnd(ring: seq<Msg>, pending: seq<Msg>)
    ensures var w := ClearStoresAsWritten(ring, pending);
            (exists j :: 0 <= j < |w| && w[j].slot >= |ring| + |pending|)
              <==> ring != [] && pending == []
  {
    var w := ClearStoresAsWritten(ring, pending);
    var l := |ring| + |pending|;
    var sentinel := if l > 0 then [Store(|ring|, Zero)] else [];
    assert w == Stores(ring, 0) + sentinel + Stores(pending, |ring|);
    if ring != [] && pending == [] {
      assert w[|ring|] == Store(|ring|, Zero);
    } else {
      forall j | 0 <= j < |w|
        ensures w[j].slot < l
      {
        if j < |ring| {
          assert w[j] == Stores(ring, 0)[j];
        } else if j < |ring| + |sentinel| {
          assert w[j] == Store(|ring|, Zero);
        } else {
          assert w[j] == Stores(pending, |ring|)[j - |ring| - |sentinel|];
        }
      }
    }
  }

  /** One input that shows it: a single message left in the ring. */
  lemma ClearStoresPastEndExample()
    ensures ClearStoresAsWritten([Msg(1, Buffer(0))], []) ==
              [Store(0, Msg(1, Buffer(0))), Store(1, Zero)]
  {
    assert Stores([Msg(1, Buffer(0))], 0) == [Store(0, Msg(1, Buffer(0)))];
  }
}
