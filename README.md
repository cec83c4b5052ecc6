# pearsync channel engine in Dafny

pearsync is a duplex message channel between a libuv event loop (the "uv"
side) and a worker thread (the "thread" side). Each direction is a
single-producer/single-consumer queue. It has a fixed ring of
`PEARSYNC_QUEUE` (1024) slots, which keeps one slot free. It also has a
growable circular overflow buffer that only the producer touches.

A status word per direction holds two bits:

- `RECEIVING` means the side has opened;
- `NEEDS_DRAIN` means the producer has messages waiting in overflow.

While `NEEDS_DRAIN` is set, every ordinary send goes to overflow. The
producer's own drain loop moves overflow entries into the ring, oldest first,
which keeps the order of the messages. Wakeups are coalesced:

- libuv's async is raised only when the ring goes from empty to non-empty;
- a sticky `signal_thread` flag remembers a signal for a thread side that is
  not there yet;
- a consumer that empties a ring while the producer has overflow pending
  pokes the producer.

Teardown hands every undelivered message to `on_close`, ring first and then
overflow.

The model is imperative, like the C code:

- **`Messages`** has `Msg` (`len` plus an opaque handle).
- **`Queues`** has the `Queue` class. It holds the ring `array`, the `head`
  and `tail` cursors, and the overflow `array` with its size and cursors. The
  ghost sequences `ring` and `pending` are its contents, oldest first.
- **`Channels`** has the `Channel` class. It holds the two queues, the two
  status words, `signal_thread`, and a `log` of every call made into libuv or
  into an embedder callback.
- **`AsWritten`** models two places where the C code departs from its evident
  intent (see "Findings").

Every public call is one atomic step. The two threads appear only as the
order of the calls.

The central invariant is `Channel.Valid`:

- both queues are consistent and share no storage;
- a queue with anything in overflow has `NEEDS_DRAIN` set in its producer's
  status.

Every operation keeps `Channel.Valid`. The contracts are stated over
`UvOutstanding()` and `ThreadOutstanding()`, which is ring then overflow in
each direction. In those terms:

- a send appends to that sequence;
- a successful receive removes its first element;
- drains and wakeups leave it unchanged;
- teardown hands it over whole.

That is the no-loss, FIFO property. For messages that pass through overflow
it holds with the corrected overflow growth (see "Findings"), not with
pearsync.c:97 as written.

Masks are modelled as follows:

- A cursor mask `x & (N - 1)` with `N` a power of two is written
  `x % N`. This is the Euclidean remainder, which is what two's-complement
  masking gives, negative differences included.
- The overflow mask when no storage exists is `-1` (all bits). The model
  writes that case out.
- A NULL overflow pointer is an empty array with `overflowSize == 0`.

Where `pearsync.h` and `pearsync.c` disagree, the model follows
`pearsync.c`:

- The header's `main_queue`, `main_status`, `is_main` and `wakeup_thread` are
  `uv_queue`, `uv_status`, `is_uv` and `signal_thread` in the code.
- The header's comments on `tail` and `head` (pearsync.h:23-24) are the wrong
  way round. Push advances `head` (pearsync.c:66) and shift advances `tail`
  (pearsync.c:53).

## Model

| member | source | states |
|---|---|---|
| Queues.CursorDistance | pearsync.c:117-118 | `(to - from) & (n - 1)` for two cursors below `n` is how far `to` is ahead of `from` in circular order, including when `to < from` |
| Queues.ModNegSmall | pearsync.c:117 | a negative cursor difference masked with `n - 1` wraps around exactly once |
| Queues.NextCursor | pearsync.c:53 | `(x + 1) & (n - 1)` is the next cursor, 0 after the last slot |
| Queues.WindowPush | pearsync.c:63-66 | storing at the write cursor and advancing it appends the message to the contents, provided the advanced cursor does not meet the read cursor |
| Queues.WindowSlice | pearsync.c:94-102 | contents that do not wrap are the plain slice from read to write cursor, so entries copied to slot 0 onward are in order |
| Queues.WindowFull | pearsync.c:59-61 | the storage is full (one slot kept free) exactly when the advanced write cursor equals the read cursor |
| Queues.Moved | pearsync.c:14 | the drain loop moves every overflow entry or exactly enough to fill the ring to `QUEUE - 1`, whichever is fewer |
| Queues.Queue.constructor | pearsync.c:27-36 | a fresh queue is valid with empty ring and no overflow storage |
| Queues.Queue.Reset | pearsync.c:27-36 | `pearsync_queue_init` empties the ring and drops the overflow (size, head and tail 0) |
| Queues.Queue.RingEmpty | pearsync.c:40 | `tail == head` exactly when the ring holds nothing |
| Queues.Queue.RingFull | pearsync.c:59-61 | `((head + 1) & MASK) == tail` exactly when the ring holds `QUEUE - 1` messages, its usable capacity |
| Queues.Queue.OverflowEmpty | pearsync.c:72 | `overflow_tail == overflow_head` exactly when overflow holds nothing |
| Queues.Queue.Length | pearsync.c:113-118 | the length formula of `pearsync_clear`, mask `-1` included when there is no overflow storage, is the number of messages in ring plus overflow |
| Queues.Queue.Push | pearsync.c:57-68 | it fails and changes nothing exactly when `((head + 1) & MASK) == tail`, i.e. when the ring holds `QUEUE - 1`; otherwise it appends the message |
| Queues.Queue.Shift | pearsync.c:38-55 | on an empty ring it fails and yields `{0, NULL}`; otherwise it yields the oldest message and removes it |
| Queues.Queue.OverflowShift | pearsync.c:70-80 | it fails, changing nothing, exactly when overflow is empty; otherwise it pops the oldest entry |
| Queues.CopyPending | pearsync.c:94-102 | the copy loop (old cursor advanced under the old mask) puts the old overflow contents, oldest first, into slots `0 .. count-1` of the new storage, `count` being their number |
| Queues.Queue.Grow | pearsync.c:86-105 | growth allocates `QUEUE` slots when there is no storage and twice the old size otherwise, keeps a power-of-two size, keeps the contents, and leaves tail 0 and head at the count |
| Queues.Queue.OverflowPush | pearsync.c:82-109 | it never fails, the contents become old contents followed by `m`, the size becomes `QUEUE` from 0 and doubles exactly when the storage was full, and stays a power of two |
| Queues.Queue.PushOrSpill | pearsync.c:262-270 | the message goes into exactly one buffer: the ring when a ring push is tried and succeeds, otherwise overflow |
| Queues.Queue.ShiftRingInto | pearsync.c:125-127 | the first clear loop copies the whole ring, oldest first, into the output from the given slot and empties the ring |
| Queues.Queue.ShiftOverflowInto | pearsync.c:129-131 | the second clear loop copies all of overflow, oldest first, after the ring entries and empties overflow |
| Queues.Queue.ReleaseOverflow | pearsync.c:133-139 | after clearing, overflow storage is released: size, head and tail 0 |
| Queues.Queue.Clear | pearsync.c:111-140 | `len` is ring length plus overflow length, the output array holds exactly `len` messages, ring entries first and then overflow entries, each oldest first, and the queue is left empty with overflow released |
| Channels.Word | pearsync.c:9-11 | the status word has bit `0b01` iff receiving and bit `0b10` iff draining, and is 0 iff neither |
| Channels.StatusUpdates | pearsync.c:9-19 | OR-ing in RECEIVING or NEEDS_DRAIN sets that bit and keeps the other; AND-ing with PEARSYNC_DRAINED clears NEEDS_DRAIN and keeps RECEIVING |
| Channels.Channel.constructor | pearsync.c:178-194 | after `pearsync_init` both directions are empty, both statuses are 0, `signal_thread` is false, nothing has been called, and the queues and their storage are new objects owned by this channel |
| Channels.Channel.GetPortUv | pearsync.c:196-200 | the uv port is returned iff the RECEIVING bit of the uv status word is set, NULL otherwise |
| Channels.Channel.GetPortThread | pearsync.c:217-221 | the thread port is returned iff the RECEIVING bit of the thread status word is set, NULL otherwise |
| Channels.Channel.OpenUv | pearsync.c:202-215 | it empties the uv side's outgoing queue, sets RECEIVING (keeping NEEDS_DRAIN), initialises the async, and raises it iff the thread side is already receiving |
| Channels.Channel.OpenThread | pearsync.c:223-236 | it empties the thread side's outgoing queue, sets RECEIVING (keeping NEEDS_DRAIN), and raises the async iff the uv side is already receiving |
| Channels.Channel.ThreadSend | pearsync.c:256-272 | the ring takes the message and true is returned iff (forced or NEEDS_DRAIN clear) and the ring has room; otherwise NEEDS_DRAIN is set and overflow takes it; the async is raised iff the push succeeded into an empty ring and `uv_status != 0` |
| Channels.Channel.UvSend | pearsync.c:274-295 | routing as for the thread side; after a ring push, unless the ring was non-empty with no sticky signal, the thread side is signalled and the sticky flag cleared if `thread_status != 0`, else the sticky flag is set |
| Channels.Channel.Send | pearsync.c:297-301 | a send appends the message to the end of its direction's outstanding messages. It returns true iff NEEDS_DRAIN was clear and the ring had room, and then the ring took it. Otherwise overflow took it and NEEDS_DRAIN is set. The other direction's queue and status are unchanged, and the send-side wakeups are exactly those of the uv or thread send |
| Channels.Channel.RecvUv | pearsync.c:303-315 | it succeeds iff the thread-to-uv ring is non-empty and then takes the oldest outstanding message; it signals the thread side (clearing the sticky flag) iff NEEDS_DRAIN is set, the shift succeeded and the ring is now empty |
| Channels.Channel.RecvThread | pearsync.c:317-328 | it succeeds iff the uv-to-thread ring is non-empty and then takes the oldest outstanding message; it raises the async iff NEEDS_DRAIN is set, the shift succeeded and the ring is now empty |
| Channels.Channel.Recv | pearsync.c:330-334 | a receive on a port takes the oldest message sent by the other side, or yields `{0, NULL}` when there is none. It notifies the producer exactly as the uv or thread receive does, and a failed receive notifies nobody |
| Channels.Channel.ThreadDrainStep | pearsync.c:15-18 | one drain pass on the thread queue moves the oldest overflow entry to the end of the ring, clears NEEDS_DRAIN if overflow is now empty, and raises the async iff the ring was empty and `uv_status != 0` |
| Channels.Channel.DrainThreadOverflow | pearsync.c:13-19 | the drain moves the first `Moved(...)` overflow entries, in order, to the end of the ring. It leaves the outstanding sequence and the overflow storage unchanged, clears only NEEDS_DRAIN iff overflow became empty, and raises the async at most once |
| Channels.Channel.UvDrainStep | pearsync.c:15-18 | one drain pass on the uv queue moves the oldest overflow entry to the ring with the uv send's signalling |
| Channels.Channel.DrainUvOverflow | pearsync.c:13-19 | as for the thread side, with the overflow storage unchanged; the thread side is signalled at most once, iff an entry moved into an empty ring or the sticky flag was set, and `thread_status != 0` |
| Channels.Channel.OnWakeupUv | pearsync.c:142-157 | it calls `on_wakeup_uv` iff the thread-to-uv ring is non-empty, drains the uv side's overflow, signals the thread side exactly once iff the sticky flag was set or the drain put entries into an empty ring, and leaves the sticky flag clear |
| Channels.Channel.Wakeup | pearsync.c:238-254 | on the uv port it acts as the async callback. On the thread port it calls `on_wakeup_thread` iff the uv-to-thread ring is non-empty, then drains the thread side's overflow. Either way the drained side's NEEDS_DRAIN is cleared, keeping RECEIVING, exactly when its overflow became empty; overflow storage and outstanding messages are unchanged |
| Channels.Channel.OnClose | pearsync.c:159-176 | both queues end empty with overflow released, and `on_close`, if set, receives the uv direction's and then the thread direction's outstanding messages with their counts, ring before overflow |
| Channels.Channel.Destroy | pearsync.c:336-342 | `on_close` is recorded; when `uv_status == 0` the teardown runs at once, otherwise `uv_close` is requested and nothing is delivered yet |
| Channels.TwoMessagesInOrder | pearsync.c:178-334 | after init and both opens, two messages sent from the thread side are received on the uv side in send order, and a third receive fails with `{0, NULL}` |
| Channels.Channel.CloseCompleted | pearsync.c:341 | the close completion, possible only after that request, runs the teardown once and clears the pending close |
| AsWritten.GrowReadsAsWritten | pearsync.c:94-99 | the copy loop as written reads one slot per step from the old tail and stops at the old head, advancing under the new mask |
| AsWritten.GrowReadsAscend | pearsync.c:97 | under the new mask the cursor climbs one slot at a time up to the end of the new storage |
| AsWritten.GrowReadsUnwrapped | pearsync.c:94-102 | with `tail <= head`, the loop as written reads exactly the occupied old slots in order, so growth is sound there |
| AsWritten.GrowReadsPastOldStorage | pearsync.c:86-108 | with full, wrapped storage (`tail == head + 1`), the loop reads slot `size` past the old array, copies `2*size - 1` entries, and the following push puts head on tail, so overflow reads as empty |
| AsWritten.GrowReadsPastOldStorageExample | pearsync.c:97 | doubling 1024 slots with tail 1 and head 0 reads old slot 1024 |
| AsWritten.Stores | pearsync.c:125-131 | the stores of a copy loop hit consecutive slots with the messages in order |
| AsWritten.ClearStoresAsWritten | pearsync.c:120-131 | the clear as written makes one store per message plus the sentinel store of the failed ring shift whenever the array exists |
| AsWritten.ClearStoresPastEnd | pearsync.c:41-44 | the clear as written stores past the end of its `l`-slot array iff the ring is non-empty and overflow is empty |
| AsWritten.ClearStoresPastEndExample | pearsync.c:125 | with one message in the ring and none in overflow, the second store goes to slot 1 of a 1-slot array |

## Left out

- libuv is not called. `uv_async_init`, `uv_async_send` and `uv_close` are recorded
  as `AsyncInit`, `AsyncSend` and `AsyncClose` in `log`. The close completion
  is the separate step `CloseCompleted`. `uv_loop_t` is not modelled.
- The embedder callbacks `on_wakeup_uv`, `on_wakeup_thread`, `on_signal_thread`
  and `on_close` are only recorded as log events, `Closed` with its arguments.
  Their pointers are not stored, so the model does not track whether a
  callback has been installed before it is called.
- Atomics, memory ordering and real two-thread interleaving are not modelled
  (`atomic_int` in pearsync.h). Each operation is one sequential step.
- `malloc` and `free` are not modelled. Growth and clear allocate fresh arrays,
  allocation never fails, and the old overflow storage and the arrays handed
  to `on_close` are left to the garbage collector. `Queues.Queue.Reset`, like
  `pearsync_queue_init`, drops the old overflow storage without freeing it.
- Message payloads are not modelled. A message is a length and an opaque
  handle.
- Ports are modelled by their `is_uv` flag only. Their `handle` is always the
  channel, and their `data` field (NULL after init) is never used by the
  engine.
- The drain loop's uninitialised `tmp` is modelled as the sentinel `Zero`. The
  shift always overwrites it.
- Queues.Queue.OverflowPush: the size is unbounded, so it does not model
  `overflow_size *= 2` overflowing `int`. Starting from 1024 = 2^10 slots, the
  21st doubling reaches 2^31, which a 32-bit `int` cannot hold.
- Queues.Queue.OverflowPush: "old contents followed by `m`" relies on the
  corrected copy in `Queues.CopyPending`. As written, pearsync.c:97 loses the
  contents when full storage wraps (`AsWritten.GrowReadsPastOldStorage`).
- Queues.Queue.Grow: "keeps the contents" relies on the corrected copy in
  `Queues.CopyPending`. It does not hold for pearsync.c:86-105 as written when
  full storage wraps.
- Queues.Queue.PushOrSpill, Channels.Channel.ThreadSend, Channels.Channel.UvSend
  and Channels.Channel.Send: when a message spills, the promise that it joins
  the end of overflow rests on the same corrected growth.
- Queues.CopyPending: it advances the old cursor under the old mask, so it
  models the evident intent of pearsync.c:97 rather than the code. The code as
  written is in `AsWritten` (see "Findings").
- Queues.Queue.Clear: it does not make the out-of-bounds sentinel store of the
  code as written. That store is modelled in `AsWritten` (see "Findings").
- `pearsync.h` has declarations only, and `example.c` is a demo program. Neither
  is part of this model beyond the `PEARSYNC_QUEUE` constant.

## Findings

| source | as written | input that shows it | evidently intended | confidence | as-written member | corrected member |
|---|---|---|---|---|---|---|
| pearsync.c:97 | on growth the old read cursor is advanced with the new, doubled mask | overflow of 1024 slots holding slots 1..1023 (tail 1, head 0) when the next overflow push grows it | advance the old cursor with the old mask, copying the 1023 entries in order | not executed | AsWritten.GrowReadsPastOldStorage | Queues.CopyPending |
| pearsync.c:125 | the failed `pearsync_queue_shift` that ends the ring loop stores `{0, NULL}` through `m`, which then points one past the messages already stored | one message in the ring and none in overflow: `l` is 1 and slot 1 is written | store only the `l` messages into the `l`-slot array | not executed | AsWritten.ClearStoresPastEnd | Queues.Queue.Clear |
