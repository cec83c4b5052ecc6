/** A pearsync channel (pearsync.c:142-342): a duplex pair of queues between
    the libuv loop side ("uv") and a worker thread side ("thread"). Every
    public call is one atomic step; the two threads appear only as the
    interleaving of calls. Calls into libuv and into the embedder's
    callbacks are recorded, in order, in `log`. */
module Channels {
  import opened Messages
  import opened Queues

  /** A per-direction status word (pearsync.c:9-11), held as its two bits.
      `Word` gives the C value. */
  datatype Status = Status(receiving: bool, needsDrain: bool)

  const RECEIVING: bv2 := 1     // PEARSYNC_RECEIVING
  const NEEDS_DRAIN: bv2 := 2   // PEARSYNC_NEEDS_DRAIN
  const DRAINED: bv2 := 1       // PEARSYNC_DRAINED

  /** The status word 0. */
  const Idle := Status(false, false)

  function Word(s: Status): (w: bv2)
    ensures (w & RECEIVING != 0) == s.receiving
    ensures (w & NEEDS_DRAIN != 0) == s.needsDrain
    ensures w == 0 <==> s == Idle
  {
    (if s.receiving then RECEIVING else 0) | (if s.needsDrain then NEEDS_DRAIN else 0)
  }

  /** `status |= PEARSYNC_RECEIVING` */
  function MarkReceiving(s: Status): Status
  {
    s.(receiving := true)
  }

  /** `status |= PEARSYNC_NEEDS_DRAIN` */
  function MarkNeedsDrain(s: Status): Status
  {
    s.(needsDrain := true)
  }

  /** `status &= PEARSYNC_DRAINED` */
  function Drained(s: Status): Status
  {
    s.(needsDrain := false)
  }

  /** The three updates are the C bit operations on the status word: the two
      `|=` set their bit and keep the other, and `&= PEARSYNC_DRAINED`
      clears NEEDS_DRAIN and keeps RECEIVING. */
  lemma StatusUpdates(s: Status)
    ensures Word(MarkReceiving(s)) == Word(s) | RECEIVING
    ensures Word(MarkNeedsDrain(s)) == Word(s) | NEEDS_DRAIN
    ensures Word(Drained(s)) == Word(s) & DRAINED
    ensures Drained(s).receiving == s.receiving && !Drained(s).needsDrain
  {
  }

  /** pearsync_port_t, identified by its `is_uv` flag; its `handle` is
      always the channel it came from. */
  datatype Port = UvPort | ThreadPort

  datatype Option<T> = None | Some(value: T)

  /** Calls out of the channel, in the order they are made. */
  datatype Event =
    | AsyncInit      // uv_async_init with pearsync_on_wakeup_uv
    | AsyncSend      // uv_async_send: the loop side will run pearsync_on_wakeup_uv
    | AsyncClose     // uv_close with pearsync_on_close
    | WakeupUv       // the on_wakeup_uv callback, given the uv port
    | WakeupThread   // the on_wakeup_thread callback, given the thread port
    | SignalThread   // the on_signal_thread callback, given the thread port
    | Closed(uvLen: nat, uvMsgs: seq<Msg>, threadLen: nat, threadMsgs: seq<Msg>)
                     // the on_close callback with both directions' leftovers

  /** pearsync_t. `uvQueue` carries messages sent from the uv side to the
      thread side; `threadQueue` those sent from the thread side to the uv
      side. */
  class Channel {
    const uvQueue: Queue
    const threadQueue: Queue
    var uvStatus: Status
    var threadStatus: Status
    var signalThread: bool
    var hasOnClose: bool   // on_close is not NULL
    var closing: bool      // uv_close was called and has not completed
    var log: seq<Event>

    /** Both queues are consistent and share no storage, and a queue with
        overflow entries has NEEDS_DRAIN set in its producer's status. */
    ghost predicate Valid()
      reads this, uvQueue, threadQueue, uvQueue.buffer, uvQueue.overflow,
            threadQueue.buffer, threadQueue.overflow
    {
      QueuesValid() && DrainInvariant()
    }

    ghost predicate QueuesValid()
      reads uvQueue, threadQueue, uvQueue.buffer, uvQueue.overflow,
            threadQueue.buffer, threadQueue.overflow
    {
      && uvQueue != threadQueue
      && uvQueue.buffer != threadQueue.buffer && uvQueue.buffer != threadQueue.overflow
      && uvQueue.overflow != threadQueue.buffer && uvQueue.overflow != threadQueue.overflow
      && uvQueue.Valid() && threadQueue.Valid()
    }

    /** While overflow holds anything, every non-forced send of that side
        goes to overflow too, which keeps the order of ring then overflow. */
    ghost predicate DrainInvariant()
      reads this`uvStatus, this`threadStatus, uvQueue`pending, threadQueue`pending
    {
      && (uvQueue.pending != [] ==> uvStatus.needsDrain)
      && (threadQueue.pending != [] ==> threadStatus.needsDrain)
    }

    /** The messages sent by the uv side and not yet received by the thread
        side, oldest first. */
    ghost function UvOutstanding(): seq<Msg>
      reads this, uvQueue
    {
      uvQueue.ring + uvQueue.pending
    }

    /** The messages sent by the thread side and not yet received by the uv
        side, oldest first. */
    ghost function ThreadOutstanding(): seq<Msg>
      reads this, threadQueue
    {
      threadQueue.ring + threadQueue.pending
    }

    /** pearsync_init: both queues empty, both statuses 0, no sticky
        signal. */
    constructor ()
      ensures Valid()
      ensures fresh(uvQueue) && fresh(threadQueue)
      ensures fresh(uvQueue.buffer) && fresh(uvQueue.overflow)
      ensures fresh(threadQueue.buffer) && fresh(threadQueue.overflow)
      ensures UvOutstanding() == [] && ThreadOutstanding() == []
      ensures uvStatus == Idle && threadStatus == Idle && !signalThread
      ensures !hasOnClose && !closing && log == []
    {
      uvQueue := new Queue();
      threadQueue := new Queue();
      uvStatus, threadStatus := Idle, Idle;
      signalThread := false;
      hasOnClose, closing := false, false;
      log := [];
    }

    /** pearsync_get_port_uv: the uv port once the uv side is receiving,
        NULL before. */
    function GetPortUv(): (r: Option<Port>)
      reads this
      ensures r != None <==> Word(uvStatus) & RECEIVING != 0
      ensures r != None ==> r.value == UvPort
    {
      if !uvStatus.receiving then None else Some(UvPort)
    }

    /** pearsync_get_port_thread: the thread port once the thread side is
        receiving, NULL before. */
    function GetPortThread(): (r: Option<Port>)
      reads this
      ensures r != None <==> Word(threadStatus) & RECEIVING != 0
      ensures r != None ==> r.value == ThreadPort
    {
      if !threadStatus.receiving then None else Some(ThreadPort)
    }

    /** pearsync_open_uv: resets the uv side's outgoing queue, initialises
        the async handle, starts receiving, and raises the async when the
        thread side is already receiving. */
    method OpenUv() returns (port: Port)
      requires Valid()
      modifies uvQueue`head, uvQueue`tail, uvQueue`ring, uvQueue`overflow,
               uvQueue`overflowSize, uvQueue`overflowHead, uvQueue`overflowTail,
               uvQueue`pending, this`uvStatus, this`log
      ensures Valid() && port == UvPort
      ensures UvOutstanding() == [] && fresh(uvQueue.overflow)
      ensures uvStatus == MarkReceiving(old(uvStatus))
      ensures log == old(log) + [AsyncInit] + (if threadStatus.receiving then [AsyncSend] else [])
    {
      uvQueue.Reset();
      log := log + [AsyncInit];
      uvStatus := MarkReceiving(uvStatus);
      if threadStatus.receiving {
        log := log + [AsyncSend];
      }
      port := UvPort;
    }

    /** pearsync_open_thread: resets the thread side's outgoing queue,
        starts receiving, and raises the async when the uv side is already
        receiving. */
    method OpenThread() returns (port: Port)
      requires Valid()
      modifies threadQueue`head, threadQueue`tail, threadQueue`ring, threadQueue`overflow,
               threadQueue`overflowSize, threadQueue`overflowHead, threadQueue`overflowTail,
               threadQueue`pending, this`threadStatus, this`log
      ensures Valid() && port == ThreadPort
      ensures ThreadOutstanding() == [] && fresh(threadQueue.overflow)
      ensures threadStatus == MarkReceiving(old(threadStatus))
      ensures log == old(log) + (if uvStatus.receiving then [AsyncSend] else [])
    {
      threadQueue.Reset();
      threadStatus := MarkReceiving(threadStatus);
      if uvStatus.receiving {
        log := log + [AsyncSend];
      }
      port := ThreadPort;
    }

    /** pearsync_thread_send: into the ring when forced or not draining and
        the ring has room, raising the async on an empty-to-non-empty ring
        once the uv side exists; otherwise marks the queue as needing a
        drain and appends to overflow. */
    method ThreadSend(m: Msg, force: bool) returns (ok: bool)
      requires Valid()
      modifies threadQueue`head, threadQueue`ring, threadQueue.buffer,
               threadQueue`overflow, threadQueue`overflowSize, threadQueue`overflowHead,
               threadQueue`overflowTail, threadQueue`pending, threadQueue.overflow,
               this`threadStatus, this`log
      ensures Valid()
      ensures ok <==> (force || !old(threadStatus).needsDrain) && |old(threadQueue.ring)| < QUEUE - 1
      ensures ok ==> && threadQueue.ring == old(threadQueue.ring) + [m]
                     && threadQueue.pending == old(threadQueue.pending)
                     && threadQueue.overflow == old(threadQueue.overflow)
                     && threadStatus == old(threadStatus)
      ensures !ok ==> && threadQueue.ring == old(threadQueue.ring)
                      && threadQueue.pending == old(threadQueue.pending) + [m]
                      && threadStatus == MarkNeedsDrain(old(threadStatus))
                      && (threadQueue.overflow == old(threadQueue.overflow) || fresh(threadQueue.overflow))
      ensures log == old(log) + (if ok && old(threadQueue.ring) == [] && uvStatus != Idle then [AsyncSend] else [])
    {
      var wasEmpty := threadQueue.RingEmpty();
      ok := threadQueue.PushOrSpill(m, force || !threadStatus.needsDrain);
      if ok {
        if wasEmpty && uvStatus != Idle {
          log := log + [AsyncSend];
        }
      } else {
        threadStatus := MarkNeedsDrain(threadStatus);
      }
    }

    /** pearsync_uv_send: into the ring when forced or not draining and the
        ring has room. Unless the ring was non-empty with no sticky signal,
        it then signals the thread side if that side exists, clearing the
        sticky signal, or else sets the sticky signal. Otherwise marks the
        queue as needing a drain and appends to overflow. */
    method UvSend(m: Msg, force: bool) returns (ok: bool)
      requires Valid()
      modifies uvQueue`head, uvQueue`ring, uvQueue.buffer,
               uvQueue`overflow, uvQueue`overflowSize, uvQueue`overflowHead,
               uvQueue`overflowTail, uvQueue`pending, uvQueue.overflow,
               this`uvStatus, this`signalThread, this`log
      ensures Valid()
      ensures ok <==> (force || !old(uvStatus).needsDrain) && |old(uvQueue.ring)| < QUEUE - 1
      ensures ok ==> && uvQueue.ring == old(uvQueue.ring) + [m]
                     && uvQueue.pending == old(uvQueue.pending)
                     && uvQueue.overflow == old(uvQueue.overflow)
                     && uvStatus == old(uvStatus)
      ensures !ok ==> && uvQueue.ring == old(uvQueue.ring)
                      && uvQueue.pending == old(uvQueue.pending) + [m]
                      && uvStatus == MarkNeedsDrain(old(uvStatus))
                      && (uvQueue.overflow == old(uvQueue.overflow) || fresh(uvQueue.overflow))
      ensures var notify := ok && (old(uvQueue.ring) == [] || old(signalThread));
              && signalThread == (if notify then threadStatus == Idle else old(signalThread))
              && log == old(log) + (if notify && threadStatus != Idle then [SignalThread] else [])
    {
      var skipSignal := !uvQueue.RingEmpty() && !signalThread;
      ok := uvQueue.PushOrSpill(m, force || !uvStatus.needsDrain);
      if !ok {
        uvStatus := MarkNeedsDrain(uvStatus);
      } else if !skipSignal {
        if threadStatus != Idle {
          signalThread := false;
          log := log + [SignalThread];
        } else {
          signalThread := true;
        }
      }
    }

    /** pearsync_send: a non-forced send from the port's side. No message
        is lost or reordered: it joins the end of that direction's
        outstanding messages, whichever buffer takes it. */
    method Send(port: Port, m: Msg) returns (ok: bool)
      requires Valid()
      modifies uvQueue`head, uvQueue`ring, uvQueue.buffer,
               uvQueue`overflow, uvQueue`overflowSize, uvQueue`overflowHead,
               uvQueue`overflowTail, uvQueue`pending, uvQueue.overflow,
               threadQueue`head, threadQueue`ring, threadQueue.buffer,
               threadQueue`overflow, threadQueue`overflowSize, threadQueue`overflowHead,
               threadQueue`overflowTail, threadQueue`pending, threadQueue.overflow,
               this`uvStatus, this`threadStatus, this`signalThread, this`log
      ensures Valid()
      ensures port == UvPort ==>
                && UvOutstanding() == old(UvOutstanding()) + [m]
                && (ok <==> !old(uvStatus).needsDrain && |old(uvQueue.ring)| < QUEUE - 1)
                && (ok ==> && uvQueue.ring == old(uvQueue.ring) + [m]
                           && uvQueue.pending == old(uvQueue.pending)
                           && uvQueue.overflow == old(uvQueue.overflow)
                           && uvStatus == old(uvStatus))
                && (!ok ==> && uvQueue.ring == old(uvQueue.ring)
                            && uvQueue.pending == old(uvQueue.pending) + [m]
                            && uvStatus == MarkNeedsDrain(old(uvStatus)))
                && (uvQueue.overflow == old(uvQueue.overflow) || fresh(uvQueue.overflow))
                && threadQueue.ring == old(threadQueue.ring)
                && threadQueue.pending == old(threadQueue.pending)
                && threadQueue.overflow == old(threadQueue.overflow)
                && threadStatus == old(threadStatus)
                && var notify := ok && (old(uvQueue.ring) == [] || old(signalThread));
                   && signalThread == (if notify then threadStatus == Idle else old(signalThread))
                   && log == old(log) + (if notify && threadStatus != Idle then [SignalThread] else [])
      ensures port == ThreadPort ==>
                && ThreadOutstanding() == old(ThreadOutstanding()) + [m]
                && (ok <==> !old(threadStatus).needsDrain && |old(threadQueue.ring)| < QUEUE - 1)
                && (ok ==> && threadQueue.ring == old(threadQueue.ring) + [m]
                           && threadQueue.pending == old(threadQueue.pending)
                           && threadQueue.overflow == old(threadQueue.overflow)
                           && threadStatus == old(threadStatus))
                && (!ok ==> && threadQueue.ring == old(threadQueue.ring)
                            && threadQueue.pending == old(threadQueue.pending) + [m]
                            && threadStatus == MarkNeedsDrain(old(threadStatus)))
                && (threadQueue.overflow == old(threadQueue.overflow) || fresh(threadQueue.overflow))
                && uvQueue.ring == old(uvQueue.ring)
                && uvQueue.pending == old(uvQueue.pending)
                && uvQueue.overflow == old(uvQueue.overflow)
                && uvStatus == old(uvStatus) && signalThread == old(signalThread)
                && log == old(log) + (if ok && old(threadQueue.ring) == [] && uvStatus != Idle then [AsyncSend] else [])
    {
      if port == UvPort {
        ok := UvSend(m, false);
      } else {
        ok := ThreadSend(m, false);
      }
    }

    /** pearsync_recv_uv: the uv side takes the oldest message the thread
        side sent. When that empties the ring while the thread side's queue
        needs a drain, the thread side is signalled, which clears the sticky
        signal. */
    method RecvUv() returns (ok: bool, m: Msg)
      requires Valid()
      modifies threadQueue`tail, threadQueue`ring, this`signalThread, this`log
      ensures Valid()
      ensures ok <==> old(threadQueue.ring) != []
      ensures ok ==> m == old(ThreadOutstanding())[0] && ThreadOutstanding() == old(ThreadOutstanding())[1..]
      ensures !ok ==> m == Zero && ThreadOutstanding() == old(ThreadOutstanding())
      ensures var poke := ok && threadStatus.needsDrain && threadQueue.ring == [];
              && signalThread == (if poke then false else old(signalThread))
              && log == old(log) + (if poke then [SignalThread] else [])
    {
      if !threadQueue.RingEmpty() {
        PopFront(threadQueue.ring, threadQueue.pending);
      }
      ok, m := threadQueue.Shift();
      if threadStatus.needsDrain && ok && threadQueue.RingEmpty() {
        signalThread := false;
        log := log + [SignalThread];
      }
    }

    /** pearsync_recv_thread: the thread side takes the oldest message the
        uv side sent. When that empties the ring while the uv side's queue
        needs a drain, the async is raised. */
    method RecvThread() returns (ok: bool, m: Msg)
      requires Valid()
      modifies uvQueue`tail, uvQueue`ring, this`log
      ensures Valid()
      ensures ok <==> old(uvQueue.ring) != []
      ensures ok ==> m == old(UvOutstanding())[0] && UvOutstanding() == old(UvOutstanding())[1..]
      ensures !ok ==> m == Zero && UvOutstanding() == old(UvOutstanding())
      ensures var poke := ok && uvStatus.needsDrain && uvQueue.ring == [];
              log == old(log) + (if poke then [AsyncSend] else [])
    {
      if !uvQueue.RingEmpty() {
        PopFront(uvQueue.ring, uvQueue.pending);
      }
      ok, m := uvQueue.Shift();
      if uvStatus.needsDrain && ok && uvQueue.RingEmpty() {
        log := log + [AsyncSend];
      }
    }

    /** pearsync_recv: a receive on the port's side. */
    method Recv(port: Port) returns (ok: bool, m: Msg)
      requires Valid()
      modifies uvQueue`tail, uvQueue`ring, threadQueue`tail, threadQueue`ring,
               this`signalThread, this`log
      ensures Valid()
      ensures port == UvPort ==>
                && (ok <==> old(threadQueue.ring) != [])
                && (ok ==> m == old(ThreadOutstanding())[0] && ThreadOutstanding() == old(ThreadOutstanding())[1..])
                && (!ok ==> m == Zero && ThreadOutstanding() == old(ThreadOutstanding()))
                && uvQueue.ring == old(uvQueue.ring)
                && var poke := ok && threadStatus.needsDrain && threadQueue.ring == [];
                   && signalThread == (if poke then false else old(signalThread))
                   && log == old(log) + (if poke then [SignalThread] else [])
      ensures port == ThreadPort ==>
                && (ok <==> old(uvQueue.ring) != [])
                && (ok ==> m == old(UvOutstanding())[0] && UvOutstanding() == old(UvOutstanding())[1..])
                && (!ok ==> m == Zero && UvOutstanding() == old(UvOutstanding()))
                && threadQueue.ring == old(threadQueue.ring)
                && signalThread == old(signalThread)
                && log == old(log) + (if ok && uvStatus.needsDrain && uvQueue.ring == [] then [AsyncSend] else [])
      ensures !ok ==> log == old(log) && signalThread == old(signalThread)
    {
      if port == UvPort {
        ok, m := RecvUv();
      } else {
        ok, m := RecvThread();
      }
    }

    /** One pass of the PEARSYNC_DRAIN_OVERFLOW body (pearsync.c:15-18) on
        the thread side's queue: pops the oldest overflow entry, hands it to
        a forced thread send, and clears NEEDS_DRAIN if overflow is now
        empty. */
    method ThreadDrainStep()
      requires Valid() && threadQueue.pending != [] && |threadQueue.ring| < QUEUE - 1
      modifies threadQueue`head, threadQueue`ring, threadQueue.buffer,
               threadQueue`overflow, threadQueue`overflowSize, threadQueue`overflowHead,
               threadQueue`overflowTail, threadQueue`pending, threadQueue.overflow,
               this`threadStatus, this`log
      ensures Valid() && threadQueue.overflow == old(threadQueue.overflow)
      ensures threadQueue.ring == old(threadQueue.ring) + [old(threadQueue.pending)[0]]
      ensures threadQueue.pending == old(threadQueue.pending)[1..]
      ensures threadStatus == if threadQueue.pending == [] then Drained(old(threadStatus)) else old(threadStatus)
      ensures log == old(log) + (if old(threadQueue.ring) == [] && uvStatus != Idle then [AsyncSend] else [])
    {
      var _, tmp := threadQueue.OverflowShift(Zero);
      var _ := ThreadSend(tmp, true);
      if threadQueue.OverflowEmpty() {
        threadStatus := Drained(threadStatus);
      }
    }

    /** PEARSYNC_DRAIN_OVERFLOW on the thread side's queue (pearsync.c:253):
        while overflow is non-empty and the ring has room, moves the oldest
        overflow entry into the ring; clears NEEDS_DRAIN, and only that bit,
        once overflow is empty. */
    method DrainThreadOverflow()
      requires Valid()
      modifies threadQueue`head, threadQueue`ring, threadQueue.buffer,
               threadQueue`overflow, threadQueue`overflowSize, threadQueue`overflowHead,
               threadQueue`overflowTail, threadQueue`pending, threadQueue.overflow,
               this`threadStatus, this`log
      ensures Valid() && threadQueue.overflow == old(threadQueue.overflow)
      ensures ThreadOutstanding() == old(ThreadOutstanding())
      ensures var k := Moved(|old(threadQueue.ring)|, |old(threadQueue.pending)|);
              && threadQueue.ring == old(threadQueue.ring) + old(threadQueue.pending)[..k]
              && threadQueue.pending == old(threadQueue.pending)[k..]
              && log == old(log) + (if k > 0 && old(threadQueue.ring) == [] && uvStatus != Idle then [AsyncSend] else [])
      ensures threadStatus ==
                if old(threadQueue.pending) != [] && threadQueue.pending == []
                then Drained(old(threadStatus)) else old(threadStatus)
    {
      ghost var ring0, pending0, status0 := threadQueue.ring, threadQueue.pending, threadStatus;
      ghost var k := Moved(|ring0|, |pending0|);
      var i: nat := 0;
      while !threadQueue.OverflowEmpty() && !threadQueue.RingFull()
        invariant Valid() && threadQueue.overflow == old(threadQueue.overflow)
        invariant i <= k && i <= |pending0|
        invariant threadQueue.ring == ring0 + pending0[..i] && threadQueue.pending == pending0[i..]
        invariant threadStatus == if i > 0 && i == |pending0| then Drained(status0) else status0
        invariant log == old(log) + (if i > 0 && ring0 == [] && uvStatus != Idle then [AsyncSend] else [])
        decreases |threadQueue.pending|
      {
        MoveOne(ring0, pending0, i);
        ThreadDrainStep();
        i := i + 1;
      }
      MoveFront(ring0, pending0, i);
    }

    /** One pass of the PEARSYNC_DRAIN_OVERFLOW body on the uv side's queue,
        with a forced uv send. */
    method UvDrainStep()
      requires Valid() && uvQueue.pending != [] && |uvQueue.ring| < QUEUE - 1
      modifies uvQueue`head, uvQueue`ring, uvQueue.buffer,
               uvQueue`overflow, uvQueue`overflowSize, uvQueue`overflowHead,
               uvQueue`overflowTail, uvQueue`pending, uvQueue.overflow,
               this`uvStatus, this`signalThread, this`log
      ensures Valid() && uvQueue.overflow == old(uvQueue.overflow)
      ensures uvQueue.ring == old(uvQueue.ring) + [old(uvQueue.pending)[0]]
      ensures uvQueue.pending == old(uvQueue.pending)[1..]
      ensures uvStatus == if uvQueue.pending == [] then Drained(old(uvStatus)) else old(uvStatus)
      ensures var notify := old(uvQueue.ring) == [] || old(signalThread);
              && signalThread == (if notify then threadStatus == Idle else old(signalThread))
              && log == old(log) + (if notify && threadStatus != Idle then [SignalThread] else [])
    {
      var _, tmp := uvQueue.OverflowShift(Zero);
      var _ := UvSend(tmp, true);
      if uvQueue.OverflowEmpty() {
        uvStatus := Drained(uvStatus);
      }
    }

    /** PEARSYNC_DRAIN_OVERFLOW on the uv side's queue (pearsync.c:151).
        The first moved entry notifies as a uv send would; later ones find
        the ring non-empty, so at most one on_signal_thread call results. */
    method DrainUvOverflow()
      requires Valid()
      modifies uvQueue`head, uvQueue`ring, uvQueue.buffer,
               uvQueue`overflow, uvQueue`overflowSize, uvQueue`overflowHead,
               uvQueue`overflowTail, uvQueue`pending, uvQueue.overflow,
               this`uvStatus, this`signalThread, this`log
      ensures Valid() && uvQueue.overflow == old(uvQueue.overflow)
      ensures UvOutstanding() == old(UvOutstanding())
      ensures var k := Moved(|old(uvQueue.ring)|, |old(uvQueue.pending)|);
              && uvQueue.ring == old(uvQueue.ring) + old(uvQueue.pending)[..k]
              && uvQueue.pending == old(uvQueue.pending)[k..]
      ensures uvStatus ==
                if old(uvQueue.pending) != [] && uvQueue.pending == []
                then Drained(old(uvStatus)) else old(uvStatus)
      ensures var trig := Moved(|old(uvQueue.ring)|, |old(uvQueue.pending)|) > 0
                          && (old(uvQueue.ring) == [] || old(signalThread));
              && signalThread == (if trig then threadStatus == Idle else old(signalThread))
              && log == old(log) + (if trig && threadStatus != Idle then [SignalThread] else [])
    {
      ghost var ring0, pending0, status0, signal0 := uvQueue.ring, uvQueue.pending, uvStatus, signalThread;
      ghost var k := Moved(|ring0|, |pending0|);
      var i: nat := 0;
      while !uvQueue.OverflowEmpty() && !uvQueue.RingFull()
        invariant Valid() && uvQueue.overflow == old(uvQueue.overflow)
        invariant i <= k && i <= |pending0|
        invariant uvQueue.ring == ring0 + pending0[..i] && uvQueue.pending == pending0[i..]
        invariant uvStatus == if i > 0 && i == |pending0| then Drained(status0) else status0
        invariant signalThread == (if i > 0 && (ring0 == [] || signal0) then threadStatus == Idle else signal0)
        invariant log == old(log) + (if i > 0 && (ring0 == [] || signal0) && threadStatus != Idle then [SignalThread] else [])
        decreases |uvQueue.pending|
      {
        MoveOne(ring0, pending0, i);
        UvDrainStep();
        i := i + 1;
      }
      MoveFront(ring0, pending0, i);
    }

    /** pearsync_on_wakeup_uv, the async callback on the loop side: reports
        waiting thread-side messages to the uv side, drains the uv side's
        overflow, then honours and clears the sticky signal. However often
        the drain notifies, the thread side is signalled at most once. */
    method OnWakeupUv()
      requires Valid()
      modifies uvQueue`head, uvQueue`ring, uvQueue.buffer,
               uvQueue`overflow, uvQueue`overflowSize, uvQueue`overflowHead,
               uvQueue`overflowTail, uvQueue`pending, uvQueue.overflow,
               this`uvStatus, this`signalThread, this`log
      ensures Valid() && uvQueue.overflow == old(uvQueue.overflow)
      ensures UvOutstanding() == old(UvOutstanding())
      ensures var k := Moved(|old(uvQueue.ring)|, |old(uvQueue.pending)|);
              && uvQueue.ring == old(uvQueue.ring) + old(uvQueue.pending)[..k]
              && uvQueue.pending == old(uvQueue.pending)[k..]
              && log == old(log)
                        + (if threadQueue.ring != [] then [WakeupUv] else [])
                        + (if old(signalThread) || (k > 0 && old(uvQueue.ring) == []) then [SignalThread] else [])
      ensures uvStatus ==
                if old(uvQueue.pending) != [] && uvQueue.pending == []
                then Drained(old(uvStatus)) else old(uvStatus)
      ensures !signalThread
    {
      if !threadQueue.RingEmpty() {
        log := log + [WakeupUv];
      }
      DrainUvOverflow();
      if signalThread {
        signalThread := false;
        log := log + [SignalThread];
      }
    }

    /** pearsync_wakeup: on the uv port, the loop-side handler; on the
        thread port, reports waiting uv-side messages to the thread side and
        drains the thread side's overflow. */
    method Wakeup(port: Port)
      requires Valid()
      modifies uvQueue`head, uvQueue`ring, uvQueue.buffer,
               uvQueue`overflow, uvQueue`overflowSize, uvQueue`overflowHead,
               uvQueue`overflowTail, uvQueue`pending, uvQueue.overflow,
               threadQueue`head, threadQueue`ring, threadQueue.buffer,
               threadQueue`overflow, threadQueue`overflowSize, threadQueue`overflowHead,
               threadQueue`overflowTail, threadQueue`pending, threadQueue.overflow,
               this`uvStatus, this`threadStatus, this`signalThread, this`log
      ensures Valid()
      ensures UvOutstanding() == old(UvOutstanding()) && ThreadOutstanding() == old(ThreadOutstanding())
      ensures port == UvPort ==>
                var k := Moved(|old(uvQueue.ring)|, |old(uvQueue.pending)|);
                && uvQueue.ring == old(uvQueue.ring) + old(uvQueue.pending)[..k]
                && uvQueue.pending == old(uvQueue.pending)[k..]
                && uvQueue.overflow == old(uvQueue.overflow)
                && threadQueue.overflow == old(threadQueue.overflow)
                && uvStatus == (if old(uvQueue.pending) != [] && uvQueue.pending == []
                                then Drained(old(uvStatus)) else old(uvStatus))
                && threadQueue.ring == old(threadQueue.ring) && threadStatus == old(threadStatus)
                && !signalThread
                && log == old(log)
                          + (if threadQueue.ring != [] then [WakeupUv] else [])
                          + (if old(signalThread) || (k > 0 && old(uvQueue.ring) == []) then [SignalThread] else [])
      ensures port == ThreadPort ==>
                var k := Moved(|old(threadQueue.ring)|, |old(threadQueue.pending)|);
                && threadQueue.ring == old(threadQueue.ring) + old(threadQueue.pending)[..k]
                && threadQueue.pending == old(threadQueue.pending)[k..]
                && threadQueue.overflow == old(threadQueue.overflow)
                && uvQueue.overflow == old(uvQueue.overflow)
                && threadStatus == (if old(threadQueue.pending) != [] && threadQueue.pending == []
                                    then Drained(old(threadStatus)) else old(threadStatus))
                && uvQueue.ring == old(uvQueue.ring) && uvStatus == old(uvStatus)
                && signalThread == old(signalThread)
                && log == old(log)
                          + (if uvQueue.ring != [] then [WakeupThread] else [])
                          + (if k > 0 && old(threadQueue.ring) == [] && uvStatus != Idle then [AsyncSend] else [])
    {
      if port == UvPort {
        OnWakeupUv();
        return;
      }
      if !uvQueue.RingEmpty() {
        log := log + [WakeupThread];
      }
      DrainThreadOverflow();
    }

    /** pearsync_on_close: empties both queues, uv side first, releasing
        their overflow storage, and hands every undelivered message to
        on_close when there is one, ring before overflow in each direction. */
    method OnClose()
      requires Valid()
      modifies uvQueue`tail, uvQueue`ring, uvQueue`overflow, uvQueue`overflowSize,
               uvQueue`overflowHead, uvQueue`overflowTail, uvQueue`pending,
               threadQueue`tail, threadQueue`ring, threadQueue`overflow, threadQueue`overflowSize,
               threadQueue`overflowHead, threadQueue`overflowTail, threadQueue`pending,
               this`log
      ensures Valid()
      ensures (uvQueue.overflow == old(uvQueue.overflow) || fresh(uvQueue.overflow))
      ensures (threadQueue.overflow == old(threadQueue.overflow) || fresh(threadQueue.overflow))
      ensures UvOutstanding() == [] && ThreadOutstanding() == []
      ensures uvQueue.overflowSize == 0 && threadQueue.overflowSize == 0
      ensures log == old(log) +
                (if hasOnClose
                 then [Closed(|old(UvOutstanding())|, old(UvOutstanding()),
                              |old(ThreadOutstanding())|, old(ThreadOutstanding()))]
                 else [])
    {
      var uvLen, uvMsgs := uvQueue.Clear();
      var threadLen, threadMsgs := threadQueue.Clear();
      if hasOnClose {
        log := log + [Closed(uvLen, uvMsgs[..], threadLen, threadMsgs[..])];
      }
    }

    /** pearsync_destroy: records `on_close`; tears down at once when the uv
        side never had a status, otherwise asks libuv to close the handle,
        and the teardown runs when that completes (CloseCompleted). */
    method Destroy(onClose: bool)
      requires Valid()
      modifies uvQueue`tail, uvQueue`ring, uvQueue`overflow, uvQueue`overflowSize,
               uvQueue`overflowHead, uvQueue`overflowTail, uvQueue`pending,
               threadQueue`tail, threadQueue`ring, threadQueue`overflow, threadQueue`overflowSize,
               threadQueue`overflowHead, threadQueue`overflowTail, threadQueue`pending,
               this`hasOnClose, this`closing, this`log
      ensures Valid() && hasOnClose == onClose
      ensures (uvQueue.overflow == old(uvQueue.overflow) || fresh(uvQueue.overflow))
      ensures (threadQueue.overflow == old(threadQueue.overflow) || fresh(threadQueue.overflow))
      ensures uvStatus == Idle ==>
                && UvOutstanding() == [] && ThreadOutstanding() == []
                && closing == old(closing)
                && log == old(log) +
                     (if onClose
                      then [Closed(|old(UvOutstanding())|, old(UvOutstanding()),
                                   |old(ThreadOutstanding())|, old(ThreadOutstanding()))]
                      else [])
      ensures uvStatus != Idle ==>
                && UvOutstanding() == old(UvOutstanding()) && ThreadOutstanding() == old(ThreadOutstanding())
                && closing && log == old(log) + [AsyncClose]
    {
      hasOnClose := onClose;
      if uvStatus == Idle {
        OnClose();
      } else {
        log := log + [AsyncClose];
        closing := true;
      }
    }

    /** libuv completing the uv_close that Destroy requested: runs
        pearsync_on_close once. */
    method CloseCompleted()
      requires Valid() && closing
      modifies uvQueue`tail, uvQueue`ring, uvQueue`overflow, uvQueue`overflowSize,
               uvQueue`overflowHead, uvQueue`overflowTail, uvQueue`pending,
               threadQueue`tail, threadQueue`ring, threadQueue`overflow, threadQueue`overflowSize,
               threadQueue`overflowHead, threadQueue`overflowTail, threadQueue`pending,
               this`closing, this`log
      ensures Valid() && !closing
      ensures (uvQueue.overflow == old(uvQueue.overflow) || fresh(uvQueue.overflow))
      ensures (threadQueue.overflow == old(threadQueue.overflow) || fresh(threadQueue.overflow))
      ensures UvOutstanding() == [] && ThreadOutstanding() == []
      ensures log == old(log) +
                (if hasOnClose
                 then [Closed(|old(UvOutstanding())|, old(UvOutstanding()),
                              |old(ThreadOutstanding())|, old(ThreadOutstanding()))]
                 else [])
    {
      closing := false;
      OnClose();
    }
  }

  /** A whole session as a client sees it (pearsync.c:178-334): both sides
      open, the thread side sends two messages, and the uv side receives
      them in send order, then finds the channel empty. */
  method TwoMessagesInOrder(m1: Msg, m2: Msg) returns (r1: Msg, r2: Msg, r3: Msg, ok3: bool)
    ensures r1 == m1 && r2 == m2
    ensures !ok3 && r3 == Zero
  {
    var c := new Channel();
    var _ := c.OpenUv();
    var _ := c.OpenThread();
    var s1 := c.Send(ThreadPort, m1);
    var s2 := c.Send(ThreadPort, m2);
    var _, x1 := c.Recv(UvPort);
    var _, x2 := c.Recv(UvPort);
    ok3, r3 := c.Recv(UvPort);
    r1, r2 := x1, x2;
  }
}
