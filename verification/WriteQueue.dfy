/** The bounded input queue of a session: a FIFO of whole chunks under one lock,
    with a closed state and a failed state.

    `QueueState` is the value the lock protects; the functions on it are the
    critical sections. `WriteQueueShared` is the object whose methods run them.
    `Fifo` is the independent reference: an atomic bounded FIFO that has no byte
    counter and measures its contents instead. */
module WriteQueue {
  import opened Ptyx

  const MAX_WRITE_QUEUE_MAX_BYTES: usize := 512 * MIB
  type QueueLimit = x: usize | x <= MAX_WRITE_QUEUE_MAX_BYTES

  const QUEUE_FULL := PtyxError(WouldBlock, "PTY write queue is full")
  const RUNTIME_CLOSED := PtyxError(Closed, "session runtime is closed")
  const ALLOCATION_FAILED := PtyxError(OutOfMemory, "failed to allocate write chunk")

  datatype QueueState = QueueState(
    queue: seq<Bytes>,
    queuedBytes: nat,
    closed: bool,
    failure: Option<PtyxError>)

  const EMPTY_QUEUE := QueueState([], 0, false, None)

  ghost predicate WellFormed(q: QueueState, max: QueueLimit) {
    && q.queuedBytes == |Concat(q.queue)| <= max
    && (forall i | 0 <= i < |q.queue| :: 0 < |q.queue[i]| <= max)
    && (q.closed || q.failure.Some? ==> q.queue == [])
  }

  // ----- critical sections

  function Validate(q: QueueState, max: QueueLimit, count: nat): Option<PtyxError> {
    if q.failure.Some? then q.failure
    else if q.closed then Some(RUNTIME_CLOSED)
    else if SaturatingAdd(q.queuedBytes, count) > max then Some(QUEUE_FULL)
    else None
  }

  function Push(q: QueueState, bytes: Bytes): QueueState {
    q.(queue := q.queue + [bytes], queuedBytes := q.queuedBytes + |bytes|)
  }

  datatype PopResult = Popped(chunk: Bytes, after: QueueState) | Failed(error: PtyxError) | Ended | MustPark

  function Pop(q: QueueState): PopResult {
    if q.queue != [] then
      Popped(q.queue[0],
             q.(queue := q.queue[1..], queuedBytes := SaturatingSub(q.queuedBytes, |q.queue[0]|)))
    else if q.failure.Some? then Failed(q.failure.value)
    else if q.closed then Ended
    else MustPark
  }

  function CloseQueue(q: QueueState): QueueState {
    q.(closed := true, queue := [], queuedBytes := 0)
  }

  function FailQueue(q: QueueState, error: PtyxError): QueueState {
    q.(failure := Some(error), queue := [], queuedBytes := 0)
  }

  // ----- the reference: an atomic bounded FIFO

  datatype Fifo = Fifo(items: seq<Bytes>, closed: bool, failure: Option<PtyxError>)

  datatype Op = Enqueue(bytes: Bytes, copied: bool) | Dequeue | Close | Fail(error: PtyxError)

  datatype Reply = Done | Refused(error: PtyxError) | Got(chunk: Bytes) | NoMore

  function EnqueueReply(f: Fifo, max: QueueLimit, bytes: Bytes): Reply {
    if bytes == [] then Done
    else if |bytes| > max then Refused(QUEUE_FULL)
    else if f.failure.Some? then Refused(f.failure.value)
    else if f.closed then Refused(RUNTIME_CLOSED)
    else if |Concat(f.items)| + |bytes| > max then Refused(QUEUE_FULL)
    else Done
  }

  /** The replies an atomic FIFO may give. Dequeue on an empty, open FIFO has none:
      it blocks. A copying enqueue may also report that its copy failed. */
  predicate Allowed(f: Fifo, max: QueueLimit, op: Op, reply: Reply) {
    match op
    case Enqueue(bytes, copied) =>
      || reply == EnqueueReply(f, max, bytes)
      || (copied && 0 < |bytes| <= max && reply == Refused(ALLOCATION_FAILED))
    case Dequeue =>
      if f.items != [] then reply == Got(f.items[0])
      else if f.failure.Some? then reply == Refused(f.failure.value)
      else f.closed && reply == NoMore
    case Close => reply == Done
    case Fail(_) => reply == Done
  }

  function After(f: Fifo, op: Op, reply: Reply): Fifo {
    match op
    case Enqueue(bytes, _) => if reply == Done && bytes != [] then f.(items := f.items + [bytes]) else f
    case Dequeue => if reply.Got? && f.items != [] then f.(items := f.items[1..]) else f
    case Close => Fifo([], true, f.failure)
    case Fail(error) => Fifo([], f.closed, Some(error))
  }

  function Abstract(q: QueueState): Fifo {
    Fifo(q.queue, q.closed, q.failure)
  }

  // ----- what each critical section keeps, and the FIFO step it is

  /** The second lock of an enqueue: it validates and pushes exactly as the atomic
      FIFO enqueues, and the byte counter neither saturates nor overflows. */
  lemma PushRefines(q: QueueState, max: QueueLimit, bytes: Bytes, copied: bool)
    requires WellFormed(q, max) && 0 < |bytes| <= max
    ensures match Validate(q, max, |bytes|)
            case Some(error) =>
              EnqueueReply(Abstract(q), max, bytes) == Refused(error)
            case None =>
              && EnqueueReply(Abstract(q), max, bytes) == Done
              && WellFormed(Push(q, bytes), max)
              && Abstract(Push(q, bytes)) == After(Abstract(q), Enqueue(bytes, copied), Done)
              && SaturatingAdd(q.queuedBytes, |bytes|) == q.queuedBytes + |bytes|
  {
    ConcatSnoc(q.queue, bytes);
  }

  /** One pass of the dequeue loop: it answers exactly when the atomic FIFO would,
      takes the oldest chunk, and its subtraction never saturates. */
  lemma PopRefines(q: QueueState, max: QueueLimit)
    requires WellFormed(q, max)
    ensures match Pop(q)
            case Popped(chunk, after) =>
              && Allowed(Abstract(q), max, Dequeue, Got(chunk))
              && Abstract(after) == After(Abstract(q), Dequeue, Got(chunk))
              && WellFormed(after, max)
              && 0 < |chunk| <= max
              && after.queuedBytes + |chunk| == q.queuedBytes
              && chunk + Concat(after.queue) == Concat(q.queue)
            case Failed(error) => Allowed(Abstract(q), max, Dequeue, Refused(error))
            case Ended => Allowed(Abstract(q), max, Dequeue, NoMore)
            case MustPark => forall reply :: !Allowed(Abstract(q), max, Dequeue, reply)
  {
    if q.queue != [] {
      assert Concat(q.queue) == q.queue[0] + Concat(q.queue[1..]);
    }
  }

  /** An oversized chunk is refused as full before anything else is looked at. So a failed
      queue reports its failure to a non-empty chunk exactly when the chunk fits the limit,
      and a closed one likewise. */
  lemma OversizedHidesTheState(f: Fifo, max: QueueLimit, bytes: Bytes)
    requires bytes != []
    requires f.failure != Some(QUEUE_FULL)
    ensures f.failure.Some? ==> (EnqueueReply(f, max, bytes) == Refused(f.failure.value) <==> |bytes| <= max)
    ensures f.failure.None? && f.closed ==> (EnqueueReply(f, max, bytes) == Refused(RUNTIME_CLOSED) <==> |bytes| <= max)
  {
  }

  /** For example, with a limit of one byte. */
  lemma FailedQueueSaysFull()
    ensures var failed := Fifo([], true, Some(RUNTIME_CLOSED));
            && EnqueueReply(failed, 1, [7, 7]) == Refused(QUEUE_FULL)
            && EnqueueReply(failed, 1, [7]) == Refused(RUNTIME_CLOSED)
  {
  }

  // ----- the object

  datatype Enqueued = Accepted | Rejected(error: PtyxError, returned: Bytes)

  /** What a method does to the condition variable, after it has dropped the lock. */
  datatype Notify = NotifyOne | NotifyAll

  class WriteQueueShared {
    var queue: seq<Bytes>
    var queuedBytes: usize
    var closed: bool
    var failure: Option<PtyxError>
    const maxBytes: QueueLimit
    var notified: seq<Notify>     // history

    ghost function State(): QueueState
      reads this
    {
      QueueState(queue, queuedBytes, closed, failure)
    }

    ghost function Contents(): Fifo
      reads this
    {
      Abstract(State())
    }

    ghost predicate Valid()
      reads this
    {
      WellFormed(State(), maxBytes)
    }

    constructor (maxBytes: QueueLimit)
      ensures Valid() && State() == EMPTY_QUEUE && this.maxBytes == maxBytes && notified == []
    {
      this.maxBytes, notified := maxBytes, [];
      queue, queuedBytes, closed, failure := [], 0, false, None;
    }

    /** Answers for any chunk of `count` bytes that fits the queue at all what the atomic
        FIFO would, though it sees only the counter: none exactly when the queue is live
        and its contents leave room. */
    method ValidateEnqueue(count: usize) returns (error: Option<PtyxError>)
      requires Valid()
      ensures error == Validate(State(), maxBytes, count)
      ensures error.None? <==> failure.None? && !closed && |Concat(queue)| + count <= maxBytes
      ensures forall bytes: Bytes | 0 < |bytes| == count <= maxBytes ::
                EnqueueReply(Contents(), maxBytes, bytes) == if error.None? then Done else Refused(error.value)
    {
      if failure.Some? {
        return failure;
      }
      if closed {
        return Some(RUNTIME_CLOSED);
      }
      if SaturatingAdd(queuedBytes, count) > maxBytes {
        return Some(QUEUE_FULL);
      }
      return None;
    }

    /** Takes ownership of `bytes`, or hands the same bytes back with the error. */
    method EnqueueOwned(bytes: Bytes) returns (r: Enqueued)
      requires Valid() && |bytes| <= U64_MAX
      modifies this
      ensures Valid()
      ensures r.Rejected? ==> r.returned == bytes && State() == old(State())
      ensures (if r.Accepted? then Done else Refused(r.error)) == EnqueueReply(old(Contents()), maxBytes, bytes)
      ensures r.Accepted? ==> Contents() == After(old(Contents()), Enqueue(bytes, false), Done)
      ensures notified == old(notified) + if r.Accepted? && bytes != [] then [NotifyOne] else []
    {
      if bytes == [] {
        return Accepted;
      }
      if |bytes| > maxBytes {
        return Rejected(QUEUE_FULL, bytes);
      }
      PushRefines(State(), maxBytes, bytes, false);
      var error := ValidateEnqueue(|bytes|);
      if error.Some? {
        return Rejected(error.value, bytes);
      }
      queuedBytes := queuedBytes + |bytes|;
      queue := queue + [bytes];
      notified := notified + [NotifyOne];
      return Accepted;
    }

    /** What other threads do while the lock is free. */
    method OthersAct(meanwhile: QueueState)
      requires WellFormed(meanwhile, maxBytes)
      modifies this`queue, this`queuedBytes, this`closed, this`failure
      ensures State() == meanwhile
    {
      queue, queuedBytes := meanwhile.queue, meanwhile.queuedBytes;
      closed, failure := meanwhile.closed, meanwhile.failure;
    }

    /** The copying enqueue. It drops the lock to copy; `meanwhile` is what other threads
        have made of the queue when it takes the lock again, and `canCopy` whether the
        allocator satisfies the copy. A refusal at the first lock is the FIFO's there and
        changes nothing; otherwise it succeeds exactly when the FIFO would at the second. */
    method EnqueueBytes(bytes: Bytes, canCopy: bool, meanwhile: QueueState) returns (r: Option<PtyxError>)
      requires Valid() && |bytes| <= U64_MAX && WellFormed(meanwhile, maxBytes)
      modifies this
      ensures Valid()
      ensures var first := EnqueueReply(old(Contents()), maxBytes, bytes);
              if first.Refused? || bytes == [] then
                && r == (if first.Refused? then Some(first.error) else None)
                && State() == old(State()) && notified == old(notified)
              else if !canCopy then
                && r == Some(ALLOCATION_FAILED)
                && State() == old(State()) && notified == old(notified)
              else
                var second := EnqueueReply(Abstract(meanwhile), maxBytes, bytes);
                && r == (if second.Refused? then Some(second.error) else None)
                && Contents() == After(Abstract(meanwhile), Enqueue(bytes, true), second)
                && notified == old(notified) + if second.Done? then [NotifyOne] else []
    {
      hide WellFormed, Validate, Concat;
      if bytes == [] {
        return None;
      }
      if |bytes| > maxBytes {
        return Some(QUEUE_FULL);
      }
      var error := ValidateEnqueue(|bytes|);
      PushRefines(State(), maxBytes, bytes, true);
      if error.Some? {
        return error;
      }
      if !canCopy {
        return Some(ALLOCATION_FAILED);
      }
      var copy := bytes;
      OthersAct(meanwhile);
      var enqueued := EnqueueOwned(copy);
      match enqueued {
        case Accepted => return None;
        case Rejected(refusal, _) => return Some(refusal);
      }
    }

    /** One pass of the dequeue loop under the lock; `MustPark` is the condvar wait. */
    method DequeuePass() returns (r: PopResult)
      requires Valid()
      modifies this
      ensures Valid() && r == Pop(old(State())) && notified == old(notified)
      ensures State() == if r.Popped? then r.after else old(State())
      ensures match r
              case Popped(chunk, _) => Contents() == After(old(Contents()), Dequeue, Got(chunk))
              case _ => Contents() == old(Contents())
    {
      PopRefines(State(), maxBytes);
      if queue != [] {
        var chunk := queue[0];
        queue := queue[1..];
        queuedBytes := SaturatingSub(queuedBytes, |chunk|);
        return Popped(chunk, QueueState(queue, queuedBytes, closed, failure));
      }
      if failure.Some? {
        return Failed(failure.value);
      }
      return if closed then Ended else MustPark;
    }

    method Close()
      requires Valid()
      modifies this
      ensures Valid() && State() == CloseQueue(old(State()))
      ensures Contents() == After(old(Contents()), Op.Close, Done)
      ensures notified == old(notified) + [NotifyAll]
    {
      closed := true;
      queue := [];
      queuedBytes := 0;
      notified := notified + [NotifyAll];
    }

    method Fail(error: PtyxError)
      requires Valid()
      modifies this
      ensures Valid() && State() == FailQueue(old(State()), error)
      ensures Contents() == After(old(Contents()), Op.Fail(error), Done)
      ensures notified == old(notified) + [NotifyAll]
    {
      failure := Some(error);
      queue := [];
      queuedBytes := 0;
      notified := notified + [NotifyAll];
    }
  }
}
