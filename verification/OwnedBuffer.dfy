/** Caller-filled buffers handed to a session's write queue without a copy.

    A handle is a heap box the caller owns. A write takes the box, truncates it, moves
    its bytes through the session to the queue, and on any refusal puts the bytes back
    in the box and the box back in the caller's hands. */
module OwnedBuffer {
  import opened Ptyx
  import WQ = WriteQueue

  /** `boxes` are the live handles and their bytes; `freed` counts the times each handle
      was freed; handles are numbered in allocation order. */
  datatype Heap = Heap(boxes: map<nat, Bytes>, freed: multiset<nat>, next: nat)

  const EMPTY_HEAP := Heap(map[], multiset{}, 0)

  const INVALID_SESSION := PtyxError(InvalidArgument, "session must not be null")
  const INVALID_BUFFER := PtyxError(InvalidArgument, "buffer must not be null")
  const TOO_LONG := PtyxError(InvalidArgument, "write length exceeds buffer capacity")
  const SESSION_CLOSED := PtyxError(Closed, "session is closed")

  function Zeros(n: nat): (b: Bytes)
    ensures |b| == n && forall i | 0 <= i < n :: b[i] == 0
  {
    seq(n, _ => 0)
  }

  function Allocated(heap: Heap, capacity: nat): Heap {
    heap.(boxes := heap.boxes[heap.next := Zeros(capacity)], next := heap.next + 1)
  }

  function Freed(heap: Heap, h: nat): Heap {
    heap.(boxes := heap.boxes - {h}, freed := heap.freed + multiset{h})
  }

  /** The heap after a write whose length was accepted, given what the session decided. */
  function Settled(heap: Heap, h: nat, length: nat, refusal: Option<PtyxError>): Heap
    requires h in heap.boxes && length <= |heap.boxes[h]|
  {
    if refusal.None? then Freed(heap, h) else heap.(boxes := heap.boxes[h := heap.boxes[h][..length]])
  }

  // ----- the objects

  /** A box taken out of the caller's hands. */
  datatype OwnedBox = OwnedBox(handle: nat, bytes: Bytes)

  class Session {
    var closed: bool
    var running: bool
    var startError: Option<PtyxError>   // what starting the writer thread would give
    const writer: WQ.WriteQueueShared

    constructor (writer: WQ.WriteQueueShared)
      ensures this.writer == writer && !closed && running && startError.None?
    {
      this.writer, closed, running, startError := writer, false, true, None;
    }

    /** Why the session refuses these bytes, if it does: in this order it is closed, its
        runtime is gone, its writer cannot start, or its queue refuses them. */
    ghost function Refusal(bytes: Bytes): Option<PtyxError>
      reads this, writer
    {
      if closed then Some(SESSION_CLOSED)
      else if !running then Some(WQ.RUNTIME_CLOSED)
      else if startError.Some? then startError
      else
        var reply := WQ.EnqueueReply(writer.Contents(), writer.maxBytes, bytes);
        if reply.Refused? then Some(reply.error) else None
    }

    /** Consumes the bytes, or returns the very same bytes. */
    method WriteOwned(bytes: Bytes) returns (r: WQ.Enqueued)
      requires writer.Valid() && |bytes| <= U64_MAX
      modifies writer
      ensures writer.Valid()
      ensures r == if old(Refusal(bytes)).Some? then WQ.Rejected(old(Refusal(bytes)).value, bytes) else WQ.Accepted
      ensures closed ==> r == WQ.Rejected(PtyxError(Closed, "session is closed"), bytes)
      ensures !closed && !running ==> r == WQ.Rejected(PtyxError(Closed, "session runtime is closed"), bytes)
      ensures !closed && running && startError.Some? ==> r == WQ.Rejected(startError.value, bytes)
      ensures !closed && running && startError.None? ==>
                (if r.Accepted? then WQ.Done else WQ.Refused(r.error))
                == WQ.EnqueueReply(old(writer.Contents()), writer.maxBytes, bytes)
      ensures writer.Contents() ==
                if r.Accepted? then WQ.After(old(writer.Contents()), WQ.Enqueue(bytes, false), WQ.Done)
                else old(writer.Contents())
    {
      if closed {
        return WQ.Rejected(SESSION_CLOSED, bytes);
      }
      if !running {
        return WQ.Rejected(WQ.RUNTIME_CLOSED, bytes);
      }
      if startError.Some? {
        return WQ.Rejected(startError.value, bytes);
      }
      r := writer.EnqueueOwned(bytes);
    }
  }

  class BufferHeap {
    var boxes: map<nat, Bytes>
    var freed: multiset<nat>
    var next: nat

    ghost function State(): Heap
      reads this
    {
      Heap(boxes, freed, next)
    }

    constructor ()
      ensures State() == EMPTY_HEAP
    {
      boxes, freed, next := map[], multiset{}, 0;
    }

    method Alloc(capacity: nat, hasMemory: bool) returns (h: Option<nat>)
      modifies this
      ensures h == if hasMemory then Some(old(next)) else None
      ensures State() == if hasMemory then Allocated(old(State()), capacity) else old(State())
      ensures h.Some? ==> |boxes[h.value]| == capacity && forall i | 0 <= i < capacity :: boxes[h.value][i] == 0
    {
      if !hasMemory {
        return None;
      }
      h := Some(next);
      boxes := boxes[next := Zeros(capacity)];
      next := next + 1;
    }

    /** Frees a handle the caller owns; null is ignored. */
    method Free(h: Option<nat>)
      requires h.Some? ==> h.value in boxes
      modifies this
      ensures State() == if h.Some? then Freed(old(State()), h.value) else old(State())
    {
      if h.Some? {
        var box := FromRaw(h.value);
        DropBox(box);
      }
    }

    method FromRaw(h: nat) returns (box: OwnedBox)
      requires h in boxes
      modifies this`boxes
      ensures box == OwnedBox(h, old(boxes)[h]) && boxes == old(boxes) - {h}
    {
      box := OwnedBox(h, boxes[h]);
      boxes := boxes - {h};
    }

    method IntoRaw(box: OwnedBox)
      modifies this`boxes
      ensures boxes == old(boxes)[box.handle := box.bytes]
    {
      boxes := boxes[box.handle := box.bytes];
    }

    method DropBox(box: OwnedBox)
      modifies this`freed
      ensures freed == old(freed) + multiset{box.handle}
    {
      freed := freed + multiset{box.handle};
    }

    method TakeOwnedBuffer(h: Option<nat>, length: nat) returns (r: Result<OwnedBox, PtyxError>)
      requires h.Some? ==> h.value in boxes
      modifies this`boxes
      ensures r.Err? <==> h.None? || length > |old(boxes)[h.value]|
      ensures r.Err? ==> boxes == old(boxes) && r.error == if h.None? then INVALID_BUFFER else TOO_LONG
      ensures r.Ok? ==> r.value == OwnedBox(h.value, old(boxes)[h.value][..length]) && boxes == old(boxes) - {h.value}
    {
      if h.None? {
        return Err(INVALID_BUFFER);
      }
      var box := FromRaw(h.value);
      if length > |box.bytes| {
        IntoRaw(box);
        assert boxes == old(boxes);
        return Err(TOO_LONG);
      }
      r := Ok(box.(bytes := box.bytes[..length]));
    }

    /** The exported write. A refusal before or at the length check leaves the handle as
        it was; a later one leaves it with exactly its first `length` bytes; success
        frees the handle once and queues those bytes. */
    method WriteOwned(session: Session?, h: Option<nat>, length: nat) returns (error: Option<PtyxError>)
      requires session != null ==> session.writer.Valid()
      requires h.Some? ==> h.value in boxes && |boxes[h.value]| <= U64_MAX
      modifies this, if session != null then {session.writer} else {}
      ensures session != null ==> session.writer.Valid()
      ensures session == null ==> error == Some(INVALID_SESSION)
      ensures session != null && h.None? ==> error == Some(INVALID_BUFFER)
      ensures session != null && h.Some? && length > |old(boxes)[h.value]| ==> error == Some(TOO_LONG)
      ensures session == null || h.None? || length > |old(boxes)[h.value]| ==>
                && State() == old(State())
                && (session != null ==> session.writer.Contents() == old(session.writer.Contents()))
      ensures session != null && h.Some? && length <= |old(boxes)[h.value]| ==>
                var bytes := old(boxes)[h.value][..length];
                && error == old(session.Refusal(bytes))
                && State() == Settled(old(State()), h.value, length, error)
                && session.writer.Contents() ==
                     if error.None? then WQ.After(old(session.writer.Contents()), WQ.Enqueue(bytes, false), WQ.Done)
                     else old(session.writer.Contents())
    {
      if session == null {
        return Some(INVALID_SESSION);
      }
      var taken := TakeOwnedBuffer(h, length);
      if taken.Err? {
        return Some(taken.error);
      }
      var box := taken.value;
      var bytes := box.bytes;
      box := box.(bytes := []);
      assert bytes == old(boxes)[h.value][..length];
      var written := session.WriteOwned(bytes);
      match written {
        case Accepted =>
          DropBox(box);
          error := None;
        case Rejected(refusal, returned) =>
          box := box.(bytes := returned);
          IntoRaw(box);
          error := Some(refusal);
      }
    }
  }

  // ----- every sequence of calls by a caller that uses only handles it owns

  /** One call and its outcome; a write carries what the session decided about it. */
  datatype Call =
    | DoAlloc(capacity: nat)
    | DoFill(handle: nat, bytes: Bytes)      // the caller stores through the data pointer
    | DoWrite(handle: nat, length: nat, refusal: Option<PtyxError>)
    | DoFree(handle: nat)

  predicate Owned(heap: Heap, call: Call) {
    && (call.DoAlloc? || call.handle in heap.boxes)
    && (call.DoFill? ==> |call.bytes| == |heap.boxes[call.handle]|)
  }

  function Apply(heap: Heap, call: Call): Heap
    requires Owned(heap, call)
  {
    match call
    case DoAlloc(capacity) => Allocated(heap, capacity)
    case DoFill(h, bytes) => heap.(boxes := heap.boxes[h := bytes])
    case DoWrite(h, length, refusal) => if length > |heap.boxes[h]| then heap else Settled(heap, h, length, refusal)
    case DoFree(h) => Freed(heap, h)
  }

  /** The call that ended a handle's life, if it did. */
  predicate Consumes(heap: Heap, call: Call, h: nat) {
    || call == DoFree(h)
    || (call.DoWrite? && call.handle == h && call.refusal.None? && h in heap.boxes && call.length <= |heap.boxes[h]|)
  }

  ghost predicate Steps(before: Heap, call: Call, after: Heap) {
    Owned(before, call) && after == Apply(before, call)
  }

  ghost predicate Runs(heaps: seq<Heap>, calls: seq<Call>) {
    && |heaps| == |calls| + 1 && heaps[0] == EMPTY_HEAP
    && forall i, j | 0 <= i < |calls| && j == i + 1 :: Steps(heaps[i], calls[i], heaps[j])
  }

  ghost predicate Linear(heap: Heap) {
    forall h: nat ::
      && heap.freed[h] == (if h < heap.next && h !in heap.boxes then 1 else 0)
      && (h in heap.boxes ==> h < heap.next)
  }

  lemma ApplyLinear(heap: Heap, call: Call)
    requires Linear(heap) && Owned(heap, call)
    ensures Linear(Apply(heap, call))
  {
  }

  /** At every point a handle that was allocated is live and never freed, or gone and
      freed exactly once. */
  lemma {:induction false} HandlesAreLinear(heaps: seq<Heap>, calls: seq<Call>, i: nat)
    requires Runs(heaps, calls) && i < |heaps|
    ensures Linear(heaps[i])
  {
    if i > 0 {
      HandlesAreLinear(heaps, calls, i - 1);
      assert Steps(heaps[i - 1], calls[i - 1], heaps[i]);
      ApplyLinear(heaps[i - 1], calls[i - 1]);
    }
  }

  /** A live handle stays live until the one call that consumes it, a free or a successful
      write; it never grows, and unless the caller refills it, it keeps a prefix of its
      bytes. */
  lemma {:induction false} HandleLivesUntilConsumed(heaps: seq<Heap>, calls: seq<Call>, i: nat, j: nat, h: nat)
    requires Runs(heaps, calls) && i <= j < |heaps| && h in heaps[i].boxes
    ensures h in heaps[j].boxes <==> forall k | i <= k < j :: !Consumes(heaps[k], calls[k], h)
    ensures h in heaps[j].boxes ==> |heaps[j].boxes[h]| <= |heaps[i].boxes[h]|
    ensures h in heaps[j].boxes && (forall k | i <= k < j :: !(calls[k].DoFill? && calls[k].handle == h)) ==>
              heaps[j].boxes[h] <= heaps[i].boxes[h]
    decreases j
  {
    if i < j {
      HandleLivesUntilConsumed(heaps, calls, i, j - 1, h);
      HandlesAreLinear(heaps, calls, i);
      NextGrows(heaps, calls, i, j - 1);
      assert h < heaps[j - 1].next && Steps(heaps[j - 1], calls[j - 1], heaps[j]);
      hide Apply, Consumes, Linear;
      ApplyToHandle(heaps[j - 1], calls[j - 1], h);
    }
  }

  lemma ApplyToHandle(heap: Heap, call: Call, h: nat)
    requires Owned(heap, call) && h < heap.next
    ensures var after := Apply(heap, call);
            && (h in after.boxes <==> h in heap.boxes && !Consumes(heap, call, h))
            && (h in after.boxes ==> |after.boxes[h]| <= |heap.boxes[h]|)
            && (h in after.boxes && !(call.DoFill? && call.handle == h) ==> after.boxes[h] <= heap.boxes[h])
  {
  }

  lemma {:induction false} NextGrows(heaps: seq<Heap>, calls: seq<Call>, i: nat, j: nat)
    requires Runs(heaps, calls) && i <= j < |heaps|
    ensures heaps[i].next <= heaps[j].next
    decreases j
  {
    if i < j {
      NextGrows(heaps, calls, i, j - 1);
      assert Steps(heaps[j - 1], calls[j - 1], heaps[j]);
    }
  }

  /** After a late refusal the same write can be tried again and offers the same bytes;
      a longer one is refused, because the buffer was truncated. */
  lemma RetryAfterRefusal(heap: Heap, h: nat, length: nat, refusal: PtyxError, retry: nat)
    requires h in heap.boxes && length <= |heap.boxes[h]|
    ensures var after := Settled(heap, h, length, Some(refusal));
            && h in after.boxes && after.freed == heap.freed
            && after.boxes[h] == heap.boxes[h][..length]
            && (retry <= |after.boxes[h]| <==> retry <= length)
            && (retry <= length ==> after.boxes[h][..retry] == heap.boxes[h][..retry])
            && Settled(after, h, length, Some(refusal)) == after
  {
    var after := Settled(heap, h, length, Some(refusal));
    assert after.boxes[h][..length] == after.boxes[h];
    assert after.boxes[h := after.boxes[h]] == after.boxes;
  }

  /** For example: a two-byte buffer, one byte of which is offered to a closed queue, is
      refused for being too long when all of it is offered again. */
  method FullRetryIsRefused() returns (first: Option<PtyxError>, second: Option<PtyxError>, again: Option<PtyxError>)
    ensures first == Some(WQ.RUNTIME_CLOSED)
    ensures second == Some(TOO_LONG)
    ensures again == Some(WQ.RUNTIME_CLOSED)
  {
    hide Settled, Freed;
    var queue := new WQ.WriteQueueShared(4);
    queue.Close();
    var session := new Session(queue);
    var heap := new BufferHeap();
    var h := heap.Alloc(2, true);
    first := heap.WriteOwned(session, h, 1);
    RetryAfterRefusal(Allocated(EMPTY_HEAP, 2), 0, 1, WQ.RUNTIME_CLOSED, 1);
    second := heap.WriteOwned(session, h, 2);
    again := heap.WriteOwned(session, h, 1);
  }
}
