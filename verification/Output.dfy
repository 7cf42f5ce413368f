/** Output batching: reads are appended to a batch that is posted when it is full or
    when the reader flushes it.

    `Flush` and `Append` specify the methods of `OutputBuffer`; the lemmas say what
    they do to the byte stream. */
module Output {
  import opened Ptyx
  import opened RuntimeConfig

  /** What the rest of the process does to one reader thread: which of its decisive
      loads of the stop flag is the first to find it set (it is never cleared), whether
      its k-th attempt to reserve external bytes succeeds, and whether its k-th post is
      accepted. */
  datatype World = World(stopsAt: Option<nat>, externalFits: nat -> bool, accepts: nat -> bool) {
    predicate stop(k: nat) {
      stopsAt.Some? && stopsAt.value <= k
    }
  }

  /** `sent` is what the output port accepted; the last three count uses of the world. */
  datatype Buffer = Buffer(
    batch: Bytes,
    pending: bool,
    sent: seq<Bytes>,
    loads: nat,
    reservations: nat,
    posts: nat)

  const EMPTY_BUFFER := Buffer([], false, [], 0, 0, 0)

  const POST_FAILED := PtyxError(Closed, "failed to post output")

  /** The batch leaves the buffer before the post, as an external buffer. */
  predicate MovesOut(c: OutputConfig, w: World, o: Buffer) {
    c.useExternal && |o.batch| <= c.maxExternal && w.externalFits(o.reservations)
  }

  function Post(c: OutputConfig, w: World, o: Buffer): (r: (Buffer, bool)) {
    var external := MovesOut(c, w, o);
    var o' := o.(reservations := if c.useExternal then o.reservations + 1 else o.reservations,
                 posts := o.posts + 1);
    if w.accepts(o.posts) then (o'.(sent := o.sent + [o.batch], batch := [], pending := false), true)
    else (o'.(batch := if external then [] else o.batch), false)
  }

  /** False is the post-failed error. */
  function Flush(c: OutputConfig, w: World, o: Buffer): (r: (Buffer, bool)) {
    if o.batch == [] then (o.(pending := false), true)
    else if !c.requireAcks then Post(c, w, o)
    else
      var o' := o.(loads := o.loads + 1);
      if w.stop(o.loads) then (o', true) else Post(c, w, o')
  }

  function Take(c: OutputConfig, o: Buffer, data: Bytes): (n: nat)
    requires data != []
    ensures 0 < n <= |data|
  {
    var available := SaturatingSub(c.batchMax, |o.batch|);
    Min(|data|, Max(available, 1))
  }

  function Absorb(o: Buffer, bytes: Bytes): Buffer {
    o.(batch := o.batch + bytes, pending := o.pending || o.batch == [])
  }

  function Append(c: OutputConfig, w: World, o: Buffer, data: Bytes): (r: (Buffer, bool))
    decreases |data|
  {
    if data == [] then (o, true)
    else
      var n := Take(c, o, data);
      var o' := Absorb(o, data[..n]);
      if |o'.batch| < c.batchMax then Append(c, w, o', data[n..])
      else
        var (flushed, ok) := Flush(c, w, o');
        if ok then Append(c, w, flushed, data[n..]) else (flushed, false)
  }

  // ----- every byte once, in order, in batches of the configured size

  ghost predicate Sized(c: OutputConfig, sent: seq<Bytes>) {
    forall i | 0 <= i < |sent| :: 1 <= |sent[i]| <= c.batchMax
  }

  /** With acknowledgements on, a reader that has seen the stop flag posts nothing more. */
  ghost predicate Stopped(c: OutputConfig, w: World, o: Buffer) {
    c.requireAcks && 0 < o.loads && w.stop(o.loads - 1)
  }

  /** The batch is within its size, and its age is tracked exactly while it holds bytes. */
  ghost predicate Sound(c: OutputConfig, w: World, o: Buffer) {
    && Sized(c, o.sent)
    && (o.pending <==> o.batch != [])
    && (|o.batch| < c.batchMax || Stopped(c, w, o))
  }

  /** All bytes taken in, posted or still pending. */
  ghost function Stream(o: Buffer): Bytes {
    Concat(o.sent) + o.batch
  }

  /** An operation succeeds when every post it made was accepted, and fails at the
      first refused one. */
  ghost predicate PostsChecked(w: World, from: Buffer, to: Buffer, ok: bool) {
    && from.posts <= to.posts && from.loads <= to.loads
    && (ok ==> forall k: nat | from.posts <= k < to.posts :: w.accepts(k))
    && (!ok ==> from.posts < to.posts && !w.accepts(to.posts - 1))
  }

  lemma FlushFacts(c: OutputConfig, w: World, o: Buffer)
    requires 1 <= c.batchMax && Sized(c, o.sent)
    requires |o.batch| <= c.batchMax || Stopped(c, w, o)
    requires o.batch != [] ==> o.pending
    ensures var (r, ok) := Flush(c, w, o);
            && Sized(c, r.sent)
            && Concat(o.sent) <= Concat(r.sent) <= Stream(o)
            && (ok ==> Stream(r) == Stream(o) && Sound(c, w, r))
            && (!ok ==> r.sent == o.sent && r.batch == if MovesOut(c, w, o) then [] else o.batch)
            && (ok ==> r.batch == [] || Stopped(c, w, r))
            && PostsChecked(w, o, r, ok)
            && (Concat(r.sent) == Stream(o) <==>
                  o.batch == [] || (!(c.requireAcks && w.stop(o.loads)) && w.accepts(o.posts)))
  {
    ConcatSnoc(o.sent, o.batch);
    var (r, ok) := Flush(c, w, o);
    assert Concat(o.sent) <= Stream(o);
    assert |Stream(o)| == |Concat(o.sent)| + |o.batch|;
  }

  // Two bytes pending under a limit of four, with acknowledgements and external output.

  const SMALL_CONFIG := OutputConfig(true, 1, 1, 4, 1, true, 4)

  function TwoPending(accepts: bool, stopped: bool): (World, Buffer) {
    (World(if stopped then Some(0) else None, _ => true, _ => accepts), Buffer([1, 2], true, [], 0, 0, 0))
  }

  /** A flush that sees the stop flag reports success and posts nothing; the bytes stay
      pending and no later flush posts them. */
  lemma StopDropsPending()
    ensures var (w, o) := TwoPending(true, true);
            var (r, ok) := Flush(SMALL_CONFIG, w, o);
            && ok && r.sent == [] && r.batch == [1, 2] && Concat(r.sent) != Stream(o)
            && Flush(SMALL_CONFIG, w, r) == (r.(loads := 2), true)
  {
  }

  /** A refused external post loses the batch; the same post refused as a copy keeps it. */
  lemma RefusedExternalPostLosesBatch()
    ensures var (w, o) := TwoPending(false, false);
            && !Flush(SMALL_CONFIG, w, o).1
            && Stream(Flush(SMALL_CONFIG, w, o).0) == [] != Stream(o)
            && Stream(Flush(SMALL_CONFIG.(useExternal := false), w, o).0) == Stream(o)
  {
  }

  /** After stop a full batch takes one byte a turn and grows past its limit, unposted. */
  lemma StoppedBatchGrows()
    ensures var (w, o) := TwoPending(true, true);
            var (r, ok) := Append(SMALL_CONFIG, w, o, [3, 4, 5]);
            ok && r.sent == [] && r.batch == [1, 2, 3, 4, 5]
  {
    var (w, o) := TwoPending(true, true);
    var full := o.(batch := [1, 2, 3, 4], loads := 1);
    var grown := full.(batch := [1, 2, 3, 4, 5], loads := 2);
    assert [5][..1] == [5] && [5][1..] == [] && full.batch + [5] == grown.batch;
    assert Append(SMALL_CONFIG, w, full, [5]) == Append(SMALL_CONFIG, w, grown, []);
    assert [3, 4, 5][..2] == [3, 4] && [3, 4, 5][2..] == [5] && o.batch + [3, 4] == full.batch;
  }

  lemma {:induction false} AppendFacts(c: OutputConfig, w: World, o: Buffer, data: Bytes)
    requires 1 <= c.batchMax && Sound(c, w, o)
    ensures var (r, ok) := Append(c, w, o, data);
            && Sized(c, r.sent)
            && Concat(r.sent) <= Stream(o) + data
            && (ok ==> Stream(r) == Stream(o) + data && Sound(c, w, r))
            && (ok ==> |r.batch| <= |o.batch| + |data|)
    decreases |data|
  {
    if data != [] {
      var n := Take(c, o, data);
      var o' := Absorb(o, data[..n]);
      assert data == data[..n] + data[n..];
      assert Stream(o') + data[n..] == Stream(o) + data;
      if |o'.batch| < c.batchMax {
        AppendFacts(c, w, o', data[n..]);
      } else {
        FlushFacts(c, w, o');
        var (flushed, ok) := Flush(c, w, o');
        if ok { AppendFacts(c, w, flushed, data[n..]); }
      }
    } else {
      assert Stream(o) + data == Stream(o);
    }
  }

  // ----- fragmentation independence

  /** The stream cut into full batches, and what is left over. */
  ghost function FullBatches(max: nat, bytes: Bytes): seq<Bytes>
    requires 0 < max
  {
    if |bytes| < max then [] else [bytes[..max]] + FullBatches(max, bytes[max..])
  }

  ghost function Leftover(max: nat, bytes: Bytes): Bytes
    requires 0 < max
  {
    if |bytes| < max then bytes else Leftover(max, bytes[max..])
  }

  /** The cut covers the stream, in batches of exactly the limit and a shorter rest. */
  lemma {:induction false} BatchesCover(max: nat, bytes: Bytes)
    requires 0 < max
    ensures Concat(FullBatches(max, bytes)) + Leftover(max, bytes) == bytes
    ensures |Leftover(max, bytes)| < max
    ensures forall i | 0 <= i < |FullBatches(max, bytes)| :: |FullBatches(max, bytes)[i]| == max
  {
    if |bytes| >= max {
      var first, rest := bytes[..max], bytes[max..];
      var batches := FullBatches(max, rest);
      BatchesCover(max, rest);
      assert bytes == first + rest;
      assert FullBatches(max, bytes) == [first] + batches && Leftover(max, bytes) == Leftover(max, rest);
      hide FullBatches, Leftover;
      assert ([first] + batches)[1..] == batches;
      assert Concat([first] + batches) == first + Concat(batches);
    }
  }

  lemma {:induction false} BatchesSplit(max: nat, a: Bytes, b: Bytes)
    requires 0 < max
    ensures FullBatches(max, a + b) == FullBatches(max, a) + FullBatches(max, Leftover(max, a) + b)
    ensures Leftover(max, a + b) == Leftover(max, Leftover(max, a) + b)
  {
    if |a| >= max {
      assert (a + b)[..max] == a[..max];
      assert (a + b)[max..] == a[max..] + b;
      BatchesSplit(max, a[max..], b);
    }
  }

  /** The stretch of the world an operation used shows no stop and no refused post. */
  ghost predicate Calm(w: World, from: Buffer, to: Buffer) {
    && (forall k: nat | from.loads <= k < to.loads :: !w.stop(k))
    && (forall k: nat | from.posts <= k < to.posts :: w.accepts(k))
  }

  lemma {:induction false} AppendPosts(c: OutputConfig, w: World, o: Buffer, data: Bytes)
    ensures PostsChecked(w, o, Append(c, w, o, data).0, Append(c, w, o, data).1)
    decreases |data|
  {
    if data != [] {
      var n := Take(c, o, data);
      var o' := Absorb(o, data[..n]);
      if |o'.batch| < c.batchMax {
        AppendPosts(c, w, o', data[n..]);
      } else if Flush(c, w, o').1 {
        AppendPosts(c, w, Flush(c, w, o').0, data[n..]);
      }
    }
  }

  lemma FlushCalm(c: OutputConfig, w: World, o: Buffer, data: Bytes)
    requires o.batch != []
    requires var (flushed, ok) := Flush(c, w, o);
             Calm(w, o, if ok then Append(c, w, flushed, data).0 else flushed)
    ensures var (flushed, ok) := Flush(c, w, o);
            && ok && flushed.batch == [] && flushed.sent == o.sent + [o.batch]
            && Calm(w, flushed, Append(c, w, flushed, data).0)
  {
    var (flushed, ok) := Flush(c, w, o);
    AppendPosts(c, w, flushed, data);
  }

  /** Appending what fits flushes exactly when the batch becomes full. */
  lemma {:induction false} AppendCutsBatches(c: OutputConfig, w: World, o: Buffer, data: Bytes)
    requires 1 <= c.batchMax && |o.batch| < c.batchMax
    requires Calm(w, o, Append(c, w, o, data).0)
    ensures var (r, ok) := Append(c, w, o, data);
            && ok
            && r.sent == o.sent + FullBatches(c.batchMax, o.batch + data)
            && r.batch == Leftover(c.batchMax, o.batch + data)
            && |r.batch| < c.batchMax
    decreases |data|
  {
    hide Flush;
    if data == [] {
      assert o.batch + data == o.batch;
    } else {
      var n := Take(c, o, data);
      var o' := Absorb(o, data[..n]);
      assert o'.batch + data[n..] == o.batch + data;
      if |o'.batch| < c.batchMax {
        AppendCutsBatches(c, w, o', data[n..]);
      } else {
        var flushed := Flush(c, w, o').0;
        FlushCalm(c, w, o', data[n..]);
        AppendCutsBatches(c, w, flushed, data[n..]);
        assert [] + data[n..] == data[n..];
        CutFirst(c.batchMax, o'.batch, data[n..], o.batch + data);
      }
    }
  }

  lemma CutFirst(max: nat, first: Bytes, rest: Bytes, all: Bytes)
    requires 0 < max == |first| && all == first + rest
    ensures FullBatches(max, all) == [first] + FullBatches(max, rest)
    ensures Leftover(max, all) == Leftover(max, rest)
  {
    assert all[..max] == first && all[max..] == rest;
  }

  function AppendAll(c: OutputConfig, w: World, o: Buffer, pieces: seq<Bytes>): (r: (Buffer, bool))
    decreases |pieces|
  {
    if pieces == [] then (o, true)
    else
      var (o', ok) := Append(c, w, o, pieces[0]);
      if ok then AppendAll(c, w, o', pieces[1..]) else (o', false)
  }

  lemma {:induction false} AppendAllPosts(c: OutputConfig, w: World, o: Buffer, pieces: seq<Bytes>)
    ensures PostsChecked(w, o, AppendAll(c, w, o, pieces).0, AppendAll(c, w, o, pieces).1)
    decreases |pieces|
  {
    if pieces != [] {
      AppendPosts(c, w, o, pieces[0]);
      if Append(c, w, o, pieces[0]).1 {
        AppendAllPosts(c, w, Append(c, w, o, pieces[0]).0, pieces[1..]);
      }
    }
  }

  /** However reads split the stream, the batches posted are its fixed-size pieces. */
  lemma {:induction false} AppendAllCutsBatches(c: OutputConfig, w: World, o: Buffer, pieces: seq<Bytes>)
    requires 1 <= c.batchMax && |o.batch| < c.batchMax
    requires Calm(w, o, AppendAll(c, w, o, pieces).0)
    ensures var (r, ok) := AppendAll(c, w, o, pieces);
            && ok
            && r.sent == o.sent + FullBatches(c.batchMax, o.batch + Concat(pieces))
            && r.batch == Leftover(c.batchMax, o.batch + Concat(pieces))
    decreases |pieces|
  {
    if pieces == [] {
      assert o.batch + Concat(pieces) == o.batch;
    } else {
      var (o', ok) := Append(c, w, o, pieces[0]);
      FirstPieceCalm(c, w, o, pieces);
      AppendCutsBatches(c, w, o, pieces[0]);
      AppendAllCutsBatches(c, w, o', pieces[1..]);
      JoinBatches(c.batchMax, o.sent, o.batch, pieces[0], Concat(pieces[1..]));
    }
  }

  lemma FirstPieceCalm(c: OutputConfig, w: World, o: Buffer, pieces: seq<Bytes>)
    requires pieces != [] && Calm(w, o, AppendAll(c, w, o, pieces).0)
    ensures var (o', ok) := Append(c, w, o, pieces[0]);
            ok && Calm(w, o, o') && Calm(w, o', AppendAll(c, w, o', pieces[1..]).0)
  {
    var (o', ok) := Append(c, w, o, pieces[0]);
    AppendPosts(c, w, o, pieces[0]);
    AppendAllPosts(c, w, o', pieces[1..]);
  }

  lemma JoinBatches(max: nat, sent: seq<Bytes>, batch: Bytes, first: Bytes, rest: Bytes)
    requires 0 < max
    ensures sent + FullBatches(max, batch + (first + rest))
            == sent + FullBatches(max, batch + first) + FullBatches(max, Leftover(max, batch + first) + rest)
    ensures Leftover(max, batch + (first + rest)) == Leftover(max, Leftover(max, batch + first) + rest)
  {
    BatchesSplit(max, batch + first, rest);
    assert batch + (first + rest) == (batch + first) + rest;
  }

  /** Two ways of reading the same bytes post the same batches and leave the same rest. */
  lemma FragmentationIndependent(c: OutputConfig, w: World, o: Buffer, pieces: seq<Bytes>, others: seq<Bytes>)
    requires 1 <= c.batchMax && |o.batch| < c.batchMax && Concat(pieces) == Concat(others)
    requires Calm(w, o, AppendAll(c, w, o, pieces).0) && Calm(w, o, AppendAll(c, w, o, others).0)
    ensures AppendAll(c, w, o, pieces).0.sent == AppendAll(c, w, o, others).0.sent
    ensures AppendAll(c, w, o, pieces).0.batch == AppendAll(c, w, o, others).0.batch
  {
    AppendAllCutsBatches(c, w, o, pieces);
    AppendAllCutsBatches(c, w, o, others);
  }

  // ----- the object

  datatype PortMessage = OutputMessage(bytes: Bytes) | ClosedMessage

  function Messages(sent: seq<Bytes>): seq<PortMessage> {
    seq(|sent|, i requires 0 <= i < |sent| => OutputMessage(sent[i]))
  }

  class OutputBuffer {
    const c: OutputConfig
    const w: World
    var batch: Bytes
    var pending: bool
    var sent: seq<Bytes>
    var loads: nat
    var reservations: nat
    var posts: nat
    var reserved: nat             // in-flight bytes this reader has added, less those it took back
    var port: seq<PortMessage>    // posted to the output port
    var events: seq<PtyxError>    // output errors posted to the event port

    ghost function State(): Buffer
      reads this
    {
      Buffer(batch, pending, sent, loads, reservations, posts)
    }

    /** Only output has been posted, in order, and no error. */
    ghost predicate Open()
      reads this
    {
      port == Messages(sent) && events == []
    }

    /** With acknowledgements the reader has added to the in-flight counter exactly what
        the port accepted; without them, nothing. */
    ghost predicate Balanced()
      reads this
    {
      reserved == if c.requireAcks then |Concat(sent)| else 0
    }

    constructor (c: OutputConfig, w: World)
      ensures Open() && Balanced() && State() == EMPTY_BUFFER && this.c == c && this.w == w
    {
      this.c, this.w := c, w;
      batch, pending, sent := [], false, [];
      loads, reservations, posts, reserved := 0, 0, 0, 0;
      port, events := [], [];
    }

    /** Loads the stop flag. */
    method StopIsSet() returns (stopped: bool)
      modifies this`loads
      ensures stopped == w.stop(old(loads)) && loads == old(loads) + 1
    {
      stopped := w.stop(loads);
      loads := loads + 1;
    }

    /** Waits for in-flight capacity; false when the stop flag ended the wait. */
    method WaitForCapacity() returns (granted: bool)
      modifies this`loads
      ensures granted == (!c.requireAcks || !w.stop(old(loads)))
      ensures loads == if c.requireAcks then old(loads) + 1 else old(loads)
    {
      if !c.requireAcks {
        return true;
      }
      var stopped := StopIsSet();
      granted := !stopped;
    }

    method ReserveInflight(len: nat)
      modifies this`reserved
      ensures reserved == if c.requireAcks then old(reserved) + len else old(reserved)
    {
      if c.requireAcks {
        reserved := reserved + len;
      }
    }

    /** Takes back a reservation whose post was refused. */
    method ReleaseInflight(len: nat)
      requires c.requireAcks ==> len <= reserved
      modifies this`reserved
      ensures reserved == if c.requireAcks then old(reserved) - len else old(reserved)
    {
      if c.requireAcks {
        reserved := reserved - len;
      }
    }

    method ReserveExternal(len: nat) returns (fits: bool)
      modifies this`reservations
      ensures fits == (c.useExternal && len <= c.maxExternal && w.externalFits(old(reservations)))
      ensures reservations == if c.useExternal then old(reservations) + 1 else old(reservations)
    {
      if !c.useExternal {
        return false;
      }
      fits := len <= c.maxExternal && w.externalFits(reservations);
      reservations := reservations + 1;
    }

    method PostOutput(bytes: Bytes) returns (posted: bool)
      modifies this`sent, this`posts, this`port
      ensures old(Open()) ==> Open()
      ensures posted == w.accepts(old(posts)) && posts == old(posts) + 1
      ensures sent == if posted then old(sent) + [bytes] else old(sent)
    {
      posted := w.accepts(posts);
      posts := posts + 1;
      if posted {
        sent := sent + [bytes];
        port := port + [OutputMessage(bytes)];
      }
    }

    method ClosePorts()
      modifies this`port
      ensures port == old(port) + [ClosedMessage]
    {
      port := port + [ClosedMessage];
    }

    method PostError(error: PtyxError)
      modifies this`events
      ensures events == old(events) + [error]
    {
      events := events + [error];
    }

    method FlushBatch() returns (ok: bool)
      modifies this
      ensures (State(), ok) == Flush(c, w, old(State()))
      ensures old(Open()) ==> Open()
      ensures old(Balanced()) ==> Balanced()
    {
      hide Concat, Messages;
      if batch == [] {
        pending := false;
        return true;
      }
      var granted := WaitForCapacity();
      if !granted {
        return true;
      }
      var len := |batch|;
      ConcatSnoc(sent, batch);
      ReserveInflight(len);
      var external := ReserveExternal(len);
      var posted;
      if external {
        var bytes := batch;
        batch := [];
        posted := PostOutput(bytes);
      } else {
        posted := PostOutput(batch);
        if posted {
          batch := [];
        }
      }
      if !posted {
        ReleaseInflight(len);
        return false;
      }
      pending := false;
      return true;
    }

    method AppendBytes(bytes: Bytes) returns (ok: bool)
      modifies this
      ensures (State(), ok) == Append(c, w, old(State()), bytes)
      ensures old(Open()) ==> Open()
      ensures old(Balanced()) ==> Balanced()
    {
      var data := bytes;
      while data != []
        invariant Append(c, w, State(), data) == Append(c, w, old(State()), bytes)
        invariant old(Open()) ==> Open()
        invariant old(Balanced()) ==> Balanced()
        decreases |data|
      {
        if batch == [] {
          pending := true;
        }
        var available := SaturatingSub(c.batchMax, |batch|);
        var take := Min(|data|, Max(available, 1));
        batch := batch + data[..take];
        data := data[take..];
        if |batch| >= c.batchMax {
          var flushed := FlushBatch();
          if !flushed {
            return false;
          }
        }
      }
      return true;
    }
  }
}
