/** Any number of callers, one writer thread and a closer sharing one write queue,
    interleaved at every lock boundary.

    A caller's operation is cut where it takes or drops the lock: the copying
    enqueue validates, copies unlocked and locks again; enqueue and close notify
    the condvar only after dropping the lock. The writer thread is cut at every
    lock, at the session-closed test, at each closed poll and at each partial write. */
module WriterSystem {
  import opened Ptyx
  import opened WriteQueue

  datatype Tid = Caller(id: nat) | Writer

  /** An operation is invoked, takes effect at one point, and returns. */
  datatype Entry =
    | Called(tid: Tid, op: Op)
    | Took(tid: Tid, op: Op, reply: Reply)
    | Returned(tid: Tid, reply: Reply)

  datatype CallerPc =
    | Idle
    | Entering(op: Op)
    | Copying(bytes: Bytes)
    | Notifying(op: Op, reply: Reply)
    | Returning(op: Op, reply: Reply)

  datatype WriterPc =
    | Starting
    | Dequeuing
    | Parked
    | Holding(chunk: Bytes)
    | Checking(rest: Bytes)
    | Writing(rest: Bytes)
    | Failing(error: PtyxError, rest: Bytes)
    | Reporting(error: PtyxError)
    | Exited

  /** The last five fields are history: chunks accepted, bytes the PTY took, bytes
      discarded by close or failure, error events posted, and the operation log. */
  datatype Sys = Sys(
    q: QueueState,
    max: QueueLimit,
    sessionClosed: bool,
    callers: map<nat, CallerPc>,
    writer: WriterPc,
    accepted: seq<Bytes>,
    written: Bytes,
    lost: Bytes,
    errors: seq<PtyxError>,
    log: seq<Entry>)

  function Initial(max: QueueLimit): Sys {
    Sys(EMPTY_QUEUE, max, false, map[], Starting, [], [], [], [], [])
  }

  function PcOf(s: Sys, id: nat): CallerPc {
    if id in s.callers then s.callers[id] else Idle
  }

  // ----- callers

  datatype CallerStep = Call(op: Op) | Enter | FinishCopy(hasMemory: bool) | Notify | Return

  predicate CallerEnabled(s: Sys, id: nat, step: CallerStep) {
    var pc := PcOf(s, id);
    match step
    case Call(op) => pc.Idle? && (op.Enqueue? || op.Close?)
    case Enter => pc.Entering?
    case FinishCopy(_) => pc.Copying?
    case Notify => pc.Notifying?
    case Return => pc.Returning?
  }

  function Answer(s: Sys, id: nat, op: Op, reply: Reply): Sys {
    s.(callers := s.callers[id := Returning(op, reply)], log := s.log + [Took(Caller(id), op, reply)])
  }

  /** The section that validates under the lock and pushes if allowed. */
  function Admit(s: Sys, id: nat, op: Op): Sys
    requires op.Enqueue?
  {
    match Validate(s.q, s.max, |op.bytes|)
    case Some(error) => Answer(s, id, op, Refused(error))
    case None =>
      s.(q := Push(s.q, op.bytes),
         accepted := s.accepted + [op.bytes],
         callers := s.callers[id := Notifying(op, Done)],
         log := s.log + [Took(Caller(id), op, Done)])
  }

  function Begin(s: Sys, id: nat, op: Op): Sys {
    match op
    case Enqueue(bytes, copied) =>
      if bytes == [] then Answer(s, id, op, Done)
      else if |bytes| > s.max then Answer(s, id, op, Refused(QUEUE_FULL))
      else if !copied then Admit(s, id, op)
      else (
        match Validate(s.q, s.max, |bytes|)
        case Some(error) => Answer(s, id, op, Refused(error))
        case None => s.(callers := s.callers[id := Copying(bytes)])
      )
    case Close =>
      s.(q := CloseQueue(s.q),
         lost := Concat(s.q.queue) + s.lost,
         callers := s.callers[id := Notifying(op, Done)],
         log := s.log + [Took(Caller(id), op, Done)])
    case _ => s
  }

  function CallerNext(s: Sys, id: nat, step: CallerStep): Sys
    requires CallerEnabled(s, id, step)
  {
    var pc := PcOf(s, id);
    match step
    case Call(op) =>
      s.(callers := s.callers[id := Entering(op)], log := s.log + [Called(Caller(id), op)])
    case Enter => Begin(s, id, pc.op)
    case FinishCopy(hasMemory) =>
      var op := Enqueue(pc.bytes, true);
      if hasMemory then Admit(s, id, op) else Answer(s, id, op, Refused(ALLOCATION_FAILED))
    case Notify =>
      s.(callers := s.callers[id := Returning(pc.op, pc.reply)],
         writer := if s.writer.Parked? then Dequeuing else s.writer)
    case Return =>
      s.(callers := s.callers[id := Idle], log := s.log + [Returned(Caller(id), pc.reply)])
  }

  // ----- the writer thread

  /** What one write attempt does: takes a non-empty prefix, is interrupted or finds
      the PTY full (then polls and retries), or fails. */
  datatype WriteOutcome = Wrote(count: nat) | Retry | WriteError(error: PtyxError)

  datatype WriterStep =
    | Start(failure: Option<PtyxError>)
    | TakeChunk
    | SpuriousWakeup
    | TestSession
    | PollClosed
    | Write(outcome: WriteOutcome)
    | RecordFailure
    | Report

  const SESSION_CLOSED := PtyxError(Closed, "session is closed")

  function NormalizeWriteError(error: PtyxError): PtyxError {
    if error.kind == BrokenPipe then PtyxError(Closed, error.message) else error
  }

  predicate WriterEnabled(s: Sys, step: WriterStep) {
    match step
    case Start(_) => s.writer.Starting?
    case TakeChunk => s.writer.Dequeuing?
    case SpuriousWakeup => s.writer.Parked?
    case TestSession => s.writer.Holding?
    case PollClosed => s.writer.Checking?
    case Write(outcome) => s.writer.Writing? && (outcome.Wrote? ==> 0 < outcome.count <= |s.writer.rest|)
    case RecordFailure => s.writer.Failing?
    case Report => s.writer.Reporting?
  }

  function BeginDequeue(s: Sys): Sys {
    s.(writer := Dequeuing, log := s.log + [Called(Writer, Dequeue)])
  }

  function EndDequeue(s: Sys, reply: Reply): Sys {
    s.(log := s.log + [Took(Writer, Dequeue, reply)] + [Returned(Writer, reply)])
  }

  function Take(s: Sys): Sys {
    match Pop(s.q)
    case Popped(chunk, after) => EndDequeue(s.(q := after, writer := Holding(chunk)), Got(chunk))
    case Failed(error) => EndDequeue(s.(writer := Reporting(error)), Refused(error))
    case Ended => EndDequeue(s.(writer := Exited), NoMore)
    case MustPark => s.(writer := Parked)
  }

  function Fail(s: Sys, error: PtyxError, rest: Bytes): Sys {
    s.(q := FailQueue(s.q, error),
       lost := rest + Concat(s.q.queue) + s.lost,
       writer := Reporting(error),
       log := s.log + [Called(Writer, Op.Fail(error))] + [Took(Writer, Op.Fail(error), Done)]
                    + [Returned(Writer, Done)])
  }

  function WriterNext(s: Sys, step: WriterStep): Sys
    requires WriterEnabled(s, step)
  {
    match step
    case Start(failure) =>
      if failure.Some? then s.(writer := Failing(failure.value, [])) else BeginDequeue(s)
    case TakeChunk => Take(s)
    case SpuriousWakeup => s.(writer := Dequeuing)
    case TestSession =>
      s.(writer := if s.sessionClosed then Failing(SESSION_CLOSED, s.writer.chunk)
                   else Checking(s.writer.chunk))
    case PollClosed =>
      if s.writer.rest == [] then BeginDequeue(s)
      else if s.q.closed then s.(writer := Exited, lost := s.writer.rest + s.lost)
      else s.(writer := Writing(s.writer.rest))
    case Write(Wrote(n)) =>
      s.(written := s.written + s.writer.rest[..n], writer := Checking(s.writer.rest[n..]))
    case Write(Retry) => s.(writer := Checking(s.writer.rest))
    case Write(WriteError(error)) => s.(writer := Failing(NormalizeWriteError(error), s.writer.rest))
    case RecordFailure => Fail(s, s.writer.error, s.writer.rest)
    case Report => s.(errors := s.errors + [s.writer.error], writer := Exited)
  }

  // ----- runs

  datatype Action = CallerDoes(id: nat, cstep: CallerStep) | WriterDoes(wstep: WriterStep) | CloseSession

  predicate Enabled(s: Sys, a: Action) {
    match a
    case CallerDoes(id, step) => CallerEnabled(s, id, step)
    case WriterDoes(step) => WriterEnabled(s, step)
    case CloseSession => true
  }

  function Next(s: Sys, a: Action): Sys
    requires Enabled(s, a)
  {
    match a
    case CallerDoes(id, step) => CallerNext(s, id, step)
    case WriterDoes(step) => WriterNext(s, step)
    case CloseSession => s.(sessionClosed := true)
  }

  /** `run` is a run: it starts in an initial state and each state follows from the
      one before by some enabled action. */
  ghost predicate IsRun(run: seq<Sys>) {
    && run != []
    && (exists max: QueueLimit :: run[0] == Initial(max))
    && forall i, j | 0 <= i < j < |run| && j == i + 1 :: Follows(run[i], run[j])
  }

  ghost predicate Follows(s: Sys, t: Sys) {
    exists a: Action :: Enabled(s, a) && t == Next(s, a)
  }

  // ----- the invariant

  function InHand(w: WriterPc): Bytes {
    match w
    case Holding(chunk) => chunk
    case Checking(rest) => rest
    case Writing(rest) => rest
    case Failing(_, rest) => rest
    case _ => []
  }

  /** Nothing is lost, duplicated or reordered between acceptance and the PTY. */
  ghost predicate BytesConserved(s: Sys) {
    && Concat(s.accepted) == s.written + InHand(s.writer) + Concat(s.q.queue) + s.lost
    && (s.lost != [] ==> s.q.closed || s.q.failure.Some?)
  }

  ghost predicate Bounded(s: Sys) {
    && WellFormed(s.q, s.max)
    && |InHand(s.writer)| <= s.max
    && (s.writer.Holding? || s.writer.Writing? ==> InHand(s.writer) != [])
  }

  /** The only failure is the one the writer recorded, after which it only reports. */
  ghost predicate FailureFinal(s: Sys) {
    && (s.q.failure.Some? ==> s.writer.Reporting? || s.writer.Exited?)
    && (s.writer.Reporting? ==> s.q.failure == Some(s.writer.error) && s.errors == [])
    && (s.writer.Exited? ==> s.q.closed || s.q.failure.Some?)
    && (!s.writer.Exited? ==> s.errors == [])
    && (s.writer.Exited? ==> s.errors == if s.q.failure.Some? then [s.q.failure.value] else [])
  }

  /** A parked writer has nothing to do, or a caller still owes it a notify. */
  ghost predicate NoLostWakeup(s: Sys) {
    s.writer.Parked? ==>
      || (s.q.queue == [] && !s.q.closed && s.q.failure.None?)
      || exists id | id in s.callers :: s.callers[id].Notifying?
  }

  ghost predicate CallersSound(s: Sys) {
    forall id | id in s.callers ::
      var pc := s.callers[id];
      && (pc.Entering? ==> pc.op.Enqueue? || pc.op.Close?)
      && (pc.Copying? ==> 0 < |pc.bytes| <= s.max)
  }

  // The log, read per thread: what the thread is doing after the log so far.

  datatype View = Outside | Inside(op: Op) | Answered(reply: Reply)

  ghost function ViewOf(log: seq<Entry>, tid: Tid): View {
    if log == [] then Outside
    else
      var last := log[|log| - 1];
      if last.tid == tid then ViewAfter(last) else ViewOf(log[..|log| - 1], tid)
  }

  ghost function ViewAfter(e: Entry): View {
    match e
    case Called(_, op) => Inside(op)
    case Took(_, _, reply) => Answered(reply)
    case Returned(_, _) => Outside
  }

  /** The reference FIFO after the effects in the log, in the order they took place. */
  ghost function Replay(log: seq<Entry>): Fifo {
    if log == [] then Fifo([], false, None)
    else
      var before := Replay(log[..|log| - 1]);
      var last := log[|log| - 1];
      if last.Took? then After(before, last.op, last.reply) else before
  }

  /** The log is linearizable with its `Took` entries as linearization points: each
      operation takes effect exactly once, between its call and its return, returns
      the reply it got there, and that reply is one the atomic FIFO allows there. */
  ghost predicate Linearizable(max: QueueLimit, log: seq<Entry>) {
    log != [] ==>
      var before := log[..|log| - 1];
      Linearizable(max, before) && MayFollow(max, before, log[|log| - 1])
  }

  ghost predicate MayFollow(max: QueueLimit, log: seq<Entry>, e: Entry) {
    match e
    case Called(tid, op) => ViewOf(log, tid) == Outside
    case Took(tid, op, reply) => ViewOf(log, tid) == Inside(op) && Allowed(Replay(log), max, op, reply)
    case Returned(tid, reply) => ViewOf(log, tid) == Answered(reply)
  }

  ghost function CallerView(pc: CallerPc): View {
    match pc
    case Idle => Outside
    case Entering(op) => Inside(op)
    case Copying(bytes) => Inside(Enqueue(bytes, true))
    case Notifying(_, reply) => Answered(reply)
    case Returning(_, reply) => Answered(reply)
  }

  ghost predicate LogSound(s: Sys) {
    && Linearizable(s.max, s.log)
    && Replay(s.log) == Abstract(s.q)
    && (forall id: nat :: ViewOf(s.log, Caller(id)) == CallerView(PcOf(s, id)))
    && ViewOf(s.log, Writer) == if s.writer.Dequeuing? || s.writer.Parked? then Inside(Dequeue) else Outside
  }

  ghost predicate Inv(s: Sys) {
    && Bounded(s)
    && CallersSound(s)
    && BytesConserved(s)
    && FailureFinal(s)
    && NoLostWakeup(s)
    && LogSound(s)
  }

  // ----- preservation

  // The five ways bytes move: written, lost with the chunk in hand, cleared, pushed, popped.

  lemma BytesWrite(written: Bytes, rest: Bytes, n: nat, queued: Bytes, lost: Bytes)
    requires n <= |rest|
    ensures written + rest + queued + lost == (written + rest[..n]) + rest[n..] + queued + lost
  {
    assert rest == rest[..n] + rest[n..];
    assert written + (rest[..n] + rest[n..]) == (written + rest[..n]) + rest[n..];
  }

  lemma BytesLose(written: Bytes, hand: Bytes, queued: Bytes, lost: Bytes)
    ensures written + hand + queued + lost == written + [] + [] + (hand + queued + lost)
  {
    assert written + [] + [] == written;
    assert written + hand + queued + lost == written + (hand + queued + lost);
  }

  lemma BytesClear(written: Bytes, hand: Bytes, queued: Bytes, lost: Bytes)
    ensures written + hand + queued + lost == written + hand + [] + (queued + lost)
  {
    assert written + hand + [] == written + hand;
    assert (written + hand) + queued + lost == (written + hand) + (queued + lost);
  }

  lemma BytesPush(written: Bytes, hand: Bytes, queued: Bytes, chunk: Bytes)
    ensures (written + hand + queued + []) + chunk == written + hand + (queued + chunk) + []
  {
    assert (written + hand) + queued + chunk == (written + hand) + (queued + chunk);
  }

  lemma BytesPop(written: Bytes, chunk: Bytes, queued: Bytes)
    ensures written + [] + (chunk + queued) + [] == written + chunk + queued + []
  {
    assert written + (chunk + queued) == (written + chunk) + queued;
  }

  lemma LogGrows(max: QueueLimit, log: seq<Entry>, e: Entry)
    requires Linearizable(max, log)
    requires MayFollow(max, log, e)
    ensures Linearizable(max, log + [e])
    ensures Replay(log + [e]) == if e.Took? then After(Replay(log), e.op, e.reply) else Replay(log)
    ensures forall tid :: ViewOf(log + [e], tid) == if tid == e.tid then ViewAfter(e) else ViewOf(log, tid)
  {
    assert (log + [e])[..|log|] == log;
  }

  /** A caller step that changes only its own place and the log. */
  lemma OnlyLogged(s: Sys, t: Sys, id: nat)
    requires Bounded(s) && CallersSound(s) && BytesConserved(s) && FailureFinal(s)
    requires id in t.callers && t == s.(callers := s.callers[id := t.callers[id]], log := t.log)
    requires var pc := t.callers[id]; !pc.Copying? && (pc.Entering? ==> pc.op.Enqueue? || pc.op.Close?)
    ensures Bounded(t) && CallersSound(t) && BytesConserved(t) && FailureFinal(t)
  {
  }

  lemma AnswerKeeps(s: Sys, id: nat, op: Op, reply: Reply)
    requires Inv(s) && CallerView(PcOf(s, id)) == Inside(op) && PcOf(s, id) != Idle
    requires Allowed(Abstract(s.q), s.max, op, reply) && After(Abstract(s.q), op, reply) == Abstract(s.q)
    ensures Inv(Answer(s, id, op, reply))
  {
    var t := Answer(s, id, op, reply);
    LogGrows(s.max, s.log, Took(Caller(id), op, reply));
    WakeupKept(s, t, id);
    OnlyLogged(s, t, id);
    assert LogSound(t) by {
      hide Bounded, CallersSound, BytesConserved, FailureFinal, NoLostWakeup;
    }
    hide LogSound, NoLostWakeup, Bounded, CallersSound, BytesConserved, FailureFinal;
  }

  /** Changing one caller that was not notifying cannot lose a wakeup. */
  lemma WakeupKept(s: Sys, t: Sys, id: nat)
    requires NoLostWakeup(s) && !PcOf(s, id).Notifying?
    requires t.writer == s.writer && t.q == s.q
    requires id in t.callers && t.callers == s.callers[id := t.callers[id]]
    ensures NoLostWakeup(t)
  {
    if s.writer.Parked? && !(s.q.queue == [] && !s.q.closed && s.q.failure.None?) {
      var other :| other in s.callers && s.callers[other].Notifying?;
      assert other in t.callers && t.callers[other].Notifying?;
    }
  }

  lemma AdmitKeeps(s: Sys, id: nat, op: Op)
    requires Inv(s) && CallerView(PcOf(s, id)) == Inside(op) && PcOf(s, id) != Idle
    requires op.Enqueue? && 0 < |op.bytes| <= s.max
    ensures Inv(Admit(s, id, op))
  {
    PushRefines(s.q, s.max, op.bytes, op.copied);
    if Validate(s.q, s.max, |op.bytes|).Some? {
      AnswerKeeps(s, id, op, Refused(Validate(s.q, s.max, |op.bytes|).value));
    } else {
      PushKeeps(s, id, op);
    }
  }

  lemma PushKeeps(s: Sys, id: nat, op: Op)
    requires Inv(s) && CallerView(PcOf(s, id)) == Inside(op) && PcOf(s, id) != Idle
    requires op.Enqueue? && 0 < |op.bytes| <= s.max && Validate(s.q, s.max, |op.bytes|).None?
    ensures Inv(Admit(s, id, op))
  {
    var t := Admit(s, id, op);
    PushRefines(s.q, s.max, op.bytes, op.copied);
    LogGrows(s.max, s.log, Took(Caller(id), op, Done));
    assert BytesConserved(t) by {
      hide Bounded, CallersSound, FailureFinal, NoLostWakeup, LogSound;
      ConcatSnoc(s.q.queue, op.bytes);
      ConcatSnoc(s.accepted, op.bytes);
      BytesPush(s.written, InHand(s.writer), Concat(s.q.queue), op.bytes);
    }
    assert LogSound(t) by {
      hide Bounded, CallersSound, BytesConserved, FailureFinal, NoLostWakeup;
    }
    hide BytesConserved, LogSound;
    assert t.callers[id].Notifying?;
  }

  lemma CloseKeeps(s: Sys, id: nat)
    requires Inv(s) && PcOf(s, id) == Entering(Op.Close)
    ensures Inv(Begin(s, id, Op.Close))
  {
    var t := Begin(s, id, Op.Close);
    LogGrows(s.max, s.log, Took(Caller(id), Op.Close, Done));
    assert BytesConserved(t) by {
      hide Bounded, CallersSound, FailureFinal, NoLostWakeup, LogSound;
      BytesClear(s.written, InHand(s.writer), Concat(s.q.queue), s.lost);
    }
    assert LogSound(t) by {
      hide Bounded, CallersSound, BytesConserved, FailureFinal, NoLostWakeup;
    }
    hide BytesConserved, LogSound;
    assert t.callers[id].Notifying?;
  }

  lemma CopyKeeps(s: Sys, id: nat, bytes: Bytes)
    requires Inv(s) && PcOf(s, id) == Entering(Enqueue(bytes, true)) && 0 < |bytes| <= s.max
    ensures Inv(s.(callers := s.callers[id := Copying(bytes)]))
  {
    WakeupKept(s, s.(callers := s.callers[id := Copying(bytes)]), id);
  }

  lemma BeginKeeps(s: Sys, id: nat, op: Op)
    requires Inv(s) && PcOf(s, id) == Entering(op)
    ensures Inv(Begin(s, id, op))
  {
    hide BytesConserved, FailureFinal, NoLostWakeup, LogSound;
    match op
    case Enqueue(bytes, copied) =>
      if bytes == [] {
        AnswerKeeps(s, id, op, Done);
      } else if |bytes| > s.max {
        AnswerKeeps(s, id, op, Refused(QUEUE_FULL));
      } else if !copied {
        AdmitKeeps(s, id, op);
      } else {
        PushRefines(s.q, s.max, bytes, copied);
        if Validate(s.q, s.max, |bytes|).Some? {
          AnswerKeeps(s, id, op, Refused(Validate(s.q, s.max, |bytes|).value));
        } else {
          CopyKeeps(s, id, bytes);
        }
      }
    case Close => CloseKeeps(s, id);
    case _ =>
  }

  lemma CallKeeps(s: Sys, id: nat, op: Op)
    requires Inv(s) && CallerEnabled(s, id, Call(op))
    ensures Inv(CallerNext(s, id, Call(op)))
  {
    var t := CallerNext(s, id, Call(op));
    LogGrows(s.max, s.log, Called(Caller(id), op));
    WakeupKept(s, t, id);
    OnlyLogged(s, t, id);
    assert LogSound(t) by {
      hide Bounded, CallersSound, BytesConserved, FailureFinal, NoLostWakeup;
    }
    hide LogSound, NoLostWakeup, Bounded, CallersSound, BytesConserved, FailureFinal;
  }

  lemma ReturnKeeps(s: Sys, id: nat)
    requires Inv(s) && CallerEnabled(s, id, Return)
    ensures Inv(CallerNext(s, id, Return))
  {
    var t := CallerNext(s, id, Return);
    LogGrows(s.max, s.log, Returned(Caller(id), PcOf(s, id).reply));
    WakeupKept(s, t, id);
    OnlyLogged(s, t, id);
    assert LogSound(t) by {
      hide Bounded, CallersSound, BytesConserved, FailureFinal, NoLostWakeup;
    }
    hide LogSound, NoLostWakeup, Bounded, CallersSound, BytesConserved, FailureFinal;
  }

  lemma NotifyKeeps(s: Sys, id: nat)
    requires Inv(s) && CallerEnabled(s, id, Notify)
    ensures Inv(CallerNext(s, id, Notify))
  {
  }

  lemma CallerKeeps(s: Sys, id: nat, step: CallerStep)
    requires Inv(s) && CallerEnabled(s, id, step)
    ensures Inv(CallerNext(s, id, step))
  {
    hide BytesConserved, FailureFinal, NoLostWakeup, LogSound;
    var pc := PcOf(s, id);
    match step
    case Call(op) => CallKeeps(s, id, op);
    case Enter => BeginKeeps(s, id, pc.op);
    case FinishCopy(hasMemory) =>
      var op := Enqueue(pc.bytes, true);
      if hasMemory { AdmitKeeps(s, id, op); } else { AnswerKeeps(s, id, op, Refused(ALLOCATION_FAILED)); }
    case Notify => NotifyKeeps(s, id);
    case Return => ReturnKeeps(s, id);
  }

  lemma EndDequeueLog(s: Sys, reply: Reply)
    requires LogSound(s) && s.writer.Dequeuing? && Allowed(Abstract(s.q), s.max, Dequeue, reply)
    ensures var log := EndDequeue(s, reply).log;
            && Linearizable(s.max, log)
            && Replay(log) == After(Abstract(s.q), Dequeue, reply)
            && (forall id: nat :: ViewOf(log, Caller(id)) == ViewOf(s.log, Caller(id)))
            && ViewOf(log, Writer) == Outside
  {
    LogGrows(s.max, s.log, Took(Writer, Dequeue, reply));
    LogGrows(s.max, s.log + [Took(Writer, Dequeue, reply)], Returned(Writer, reply));
  }

  lemma PoppedKeeps(s: Sys)
    requires Inv(s) && s.writer.Dequeuing? && s.q.queue != []
    ensures Inv(Take(s))
  {
    PopRefines(s.q, s.max);
    var popped := Pop(s.q);
    EndDequeueLog(s, Got(popped.chunk));
    var t := Take(s);
    assert BytesConserved(t) by {
      hide Bounded, CallersSound, FailureFinal, NoLostWakeup, LogSound;
      BytesPop(s.written, popped.chunk, Concat(popped.after.queue));
    }
    assert LogSound(t) by {
      hide Bounded, CallersSound, BytesConserved, FailureFinal, NoLostWakeup;
    }
    hide BytesConserved, LogSound;
  }

  lemma EndedKeeps(s: Sys)
    requires Inv(s) && s.writer.Dequeuing? && Pop(s.q).Ended?
    ensures Inv(Take(s))
  {
    EndDequeueLog(s, NoMore);
    var t := Take(s);
    assert LogSound(t) by {
      hide Bounded, CallersSound, BytesConserved, FailureFinal, NoLostWakeup;
    }
    assert Bounded(t) && CallersSound(t) && BytesConserved(t) && FailureFinal(t) && NoLostWakeup(t) by {
      hide LogSound;
    }
    hide LogSound, NoLostWakeup, Bounded, CallersSound, BytesConserved, FailureFinal;
  }

  /** A writer step that leaves the log, the queue and the callers alone. */
  lemma LogKept(s: Sys, t: Sys)
    requires LogSound(s) && t.log == s.log && t.q == s.q && t.callers == s.callers && t.max == s.max
    requires (t.writer.Dequeuing? || t.writer.Parked?) <==> (s.writer.Dequeuing? || s.writer.Parked?)
    ensures LogSound(t)
  {
  }

  lemma ParkKeeps(s: Sys)
    requires Inv(s) && s.writer.Dequeuing? && Pop(s.q).MustPark?
    ensures Inv(Take(s))
  {
    LogKept(s, Take(s));
    hide LogSound;
  }

  lemma NeverFailed(s: Sys)
    requires FailureFinal(s) && s.writer.Dequeuing?
    ensures !Pop(s.q).Failed?
  {
  }

  /** The failure branch of dequeue is never taken. */
  lemma TakeKeeps(s: Sys)
    requires Inv(s) && s.writer.Dequeuing?
    ensures Inv(Take(s)) && !Pop(s.q).Failed?
  {
    NeverFailed(s);
    hide Bounded, CallersSound, BytesConserved, FailureFinal, NoLostWakeup, LogSound, Take;
    match Pop(s.q)
    case Popped(_, _) => PoppedKeeps(s);
    case Ended => EndedKeeps(s);
    case MustPark => ParkKeeps(s);
  }

  lemma FailLog(s: Sys, error: PtyxError, rest: Bytes)
    requires LogSound(s) && s.writer == Failing(error, rest)
    ensures var log := Fail(s, error, rest).log;
            && Linearizable(s.max, log)
            && Replay(log) == Abstract(FailQueue(s.q, error))
            && (forall id: nat :: ViewOf(log, Caller(id)) == ViewOf(s.log, Caller(id)))
            && ViewOf(log, Writer) == Outside
  {
    var called := s.log + [Called(Writer, Op.Fail(error))];
    var took := called + [Took(Writer, Op.Fail(error), Done)];
    LogGrows(s.max, s.log, Called(Writer, Op.Fail(error)));
    LogGrows(s.max, called, Took(Writer, Op.Fail(error), Done));
    LogGrows(s.max, took, Returned(Writer, Done));
  }

  lemma FailKeeps(s: Sys, error: PtyxError, rest: Bytes)
    requires Inv(s) && s.writer == Failing(error, rest)
    ensures Inv(Fail(s, error, rest))
  {
    var t := Fail(s, error, rest);
    FailLog(s, error, rest);
    assert BytesConserved(t) by {
      hide Bounded, CallersSound, FailureFinal, NoLostWakeup, LogSound;
      BytesLose(s.written, rest, Concat(s.q.queue), s.lost);
    }
    assert LogSound(t) by {
      hide Bounded, CallersSound, BytesConserved, FailureFinal, NoLostWakeup;
    }
    hide BytesConserved, LogSound;
  }

  lemma WroteKeeps(s: Sys, n: nat)
    requires Inv(s) && s.writer.Writing? && 0 < n <= |s.writer.rest|
    ensures Inv(WriterNext(s, Write(Wrote(n))))
  {
    var t := WriterNext(s, Write(Wrote(n)));
    LogKept(s, t);
    assert BytesConserved(t) by {
      hide Bounded, CallersSound, FailureFinal, NoLostWakeup, LogSound;
      BytesWrite(s.written, s.writer.rest, n, Concat(s.q.queue), s.lost);
    }
    hide BytesConserved, LogSound;
  }

  lemma BeginDequeueKeeps(s: Sys)
    requires Inv(s) && (s.writer.Starting? || s.writer == Checking([]))
    ensures Inv(BeginDequeue(s))
  {
    LogGrows(s.max, s.log, Called(Writer, Dequeue));
  }

  lemma AbandonKeeps(s: Sys)
    requires Inv(s) && s.writer.Checking? && s.writer.rest != [] && s.q.closed
    ensures Inv(WriterNext(s, PollClosed))
  {
    LogKept(s, WriterNext(s, PollClosed));
    hide LogSound;
    var t := WriterNext(s, PollClosed);
    assert s.q.queue == [];
    assert BytesConserved(t) by {
      hide Bounded, CallersSound, FailureFinal, NoLostWakeup;
      BytesLose(s.written, s.writer.rest, [], s.lost);
      assert s.writer.rest + [] + s.lost == s.writer.rest + s.lost;
    }
    hide BytesConserved;
  }

  /** Moving the writer without touching the bytes it holds. */
  lemma MoveKeeps(s: Sys, w: WriterPc)
    requires Inv(s) && InHand(w) == InHand(s.writer)
    requires !s.writer.Reporting? && !s.writer.Exited? && (w.Dequeuing? ==> s.writer.Parked?)
    requires !s.writer.Dequeuing? && (s.writer.Parked? ==> w.Dequeuing?)
    requires !w.Parked? && !w.Reporting? && !w.Exited? && (w.Holding? || w.Writing? ==> InHand(w) != [])
    ensures Inv(s.(writer := w))
  {
    LogKept(s, s.(writer := w));
    hide LogSound;
  }

  lemma ReportKeeps(s: Sys)
    requires Inv(s) && s.writer.Reporting?
    ensures Inv(WriterNext(s, Report))
  {
    LogKept(s, WriterNext(s, Report));
    hide LogSound;
  }

  lemma WriterKeeps(s: Sys, step: WriterStep)
    requires Inv(s) && WriterEnabled(s, step)
    ensures Inv(WriterNext(s, step))
  {
    hide Bounded, CallersSound, BytesConserved, FailureFinal, NoLostWakeup, LogSound;
    match step
    case Start(failure) =>
      if failure.None? { BeginDequeueKeeps(s); } else { MoveKeeps(s, Failing(failure.value, [])); }
    case TakeChunk => TakeKeeps(s);
    case SpuriousWakeup => MoveKeeps(s, Dequeuing);
    case TestSession =>
      MoveKeeps(s, if s.sessionClosed then Failing(SESSION_CLOSED, s.writer.chunk) else Checking(s.writer.chunk));
    case PollClosed =>
      if s.writer.rest == [] {
        BeginDequeueKeeps(s);
      } else if s.q.closed {
        AbandonKeeps(s);
      } else {
        MoveKeeps(s, Writing(s.writer.rest));
      }
    case Write(Wrote(n)) => WroteKeeps(s, n);
    case Write(Retry) => MoveKeeps(s, Checking(s.writer.rest));
    case Write(WriteError(error)) => MoveKeeps(s, Failing(NormalizeWriteError(error), s.writer.rest));
    case RecordFailure => FailKeeps(s, s.writer.error, s.writer.rest);
    case Report => ReportKeeps(s);
  }

  lemma Keeps(s: Sys, a: Action)
    requires Inv(s) && Enabled(s, a)
    ensures Inv(Next(s, a))
  {
    match a
    case CallerDoes(id, step) => CallerKeeps(s, id, step);
    case WriterDoes(step) => WriterKeeps(s, step);
    case CloseSession =>
  }

  lemma {:induction false} AlwaysInv(run: seq<Sys>, i: nat)
    requires IsRun(run) && i < |run|
    ensures Inv(run[i])
  {
    if i == 0 {
      var max: QueueLimit :| run[0] == Initial(max);
    } else {
      AlwaysInv(run, i - 1);
      assert Follows(run[i - 1], run[i]);
      var a :| Enabled(run[i - 1], a) && run[i] == Next(run[i - 1], a);
      Keeps(run[i - 1], a);
    }
  }

  // ----- what holds over every run

  lemma PrefixOfParts(all: Bytes, written: Bytes, hand: Bytes, queued: Bytes, lost: Bytes)
    requires all == written + hand + queued + lost
    ensures written <= all
    ensures lost == [] ==> written + hand + queued == all
  {
    assert all == written + (hand + queued + lost);
  }

  /** What the PTY has taken is a prefix of the accepted bytes, in acceptance order.
      Until close or failure the rest is exactly the chunk in hand and the queue. */
  lemma WrittenInOrder(run: seq<Sys>, i: nat)
    requires IsRun(run) && i < |run|
    ensures var s := run[i];
            && s.written <= Concat(s.accepted)
            && (!s.q.closed && s.q.failure.None? ==>
                  s.written + InHand(s.writer) + Concat(s.q.queue) == Concat(s.accepted))
  {
    AlwaysInv(run, i);
    var s := run[i];
    PrefixOfParts(Concat(s.accepted), s.written, InHand(s.writer), Concat(s.q.queue), s.lost);
  }

  /** The byte counter is the queued length, within the limit, and memory held for
      input is at most twice the limit. */
  lemma QueueBounded(run: seq<Sys>, i: nat)
    requires IsRun(run) && i < |run|
    ensures var s := run[i];
            && s.q.queuedBytes == |Concat(s.q.queue)| <= s.max
            && |InHand(s.writer)| + |Concat(s.q.queue)| <= 2 * s.max
  {
    AlwaysInv(run, i);
  }

  /** Whenever the writer is parked with something to do, some caller that changed
      the queue has its notify still to come. */
  lemma ParkedWriterWillBeNotified(run: seq<Sys>, i: nat)
    requires IsRun(run) && i < |run|
    requires run[i].writer.Parked?
    requires run[i].q.queue != [] || run[i].q.closed || run[i].q.failure.Some?
    ensures exists id: nat :: CallerEnabled(run[i], id, Notify) && CallerNext(run[i], id, Notify).writer == Dequeuing
  {
    AlwaysInv(run, i);
    var s := run[i];
    var id :| id in s.callers && s.callers[id].Notifying?;
    assert CallerEnabled(s, id, Notify) && CallerNext(s, id, Notify).writer == Dequeuing;
  }

  /** Every concurrent history is linearizable to the atomic FIFO, whose contents are
      the queue's. */
  lemma EveryHistoryLinearizes(run: seq<Sys>, i: nat)
    requires IsRun(run) && i < |run|
    ensures Linearizable(run[i].max, run[i].log) && Replay(run[i].log) == Abstract(run[i].q)
  {
    AlwaysInv(run, i);
  }

  /** At most one write-error event, carrying the recorded failure, and exactly one once a
      failed writer has ended; the writer ends only after a close or a failure; and the
      branch of dequeue that reports a failure is never taken. */
  lemma OneErrorEvent(run: seq<Sys>, i: nat)
    requires IsRun(run) && i < |run|
    ensures var s := run[i];
            && (s.errors == [] || (s.q.failure.Some? && s.errors == [s.q.failure.value]))
            && (s.writer.Exited? && s.q.failure.Some? ==> s.errors == [s.q.failure.value])
            && (s.writer.Exited? ==> s.q.closed || s.q.failure.Some?)
            && (s.writer.Dequeuing? ==> !Pop(s.q).Failed?)
  {
    AlwaysInv(run, i);
  }

  /** What an enqueue answers is decided by the atomic FIFO where it takes effect: at its
      first lock if it is refused there or copies nothing, and at its second otherwise.
      Only a copy that finds no memory answers anything else. */
  lemma EnqueueAnswersAsTheFifo(s: Sys, id: nat, step: CallerStep, op: Op)
    requires Inv(s) && op.Enqueue?
    requires || (step.Enter? && PcOf(s, id) == Entering(op))
             || (step.FinishCopy? && op.copied && PcOf(s, id) == Copying(op.bytes))
    ensures var t, reply := CallerNext(s, id, step), EnqueueReply(Abstract(s.q), s.max, op.bytes);
            if step.Enter? && op.copied && op.bytes != [] && reply == Done then
              t == s.(callers := s.callers[id := Copying(op.bytes)])
            else
              var answer := if step == FinishCopy(false) then Refused(ALLOCATION_FAILED) else reply;
              t.log == s.log + [Took(Caller(id), op, answer)]
  {
    hide BytesConserved, FailureFinal, NoLostWakeup, LogSound;
    if 0 < |op.bytes| <= s.max { PushRefines(s.q, s.max, op.bytes, op.copied); }
  }

  // ----- where a failure comes from

  ghost predicate Steps(s: Sys, a: Action, t: Sys) {
    Enabled(s, a) && t == Next(s, a)
  }

  /** A run with the action of each step. */
  ghost predicate Labelled(run: seq<Sys>, acts: seq<Action>) {
    && |run| == |acts| + 1
    && (exists max: QueueLimit :: run[0] == Initial(max))
    && forall i, j | 0 <= i < |acts| && j == i + 1 :: Steps(run[i], acts[i], run[j])
  }

  lemma LabelledIsRun(run: seq<Sys>, acts: seq<Action>)
    requires Labelled(run, acts)
    ensures IsRun(run)
  {
    hide Enabled, Next;
    forall i, j | 0 <= i < j < |run| && j == i + 1 ensures Follows(run[i], run[j]) {
      assert Steps(run[i], acts[i], run[j]);
    }
  }

  lemma LabelledAt(run: seq<Sys>, acts: seq<Action>, j: nat)
    requires Labelled(run, acts) && 0 < j < |run|
    ensures Steps(run[j - 1], acts[j - 1], run[j])
  {
    hide Steps;
  }

  /** The steps that make the writer fail, and the error each makes it fail with: its start
      failed, its write failed, or it found the session closed. A broken pipe is reported
      as closed. */
  predicate Causes(s: Sys, a: Action, error: PtyxError) {
    match a
    case WriterDoes(Start(failure)) => failure == Some(error)
    case WriterDoes(Write(WriteError(cause))) =>
      && error.message == cause.message
      && error.kind == if cause.kind == BrokenPipe then Closed else cause.kind
    case WriterDoes(TestSession) => s.sessionClosed && error == PtyxError(Closed, "session is closed")
    case _ => false
  }

  /** The writer is about to record the error, or it is recorded. */
  predicate Troubled(s: Sys, error: PtyxError) {
    (s.writer.Failing? && s.writer.error == error) || s.q.failure == Some(error)
  }

  lemma CallerTroubled(s: Sys, id: nat, step: CallerStep)
    requires CallerEnabled(s, id, step)
    ensures var t := CallerNext(s, id, step);
            t.q.failure == s.q.failure && (t.writer == s.writer || (s.writer.Parked? && t.writer == Dequeuing))
  {
  }

  lemma WriterTroubled(s: Sys, step: WriterStep, error: PtyxError)
    requires FailureFinal(s) && WriterEnabled(s, step)
    ensures Troubled(WriterNext(s, step), error) <==> Troubled(s, error) || Causes(s, WriterDoes(step), error)
  {
  }

  lemma StepTroubled(s: Sys, a: Action, t: Sys, error: PtyxError)
    requires Inv(s) && Steps(s, a, t)
    ensures Troubled(t, error) <==> Troubled(s, error) || Causes(s, a, error)
  {
    hide BytesConserved, NoLostWakeup, LogSound, CallersSound, Bounded, FailureFinal, CallerNext, WriterNext,
         CallerEnabled, WriterEnabled;
    match a
    case CallerDoes(id, step) => CallerTroubled(s, id, step);
    case WriterDoes(step) =>
      hide Troubled, Causes;
      WriterTroubled(s, step, error);
    case CloseSession =>
  }

  /** Over every run: the writer is failing, or the queue has failed, with an error exactly
      if an earlier step caused that error; and a reported or posted error is one such. */
  lemma {:induction false} FailureHasCause(run: seq<Sys>, acts: seq<Action>, i: nat, error: PtyxError)
    requires Labelled(run, acts) && i < |run|
    ensures Troubled(run[i], error) <==> exists k | 0 <= k < i :: Causes(run[k], acts[k], error)
    ensures run[i].writer == Reporting(error) || error in run[i].errors ==> Troubled(run[i], error)
  {
    LabelledIsRun(run, acts);
    AlwaysInv(run, i);
    hide BytesConserved, NoLostWakeup, LogSound, CallersSound, Bounded, IsRun, Steps, Causes;
    if i == 0 {
      assert exists max: QueueLimit :: run[0] == Initial(max);
    } else {
      hide Troubled, Labelled;
      FailureHasCause(run, acts, i - 1, error);
      LabelledAt(run, acts, i);
      AlwaysInv(run, i - 1);
      hide FailureFinal;
      StepTroubled(run[i - 1], acts[i - 1], run[i], error);
    }
  }

  // ----- progress

  /** Open, with nothing gone wrong. */
  predicate Live(s: Sys) {
    !s.q.closed && !s.sessionClosed && s.q.failure.None? && !s.writer.Failing?
  }

  ghost function Unwritten(s: Sys): int {
    |Concat(s.accepted)| - |s.written|
  }

  /** The writer's own steps, its start and each write succeeding by any amount, and the
      notify a parked writer is owed. */
  predicate Drains(s: Sys, a: Action) {
    && Enabled(s, a)
    && match a
       case WriterDoes(Start(failure)) => failure.None?
       case WriterDoes(SpuriousWakeup) => false
       case WriterDoes(Write(outcome)) => outcome.Wrote?
       case WriterDoes(_) => true
       case CallerDoes(_, Notify) => s.writer.Parked?
       case _ => false
  }

  function PlaceRank(w: WriterPc): nat {
    match w
    case Checking(rest) => if rest == [] then 5 else 2
    case Starting => 5
    case Parked => 5
    case Dequeuing => 4
    case Holding(_) => 3
    case Writing(_) => 1
    case _ => 0
  }

  ghost function DrainRank(s: Sys): int {
    8 * Unwritten(s) + PlaceRank(s.writer)
  }

  /** While open, what is unwritten is in hand or queued. */
  lemma LiveBytes(s: Sys)
    requires Inv(s) && Live(s)
    ensures Unwritten(s) == |InHand(s.writer)| + |Concat(s.q.queue)|
    ensures !s.writer.Reporting? && !s.writer.Exited?
    ensures s.writer.Holding? || s.writer.Writing? ==> InHand(s.writer) != []
  {
    hide LogSound, NoLostWakeup, CallersSound, WellFormed;
    assert s.lost == [];
  }

  /** Every such step keeps things open, accepts nothing new and comes closer to the end. */
  lemma DrainStepLowers(s: Sys, a: Action)
    requires Inv(s) && Live(s) && 0 < Unwritten(s) && Drains(s, a)
    ensures var t := Next(s, a);
            Live(t) && t.accepted == s.accepted && 0 <= Unwritten(t) && DrainRank(t) < DrainRank(s)
  {
    LiveBytes(s);
    hide Inv;
  }

  /** And one is always possible; if it is a write, one that takes all that is in hand. */
  lemma CanDrain(s: Sys) returns (a: Action)
    requires Inv(s) && Live(s) && 0 < Unwritten(s)
    ensures Drains(s, a)
  {
    LiveBytes(s);
    match s.writer
    case Starting => a := WriterDoes(Start(None));
    case Dequeuing => a := WriterDoes(TakeChunk);
    case Parked =>
      assert s.q.queue != [];
      var id :| id in s.callers && s.callers[id].Notifying?;
      a := CallerDoes(id, Notify);
    case Holding(_) => a := WriterDoes(TestSession);
    case Checking(_) => a := WriterDoes(PollClosed);
    case Writing(rest) => a := WriterDoes(Write(Wrote(|rest|)));
  }

  lemma Extend(run: seq<Sys>, a: Action) returns (longer: seq<Sys>)
    requires IsRun(run) && Enabled(run[|run| - 1], a)
    ensures IsRun(longer) && longer == run + [Next(run[|run| - 1], a)]
  {
    var t := Next(run[|run| - 1], a);
    longer := run + [t];
    assert Follows(run[|run| - 1], t);
    hide Follows;
    forall i, j | 0 <= i < j < |longer| && j == i + 1 ensures Follows(longer[i], longer[j]) {
      if j < |run| { assert Follows(run[i], run[j]); }
    }
  }

  ghost predicate DrainStep(s: Sys, a: Action, t: Sys) {
    Drains(s, a) && t == Next(s, a)
  }

  /** `acts` leads from the end of `run` to the end of `longer`, draining all the way. */
  ghost predicate DrainsTo(run: seq<Sys>, acts: seq<Action>, longer: seq<Sys>) {
    && run != [] && run <= longer && |longer| == |run| + |acts|
    && forall k, i | 0 <= k < |acts| && i == |run| - 1 + k :: DrainStep(longer[i], acts[k], longer[i + 1])
  }

  /** From every reachable state that is open and where nothing has gone wrong, the writer
      can write everything that was accepted, if it is left to run and its writes succeed. */
  lemma {:induction false} EverythingCanBeWritten(run: seq<Sys>) returns (longer: seq<Sys>, acts: seq<Action>)
    requires IsRun(run) && Live(run[|run| - 1])
    ensures IsRun(longer) && DrainsTo(run, acts, longer)
    ensures var last := longer[|longer| - 1];
            && Live(last) && last.accepted == run[|run| - 1].accepted
            && last.written == Concat(last.accepted)
    decreases DrainRank(run[|run| - 1])
  {
    var s := run[|run| - 1];
    AlwaysInv(run, |run| - 1);
    LiveBytes(s);
    if Unwritten(s) == 0 {
      longer, acts := run, [];
      assert s.written == Concat(s.accepted);
    } else {
      var a := CanDrain(s);
      DrainStepLowers(s, a);
      var next := Extend(run, a);
      hide IsRun, Inv, Live, Drains, Next, Enabled;
      longer, acts := EverythingCanBeWritten(next);
      DrainsFirst(run, a, next, acts, longer);
      acts := [a] + acts;
    }
  }

  lemma DrainsFirst(run: seq<Sys>, a: Action, next: seq<Sys>, acts: seq<Action>, longer: seq<Sys>)
    requires run != [] && Drains(run[|run| - 1], a) && next == run + [Next(run[|run| - 1], a)]
    requires DrainsTo(next, acts, longer)
    ensures DrainsTo(run, [a] + acts, longer)
  {
    var all := [a] + acts;
    assert DrainStep(run[|run| - 1], a, next[|run|]);
    hide DrainStep, Drains, Next, Enabled;
    forall k, i | 0 <= k < |all| && i == |run| - 1 + k ensures DrainStep(longer[i], all[k], longer[i + 1]) {
      if k > 0 { assert all[k] == acts[k - 1]; }
    }
  }

  /** A new system is open, so all of this can happen from its start. */
  lemma StartsLive(max: QueueLimit)
    ensures Live(Initial(max)) && Inv(Initial(max))
  {
  }

  /** What the writer and the rest of the world may do at any moment: the session can be
      closed; the writer may start with any outcome; it parks on an open, empty queue and
      may wake for no reason; and a write may take any amount, be retried, after which the
      closed poll comes again, or fail with any error. */
  lemma AnythingCanHappen(s: Sys, n: nat, error: PtyxError)
    ensures Enabled(s, CloseSession) && Next(s, CloseSession) == s.(sessionClosed := true)
    ensures s.writer.Starting? ==> Enabled(s, WriterDoes(Start(None))) && Enabled(s, WriterDoes(Start(Some(error))))
    ensures s.writer.Dequeuing? && s.q == EMPTY_QUEUE ==> Next(s, WriterDoes(TakeChunk)).writer == Parked
    ensures s.writer.Parked? ==>
              Enabled(s, WriterDoes(SpuriousWakeup)) && Next(s, WriterDoes(SpuriousWakeup)) == s.(writer := Dequeuing)
    ensures s.writer.Writing? ==>
              && (0 < n <= |s.writer.rest| ==> Enabled(s, WriterDoes(Write(Wrote(n)))))
              && Enabled(s, WriterDoes(Write(Retry)))
              && Next(s, WriterDoes(Write(Retry))).writer == Checking(s.writer.rest)
              && Enabled(s, WriterDoes(Write(WriteError(error))))
  {
  }

  function EndRank(w: WriterPc): nat {
    match w
    case Exited => 0
    case Reporting(_) => 1
    case Dequeuing => 1
    case Parked => 2
    case Failing(_, _) => 2
    case Checking(_) => 2
    case _ => 3
  }

  /** Once the queue is closed every step of the writer takes it closer to its end, however
      its writes go, and one is possible until it has ended. */
  lemma ClosedWriterEnds(s: Sys, step: WriterStep)
    requires Inv(s) && s.q.closed
    ensures WriterEnabled(s, step) ==> EndRank(WriterNext(s, step).writer) < EndRank(s.writer)
    ensures !s.writer.Exited? ==> exists next: WriterStep :: WriterEnabled(s, next)
  {
    hide BytesConserved, NoLostWakeup, LogSound, CallersSound;
    if !s.writer.Exited? {
      var next := match s.writer
        case Starting => Start(None)
        case Dequeuing => TakeChunk
        case Parked => SpuriousWakeup
        case Holding(_) => TestSession
        case Checking(_) => PollClosed
        case Writing(_) => Write(Retry)
        case Failing(_, _) => RecordFailure
        case _ => Report;
      assert WriterEnabled(s, next);
    }
  }

  // ----- a caller left alone

  /** Any caller that is idle may enqueue or close at any time. Left alone, with memory for
      its copy, it returns what the atomic FIFO answers, having done to the queue what the
      FIFO does. */
  lemma CallerCompletes(run: seq<Sys>, id: nat, op: Op) returns (longer: seq<Sys>)
    requires IsRun(run) && PcOf(run[|run| - 1], id).Idle? && (op.Enqueue? || op.Close?)
    ensures IsRun(longer) && run <= longer
    ensures var s, t := run[|run| - 1], longer[|longer| - 1];
            var reply := if op.Close? then Done else EnqueueReply(Abstract(s.q), s.max, op.bytes);
            && t.log == s.log + [Called(Caller(id), op)] + [Took(Caller(id), op, reply)] + [Returned(Caller(id), reply)]
            && Abstract(t.q) == After(Abstract(s.q), op, reply)
            && PcOf(t, id).Idle?
  {
    var s := run[|run| - 1];
    var reply := if op.Close? then Done else EnqueueReply(Abstract(s.q), s.max, op.bytes);
    var called := Extend(run, CallerDoes(id, Call(op)));
    var entered := called[|called| - 1];
    hide CallerNext, CallerEnabled;
    var answered := CanAnswer(called, id, op);
    hide IsRun, AnsweredAlone;
    longer := CanReturn(entered, answered, id, op, reply);
  }

  lemma CanAnswer(run: seq<Sys>, id: nat, op: Op) returns (longer: seq<Sys>)
    requires IsRun(run) && PcOf(run[|run| - 1], id) == Entering(op) && (op.Enqueue? || op.Close?)
    ensures IsRun(longer) && run <= longer
    ensures var s := run[|run| - 1];
            var reply := if op.Close? then Done else EnqueueReply(Abstract(s.q), s.max, op.bytes);
            AnsweredAlone(s, longer[|longer| - 1], id, op, reply)
  {
    var s := run[|run| - 1];
    var reply := if op.Close? then Done else EnqueueReply(Abstract(s.q), s.max, op.bytes);
    AlwaysInv(run, |run| - 1);
    EntersAlone(s, id, op);
    assert CallerEnabled(s, id, Enter);
    longer := Extend(run, CallerDoes(id, Enter));
    var t := longer[|longer| - 1];
    hide Inv, AnsweredAlone, CallerNext, Begin, EnqueueReply, PcOf;
    if !AnsweredAlone(s, t, id, op, reply) {
      AlwaysInv(longer, |longer| - 1);
      hide IsRun;
      CopyingAlone(s, t, id, op);
      longer := Extend(longer, CallerDoes(id, FinishCopy(true)));
    }
  }

  lemma CopyingAlone(s: Sys, t: Sys, id: nat, op: Op)
    requires Inv(t) && op.Enqueue? && op.copied && t == s.(callers := s.callers[id := Copying(op.bytes)])
    ensures CallerEnabled(t, id, FinishCopy(true))
    ensures AnsweredAlone(s, CallerNext(t, id, FinishCopy(true)), id, op, EnqueueReply(Abstract(s.q), s.max, op.bytes))
  {
    hide Inv, Validate, EnqueueReply, Admit, Answer;
    CopiesAlone(t, id, op);
  }

  lemma CanReturn(s: Sys, run: seq<Sys>, id: nat, op: Op, reply: Reply) returns (longer: seq<Sys>)
    requires IsRun(run) && AnsweredAlone(s, run[|run| - 1], id, op, reply)
    ensures IsRun(longer) && run <= longer
    ensures var t := longer[|longer| - 1];
            && t.log == s.log + [Took(Caller(id), op, reply)] + [Returned(Caller(id), reply)]
            && Abstract(t.q) == After(Abstract(s.q), op, reply)
            && PcOf(t, id).Idle?
  {
    longer := run;
    assert run != [];
    hide IsRun;
    if PcOf(run[|run| - 1], id).Notifying? {
      longer := Extend(longer, CallerDoes(id, Notify));
    }
    longer := Extend(longer, CallerDoes(id, Return));
  }

  /** The operation has taken effect and its caller has only to notify, if it must, and
      return. */
  ghost predicate AnsweredAlone(s: Sys, t: Sys, id: nat, op: Op, reply: Reply) {
    && t.log == s.log + [Took(Caller(id), op, reply)]
    && Abstract(t.q) == After(Abstract(s.q), op, reply)
    && (PcOf(t, id) == Returning(op, reply) || PcOf(t, id) == Notifying(op, reply))
  }

  lemma EntersAlone(s: Sys, id: nat, op: Op)
    requires Inv(s) && PcOf(s, id) == Entering(op) && (op.Enqueue? || op.Close?)
    ensures var t := CallerNext(s, id, Enter);
            var reply := if op.Close? then Done else EnqueueReply(Abstract(s.q), s.max, op.bytes);
            || AnsweredAlone(s, t, id, op, reply)
            || (op.Enqueue? && op.copied && reply == Done && t == s.(callers := s.callers[id := Copying(op.bytes)]))
  {
    hide BytesConserved, FailureFinal, NoLostWakeup, LogSound;
    if op.Enqueue? && 0 < |op.bytes| <= s.max { PushRefines(s.q, s.max, op.bytes, op.copied); }
  }

  lemma CopiesAlone(s: Sys, id: nat, op: Op)
    requires Inv(s) && op.Enqueue? && op.copied && PcOf(s, id) == Copying(op.bytes)
    ensures AnsweredAlone(s, CallerNext(s, id, FinishCopy(true)), id, op, EnqueueReply(Abstract(s.q), s.max, op.bytes))
  {
    hide BytesConserved, FailureFinal, NoLostWakeup, LogSound;
    PushRefines(s.q, s.max, op.bytes, op.copied);
  }

  /** Once closed or failed: the queue stays empty and nothing more is accepted. After a
      failure the writer performs no further queue operation or write; after a close, at
      most the one write it had already decided on. */
  ghost predicate ShutStays(s: Sys, t: Sys) {
    && (s.q.closed ==> t.q.closed)
    && (s.q.failure.Some? ==> t.q.failure == s.q.failure && t.written == s.written)
    && (s.q.closed || s.q.failure.Some? ==> t.accepted == s.accepted && t.q.queue == [])
    && (s.q.closed && !s.writer.Writing? ==> t.written == s.written && !t.writer.Writing?)
    && (s.q.closed && s.writer.Writing? ==>
          && s.written <= t.written <= s.written + s.writer.rest
          && (t.writer.Writing? ==> t.writer == s.writer && t.written == s.written))
    && s.log <= t.log
    && (s.q.failure.Some? ==> forall k | |s.log| <= k < |t.log| :: t.log[k].tid != Writer)
  }

  lemma AdmitShutStays(s: Sys, id: nat, op: Op)
    requires Inv(s) && op.Enqueue?
    ensures ShutStays(s, Admit(s, id, op))
  {
  }

  lemma CallerShutStays(s: Sys, id: nat, step: CallerStep)
    requires Inv(s) && CallerEnabled(s, id, step)
    ensures ShutStays(s, CallerNext(s, id, step))
  {
    hide BytesConserved, LogSound, NoLostWakeup, FailureFinal;
    var pc := PcOf(s, id);
    if pc.Copying? {
      AdmitShutStays(s, id, Enqueue(pc.bytes, true));
    } else if pc.Entering? && pc.op.Enqueue? {
      AdmitShutStays(s, id, pc.op);
    }
  }

  lemma WriterShutStays(s: Sys, step: WriterStep)
    requires Inv(s) && WriterEnabled(s, step)
    ensures ShutStays(s, WriterNext(s, step))
  {
    hide BytesConserved, LogSound, NoLostWakeup;
  }

  lemma StepShutStays(s: Sys, t: Sys)
    requires Inv(s) && Follows(s, t)
    ensures ShutStays(s, t)
  {
    var a :| Enabled(s, a) && t == Next(s, a);
    match a
    case CallerDoes(id, step) => CallerShutStays(s, id, step);
    case WriterDoes(step) => WriterShutStays(s, step);
    case CloseSession =>
  }

  lemma ShutStaysTransitive(s: Sys, t: Sys, u: Sys)
    requires ShutStays(s, t) && ShutStays(t, u)
    ensures ShutStays(s, u)
  {
  }

  lemma ShutStaysReflexive(run: seq<Sys>, i: nat)
    requires IsRun(run) && i < |run|
    ensures ShutStays(run[i], run[i])
  {
    AlwaysInv(run, i);
  }

  lemma RunShutStays(run: seq<Sys>, j: nat)
    requires IsRun(run) && 0 < j < |run|
    ensures ShutStays(run[j - 1], run[j])
  {
    AlwaysInv(run, j - 1);
    StepShutStays(run[j - 1], run[j]);
  }

  lemma {:induction false} ShutdownIsFinal(run: seq<Sys>, i: nat, j: nat)
    requires IsRun(run) && i <= j < |run|
    ensures ShutStays(run[i], run[j])
    decreases j
  {
    if i == j {
      ShutStaysReflexive(run, i);
    } else {
      ShutdownIsFinal(run, i, j - 1);
      RunShutStays(run, j);
      ShutStaysTransitive(run[i], run[j - 1], run[j]);
    }
  }

  /** All the PTY can get if no further chunk passes the session-closed test. */
  ghost function Reach(s: Sys): Bytes {
    s.written + if s.writer.Checking? || s.writer.Writing? then s.writer.rest else []
  }

  lemma StepAt(run: seq<Sys>, j: nat) returns (a: Action)
    requires IsRun(run) && 0 < j < |run|
    ensures Enabled(run[j - 1], a) && run[j] == Next(run[j - 1], a)
  {
    hide Next, Enabled;
    assert Follows(run[j - 1], run[j]);
    a :| Enabled(run[j - 1], a) && run[j] == Next(run[j - 1], a);
  }

  ghost predicate Closing(s: Sys, t: Sys) {
    t.sessionClosed && s.written <= t.written <= Reach(t) <= Reach(s)
  }

  lemma StepCloses(s: Sys, a: Action)
    requires Enabled(s, a) && s.sessionClosed
    ensures Closing(s, Next(s, a))
  {
    if a.WriterDoes? && a.wstep.Write? && a.wstep.outcome.Wrote? {
      BytesWrite(s.written, s.writer.rest, a.wstep.outcome.count, [], []);
    }
  }

  lemma ClosingTransitive(s: Sys, t: Sys, u: Sys)
    requires Closing(s, t) && Closing(t, u)
    ensures Closing(s, u)
  {
    hide Reach;
  }

  /** Once the session is marked closed the PTY gets at most the rest of a chunk that had
      already passed the test, whatever is queued. */
  lemma {:induction false} SessionCloseEndsWriting(run: seq<Sys>, i: nat, j: nat)
    requires IsRun(run) && i <= j < |run| && run[i].sessionClosed
    ensures Closing(run[i], run[j])
    decreases j
  {
    if i < j {
      hide IsRun, Next, Enabled, Closing, Reach;
      SessionCloseEndsWriting(run, i, j - 1);
      ClosingKeepsFlag(run[i], run[j - 1]);
      var a := StepAt(run, j);
      StepCloses(run[j - 1], a);
      ClosingTransitive(run[i], run[j - 1], run[j]);
    }
  }

  lemma ClosingKeepsFlag(s: Sys, t: Sys)
    requires Closing(s, t)
    ensures t.sessionClosed
  {
  }

  // ----- what the log predicate means for one completed operation

  /** The entry that gave a thread its current view, the last one it made. */
  lemma {:induction false} LastEntry(log: seq<Entry>, tid: Tid) returns (k: nat)
    requires ViewOf(log, tid) != Outside
    ensures k < |log| && log[k].tid == tid && ViewOf(log, tid) == ViewAfter(log[k])
    ensures forall i | k < i < |log| :: log[i].tid != tid
  {
    k := |log| - 1;
    if log[k].tid != tid {
      k := LastEntry(log[..|log| - 1], tid);
    }
  }

  lemma {:induction false} LinearizablePrefix(max: QueueLimit, log: seq<Entry>, n: nat)
    requires Linearizable(max, log) && n <= |log|
    ensures Linearizable(max, log[..n])
    ensures n < |log| ==> MayFollow(max, log[..n], log[n])
  {
    if n == |log| {
      assert log[..n] == log;
    } else {
      var before := log[..|log| - 1];
      if n < |before| {
        LinearizablePrefix(max, before, n);
        assert before[..n] == log[..n];
      }
    }
  }

  /** A completed operation was called, then took effect once with the reply it
      returned and the FIFO allowed, then returned, doing nothing in between. */
  lemma CompletedOperation(max: QueueLimit, log: seq<Entry>, r: nat) returns (c: nat, k: nat)
    requires Linearizable(max, log) && r < |log| && log[r].Returned?
    ensures c < k < r && log[c].Called? && log[k].Took?
    ensures log[c].tid == log[k].tid == log[r].tid
    ensures log[c].op == log[k].op && log[k].reply == log[r].reply
    ensures Allowed(Replay(log[..k]), max, log[k].op, log[k].reply)
    ensures forall i | c < i < r && i != k :: log[i].tid != log[r].tid
  {
    var tid := log[r].tid;
    LinearizablePrefix(max, log, r);
    k := LastEntry(log[..r], tid);
    LinearizablePrefix(max, log, k);
    c := LastEntry(log[..k], tid);
  }
}
