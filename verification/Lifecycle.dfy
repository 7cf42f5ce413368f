/** Starting and closing a session: one controlling call at a time against the reader,
    writer, waiter, mode and exit-waiter threads, other callers of the session, and the
    child process.

    Each thread is cut at every point where it blocks, times out or loads a shared flag;
    what it does with data is left open. The PTY descriptor is nonblocking only while the
    reader holds it so, and a write call begun while it blocks returns only once the PTY
    takes the bytes or reports an error. A joined thread that never ends, or a lock never
    released, shows up as a state where nothing can move. */
module Lifecycle {
  // ----- the controlling call: spawn, and later close

  datatype Instr =
    | LockForStart | SpawnReader | SpawnWaiter | SpawnMode | Publish
    | MarkClosed | Kill | LockForClose
    | SetStop | CloseQueue | NotifyQueue
    | JoinReader | JoinWaiter | JoinMode | JoinWriter
    | ClearSlot | UnlockSlot | JoinExitWaiter

  /** The code being run: starting the runtime, one of its three failure paths, or close. */
  datatype Script = Starting | ReaderFailed | WaiterFailed | ModeFailed | Closing

  datatype Controller = Idle | Done | At(script: Script, next: Instr)

  function Succ(script: Script, i: Instr): Controller {
    match i
    case LockForStart => At(script, SpawnReader)
    case SpawnReader => At(script, SpawnWaiter)
    case SpawnWaiter => At(script, SpawnMode)
    case SpawnMode => At(script, Publish)
    case Publish => At(script, UnlockSlot)
    case MarkClosed => At(script, Kill)
    case Kill => At(script, LockForClose)
    case LockForClose => At(script, SetStop)
    case SetStop => At(script, CloseQueue)
    case CloseQueue => At(script, NotifyQueue)
    case NotifyQueue => At(script, if script.ReaderFailed? then JoinWriter else JoinReader)
    case JoinReader => At(script, if script.WaiterFailed? then JoinWriter else JoinWaiter)
    case JoinWaiter => At(script, if script.ModeFailed? then JoinWriter else JoinMode)
    case JoinMode => At(script, JoinWriter)
    case JoinWriter => At(script, if script.Closing? then ClearSlot else UnlockSlot)
    case ClearSlot => At(script, UnlockSlot)
    case UnlockSlot =>
      if script.Starting? then Idle
      else if script.Closing? then At(Closing, JoinExitWaiter)
      else At(Closing, MarkClosed)      // a failed start closes the session
    case JoinExitWaiter => Done
  }

  // ----- the threads

  datatype Resume = ToAppend(left: nat) | ToHead

  datatype ReaderPc =
    | NoReader | Entering | Refusing | Head | Reading | Appending(left: nat) | AfterAppend
    | Flushing(resume: Resume) | InWait(resume: Resume)
    | Polling | LastFlush | LastWait | PostingClosed | Restoring | ReaderEnded

  /** `InCall` is inside the write call, begun on a blocking descriptor or not. */
  datatype WriterPc =
    | NoWriter | Opening | Dequeuing | Parked | Testing | Checking | Writing | InCall(blocking: bool)
    | Failing | Reporting | WriterEnded

  datatype WaiterPc = NoWaiter | AwaitingExit | PostingExit | WaiterEnded

  datatype ModePc = NoMode | ModeHead | Snapshotting | Sleeping | ModeEnded

  datatype ExitPc = AwaitingChild | Completing | ExitRecorded

  datatype ChildPc = Alive | Killed | Exited

  datatype Slot = NotStarted | Running | Cleared

  datatype Holder = Nobody | TheController | User(id: nat)

  /** `handle` is whether the writer's join handle is stored, `started` counts writer
      threads ever started, `visible` whether spawn has returned the session, and
      `killMissed` whether close's kill reached no live child. `original` is whether the
      descriptor was opened nonblocking, `nonblocking` whether it is now, and `drained`
      whether a blocking write would return. */
  datatype Sys = Sys(
    readMax: nat,
    controller: Controller,
    slot: Slot,
    holder: Holder,
    visible: bool,
    sessionClosed: bool,
    stop: bool,
    queueClosed: bool,
    killMissed: bool,
    reader: ReaderPc,
    writer: WriterPc,
    handle: bool,
    started: nat,
    waiter: WaiterPc,
    mode: ModePc,
    exit: ExitPc,
    child: ChildPc,
    original: bool,
    nonblocking: bool,
    drained: bool)

  function Initial(readMax: nat, original: bool): Sys {
    Sys(readMax, At(Starting, LockForStart), NotStarted, Nobody, false, false, false, false, false,
        NoReader, NoWriter, false, 0, NoWaiter, NoMode, AwaitingChild, Alive, original, original, true)
  }

  // ----- controller steps

  /** What the next instruction waits for. */
  predicate ControllerReady(s: Sys) {
    s.controller.At? &&
    match s.controller.next
    case LockForStart => s.holder.Nobody?
    case LockForClose => s.holder.Nobody?
    case JoinReader => s.reader.ReaderEnded?
    case JoinWaiter => s.waiter.WaiterEnded?
    case JoinMode => s.mode.NoMode? || s.mode.ModeEnded?
    case JoinWriter => !s.handle || s.writer.WriterEnded?
    case JoinExitWaiter => s.exit.ExitRecorded?
    case _ => true
  }

  /** Where the next instruction leads. `ok` is whether a spawn succeeded, or the kill was
      delivered; `wanted` is whether the mode watcher is enabled. */
  function NextInstr(s: Sys, ok: bool, wanted: bool): Controller
    requires s.controller.At?
  {
    match s.controller.next
    case SpawnReader => if ok then Succ(s.controller.script, SpawnReader) else At(ReaderFailed, CloseQueue)
    case SpawnWaiter => if ok then Succ(s.controller.script, SpawnWaiter) else At(WaiterFailed, SetStop)
    case SpawnMode => if ok || !wanted then Succ(s.controller.script, SpawnMode) else At(ModeFailed, SetStop)
    case LockForClose =>
      if s.slot.Running? then Succ(s.controller.script, LockForClose) else At(s.controller.script, UnlockSlot)
    case i => Succ(s.controller.script, i)
  }

  /** What each instruction changes, field by field. */
  function Effect(s: Sys, ok: bool, wanted: bool): Sys
    requires s.controller.At?
  {
    var i := s.controller.next;
    // A kill after the exit is recorded sends no signal.
    var kills := i.Kill? && !s.exit.ExitRecorded?;
    s.(slot := if i.Publish? then Running else if i.ClearSlot? then Cleared else s.slot,
       holder := if i.LockForStart? || i.LockForClose? then TheController
                 else if i.UnlockSlot? then Nobody else s.holder,
       visible := s.visible || (i.UnlockSlot? && s.controller.script.Starting?),
       sessionClosed := s.sessionClosed || i.MarkClosed?,
       stop := s.stop || i.SetStop?,
       queueClosed := s.queueClosed || i.CloseQueue?,
       killMissed := s.killMissed || (kills && !ok),
       reader := if i.SpawnReader? && ok then Entering else s.reader,
       writer := if i.NotifyQueue? && s.writer.Parked? then Dequeuing else s.writer,
       handle := s.handle && !i.JoinWriter?,
       waiter := if i.SpawnWaiter? && ok then AwaitingExit else s.waiter,
       mode := if i.SpawnMode? && ok && wanted then ModeHead else s.mode,
       child := if kills && ok && s.child.Alive? then Killed else s.child)
  }

  function ControllerNext(s: Sys, ok: bool, wanted: bool): Sys
    requires ControllerReady(s)
  {
    Effect(s, ok, wanted).(controller := NextInstr(s, ok, wanted))
  }

  // ----- thread steps

  datatype ReaderStep =
    | Enter(refused: bool) | LoadStop | ReadData(count: nat) | ReadNothing | ReadLast
    | Take(count: nat, full: bool) | AppendDone | LoadStopAgain
    | BeginFlush(waits: bool, posted: bool) | WaitTurn(full: bool, posted: bool)
    | PollTimedOut | PollReady | PollFailed
    | BeginLastFlush(waits: bool) | LastWaitTurn(full: bool) | PostClosed | RestoreMode

  predicate ReaderEnabled(reader: ReaderPc, readMax: nat, step: ReaderStep) {
    match step
    case Enter(_) => reader.Entering?
    case LoadStop => reader.Head?
    case ReadData(n) => reader.Reading? && 0 < n <= readMax
    case ReadNothing => reader.Reading?
    case ReadLast => reader.Reading?
    case Take(n, _) => reader.Appending? && 0 < n <= reader.left
    case AppendDone => reader == Appending(0)
    case LoadStopAgain => reader.AfterAppend?
    case BeginFlush(_, _) => reader.Flushing?
    case WaitTurn(_, _) => reader.InWait?
    case PollTimedOut => reader.Polling?
    case PollReady => reader.Polling?
    case PollFailed => reader.Polling?
    case BeginLastFlush(_) => reader.LastFlush?
    case LastWaitTurn(_) => reader.LastWait?
    case PostClosed => reader.PostingClosed? || reader.Refusing?
    case RestoreMode => reader.Restoring?
  }

  function Resumed(r: Resume): ReaderPc {
    if r.ToAppend? then Appending(r.left) else Head
  }

  function ReaderNext(reader: ReaderPc, stop: bool, readMax: nat, step: ReaderStep): ReaderPc
    requires ReaderEnabled(reader, readMax, step)
  {
    match step
    // Another reader, or no descriptor: the error and the closed message are posted.
    case Enter(refused) => if refused then Refusing else Head
    case LoadStop => if stop then LastFlush else Reading
    case ReadData(n) => Appending(n)
    case ReadNothing => Polling
    case ReadLast => LastFlush
    case Take(n, full) =>
      var left := reader.left - n;
      if full then Flushing(ToAppend(left)) else Appending(left)
    case AppendDone => AfterAppend
    case LoadStopAgain => if stop then Head else Reading
    case BeginFlush(waits, posted) =>
      if waits then InWait(reader.resume)
      else if posted then Resumed(reader.resume) else PostingClosed
    // The wait is timed: each turn looks at the counter and the stop flag again.
    case WaitTurn(full, posted) =>
      if stop then Resumed(reader.resume)
      else if full then reader
      else if posted then Resumed(reader.resume) else PostingClosed
    case PollTimedOut => Flushing(ToHead)
    case PollReady => Head
    case PollFailed => LastFlush
    case BeginLastFlush(waits) => if waits then LastWait else PostingClosed
    case LastWaitTurn(full) => if full && !stop then LastWait else PostingClosed
    case PostClosed => if reader.Refusing? then ReaderEnded else Restoring
    case RestoreMode => ReaderEnded
  }

  /** Entering makes the descriptor nonblocking; dropping the guard restores its mode. */
  function ModeAfter(nonblocking: bool, original: bool, step: ReaderStep): bool {
    if step.Enter? && !step.refused then true
    else if step.RestoreMode? then original
    else nonblocking
  }

  datatype WriterStep =
    | Open(failed: bool) | Dequeue(work: bool) | Test | Check(rest: bool)
    | BeginWrite | WriteReturns(failed: bool) | Fail | Report

  predicate WriterEnabled(writer: WriterPc, drained: bool, step: WriterStep) {
    match step
    case Open(_) => writer.Opening?
    case Dequeue(_) => writer.Dequeuing?
    case Test => writer.Testing?
    case Check(_) => writer.Checking?
    case BeginWrite => writer.Writing?
    case WriteReturns(_) => writer.InCall? && (writer.blocking ==> drained)
    case Fail => writer.Failing?
    case Report => writer.Reporting?
  }

  function WriterNext(writer: WriterPc, sessionClosed: bool, queueClosed: bool, nonblocking: bool, step: WriterStep)
    : WriterPc
    requires WriterEnabled(writer, true, step)
  {
    match step
    case Open(failed) => if failed then Failing else Dequeuing
    // A closed queue is empty.
    case Dequeue(work) => if queueClosed then WriterEnded else if work then Testing else Parked
    case Test => if sessionClosed then Failing else Checking
    case Check(rest) => if !rest then Dequeuing else if queueClosed then WriterEnded else Writing
    case BeginWrite => InCall(!nonblocking)
    case WriteReturns(failed) => if failed then Failing else Checking
    case Fail => Reporting
    case Report => WriterEnded
  }

  predicate WaiterReady(s: Sys) {
    (s.waiter.AwaitingExit? && s.exit.ExitRecorded?) || s.waiter.PostingExit?
  }

  function WaiterNext(w: WaiterPc): WaiterPc {
    if w.AwaitingExit? then PostingExit else WaiterEnded
  }

  predicate ModeReady(s: Sys) {
    s.mode.ModeHead? || s.mode.Snapshotting? || s.mode.Sleeping?
  }

  function ModeNext(s: Sys, ok: bool): ModePc
    requires ModeReady(s)
  {
    match s.mode
    case ModeHead => if s.stop then ModeEnded else Snapshotting
    case Snapshotting => if ok then Sleeping else ModeEnded
    case _ => if s.stop || ok then ModeHead else Sleeping
  }

  predicate ExitReady(s: Sys) {
    (s.exit.AwaitingChild? && s.child.Exited?) || s.exit.Completing?
  }

  // ----- the system

  datatype Action =
    | Control(ok: bool, wanted: bool)
    | RequestClose
    | ReaderDoes(rstep: ReaderStep)
    | WriterDoes(wstep: WriterStep)
    | WaiterDoes
    | ModeDoes(ok: bool)
    | ExitWaiterDoes
    | ChildExits
    | UserLocks(id: nat)
    | UserStartsWriter(id: nat, ok: bool)
    | UserNotifies(id: nat)
    | UserUnlocks(id: nat)
    | UserKills
    | SpuriousWakeup
    | PtyDrains
    | PtyFills

  predicate Enabled(s: Sys, a: Action) {
    match a
    case Control(_, _) => ControllerReady(s)
    case RequestClose => s.controller.Idle?
    case ReaderDoes(step) => ReaderEnabled(s.reader, s.readMax, step)
    case WriterDoes(step) => WriterEnabled(s.writer, s.drained, step)
    case WaiterDoes => WaiterReady(s)
    case ModeDoes(_) => ModeReady(s)
    case ExitWaiterDoes => ExitReady(s)
    case ChildExits => !s.child.Exited?
    case UserLocks(_) => s.visible && s.holder.Nobody?
    case UserStartsWriter(id, _) => s.holder == User(id) && s.slot.Running? && !s.handle
    case UserNotifies(id) => s.holder == User(id) && s.slot.Running? && s.handle
    case UserUnlocks(id) => s.holder == User(id)
    case UserKills => s.visible
    case SpuriousWakeup => s.writer.Parked?
    case PtyDrains => true
    case PtyFills => true
  }

  function Next(s: Sys, a: Action): Sys
    requires Enabled(s, a)
  {
    match a
    case Control(ok, wanted) => ControllerNext(s, ok, wanted)
    case RequestClose => s.(controller := At(Closing, MarkClosed))
    case ReaderDoes(step) =>
      s.(reader := ReaderNext(s.reader, s.stop, s.readMax, step),
         nonblocking := ModeAfter(s.nonblocking, s.original, step))
    case WriterDoes(step) => s.(writer := WriterNext(s.writer, s.sessionClosed, s.queueClosed, s.nonblocking, step))
    case WaiterDoes => s.(waiter := WaiterNext(s.waiter))
    case ModeDoes(ok) => s.(mode := ModeNext(s, ok))
    case ExitWaiterDoes => s.(exit := if s.exit.AwaitingChild? then Completing else ExitRecorded)
    case ChildExits => s.(child := Exited)
    case UserLocks(id) => s.(holder := User(id))
    case UserStartsWriter(_, ok) =>
      if ok then s.(handle := true, started := s.started + 1, writer := Opening) else s
    case UserNotifies(_) => s.(writer := if s.writer.Parked? then Dequeuing else s.writer)
    case UserUnlocks(_) => s.(holder := Nobody)
    case UserKills => s.(child := if s.child.Alive? then Killed else s.child)
    case SpuriousWakeup => s.(writer := Dequeuing)
    case PtyDrains => s.(drained := true)
    case PtyFills => s.(drained := false)
  }

  ghost predicate Steps(s: Sys, a: Action, t: Sys) {
    Enabled(s, a) && t == Next(s, a)
  }

  ghost predicate Follows(s: Sys, t: Sys) {
    exists a: Action :: Steps(s, a, t)
  }

  ghost predicate IsRun(run: seq<Sys>) {
    && run != []
    && (exists readMax: nat, original: bool :: run[0] == Initial(readMax, original))
    && forall i, j | 0 <= i < j < |run| && j == i + 1 :: Follows(run[i], run[j])
  }

  // ----- the invariant

  /** Where the controller holds the slot lock. */
  predicate Locked(c: Controller) {
    c.At? &&
    match c.script
    case Starting => !c.next.LockForStart?
    case Closing => !c.next.MarkClosed? && !c.next.Kill? && !c.next.LockForClose? && !c.next.JoinExitWaiter?
    case _ => true
  }

  /** The instructions each script is made of. */
  predicate InScript(c: Controller) {
    c.At? ==>
      match c.script
      case Starting =>
        || c.next.LockForStart? || c.next.SpawnReader? || c.next.SpawnWaiter? || c.next.SpawnMode? || c.next.Publish?
        || c.next.UnlockSlot?
      case ReaderFailed => c.next.CloseQueue? || c.next.NotifyQueue? || c.next.JoinWriter? || c.next.UnlockSlot?
      case WaiterFailed =>
        || c.next.SetStop? || c.next.CloseQueue? || c.next.NotifyQueue? || c.next.JoinReader? || c.next.JoinWriter?
        || c.next.UnlockSlot?
      case ModeFailed =>
        || c.next.SetStop? || c.next.CloseQueue? || c.next.NotifyQueue? || c.next.JoinReader? || c.next.JoinWaiter?
        || c.next.JoinWriter? || c.next.UnlockSlot?
      case Closing =>
        !c.next.LockForStart? && !c.next.SpawnReader? && !c.next.SpawnWaiter? && !c.next.SpawnMode? && !c.next.Publish?
  }

  ghost predicate LockSound(s: Sys) {
    && InScript(s.controller)
    && (Locked(s.controller) <==> s.holder.TheController?)
    && (s.holder.User? ==> s.visible)
    && (s.visible ==> s.controller.Idle? || s.controller.Done? || s.controller.script.Closing?)
    && (s.controller.Idle? ==> s.visible)
  }

  /** When the slot holds a runtime. */
  ghost predicate SlotSound(s: Sys) {
    match s.controller
    case Idle => s.slot.Running? && !s.stop && !s.queueClosed && !s.sessionClosed
    case Done => !s.slot.Running?
    case At(Starting, i) =>
      && !s.stop && !s.queueClosed && !s.sessionClosed
      && (if i.UnlockSlot? then s.slot.Running? else s.slot.NotStarted?)
    case At(Closing, i) =>
      if i.MarkClosed? || i.Kill? || i.LockForClose? then !s.slot.Cleared? && (s.slot.Running? <==> s.visible)
      else if i.UnlockSlot? || i.JoinExitWaiter? then !s.slot.Running?
      else s.slot.Running?
    case _ => s.slot.NotStarted?
  }

  /** Which flags are set where. */
  ghost predicate FlagsSound(s: Sys) {
    && (s.controller.At? && !s.controller.script.Starting? ==>
          match s.controller.next
          case SetStop => !s.stop && !s.queueClosed
          case CloseQueue => (s.stop <==> !s.controller.script.ReaderFailed?) && !s.queueClosed
          case MarkClosed => if s.slot.Running? then !s.stop && !s.queueClosed else s.queueClosed
          case Kill => if s.slot.Running? then !s.stop && !s.queueClosed else s.queueClosed
          case LockForClose => if s.slot.Running? then !s.stop && !s.queueClosed else s.queueClosed
          case _ => s.queueClosed)
    && (s.queueClosed && s.writer.Parked? ==> s.controller.At? && s.controller.next.NotifyQueue?)
    && (s.queueClosed && !s.stop ==> s.reader.NoReader? && s.mode.NoMode?)
  }

  predicate Over(s: Sys) {
    && (s.reader.NoReader? || s.reader.ReaderEnded?)
    && (s.waiter.NoWaiter? || s.waiter.WaiterEnded?)
    && (s.mode.NoMode? || s.mode.ModeEnded?)
    && (s.writer.NoWriter? || s.writer.WriterEnded?)
  }

  /** Which threads exist, and which have been joined, at each instruction. */
  ghost predicate ThreadsSound(s: Sys) {
    && (s.slot.Running? ==> !s.reader.NoReader? && !s.waiter.NoWaiter?)
    && match s.controller
       case At(Starting, i) =>
         && (i.LockForStart? || i.SpawnReader? ==> s.reader.NoReader?)
         && (i.SpawnWaiter? || i.SpawnMode? || i.Publish? ==> !s.reader.NoReader?)
         && (i.LockForStart? || i.SpawnReader? || i.SpawnWaiter? ==> s.waiter.NoWaiter?)
         && (i.SpawnMode? || i.Publish? ==> !s.waiter.NoWaiter?)
         && (!i.Publish? && !i.UnlockSlot? ==> s.mode.NoMode?)
       case At(ReaderFailed, _) => s.reader.NoReader? && s.waiter.NoWaiter? && s.mode.NoMode?
       case At(WaiterFailed, i) =>
         && !s.reader.NoReader? && s.waiter.NoWaiter? && s.mode.NoMode?
         && (i.JoinWriter? || i.UnlockSlot? ==> s.reader.ReaderEnded?)
       case At(ModeFailed, i) =>
         && !s.reader.NoReader? && !s.waiter.NoWaiter? && s.mode.NoMode?
         && (i.JoinWaiter? || i.JoinWriter? || i.UnlockSlot? ==> s.reader.ReaderEnded?)
         && (i.JoinWriter? || i.UnlockSlot? ==> s.waiter.WaiterEnded?)
       case At(Closing, i) =>
         && (!s.slot.Running? ==> Over(s))
         && (i.JoinWaiter? || i.JoinMode? || i.JoinWriter? || i.ClearSlot? ==> s.reader.ReaderEnded?)
         && (i.JoinMode? || i.JoinWriter? || i.ClearSlot? ==> s.waiter.WaiterEnded?)
         && (i.JoinWriter? || i.ClearSlot? ==> s.mode.NoMode? || s.mode.ModeEnded?)
         && (i.ClearSlot? ==> s.writer.NoWriter? || s.writer.WriterEnded?)
       case Done => Over(s)
       case Idle => true
  }

  ghost predicate WriterSound(s: Sys) {
    && s.started <= 1
    && (s.started == 0 <==> s.writer.NoWriter?)
    && (s.handle ==> s.started == 1)
    && (s.slot.NotStarted? ==> s.started == 0)
    && (s.slot.Running? && !s.handle ==> s.started == 0 || s.controller == At(Closing, ClearSlot))
    && (s.slot.Cleared? || s.controller == At(Closing, ClearSlot) ==> !s.handle)
    && (s.slot.Cleared? ==> s.reader.ReaderEnded? && s.waiter.WaiterEnded?)
  }

  ghost predicate ExitSound(s: Sys) {
    && (!s.exit.AwaitingChild? ==> s.child.Exited?)
    && (s.waiter.PostingExit? || s.waiter.WaiterEnded? ==> s.exit.ExitRecorded?)
    && (s.controller.Done? ==> s.exit.ExitRecorded?)
    // Past close's kill, a child that was not signalled is one the kill missed.
    && (s.controller.At? && s.controller.script.Closing? && s.child.Alive? ==>
          s.controller.next.MarkClosed? || s.controller.next.Kill? || s.killMissed)
  }

  /** The invariant in two halves: the controller's locks and flags, and the threads. */
  ghost predicate ControlSound(s: Sys) {
    LockSound(s) && SlotSound(s) && FlagsSound(s)
  }

  ghost predicate JoinsSound(s: Sys) {
    ThreadsSound(s) && WriterSound(s) && ExitSound(s)
  }

  ghost predicate Inv(s: Sys) {
    && ControlSound(s)
    && JoinsSound(s)
    && (s.reader.Appending? ==> s.reader.left <= s.readMax)
    && (s.reader.Flushing? || s.reader.InWait? ==> s.reader.resume.ToAppend? ==> s.reader.resume.left <= s.readMax)
  }

  // ----- preservation

  lemma InitialInv(readMax: nat, original: bool)
    ensures Inv(Initial(readMax, original))
  {
  }

  lemma StartReaderKeeps(s: Sys, ok: bool, wanted: bool)
    requires Inv(s) && ControllerReady(s) && (s.controller.next.LockForStart? || s.controller.next.SpawnReader?)
    ensures Inv(ControllerNext(s, ok, wanted))
  {
  }

  lemma StartWaiterKeeps(s: Sys, ok: bool, wanted: bool)
    requires Inv(s) && ControllerReady(s) && (s.controller.next.SpawnWaiter? || s.controller.next.SpawnMode?)
    ensures Inv(ControllerNext(s, ok, wanted))
  {
  }

  lemma PublishKeeps(s: Sys, ok: bool, wanted: bool)
    requires Inv(s) && ControllerReady(s) && (s.controller.next.Publish?)
    ensures Inv(ControllerNext(s, ok, wanted))
  {
  }

  lemma BeginCloseKeeps(s: Sys, ok: bool, wanted: bool)
    requires Inv(s) && ControllerReady(s) && (s.controller.next.MarkClosed? || s.controller.next.Kill?)
    ensures Inv(ControllerNext(s, ok, wanted))
  {
  }

  lemma LockForCloseKeeps(s: Sys, ok: bool, wanted: bool)
    requires Inv(s) && ControllerReady(s) && (s.controller.next.LockForClose?)
    ensures Inv(ControllerNext(s, ok, wanted))
  {
  }

  lemma StopKeeps(s: Sys, ok: bool, wanted: bool)
    requires Inv(s) && ControllerReady(s)
    requires s.controller.next.SetStop? || s.controller.next.CloseQueue? || s.controller.next.NotifyQueue?
    ensures Inv(ControllerNext(s, ok, wanted))
  {
  }

  lemma JoinReaderKeeps(s: Sys, ok: bool, wanted: bool)
    requires Inv(s) && ControllerReady(s) && (s.controller.next.JoinReader? || s.controller.next.JoinWaiter?)
    ensures Inv(ControllerNext(s, ok, wanted))
  {
  }

  lemma JoinWriterKeeps(s: Sys, ok: bool, wanted: bool)
    requires Inv(s) && ControllerReady(s) && (s.controller.next.JoinMode? || s.controller.next.JoinWriter?)
    ensures Inv(ControllerNext(s, ok, wanted))
  {
  }

  lemma UnlockKeeps(s: Sys, ok: bool, wanted: bool)
    requires Inv(s) && ControllerReady(s) && (s.controller.next.ClearSlot? || s.controller.next.UnlockSlot?)
    ensures Inv(ControllerNext(s, ok, wanted))
  {
  }

  lemma EndCloseKeeps(s: Sys, ok: bool, wanted: bool)
    requires Inv(s) && ControllerReady(s) && (s.controller.next.JoinExitWaiter?)
    ensures Inv(ControllerNext(s, ok, wanted))
  {
  }

  lemma ControlKeeps(s: Sys, ok: bool, wanted: bool)
    requires Inv(s) && ControllerReady(s)
    ensures Inv(ControllerNext(s, ok, wanted))
  {
    hide Inv, ControllerNext;
    match s.controller.next {
      case LockForStart => StartReaderKeeps(s, ok, wanted);
      case SpawnReader => StartReaderKeeps(s, ok, wanted);
      case SpawnWaiter => StartWaiterKeeps(s, ok, wanted);
      case SpawnMode => StartWaiterKeeps(s, ok, wanted);
      case Publish => PublishKeeps(s, ok, wanted);
      case MarkClosed => BeginCloseKeeps(s, ok, wanted);
      case Kill => BeginCloseKeeps(s, ok, wanted);
      case LockForClose => LockForCloseKeeps(s, ok, wanted);
      case SetStop => StopKeeps(s, ok, wanted);
      case CloseQueue => StopKeeps(s, ok, wanted);
      case NotifyQueue => StopKeeps(s, ok, wanted);
      case JoinReader => JoinReaderKeeps(s, ok, wanted);
      case JoinWaiter => JoinReaderKeeps(s, ok, wanted);
      case JoinMode => JoinWriterKeeps(s, ok, wanted);
      case JoinWriter => JoinWriterKeeps(s, ok, wanted);
      case ClearSlot => UnlockKeeps(s, ok, wanted);
      case UnlockSlot => UnlockKeeps(s, ok, wanted);
      case JoinExitWaiter => EndCloseKeeps(s, ok, wanted);
    }
  }

  lemma ReaderKeeps(s: Sys, step: ReaderStep)
    requires Inv(s) && ReaderEnabled(s.reader, s.readMax, step)
    ensures Inv(Next(s, ReaderDoes(step)))
  {
  }

  lemma WriterKeeps(s: Sys, step: WriterStep)
    requires Inv(s) && WriterEnabled(s.writer, s.drained, step)
    ensures Inv(s.(writer := WriterNext(s.writer, s.sessionClosed, s.queueClosed, s.nonblocking, step)))
  {
  }

  predicate OfCaller(a: Action) {
    a.RequestClose? || a.UserLocks? || a.UserStartsWriter? || a.UserNotifies? || a.UserUnlocks? || a.UserKills?
  }

  lemma CallerKeeps(s: Sys, a: Action)
    requires Inv(s) && Enabled(s, a) && OfCaller(a)
    ensures Inv(Next(s, a))
  {
  }

  lemma ModeKeeps(s: Sys, ok: bool)
    requires Inv(s) && ModeReady(s)
    ensures Inv(Next(s, ModeDoes(ok)))
  {
  }

  predicate ThreadAction(a: Action) {
    a.WaiterDoes? || a.ExitWaiterDoes? || a.ChildExits?
  }

  predicate PtyAction(a: Action) {
    a.SpuriousWakeup? || a.PtyDrains? || a.PtyFills?
  }

  lemma PtyKeeps(s: Sys, a: Action)
    requires Inv(s) && Enabled(s, a) && PtyAction(a)
    ensures Inv(Next(s, a))
  {
  }

  lemma ThreadKeeps(s: Sys, a: Action)
    requires Inv(s) && Enabled(s, a) && ThreadAction(a)
    ensures Inv(Next(s, a))
  {
  }

  lemma OtherKeeps(s: Sys, a: Action)
    requires Inv(s) && Enabled(s, a) && !a.Control? && !a.ReaderDoes? && !a.WriterDoes?
    ensures Inv(Next(s, a))
  {
    hide Inv, Next, ModeReady, WaiterReady, ExitReady, ReaderEnabled, WriterEnabled, ControllerReady;
    if OfCaller(a) {
      CallerKeeps(s, a);
    } else if a.ModeDoes? {
      ModeKeeps(s, a.ok);
    } else if PtyAction(a) {
      PtyKeeps(s, a);
    } else {
      ThreadKeeps(s, a);
    }
  }

  lemma Keeps(s: Sys, a: Action)
    requires Inv(s) && Enabled(s, a)
    ensures Inv(Next(s, a))
  {
    hide Inv;
    match a
    case Control(ok, wanted) => ControlKeeps(s, ok, wanted);
    case ReaderDoes(step) => ReaderKeeps(s, step);
    case WriterDoes(step) => WriterKeeps(s, step);
    case _ => OtherKeeps(s, a);
  }

  lemma {:induction false} AlwaysInv(run: seq<Sys>, i: nat)
    requires IsRun(run) && i < |run|
    ensures Inv(run[i])
  {
    hide Inv;
    if i == 0 {
      var readMax: nat, original: bool :| run[0] == Initial(readMax, original);
      InitialInv(readMax, original);
    } else {
      AlwaysInv(run, i - 1);
      assert Follows(run[i - 1], run[i]);
      var a :| Steps(run[i - 1], a, run[i]);
      Keeps(run[i - 1], a);
    }
  }

  lemma StepAt(run: seq<Sys>, j: nat) returns (a: Action)
    requires IsRun(run) && 0 < j < |run|
    ensures Steps(run[j - 1], a, run[j])
  {
    hide Steps;
    assert Follows(run[j - 1], run[j]);
    a :| Steps(run[j - 1], a, run[j]);
  }

  // ----- one writer thread

  /** Over a whole session at most one writer thread is started; when the slot is cleared
      every thread of the runtime has ended, the writer's handle taken, and when the call
      is over so has the thread that waits for the child. */
  lemma OneWriterThread(run: seq<Sys>, i: nat)
    requires IsRun(run) && i < |run|
    ensures run[i].started <= 1
    ensures run[i].slot.Cleared? ==> run[i].reader.ReaderEnded? && run[i].waiter.WaiterEnded?
    ensures run[i].slot.Cleared? || run[i].controller.Done? ==>
              && (run[i].reader.NoReader? || run[i].reader.ReaderEnded?)
              && (run[i].waiter.NoWaiter? || run[i].waiter.WaiterEnded?)
              && (run[i].mode.NoMode? || run[i].mode.ModeEnded?)
              && (run[i].writer.NoWriter? || run[i].writer.WriterEnded?)
              && !run[i].handle
    ensures run[i].controller.Done? ==> run[i].exit.ExitRecorded?
  {
    AlwaysInv(run, i);
  }

  // ----- shutdown does not deadlock

  /** The controller is joining a thread that ends only with the child, and nothing has
      made the child exit. */
  predicate WaitsForLiveChild(s: Sys) {
    s.controller.At? && (s.controller.next.JoinWaiter? || s.controller.next.JoinExitWaiter?) && s.child.Alive?
  }

  /** The controller is joining a writer inside a blocking write that the PTY holds up. */
  predicate WaitsForFullPty(s: Sys) {
    s.controller.At? && s.controller.next.JoinWriter? && s.handle && s.writer == InCall(true) && !s.drained
  }

  /** Steps of the session's own threads and of a signalled or exiting child. */
  predicate IsProgress(a: Action) {
    a.Control? || a.ReaderDoes? || a.WriterDoes? || a.WaiterDoes? || a.ModeDoes? || a.ExitWaiterDoes? || a.ChildExits?
  }

  /** A progress step that does not rely on a live child choosing to exit. */
  ghost predicate CanMove(s: Sys) {
    exists a: Action :: IsProgress(a) && Enabled(s, a) && (a.ChildExits? ==> s.child.Killed?)
  }

  lemma ReaderCanMove(s: Sys)
    requires !s.reader.NoReader? && !s.reader.ReaderEnded?
    ensures CanMove(s)
  {
    var step := match s.reader
      case Entering => Enter(false)
      case Head => LoadStop
      case Reading => ReadNothing
      case Appending(left) => if left == 0 then AppendDone else Take(1, false)
      case AfterAppend => LoadStopAgain
      case Flushing(_) => BeginFlush(false, true)
      case InWait(_) => WaitTurn(false, true)
      case Polling => PollReady
      case LastFlush => BeginLastFlush(false)
      case LastWait => LastWaitTurn(false)
      case Restoring => RestoreMode
      case _ => PostClosed;
    assert IsProgress(ReaderDoes(step)) && Enabled(s, ReaderDoes(step));
  }

  lemma WriterCanMove(s: Sys)
    requires !s.writer.NoWriter? && !s.writer.WriterEnded? && !s.writer.Parked?
    requires s.writer == InCall(true) ==> s.drained
    ensures CanMove(s)
  {
    var step := match s.writer
      case Opening => Open(false)
      case Dequeuing => Dequeue(false)
      case Testing => Test
      case Checking => Check(false)
      case Writing => BeginWrite
      case InCall(_) => WriteReturns(false)
      case Failing => Fail
      case _ => Report;
    assert IsProgress(WriterDoes(step)) && Enabled(s, WriterDoes(step));
  }

  lemma ExitCanMove(s: Sys)
    requires !s.exit.ExitRecorded? && !s.child.Alive? && (!s.exit.AwaitingChild? ==> s.child.Exited?)
    ensures CanMove(s)
  {
    var a := if s.child.Killed? then ChildExits else ExitWaiterDoes;
    assert IsProgress(a) && Enabled(s, a);
  }

  /** In every state reached once the queue is closed, on the failure paths of start as
      well as in close: something can move, unless the call is over, or it is joining a
      waiter of a child that nothing has made exit or a writer held up by a full PTY. */
  lemma ShutdownMoves(run: seq<Sys>, i: nat)
    requires IsRun(run) && i < |run| && run[i].queueClosed
    requires !run[i].controller.Done? && !WaitsForLiveChild(run[i]) && !WaitsForFullPty(run[i])
    ensures CanMove(run[i])
  {
    AlwaysInv(run, i);
    var s := run[i];
    if ControllerReady(s) {
      assert IsProgress(Control(true, true)) && Enabled(s, Control(true, true));
    } else {
      match s.controller.next {
        case JoinReader => ReaderCanMove(s);
        case JoinWriter => WriterCanMove(s);
        case JoinMode => assert IsProgress(ModeDoes(true)) && Enabled(s, ModeDoes(true));
        case JoinWaiter =>
          if WaiterReady(s) {
            assert IsProgress(WaiterDoes) && Enabled(s, WaiterDoes);
          } else {
            ExitCanMove(s);
          }
        case JoinExitWaiter => ExitCanMove(s);
        case _ =>
      }
    }
  }

  /** Both exceptions are real: until the child exits or is killed, no step of anyone moves
      the call on. */
  lemma LiveChildBlocks(run: seq<Sys>, i: nat, a: Action)
    requires IsRun(run) && i < |run| && WaitsForLiveChild(run[i])
    requires Enabled(run[i], a) && !a.ChildExits? && !a.UserKills?
    ensures !a.Control? && WaitsForLiveChild(Next(run[i], a)) && Next(run[i], a).controller == run[i].controller
  {
    AlwaysInv(run, i);
  }

  /** And until the PTY drains, its other end closing included, no step of anyone moves the
      call on. */
  lemma FullPtyBlocks(run: seq<Sys>, i: nat, a: Action)
    requires IsRun(run) && i < |run| && WaitsForFullPty(run[i])
    requires Enabled(run[i], a) && !a.PtyDrains?
    ensures !a.Control? && WaitsForFullPty(Next(run[i], a)) && Next(run[i], a).controller == run[i].controller
  {
    AlwaysInv(run, i);
  }

  /** Between its first instruction and the closing of the queue the call waits only for
      the slot lock, and only for a caller that holds it and can let it go. */
  lemma CloseReachesTheQueue(run: seq<Sys>, i: nat)
    requires IsRun(run) && i < |run| && run[i].controller.At? && !run[i].queueClosed
    ensures
      || ControllerReady(run[i])
      || (run[i].controller.next.LockForClose? && run[i].holder.User?
          && Enabled(run[i], UserUnlocks(run[i].holder.id))
          && ControllerReady(Next(run[i], UserUnlocks(run[i].holder.id))))
  {
    AlwaysInv(run, i);
  }

  // ----- when a write can block

  /** The reader's guard keeps the descriptor nonblocking. */
  predicate HoldsGuard(reader: ReaderPc) {
    !reader.NoReader? && !reader.Entering? && !reader.Refusing? && !reader.ReaderEnded?
  }

  ghost predicate ModeSound(s: Sys) {
    && (s.nonblocking <==> s.original || HoldsGuard(s.reader))
    && (s.writer == InCall(true) ==> !s.original)
  }

  lemma ModeSoundKeeps(s: Sys, a: Action)
    requires Inv(s) && ModeSound(s) && Enabled(s, a)
    ensures ModeSound(Next(s, a))
  {
    hide LockSound, SlotSound, FlagsSound, WriterSound, ExitSound;
    match a
    case Control(ok, wanted) => ControlKeepsMode(s, ok, wanted);
    case _ =>
  }

  lemma ControlKeepsMode(s: Sys, ok: bool, wanted: bool)
    requires Inv(s) && ModeSound(s) && ControllerReady(s)
    ensures ModeSound(ControllerNext(s, ok, wanted))
  {
    assert s.controller.next.SpawnReader? ==> s.reader.NoReader?;
    hide Inv, NextInstr;
  }

  lemma {:induction false} ModeAlwaysSound(run: seq<Sys>, i: nat)
    requires IsRun(run) && i < |run|
    ensures ModeSound(run[i])
  {
    hide Inv, Steps;
    if i == 0 {
      var readMax: nat, original: bool :| run[0] == Initial(readMax, original);
    } else {
      hide ModeSound;
      ModeAlwaysSound(run, i - 1);
      AlwaysInv(run, i - 1);
      var a := StepAt(run, i);
      StepKeepsMode(run[i - 1], a, run[i]);
    }
  }

  lemma StepKeepsMode(s: Sys, a: Action, t: Sys)
    requires Inv(s) && ModeSound(s) && Steps(s, a, t)
    ensures ModeSound(t)
  {
    hide Inv, ModeSound;
    ModeSoundKeeps(s, a);
  }

  /** The reader reads only while the descriptor is nonblocking, so its reads return; and
      a write blocks exactly if it begins while no reader keeps the descriptor nonblocking:
      before the reader has entered, or after it has ended. */
  lemma WritesBlockOutsideReader(run: seq<Sys>, i: nat)
    requires IsRun(run) && i < |run|
    ensures run[i].reader.Reading? ==> run[i].nonblocking
    ensures run[i].writer.Writing? ==>
              (Next(run[i], WriterDoes(BeginWrite)).writer == InCall(true)
               <==> !run[i].original && !HoldsGuard(run[i].reader))
  {
    ModeAlwaysSound(run, i);
  }

  /** Close waits for a live child only when its kill reached none. */
  lemma CloseBlocksOnlyIfKillMissed(run: seq<Sys>, i: nat)
    requires IsRun(run) && i < |run| && WaitsForLiveChild(run[i]) && run[i].controller.script.Closing?
    ensures run[i].killMissed
  {
    AlwaysInv(run, i);
  }

  // ----- and ends within a bound

  function InstrRank(i: Instr): nat {
    match i
    case JoinExitWaiter => 1
    case UnlockSlot => 2
    case ClearSlot => 3
    case JoinWriter => 4
    case JoinMode => 5
    case JoinWaiter => 6
    case JoinReader => 7
    case NotifyQueue => 8
    case CloseQueue => 9
    case SetStop => 10
    case LockForClose => 11
    case Kill => 12
    case MarkClosed => 13
    case _ => 0
  }

  function ControllerRank(c: Controller): nat {
    if c.At? then InstrRank(c.next) + (if c.script.Closing? then 0 else 12) else 0
  }

  function ResumeRank(r: Resume): nat {
    if r.ToAppend? then 7 + 3 * r.left else 5
  }

  function ReaderRank(reader: ReaderPc, readMax: nat): nat {
    match reader
    case NoReader => 0
    case ReaderEnded => 0
    case Restoring => 1
    case Refusing => 1
    case PostingClosed => 2
    case LastWait => 3
    case LastFlush => 4
    case Head => 5
    case Entering => 6
    case AfterAppend => 6
    case Appending(left) => 7 + 3 * left
    case InWait(resume) => 1 + ResumeRank(resume)
    case Flushing(resume) => 2 + ResumeRank(resume)
    case Polling => 8
    case Reading => 9 + 3 * readMax
  }

  function WriterRank(w: WriterPc): nat {
    match w
    case NoWriter => 0
    case WriterEnded => 0
    case Reporting => 1
    case Dequeuing => 1
    case Parked => 2
    case Failing => 2
    case Checking => 2
    case InCall(_) => 3
    case Writing => 4
    case Testing => 3
    case Opening => 3
  }

  function Rank(s: Sys): nat {
    ControllerRank(s.controller) + ReaderRank(s.reader, s.readMax) + WriterRank(s.writer)
    + (if s.waiter.AwaitingExit? then 2 else if s.waiter.PostingExit? then 1 else 0)
    + (if s.mode.Snapshotting? then 3 else if s.mode.Sleeping? then 2 else if s.mode.ModeHead? then 1 else 0)
    + (if s.exit.AwaitingChild? then 2 else if s.exit.Completing? then 1 else 0)
    + (if s.child.Exited? then 0 else 1)
  }

  // A check of the model: the joined threads neither look at the runtime slot nor take its
  // lock. Whoever holds it, their steps are enabled alike and do the same.

  ghost predicate IgnoresTheSlot(s: Sys, a: Action, holder: Holder, slot: Slot) {
    var t := s.(holder := holder, slot := slot);
    && (Enabled(t, a) <==> Enabled(s, a))
    && (Enabled(s, a) ==> Next(t, a) == Next(s, a).(holder := holder, slot := slot))
  }

  lemma ReaderIgnoresTheSlot(s: Sys, step: ReaderStep, holder: Holder, slot: Slot)
    ensures IgnoresTheSlot(s, ReaderDoes(step), holder, slot)
  {
    hide ReaderNext, ReaderEnabled, ModeAfter;
  }

  lemma WriterIgnoresTheSlot(s: Sys, step: WriterStep, holder: Holder, slot: Slot)
    ensures IgnoresTheSlot(s, WriterDoes(step), holder, slot)
  {
    hide WriterNext, WriterEnabled;
  }

  lemma ThreadsIgnoreTheSlot(s: Sys, a: Action, holder: Holder, slot: Slot)
    requires a.ReaderDoes? || a.WriterDoes? || a.WaiterDoes? || a.ModeDoes? || a.ExitWaiterDoes?
    ensures IgnoresTheSlot(s, a, holder, slot)
  {
    match a
    case ReaderDoes(step) =>
      hide IgnoresTheSlot;
      ReaderIgnoresTheSlot(s, step, holder, slot);
    case WriterDoes(step) =>
      hide IgnoresTheSlot;
      WriterIgnoresTheSlot(s, step, holder, slot);
    case ModeDoes(_) =>
    case WaiterDoes =>
    case _ =>
  }

  lemma SuccRanks(script: Script, i: Instr)
    requires InScript(At(script, i)) && !script.Starting?
    ensures ControllerRank(Succ(script, i)) < ControllerRank(At(script, i))
  {
  }

  predicate StartInstr(i: Instr) {
    i.LockForStart? || i.SpawnReader? || i.SpawnWaiter? || i.SpawnMode? || i.Publish?
  }

  /** What an instruction of a failing start or of close changes. */
  lemma ControlFrame(s: Sys, ok: bool, wanted: bool)
    requires ControllerReady(s) && !StartInstr(s.controller.next)
    ensures var t := ControllerNext(s, ok, wanted);
            && t.readMax == s.readMax && t.reader == s.reader && t.waiter == s.waiter && t.mode == s.mode
            && t.exit == s.exit
            && (t.controller == Succ(s.controller.script, s.controller.next)
                || (s.controller.next.LockForClose? && t.controller == At(s.controller.script, UnlockSlot)))
            && (t.writer == s.writer || (s.writer.Parked? && t.writer.Dequeuing?))
            && (t.child.Exited? <==> s.child.Exited?)
  {
    hide Succ, ControllerReady;
  }

  lemma ShuttingScript(s: Sys)
    requires ControlSound(s) && s.queueClosed && s.controller.At?
    ensures InScript(s.controller) && !s.controller.script.Starting? && !StartInstr(s.controller.next)
  {
  }

  lemma ControlRanks(s: Sys, ok: bool, wanted: bool)
    requires Inv(s) && s.queueClosed && ControllerReady(s)
    ensures Rank(ControllerNext(s, ok, wanted)) < Rank(s)
  {
    ShuttingScript(s);
    hide Inv, ControllerNext, Succ, ReaderRank, InScript, ControllerReady, StartInstr;
    ControlFrame(s, ok, wanted);
    SuccRanks(s.controller.script, s.controller.next);
  }

  lemma ReaderRanks(s: Sys, step: ReaderStep)
    requires s.stop && ReaderEnabled(s.reader, s.readMax, step)
    ensures ReaderRank(ReaderNext(s.reader, s.stop, s.readMax, step), s.readMax) < ReaderRank(s.reader, s.readMax)
  {
  }

  lemma WriterRanks(s: Sys, step: WriterStep)
    requires s.queueClosed && WriterEnabled(s.writer, s.drained, step)
    ensures WriterRank(WriterNext(s.writer, s.sessionClosed, s.queueClosed, s.nonblocking, step)) < WriterRank(s.writer)
  {
  }

  lemma OtherRanks(s: Sys, a: Action)
    requires Inv(s) && s.queueClosed && Enabled(s, a) && !a.Control? && !a.ReaderDoes? && !a.WriterDoes?
    ensures Rank(Next(s, a)) + (if IsProgress(a) then 1 else 0) <= Rank(s)
  {
    hide ThreadsSound, ReaderRank;
  }

  lemma ControlClosedQueueStays(s: Sys, ok: bool, wanted: bool)
    requires ControllerReady(s)
    ensures var t := ControllerNext(s, ok, wanted); (s.queueClosed ==> t.queueClosed) && t.readMax == s.readMax
  {
    hide NextInstr, ControllerReady;
  }

  lemma ClosedQueueStays(s: Sys, a: Action)
    requires Enabled(s, a)
    ensures (s.queueClosed ==> Next(s, a).queueClosed) && Next(s, a).readMax == s.readMax
  {
    hide ReaderNext, WriterNext, ModeNext, WaiterNext, ControllerNext, ControllerReady, ReaderEnabled, WriterEnabled,
         ModeReady, WaiterReady, ExitReady, ModeAfter;
    if a.Control? { ControlClosedQueueStays(s, a.ok, a.wanted); }
  }

  lemma LiveReaderSeesStop(s: Sys, step: ReaderStep)
    requires Inv(s) && s.queueClosed && ReaderEnabled(s.reader, s.readMax, step)
    ensures s.stop
  {
  }

  /** While shutting down every progress step brings the rank down and no other step
      brings it up. */
  lemma StepRanks(s: Sys, a: Action)
    requires Inv(s) && s.queueClosed && Enabled(s, a)
    ensures Rank(Next(s, a)) + (if IsProgress(a) then 1 else 0) <= Rank(s)
  {
    hide Inv, ReaderNext, WriterNext, ControllerNext, ReaderRank, WriterRank, ControllerRank;
    match a
    case Control(ok, wanted) => ControlRanks(s, ok, wanted);
    case ReaderDoes(step) =>
      LiveReaderSeesStop(s, step);
      ReaderRanks(s, step);
    case WriterDoes(step) => WriterRanks(s, step);
    case _ => OtherRanks(s, a);
  }

  /** A run with the action of each step. */
  ghost predicate Labelled(run: seq<Sys>, acts: seq<Action>) {
    && |run| == |acts| + 1
    && (exists readMax: nat, original: bool :: run[0] == Initial(readMax, original))
    && forall i, j | 0 <= i < |acts| && j == i + 1 :: Steps(run[i], acts[i], run[j])
  }

  lemma LabelledIsRun(run: seq<Sys>, acts: seq<Action>)
    requires Labelled(run, acts)
    ensures IsRun(run)
  {
    hide Steps;
    forall i, j | 0 <= i < j < |run| && j == i + 1 ensures Follows(run[i], run[j]) {
      assert Steps(run[i], acts[i], run[j]);
    }
  }

  function ProgressSteps(acts: seq<Action>): nat {
    if acts == [] then 0
    else ProgressSteps(acts[..|acts| - 1]) + if IsProgress(acts[|acts| - 1]) then 1 else 0
  }

  lemma {:induction false} ShutdownUsesRank(run: seq<Sys>, acts: seq<Action>, i: nat, j: nat)
    requires Labelled(run, acts) && i <= j < |run| && run[i].queueClosed
    ensures run[j].queueClosed && ProgressSteps(acts[i..j]) + Rank(run[j]) <= Rank(run[i])
    decreases j
  {
    hide Inv, Rank, IsProgress;
    if i < j {
      hide Steps, Labelled, IsRun;
      ShutdownUsesRank(run, acts, i, j - 1);
      LabelledIsRun(run, acts);
      AlwaysInv(run, j - 1);
      LabelledAt(run, acts, j);
      StepUsesRank(run[j - 1], acts[j - 1], run[j]);
      ProgressSnoc(acts, i, j);
      hide ProgressSteps;
    }
  }

  lemma ProgressSnoc(acts: seq<Action>, i: nat, j: nat)
    requires i < j <= |acts|
    ensures ProgressSteps(acts[i..j]) == ProgressSteps(acts[i..j - 1]) + if IsProgress(acts[j - 1]) then 1 else 0
  {
    hide IsProgress;
    assert acts[i..j][..j - i - 1] == acts[i..j - 1];
  }

  lemma LabelledAt(run: seq<Sys>, acts: seq<Action>, j: nat)
    requires Labelled(run, acts) && 0 < j < |run|
    ensures Steps(run[j - 1], acts[j - 1], run[j])
  {
    hide Steps;
  }

  lemma StepUsesRank(s: Sys, a: Action, t: Sys)
    requires Inv(s) && s.queueClosed && Steps(s, a, t)
    ensures t.queueClosed && Rank(t) + (if IsProgress(a) then 1 else 0) <= Rank(s)
  {
    hide Inv, Rank, IsProgress;
    StepRanks(s, a);
    ClosedQueueStays(s, a);
  }

  // ----- the threads' loops, read from the places they reach

  /** Within its loop: the reader flushes exactly when a batch is full or a poll times out;
      it waits exactly when the counter is full and stop has not been seen; it polls exactly
      after a read that found nothing, and appends every read before the next. */
  lemma ReaderLoop(reader: ReaderPc, stop: bool, readMax: nat, step: ReaderStep)
    requires ReaderEnabled(reader, readMax, step)
    ensures var next := ReaderNext(reader, stop, readMax, step);
            && (next.Flushing? <==> step.PollTimedOut? || (step.Take? && step.full))
            && (next.InWait? <==> (step.BeginFlush? && step.waits) || (step.WaitTurn? && step.full && !stop))
            && (next.LastWait? <==> (step.BeginLastFlush? && step.waits) || (step.LastWaitTurn? && step.full && !stop))
            && (next.Polling? <==> step.ReadNothing?)
            && (step.ReadData? ==> next == Appending(step.count))
            && (next.AfterAppend? <==> step.AppendDone?)
            && (next.Reading? <==> (step.LoadStop? || step.LoadStopAgain?) && !stop)
            && (next.Restoring? <==> step.PostClosed? && !reader.Refusing?)
  {
  }

  /** The writer writes only what it found in hand on an open queue, reports every failure,
      and parks exactly when there is nothing to do; the mode watcher sleeps after every
      snapshot. */
  lemma OtherLoops(s: Sys, step: WriterStep, ok: bool)
    ensures WriterEnabled(s.writer, s.drained, step) ==>
              var next := WriterNext(s.writer, s.sessionClosed, s.queueClosed, s.nonblocking, step);
              && (next.Reporting? <==> step.Fail?)
              && (next.Failing? <==> (step.Open? && step.failed) || (step.Test? && s.sessionClosed)
                                     || (step.WriteReturns? && step.failed))
              && (next.Parked? <==> step.Dequeue? && !step.work && !s.queueClosed)
              && (next.Testing? <==> step.Dequeue? && step.work && !s.queueClosed)
              && (next.Writing? <==> step.Check? && step.rest && !s.queueClosed)
    ensures ModeReady(s) ==>
              && (ModeNext(s, ok).ModeHead? <==> s.mode.Sleeping? && (s.stop || ok))
              && (ModeNext(s, ok).Snapshotting? <==> s.mode.ModeHead? && !s.stop)
  {
  }

  /** What callers may do at any moment: whoever has the session may kill, and who holds the
      lock of a running session with a writer may wake it. */
  lemma CallersCanAct(s: Sys, id: nat)
    ensures s.visible ==>
              Enabled(s, UserKills) && Next(s, UserKills) == s.(child := if s.child.Exited? then Exited else Killed)
    ensures s.holder == User(id) && s.slot.Running? && s.handle ==>
              && Enabled(s, UserNotifies(id))
              && Next(s, UserNotifies(id)) == (if s.writer.Parked? then s.(writer := Dequeuing) else s)
  {
    hide ControllerReady, ControllerNext, ReaderEnabled, ReaderNext, WriterEnabled, WriterNext;
    assert s.(child := s.child) == s && s.(writer := s.writer) == s;
  }

  /** And the rest of the world: a read may give any count that fits, a parked writer may
      wake for no reason, and a child may exit; */
  lemma WorldCanAct(s: Sys, n: nat)
    ensures s.reader.Reading? && 0 < n <= s.readMax ==> Enabled(s, ReaderDoes(ReadData(n)))
    ensures s.writer.Parked? ==> Enabled(s, SpuriousWakeup) && Next(s, SpuriousWakeup) == s.(writer := Dequeuing)
    ensures !s.child.Exited? ==> Enabled(s, ChildExits) && Next(s, ChildExits) == s.(child := Exited)
  {
    hide ControllerReady, ControllerNext, ReaderNext, WriterEnabled, WriterNext;
  }

  /** the PTY may fill, and drain. */
  lemma PtyCanAct(s: Sys)
    ensures Enabled(s, PtyDrains) && Next(s, PtyDrains) == s.(drained := true)
    ensures Enabled(s, PtyFills) && Next(s, PtyFills) == s.(drained := false)
  {
    hide ControllerReady, ControllerNext, ReaderEnabled, ReaderNext, WriterEnabled, WriterNext;
  }

  // ----- what start and close do, read from the instructions they executed

  /** Something a call leaves behind for good. */
  datatype Mark =
    | ReaderStarted | WaiterStarted | ModeWatcherStarted | SessionReturned
    | SessionMarkedClosed | StopFlagSet | QueueMarkedClosed | WriterStarted
    | ReaderLeaving | WriterLeaving | ModeWatcherEnded

  predicate Left(s: Sys, m: Mark) {
    match m
    case ReaderStarted => !s.reader.NoReader?
    case WaiterStarted => !s.waiter.NoWaiter?
    case ModeWatcherStarted => !s.mode.NoMode?
    case SessionReturned => s.visible
    case SessionMarkedClosed => s.sessionClosed
    case StopFlagSet => s.stop
    case QueueMarkedClosed => s.queueClosed
    case WriterStarted => !s.writer.NoWriter?
    case ReaderLeaving =>
      || s.reader.Refusing? || s.reader.LastFlush? || s.reader.LastWait? || s.reader.PostingClosed?
      || s.reader.Restoring? || s.reader.ReaderEnded?
    case WriterLeaving => s.writer.Failing? || s.writer.Reporting? || s.writer.WriterEnded?
    case ModeWatcherEnded => s.mode.ModeEnded?
  }

  /** The reader leaves its loop if it is refused, sees stop, reads the end or fails to read
      or poll, or has a post refused that it did not give up for stop. */
  predicate ReaderLeaves(step: ReaderStep, stop: bool) {
    match step
    case Enter(refused) => refused
    case LoadStop => stop
    case ReadLast => true
    case PollFailed => true
    case BeginFlush(waits, posted) => !waits && !posted
    case WaitTurn(full, posted) => !stop && !full && !posted
    case _ => false
  }

  /** The writer leaves its loop if it cannot start, finds the session closed, fails to
      write, or looks at a closed queue with nothing in hand or a chunk to go on with. */
  predicate WriterLeaves(s: Sys, step: WriterStep) {
    match step
    case Open(failed) => failed
    case Test => s.sessionClosed
    case WriteReturns(failed) => failed
    case Dequeue(_) => s.queueClosed
    case Check(rest) => rest && s.queueClosed
    case _ => false
  }

  /** The step is the instruction `i` of the controlling call. */
  predicate Executes(s: Sys, a: Action, i: Instr) {
    a.Control? && s.controller.At? && s.controller.next == i
  }

  /** The instruction, or the step, that leaves a mark: a thread is there exactly if it was
      to be spawned and its spawn succeeded, and leaves exactly for one of its causes. */
  predicate Leaves(s: Sys, a: Action, m: Mark) {
    match m
    case ReaderStarted => Executes(s, a, SpawnReader) && a.ok
    case WaiterStarted => Executes(s, a, SpawnWaiter) && a.ok
    case ModeWatcherStarted => Executes(s, a, SpawnMode) && a.ok && a.wanted
    case SessionReturned => Executes(s, a, UnlockSlot) && s.controller.script.Starting?
    case SessionMarkedClosed => Executes(s, a, MarkClosed)
    case StopFlagSet => Executes(s, a, SetStop)
    case QueueMarkedClosed => Executes(s, a, CloseQueue)
    case WriterStarted => a.UserStartsWriter? && a.ok
    case ReaderLeaving => a.ReaderDoes? && ReaderLeaves(a.rstep, s.stop)
    case WriterLeaving => a.WriterDoes? && WriterLeaves(s, a.wstep)
    case ModeWatcherEnded => a.ModeDoes? && ((s.mode.ModeHead? && s.stop) || (s.mode.Snapshotting? && !a.ok))
  }

  predicate IsFlag(m: Mark) {
    m.SessionReturned? || m.SessionMarkedClosed? || m.StopFlagSet? || m.QueueMarkedClosed?
  }

  lemma ControlLeavesFlags(s: Sys, ok: bool, wanted: bool, m: Mark)
    requires ControllerReady(s) && IsFlag(m)
    ensures Left(ControllerNext(s, ok, wanted), m) <==> Left(s, m) || Leaves(s, Control(ok, wanted), m)
  {
    assert s.controller.At?;
    hide NextInstr, ControllerReady;
  }

  lemma ControlLeavesThreads(s: Sys, ok: bool, wanted: bool, m: Mark)
    requires ControllerReady(s) && !IsFlag(m)
    requires s.controller.next.SpawnReader? ==> s.reader.NoReader?
    requires s.controller.next.SpawnMode? ==> s.mode.NoMode?
    ensures Left(ControllerNext(s, ok, wanted), m) <==> Left(s, m) || Leaves(s, Control(ok, wanted), m)
  {
    assert s.controller.At?;
    hide NextInstr, ControllerReady, ReaderLeaves, WriterLeaves;
  }

  lemma NothingSpawnedTwice(s: Sys)
    requires JoinsSound(s) && ControlSound(s) && s.controller.At?
    ensures s.controller.next.SpawnReader? ==> s.reader.NoReader?
    ensures s.controller.next.SpawnMode? ==> s.mode.NoMode?
  {
    hide SlotSound, FlagsSound, WriterSound, ExitSound;
  }

  lemma ControlLeaves(s: Sys, ok: bool, wanted: bool, m: Mark)
    requires Inv(s) && ControllerReady(s)
    ensures Left(ControllerNext(s, ok, wanted), m) <==> Left(s, m) || Leaves(s, Control(ok, wanted), m)
  {
    hide ControlSound, JoinsSound, ControllerNext, Left, Leaves;
    NothingSpawnedTwice(s);
    if IsFlag(m) { ControlLeavesFlags(s, ok, wanted, m); } else { ControlLeavesThreads(s, ok, wanted, m); }
  }

  lemma ReaderMarks(s: Sys, step: ReaderStep, m: Mark)
    requires Enabled(s, ReaderDoes(step))
    ensures Left(Next(s, ReaderDoes(step)), m) <==> Left(s, m) || Leaves(s, ReaderDoes(step), m)
  {
  }

  lemma WriterMarks(s: Sys, step: WriterStep, m: Mark)
    requires Enabled(s, WriterDoes(step))
    ensures Left(Next(s, WriterDoes(step)), m) <==> Left(s, m) || Leaves(s, WriterDoes(step), m)
  {
  }

  lemma CallerLeaves(s: Sys, a: Action, m: Mark)
    requires WriterSound(s) && LockSound(s) && Enabled(s, a) && OfCaller(a)
    ensures Left(Next(s, a), m) <==> Left(s, m) || Leaves(s, a, m)
  {
    hide ControllerReady, ReaderEnabled, WriterEnabled, ReaderNext, WriterNext, ReaderLeaves, WriterLeaves;
  }

  lemma OtherLeaves(s: Sys, a: Action, m: Mark)
    requires Enabled(s, a) && !OfCaller(a) && !a.Control? && !a.ReaderDoes? && !a.WriterDoes?
    ensures Left(Next(s, a), m) <==> Left(s, m) || Leaves(s, a, m)
  {
    hide ControllerReady, ReaderEnabled, WriterEnabled, ReaderNext, WriterNext, ReaderLeaves, WriterLeaves;
  }

  lemma InvIsWriterSound(s: Sys)
    requires Inv(s)
    ensures WriterSound(s) && LockSound(s)
  {
  }

  lemma StepLeaves(s: Sys, a: Action, t: Sys, m: Mark)
    requires Inv(s) && Steps(s, a, t)
    ensures Left(t, m) <==> Left(s, m) || Leaves(s, a, m)
  {
    InvIsWriterSound(s);
    hide Inv, Left, Leaves, ControllerNext, ControllerReady, WriterSound, LockSound, OfCaller;
    match a
    case Control(ok, wanted) => ControlLeaves(s, ok, wanted, m);
    case ReaderDoes(step) => ReaderMarks(s, step, m);
    case WriterDoes(step) => WriterMarks(s, step, m);
    case _ => if OfCaller(a) { CallerLeaves(s, a, m); } else { OtherLeaves(s, a, m); }
  }

  /** Over every run: each thread exists, and each flag is set, exactly if the instruction
      that makes it so was executed; and the reader, the writer and the mode watcher have
      left their loops exactly if something happened that makes them. */
  lemma {:induction false} MarksComeFromInstructions(run: seq<Sys>, acts: seq<Action>, i: nat, m: Mark)
    requires Labelled(run, acts) && i < |run|
    ensures Left(run[i], m) <==> exists k | 0 <= k < i :: Leaves(run[k], acts[k], m)
  {
    hide Inv, Steps, Leaves;
    if i > 0 {
      hide Left, Labelled, IsRun;
      MarksComeFromInstructions(run, acts, i - 1, m);
      LabelledIsRun(run, acts);
      AlwaysInv(run, i - 1);
      LabelledAt(run, acts, i);
      StepLeaves(run[i - 1], acts[i - 1], run[i], m);
    }
  }

  lemma RankBounded(s: Sys)
    requires Inv(s) && s.queueClosed
    ensures Rank(s) <= 3 * s.readMax + 40
  {
  }

  /** Once the queue is closed, and however other callers interleave, the session's
      threads and the call that joins them take at most 3 * readMax + 40 further steps. */
  lemma ShutdownIsBounded(run: seq<Sys>, acts: seq<Action>, i: nat, j: nat)
    requires Labelled(run, acts) && i <= j < |run| && run[i].queueClosed
    ensures ProgressSteps(acts[i..j]) <= 3 * run[i].readMax + 40
  {
    ShutdownUsesRank(run, acts, i, j);
    LabelledIsRun(run, acts);
    AlwaysInv(run, i);
    RankBounded(run[i]);
  }

  // ----- a start that fails late can hang

  lemma Extend(run: seq<Sys>, a: Action, t: Sys) returns (longer: seq<Sys>)
    requires IsRun(run) && Steps(run[|run| - 1], a, t)
    ensures IsRun(longer) && longer != [] && longer[|longer| - 1] == t
  {
    hide Steps;
    longer := run + [t];
    forall i, j | 0 <= i < j < |longer| && j == i + 1 ensures Follows(longer[i], longer[j]) {
      if j < |run| { assert Follows(run[i], run[j]); }
    }
  }

  lemma Alone(readMax: nat) returns (run: seq<Sys>)
    ensures IsRun(run) && run[|run| - 1] == Initial(readMax, false)
  {
    run := [Initial(readMax, false)];
  }

  /** Starting, as far as the mode watcher that cannot be spawned. */
  function ModeSpawnFailed(readMax: nat): Sys {
    Sys(readMax, At(ModeFailed, SetStop), NotStarted, TheController, false, false, false, false, false,
        Entering, NoWriter, false, 0, AwaitingExit, NoMode, AwaitingChild, Alive, false, false, true)
  }

  lemma ModeSpawnCanFail(readMax: nat) returns (run: seq<Sys>)
    ensures IsRun(run) && run[|run| - 1] == ModeSpawnFailed(readMax)
  {
    var s0 := Initial(readMax, false);
    var s1 := s0.(controller := At(Starting, SpawnReader), holder := TheController);
    var s2 := s1.(controller := At(Starting, SpawnWaiter), reader := Entering);
    var s3 := s2.(controller := At(Starting, SpawnMode), waiter := AwaitingExit);
    run := Alone(readMax);
    hide IsRun;
    run := Extend(run, Control(true, true), s1);
    run := Extend(run, Control(true, true), s2);
    run := Extend(run, Control(true, true), s3);
    run := Extend(run, Control(false, true), ModeSpawnFailed(readMax));
  }

  /** If the mode watcher cannot be spawned, start joins the waiter before anything has
      killed the child: a run reaches a state where nothing can move until the child
      chooses to exit, and no caller yet has the session to kill it. */
  lemma FailedStartCanHang(readMax: nat) returns (run: seq<Sys>)
    ensures IsRun(run)
    ensures var s := run[|run| - 1];
            && s.controller == At(ModeFailed, JoinWaiter) && s.child.Alive? && !s.visible
            && !CanMove(s)
  {
    var s0 := ModeSpawnFailed(readMax);
    var s1 := s0.(controller := At(ModeFailed, CloseQueue), stop := true);
    var s2 := s1.(controller := At(ModeFailed, NotifyQueue), queueClosed := true);
    var s3 := s2.(controller := At(ModeFailed, JoinReader));
    var s4 := s3.(reader := Head, nonblocking := true);
    var s5 := s4.(reader := LastFlush);
    var s6 := s5.(reader := PostingClosed);
    var s7 := s6.(reader := Restoring);
    var s8 := s7.(reader := ReaderEnded, nonblocking := false);
    var s9 := s8.(controller := At(ModeFailed, JoinWaiter));
    run := ModeSpawnCanFail(readMax);
    hide IsRun;
    run := Extend(run, Control(true, true), s1);
    run := Extend(run, Control(true, true), s2);
    run := Extend(run, Control(true, true), s3);
    run := Extend(run, ReaderDoes(Enter(false)), s4);
    run := Extend(run, ReaderDoes(LoadStop), s5);
    run := Extend(run, ReaderDoes(BeginLastFlush(false)), s6);
    run := Extend(run, ReaderDoes(PostClosed), s7);
    run := Extend(run, ReaderDoes(RestoreMode), s8);
    run := Extend(run, Control(true, true), s9);
  }

  // ----- and a close can wait for a writer

  /** A running session whose writer has passed the closed poll and is about to write. */
  function AboutToWrite(readMax: nat): Sys {
    Sys(readMax, Idle, Running, Nobody, true, false, false, false, false,
        Head, Writing, true, 1, AwaitingExit, NoMode, AwaitingChild, Alive, false, true, true)
  }

  lemma SessionCanStart(readMax: nat) returns (run: seq<Sys>)
    ensures IsRun(run)
    ensures run[|run| - 1] ==
              AboutToWrite(readMax).(reader := Entering, nonblocking := false,
                                     writer := NoWriter, handle := false, started := 0)
  {
    var s0 := Initial(readMax, false);
    var s1 := s0.(controller := At(Starting, SpawnReader), holder := TheController);
    var s2 := s1.(controller := At(Starting, SpawnWaiter), reader := Entering);
    var s3 := s2.(controller := At(Starting, SpawnMode), waiter := AwaitingExit);
    var s4 := s3.(controller := At(Starting, Publish));
    var s5 := s4.(controller := At(Starting, UnlockSlot), slot := Running);
    run := Alone(readMax);
    hide IsRun;
    run := Extend(run, Control(true, false), s1);
    run := Extend(run, Control(true, false), s2);
    run := Extend(run, Control(true, false), s3);
    run := Extend(run, Control(true, false), s4);
    run := Extend(run, Control(true, false), s5);
    run := Extend(run, Control(true, false), s5.(controller := Idle, holder := Nobody, visible := true));
  }

  lemma WriterCanStart(readMax: nat) returns (run: seq<Sys>)
    ensures IsRun(run) && run[|run| - 1] == AboutToWrite(readMax)
  {
    run := SessionCanStart(readMax);
    var s0 := AboutToWrite(readMax).(writer := NoWriter, handle := false, started := 0);
    var s1 := s0.(holder := User(0));
    var s2 := AboutToWrite(readMax).(writer := Opening, holder := User(0));
    var s3 := AboutToWrite(readMax).(writer := Opening);
    hide IsRun;
    run := Extend(run, ReaderDoes(Enter(false)), s0);
    run := Extend(run, UserLocks(0), s1);
    run := Extend(run, UserStartsWriter(0, true), s2);
    run := Extend(run, UserUnlocks(0), s3);
    run := Extend(run, WriterDoes(Open(false)), s3.(writer := Dequeuing));
    run := Extend(run, WriterDoes(Dequeue(true)), s3.(writer := Testing));
    run := Extend(run, WriterDoes(Test), s3.(writer := Checking));
    run := Extend(run, WriterDoes(Check(true)), AboutToWrite(readMax));
  }

  /** The same session in close, its child killed and its reader ended: the descriptor is
      blocking again. */
  function ReaderJoined(readMax: nat): Sys {
    Sys(readMax, At(Closing, JoinWaiter), Running, TheController, true, true, true, true, false,
        ReaderEnded, Writing, true, 1, AwaitingExit, NoMode, AwaitingChild, Killed, false, false, true)
  }

  lemma CloseCanReachJoin(readMax: nat) returns (run: seq<Sys>)
    ensures IsRun(run)
    ensures run[|run| - 1] ==
              ReaderJoined(readMax).(controller := At(Closing, JoinReader), reader := Head, nonblocking := true)
  {
    run := WriterCanStart(readMax);
    var s0 := AboutToWrite(readMax).(controller := At(Closing, MarkClosed));
    var s1 := s0.(controller := At(Closing, Kill), sessionClosed := true);
    var s2 := s1.(controller := At(Closing, LockForClose), child := Killed);
    var s3 := s2.(controller := At(Closing, SetStop), holder := TheController);
    var s4 := s3.(controller := At(Closing, CloseQueue), stop := true);
    var s5 := s4.(controller := At(Closing, NotifyQueue), queueClosed := true);
    hide IsRun;
    run := Extend(run, RequestClose, s0);
    run := Extend(run, Control(true, false), s1);
    run := Extend(run, Control(true, false), s2);
    run := Extend(run, Control(true, false), s3);
    run := Extend(run, Control(true, false), s4);
    run := Extend(run, Control(true, false), s5);
    run := Extend(run, Control(true, false), s5.(controller := At(Closing, JoinReader)));
  }

  lemma CloseCanJoinReader(readMax: nat) returns (run: seq<Sys>)
    ensures IsRun(run) && run[|run| - 1] == ReaderJoined(readMax)
  {
    run := CloseCanReachJoin(readMax);
    var s0 := run[|run| - 1];
    hide IsRun;
    run := Extend(run, ReaderDoes(LoadStop), s0.(reader := LastFlush));
    run := Extend(run, ReaderDoes(BeginLastFlush(false)), s0.(reader := PostingClosed));
    run := Extend(run, ReaderDoes(PostClosed), s0.(reader := Restoring));
    run := Extend(run, ReaderDoes(RestoreMode), s0.(reader := ReaderEnded, nonblocking := false));
    run := Extend(run, Control(true, false), ReaderJoined(readMax));
  }

  /** A close joins the reader, whose guard made the descriptor nonblocking, before the
      writer. A writer already past its closed poll then enters a blocking write, and if
      the PTY is full and stays open the join never returns, though the child is dead, its
      exit recorded and every other thread ended: nothing can move. */
  lemma CloseCanWaitForFullPty(readMax: nat) returns (run: seq<Sys>)
    ensures IsRun(run)
    ensures var s := run[|run| - 1];
            && s.controller == At(Closing, JoinWriter) && WaitsForFullPty(s) && !WaitsForLiveChild(s)
            && s.reader.ReaderEnded? && s.exit.ExitRecorded? && s.child.Exited? && !s.killMissed
            && !CanMove(s)
  {
    run := CloseCanJoinReader(readMax);
    var s0 := ReaderJoined(readMax);
    var s1 := s0.(writer := InCall(true));
    var s2 := s1.(drained := false);
    var s3 := s2.(child := Exited);
    var s4 := s3.(exit := Completing);
    var s5 := s4.(exit := ExitRecorded);
    var s6 := s5.(waiter := PostingExit);
    var s7 := s6.(waiter := WaiterEnded);
    var s8 := s7.(controller := At(Closing, JoinMode));
    var s9 := s8.(controller := At(Closing, JoinWriter));
    hide IsRun;
    run := Extend(run, WriterDoes(BeginWrite), s1);
    run := Extend(run, PtyFills, s2);
    run := Extend(run, ChildExits, s3);
    run := Extend(run, ExitWaiterDoes, s4);
    run := Extend(run, ExitWaiterDoes, s5);
    run := Extend(run, WaiterDoes, s6);
    run := Extend(run, WaiterDoes, s7);
    run := Extend(run, Control(true, false), s8);
    run := Extend(run, Control(true, false), s9);
  }

  /** These are the only waits without an end: a failed start waits for a live child after
      the mode watcher could not be spawned, and otherwise one of its kills reached none; a
      close waits for a full PTY only after the child has exited and the reader has ended,
      and only if the descriptor was opened blocking. */
  lemma OnlyTheseWaitsHang(run: seq<Sys>, i: nat)
    requires IsRun(run) && i < |run|
    ensures WaitsForLiveChild(run[i]) ==> run[i].controller == At(ModeFailed, JoinWaiter) || run[i].killMissed
    ensures WaitsForFullPty(run[i]) ==>
              && run[i].controller == At(Closing, JoinWriter)
              && run[i].child.Exited? && run[i].exit.ExitRecorded? && run[i].reader.ReaderEnded?
              && !run[i].original && !run[i].nonblocking
  {
    AlwaysInv(run, i);
    ModeAlwaysSound(run, i);
  }
}
