/** The exit state of a session: written once by the thread that waits for the child,
    read by any number of waiters and by every kill.

    `WaitState` is the object under its lock. The system below it interleaves waiters,
    exit-waiter threads, kills and the thread that posts the exit event, with spurious
    wakeups, and is cut at every lock and system call. */
module ExitState {
  import opened Ptyx
  import Monitor

  type ExitResult = Result<i32, PtyxError>

  const CHILD_CLOSED := PtyxError(Closed, "child handle is closed")
  const REAPED_ELSEWHERE := PtyxError(WaitFailed, "child exit status was reaped before ptyx could observe it")

  /** What waiting on the child handle gives. */
  datatype ChildWait = Exited(status: Monitor.ExitStatus) | NoSuchChild | WaitError(text: string)

  function ResultOf(wait: ChildWait): ExitResult {
    match wait
    case Exited(status) => Ok(Monitor.PostedExitCode(status))
    case NoSuchChild => Err(REAPED_ELSEWHERE)
    case WaitError(text) => Err(PtyxError(WaitFailed, text))
  }

  /** What sending a signal gives: sent, no such process, or another error. */
  datatype Signalled = Sent | Gone | SignalError(text: string)

  function KillReply(signalled: Signalled): Result<bool, PtyxError> {
    match signalled
    case Sent => Ok(true)
    case Gone => Ok(false)
    case SignalError(text) => Err(PtyxError(NativeError, text))
  }

  datatype Event = ExitEvent(code: int) | WaitErrorEvent(error: PtyxError)

  function EventOf(result: ExitResult): Event {
    match result
    case Ok(code) => ExitEvent(code)
    case Err(error) => WaitErrorEvent(error)
  }

  /** The cell after one more completion: the first result stays. */
  function Recorded(cell: Option<ExitResult>, next: ExitResult): Option<ExitResult> {
    if cell.None? then Some(next) else cell
  }

  // ----- the objects

  class WaitState {
    var result: Option<ExitResult>

    constructor ()
      ensures result.None?
    {
      result := None;
    }

    method Complete(next: ExitResult)
      modifies this
      ensures result == Recorded(old(result), next)
    {
      if result.None? {
        result := Some(next);
      }
    }

    /** Sends a signal exactly if no result was recorded when it looked. Between the look
        and the signal the lock is free: `meanwhile` is the result others record there, if
        any, and does not stop the signal. `outcome` is what a signal does. */
    method Kill(hasPid: bool, outcome: Signalled, meanwhile: Option<ExitResult>)
      returns (r: Result<bool, PtyxError>, sent: bool)
      modifies this
      ensures sent <==> old(result).None? && hasPid
      ensures r == if sent then KillReply(outcome) else Ok(false)
      ensures r == Ok(true) <==> sent && outcome.Sent?
      ensures r == Ok(false) <==> !sent || outcome.Gone?
      ensures r.Err? ==> sent && outcome.SignalError? && r.error == PtyxError(NativeError, outcome.text)
      ensures result == if old(result).None? && meanwhile.Some? then meanwhile else old(result)
    {
      var ready := result.Some?;
      if meanwhile.Some? {
        Complete(meanwhile.value);
      }
      if ready || !hasPid {
        return Ok(false), false;
      }
      return KillReply(outcome), true;
    }
  }

  // ----- the system

  datatype WaiterPc = Looking | Parked | Returned(result: ExitResult)

  datatype ReaperPc = Taking | Waiting | Completing(result: ExitResult) | Finished

  datatype KillPc = Testing | Signalling | Answered(reply: Result<bool, PtyxError>)

  /** The thread that posts the exit event is the waiter numbered `POSTER`. */
  datatype PosterPc = BeforeLoad | Posting | Posted | Silenced

  const POSTER: nat := 0

  datatype Handle = Available | TakenBy(reaper: nat)

  /** A waiter, reaper or kill is absent until it begins, and its number is not used
      again. The last three fields are history: what waits on the child handle gave, the
      kills that sent a signal, and the events posted. */
  datatype Sys = Sys(
    hasPid: bool,
    handle: Handle,
    result: Option<ExitResult>,
    stop: bool,
    waiters: map<nat, WaiterPc>,
    reapers: map<nat, ReaperPc>,
    kills: map<nat, KillPc>,
    poster: PosterPc,
    waits: seq<ChildWait>,
    signals: seq<nat>,
    events: seq<Event>)

  function Initial(hasPid: bool): Sys {
    Sys(hasPid, Available, None, false, map[], map[], map[], BeforeLoad, [], [], [])
  }

  datatype Action =
    | BeginWait(id: nat) | Look(id: nat) | SpuriousWakeup(id: nat)
    | StartReaper(id: nat) | TakeChild(id: nat) | ChildWaited(id: nat, wait: ChildWait) | Complete(id: nat)
    | BeginKill(id: nat) | TestCached(id: nat) | Signal(id: nat, outcome: Signalled)
    | LoadStop | Post | SetStop

  predicate WaiterAt(s: Sys, id: nat, pc: WaiterPc) {
    id in s.waiters && s.waiters[id] == pc
  }

  predicate ReaperAt(s: Sys, id: nat, pc: ReaperPc) {
    id in s.reapers && s.reapers[id] == pc
  }

  predicate KillAt(s: Sys, id: nat, pc: KillPc) {
    id in s.kills && s.kills[id] == pc
  }

  predicate Enabled(s: Sys, a: Action) {
    match a
    case BeginWait(id) => id !in s.waiters
    case Look(id) => WaiterAt(s, id, Looking)
    case SpuriousWakeup(id) => WaiterAt(s, id, Parked)
    case StartReaper(id) => id !in s.reapers
    case TakeChild(id) => ReaperAt(s, id, Taking)
    case ChildWaited(id, _) => ReaperAt(s, id, Waiting)
    case Complete(id) => id in s.reapers && s.reapers[id].Completing?
    case BeginKill(id) => id !in s.kills
    case TestCached(id) => KillAt(s, id, Testing)
    case Signal(id, _) => KillAt(s, id, Signalling)
    case LoadStop => s.poster.BeforeLoad? && POSTER in s.waiters && s.waiters[POSTER].Returned?
    case Post => s.poster.Posting? && POSTER in s.waiters && s.waiters[POSTER].Returned?
    case SetStop => true
  }

  /** The notify is sent under the lock: every parked waiter goes to look again. */
  function Woken(waiters: map<nat, WaiterPc>): map<nat, WaiterPc> {
    map id | id in waiters :: if waiters[id].Parked? then Looking else waiters[id]
  }

  function Next(s: Sys, a: Action): Sys
    requires Enabled(s, a)
  {
    match a
    case BeginWait(id) => s.(waiters := s.waiters[id := Looking])
    case Look(id) => s.(waiters := s.waiters[id := if s.result.Some? then Returned(s.result.value) else Parked])
    case SpuriousWakeup(id) => s.(waiters := s.waiters[id := Looking])
    case StartReaper(id) => s.(reapers := s.reapers[id := Taking])
    case TakeChild(id) =>
      if s.handle.Available? then s.(handle := TakenBy(id), reapers := s.reapers[id := Waiting])
      else s.(reapers := s.reapers[id := Completing(Err(CHILD_CLOSED))])
    case ChildWaited(id, wait) =>
      s.(reapers := s.reapers[id := Completing(ResultOf(wait))], waits := s.waits + [wait])
    case Complete(id) =>
      s.(result := Recorded(s.result, s.reapers[id].result),
         waiters := Woken(s.waiters),
         reapers := s.reapers[id := Finished])
    case BeginKill(id) => s.(kills := s.kills[id := Testing])
    case TestCached(id) =>
      s.(kills := s.kills[id := if s.result.Some? || !s.hasPid then Answered(Ok(false)) else Signalling])
    case Signal(id, outcome) =>
      s.(kills := s.kills[id := Answered(KillReply(outcome))], signals := s.signals + [id])
    case LoadStop => s.(poster := if s.stop then Silenced else Posting)
    case Post => s.(poster := Posted, events := s.events + [EventOf(s.waiters[POSTER].result)])
    case SetStop => s.(stop := true)
  }

  ghost predicate Follows(s: Sys, t: Sys) {
    exists a: Action :: Enabled(s, a) && t == Next(s, a)
  }

  ghost predicate IsRun(run: seq<Sys>) {
    && run != []
    && (exists hasPid: bool :: run[0] == Initial(hasPid))
    && forall i, j | 0 <= i < j < |run| && j == i + 1 :: Follows(run[i], run[j])
  }

  // ----- the invariant

  /** Who waits has no result to see; who returned saw the result. */
  ghost predicate WaitersSound(s: Sys) {
    && (forall id | id in s.waiters && s.waiters[id].Parked? :: s.result.None?)
    && (forall id | id in s.waiters && s.waiters[id].Returned? :: s.result == Some(s.waiters[id].result))
  }

  /** Only the thread that took the handle waits on it, and it waits once. */
  ghost predicate HandleSound(s: Sys) {
    && |s.waits| <= 1
    && (s.handle.Available? ==> s.waits == [])
    && (forall id | id in s.reapers && s.reapers[id].Waiting? :: s.handle == TakenBy(id) && s.waits == [])
  }

  ghost predicate SecondReaper(s: Sys, id: nat) {
    id in s.reapers && s.handle.TakenBy? && s.handle != TakenBy(id)
  }

  /** A result is what the one wait on the child gave; or else two reapers were started
      and it tells that the handle was gone. */
  ghost predicate Genuine(s: Sys, result: ExitResult) {
    || (s.waits != [] && result == ResultOf(s.waits[0]))
    || (result == Err(CHILD_CLOSED) && exists id :: SecondReaper(s, id))
  }

  ghost predicate ResultsSound(s: Sys) {
    && (forall id | id in s.reapers && s.reapers[id].Finished? :: s.result.Some?)
    && (s.result.Some? ==> Genuine(s, s.result.value))
    && (forall id | id in s.reapers && s.reapers[id].Completing? :: Genuine(s, s.reapers[id].result))
    && (s.handle.TakenBy? ==> s.handle.reaper in s.reapers && !s.reapers[s.handle.reaper].Taking?)
  }

  ghost predicate PosterSound(s: Sys) {
    && (!s.poster.BeforeLoad? ==> POSTER in s.waiters && s.waiters[POSTER].Returned?)
    && s.events == (if s.poster.Posted? then [EventOf(s.waiters[POSTER].result)] else [])
    && (s.poster.Silenced? ==> s.stop)
  }

  /** A kill that signalled has answered, and one that did not answers false; none signals
      a child without a PID. */
  ghost predicate KillsSound(s: Sys) {
    && (s.signals != [] ==> s.hasPid)
    && (forall id | id in s.kills && s.kills[id].Signalling? :: s.hasPid)
    && (forall id | id in s.signals :: id in s.kills && s.kills[id].Answered?)
    && (forall id | id in s.kills && s.kills[id].Answered? :: id in s.signals || s.kills[id].reply == Ok(false))
  }

  ghost predicate Inv(s: Sys) {
    WaitersSound(s) && HandleSound(s) && ResultsSound(s) && PosterSound(s) && KillsSound(s)
  }

  predicate IsReaping(a: Action) {
    a.StartReaper? || a.TakeChild? || a.ChildWaited? || a.Complete?
  }

  /** What was genuine stays so while reapers are added and the handle is not given back. */
  lemma GenuineKept(s: Sys, t: Sys, result: ExitResult)
    requires Genuine(s, result)
    requires s.waits <= t.waits && s.reapers.Keys <= t.reapers.Keys && (s.handle.TakenBy? ==> t.handle == s.handle)
    ensures Genuine(t, result)
  {
    if !(s.waits != [] && result == ResultOf(s.waits[0])) {
      var id :| SecondReaper(s, id);
      assert SecondReaper(t, id);
    }
  }

  lemma ReapingKeepsResults(s: Sys, a: Action)
    requires Inv(s) && Enabled(s, a) && IsReaping(a)
    ensures ResultsSound(Next(s, a))
  {
    hide Genuine, WaitersSound, PosterSound;
    var t := Next(s, a);
    if s.result.Some? { GenuineKept(s, t, s.result.value); }
    forall id | id in s.reapers && s.reapers[id].Completing? ensures Genuine(t, s.reapers[id].result) {
      GenuineKept(s, t, s.reapers[id].result);
    }
    match a
    case TakeChild(id) =>
      if s.handle.TakenBy? { HandleGone(s, t, id); }
    case ChildWaited(id, wait) =>
      WaitGenuine(t, ResultOf(wait));
    case _ =>
  }

  lemma WaitGenuine(t: Sys, result: ExitResult)
    requires t.waits != [] && result == ResultOf(t.waits[0])
    ensures Genuine(t, result)
  {
  }

  lemma HandleGone(s: Sys, t: Sys, id: nat)
    requires ResultsSound(s) && ReaperAt(s, id, Taking) && s.handle.TakenBy? && t.handle == s.handle && id in t.reapers
    ensures Genuine(t, Err(CHILD_CLOSED))
  {
    assert SecondReaper(t, id);
  }

  lemma ReapingKeeps(s: Sys, a: Action)
    requires Inv(s) && Enabled(s, a) && IsReaping(a)
    ensures WaitersSound(Next(s, a)) && HandleSound(Next(s, a)) && PosterSound(Next(s, a)) && KillsSound(Next(s, a))
  {
    hide ResultsSound;
    var t := Next(s, a);
    assert t.kills == s.kills && t.signals == s.signals && KillsSound(t) by {
      hide WaitersSound, HandleSound, PosterSound;
    }
    assert HandleSound(t) by {
      hide WaitersSound, PosterSound, KillsSound;
    }
    hide HandleSound, KillsSound;
  }

  lemma OtherKeepsResults(s: Sys, a: Action)
    requires Inv(s) && Enabled(s, a) && !IsReaping(a)
    ensures ResultsSound(Next(s, a))
  {
    hide WaitersSound, HandleSound, PosterSound, KillsSound;
    var t := Next(s, a);
    if s.result.Some? { GenuineKept(s, t, s.result.value); }
    forall id | id in s.reapers && s.reapers[id].Completing? ensures Genuine(t, s.reapers[id].result) {
      GenuineKept(s, t, s.reapers[id].result);
    }
  }

  lemma OtherKeeps(s: Sys, a: Action)
    requires Inv(s) && Enabled(s, a) && !IsReaping(a)
    ensures Inv(Next(s, a))
  {
    OtherKeepsResults(s, a);
    OtherKeepsKills(s, a);
    OtherKeepsWaiters(s, a);
    hide ResultsSound, KillsSound, WaitersSound, HandleSound, PosterSound, Next;
  }

  lemma OtherKeepsKills(s: Sys, a: Action)
    requires Inv(s) && Enabled(s, a) && !IsReaping(a)
    ensures KillsSound(Next(s, a))
  {
    hide ResultsSound, WaitersSound, HandleSound, PosterSound;
  }

  lemma OtherKeepsWaiters(s: Sys, a: Action)
    requires Inv(s) && Enabled(s, a) && !IsReaping(a)
    ensures WaitersSound(Next(s, a)) && HandleSound(Next(s, a)) && PosterSound(Next(s, a))
  {
    hide ResultsSound, KillsSound;
  }

  lemma Keeps(s: Sys, a: Action)
    requires Inv(s) && Enabled(s, a)
    ensures Inv(Next(s, a))
  {
    if IsReaping(a) {
      ReapingKeeps(s, a);
      ReapingKeepsResults(s, a);
    } else {
      OtherKeeps(s, a);
    }
  }

  lemma {:induction false} AlwaysInv(run: seq<Sys>, i: nat)
    requires IsRun(run) && i < |run|
    ensures Inv(run[i])
  {
    if i == 0 {
      var hasPid: bool :| run[0] == Initial(hasPid);
    } else {
      AlwaysInv(run, i - 1);
      assert Follows(run[i - 1], run[i]);
      var a :| Enabled(run[i - 1], a) && run[i] == Next(run[i - 1], a);
      Keeps(run[i - 1], a);
    }
  }

  // ----- what holds over every run

  /** The stop flag is set and the poster has not loaded it yet, or has seen it. */
  predicate Quiet(s: Sys) {
    s.stop && (s.poster.BeforeLoad? || s.poster.Silenced?)
  }

  /** What no step undoes. A kill that is not about to signal once a result is recorded
      never signals again. */
  ghost predicate Later(s: Sys, t: Sys) {
    && (s.result.Some? ==> t.result == s.result)
    && (forall id | id in s.waiters && s.waiters[id].Returned? :: WaiterAt(t, id, s.waiters[id]))
    && (s.result.Some? ==> forall id :: KillAt(t, id, Signalling) ==> KillAt(s, id, Signalling))
    && s.signals <= t.signals
    && (Quiet(s) ==> Quiet(t))
    && (s.result.Some? ==> forall id | id in t.signals :: id in s.signals || KillAt(s, id, Signalling))
  }

  lemma StepLater(s: Sys, a: Action)
    requires Enabled(s, a)
    ensures Later(s, Next(s, a))
  {
  }

  lemma LaterReflexive(s: Sys)
    ensures Later(s, s)
  {
  }

  lemma LaterTransitive(s: Sys, t: Sys, u: Sys)
    requires Later(s, t) && Later(t, u)
    ensures Later(s, u)
  {
    forall id | id in s.waiters && s.waiters[id].Returned? ensures WaiterAt(u, id, s.waiters[id]) {
      assert WaiterAt(t, id, s.waiters[id]);
    }
  }

  lemma {:induction false} NothingIsUndone(run: seq<Sys>, i: nat, j: nat)
    requires IsRun(run) && i <= j < |run|
    ensures Later(run[i], run[j])
    decreases j
  {
    hide Later, Next, Enabled;
    if i == j {
      LaterReflexive(run[i]);
    } else {
      NothingIsUndone(run, i, j - 1);
      assert Follows(run[j - 1], run[j]);
      var a :| Enabled(run[j - 1], a) && run[j] == Next(run[j - 1], a);
      StepLater(run[j - 1], a);
      LaterTransitive(run[i], run[j - 1], run[j]);
    }
  }

  /** Every wait that returns, whenever it began and whenever it returns, returns the
      result recorded first; and readiness never goes back. */
  lemma WaitersAgree(run: seq<Sys>, i: nat, j: nat, a: nat, b: nat)
    requires IsRun(run) && i <= j < |run|
    requires a in run[i].waiters && run[i].waiters[a].Returned?
    requires b in run[j].waiters && run[j].waiters[b].Returned?
    ensures run[i].result == run[j].result == Some(run[i].waiters[a].result)
    ensures run[i].waiters[a].result == run[j].waiters[b].result
  {
    AlwaysInv(run, i);
    AlwaysInv(run, j);
    NothingIsUndone(run, i, j);
  }

  /** No wakeup is lost: once there is a result no waiter is parked, and each one that
      has not returned is one look away from returning it. */
  lemma NoWaiterIsLeftParked(run: seq<Sys>, i: nat, id: nat)
    requires IsRun(run) && i < |run| && run[i].result.Some? && id in run[i].waiters
    ensures !run[i].waiters[id].Parked?
    ensures run[i].waiters[id].Looking? ==>
              Enabled(run[i], Look(id)) && WaiterAt(Next(run[i], Look(id)), id, Returned(run[i].result.value))
  {
    AlwaysInv(run, i);
  }

  /** A completed exit waiter has left a result. The child is waited on at most once, and
      with one exit waiter, as spawn starts, the result is what that wait gave: the status,
      as the signed code it stands for, or the wait's error. */
  lemma ResultIsTheChilds(run: seq<Sys>, i: nat, reaper: nat)
    requires IsRun(run) && i < |run| && run[i].reapers.Keys <= {reaper}
    ensures ReaperAt(run[i], reaper, Finished) ==> run[i].result.Some?
    ensures run[i].result.Some? ==>
              && |run[i].waits| == 1
              && match run[i].waits[0]
                 case Exited(status) =>
                   run[i].result.value.Ok? && Monitor.ToU32(run[i].result.value.value) == status
                 case NoSuchChild =>
                   run[i].result.value ==
                   Err(PtyxError(WaitFailed, "child exit status was reaped before ptyx could observe it"))
                 case WaitError(text) => run[i].result.value == Err(PtyxError(WaitFailed, text))
  {
    AlwaysInv(run, i);
    var s := run[i];
    forall id ensures !SecondReaper(s, id) {
      assert id in s.reapers ==> id == reaper;
    }
  }

  /** Once a result is recorded, a kill sends a signal only if it had already looked: one
      that begins later sends none, ever, and answers false. */
  lemma LateKillIsSilent(run: seq<Sys>, i: nat, j: nat, id: nat)
    requires IsRun(run) && i <= j < |run| && run[i].result.Some?
    ensures !KillAt(run[i], id, Signalling) ==> (id in run[j].signals <==> id in run[i].signals)
    ensures id !in run[i].kills ==>
              && id !in run[j].signals
              && (id in run[j].kills && run[j].kills[id].Answered? ==> run[j].kills[id].reply == Ok(false))
  {
    AlwaysInv(run, i);
    AlwaysInv(run, j);
    NothingIsUndone(run, i, j);
  }

  /** A child without a PID is never signalled, and every kill of it that answers says no. */
  lemma NoPidNoSignal(run: seq<Sys>, i: nat, id: nat)
    requires IsRun(run) && i < |run| && !run[i].hasPid
    ensures run[i].signals == []
    ensures id in run[i].kills && run[i].kills[id].Answered? ==> run[i].kills[id].reply == Ok(false)
  {
    AlwaysInv(run, i);
  }

  /** The limit of that promise: a kill that looked before the result was recorded can
      still signal after it, when the PID may be another process's. */
  lemma EarlyKillCanSignalLate() returns (run: seq<Sys>, i: nat)
    ensures IsRun(run) && i + 1 < |run|
    ensures run[i].result.Some? && run[i].signals == [] && run[i + 1].signals == [0]
  {
    hide Follows;
    var s0 := Initial(true);
    var s2 := s0.(handle := TakenBy(0), reapers := map[0 := Waiting]);
    var s4 := s2.(kills := map[0 := Signalling]);
    var s6 := s4.(result := Some(Ok(0)), reapers := map[0 := Finished], waits := [Exited(0)]);
    run := [s0];
    assert IsRun(run);
    hide IsRun;
    run := Extend(run, StartReaper(0), s0.(reapers := map[0 := Taking]));
    run := Extend(run, TakeChild(0), s2);
    run := Extend(run, BeginKill(0), s2.(kills := map[0 := Testing]));
    run := Extend(run, TestCached(0), s4);
    run := Extend(run, ChildWaited(0, Exited(0)), s4.(reapers := map[0 := Completing(Ok(0))], waits := [Exited(0)]));
    run := Extend(run, Complete(0), s6);
    i := |run| - 1;
    run := Extend(run, Signal(0, Sent), s6.(kills := map[0 := Answered(Ok(true))], signals := [0]));
  }

  lemma Extend(run: seq<Sys>, a: Action, t: Sys) returns (longer: seq<Sys>)
    requires IsRun(run) && Enabled(run[|run| - 1], a) && t == Next(run[|run| - 1], a)
    ensures IsRun(longer) && longer == run + [t]
  {
    longer := run + [t];
    assert Follows(run[|run| - 1], t);
    hide Follows;
    forall i, j | 0 <= i < j < |longer| && j == i + 1 ensures Follows(longer[i], longer[j]) {
      if j < |run| { assert Follows(run[i], run[j]); }
    }
  }

  /** At most one event about the exit is posted: an exit event exactly for a recorded code,
      carrying it, and a wait error exactly for a recorded error, carrying that. It is
      withheld only if the stop flag was set. */
  lemma OneExitEvent(run: seq<Sys>, i: nat)
    requires IsRun(run) && i < |run|
    ensures var s := run[i];
            && (s.events != [] ==> |s.events| == 1 && s.result.Some?)
            && (s.events != [] ==> forall code: i32 :: s.events[0] == ExitEvent(code) <==> s.result == Some(Ok(code)))
            && (s.events != [] ==>
                  forall error :: s.events[0] == WaitErrorEvent(error) <==> s.result == Some(Err(error)))
            && (s.poster.Posted? <==> s.events != [])
            && (s.poster.Silenced? ==> s.stop)
  {
    AlwaysInv(run, i);
  }

  /** Whatever the wait on the child gives, there is a run in which the poster waits for it
      and posts the event about it. */
  lemma ExitIsPosted(hasPid: bool, wait: ChildWait) returns (run: seq<Sys>)
    ensures IsRun(run)
    ensures run[|run| - 1].events ==
              [if wait.Exited? then ExitEvent(Monitor.ToI32(wait.status))
               else if wait.NoSuchChild? then WaitErrorEvent(REAPED_ELSEWHERE)
               else WaitErrorEvent(PtyxError(WaitFailed, wait.text))]
  {
    var s0 := Initial(hasPid);
    var s2 := s0.(waiters := map[POSTER := Parked]);
    run := [s0];
    assert IsRun(run);
    hide IsRun, Follows;
    run := Extend(run, BeginWait(POSTER), s0.(waiters := map[POSTER := Looking]));
    run := Extend(run, Look(POSTER), s2);
    run := ReaperCompletes(run, s2, wait);
    run := PosterPosts(run, run[|run| - 1], ResultOf(wait));
  }

  lemma ReaperCompletes(run: seq<Sys>, s: Sys, wait: ChildWait) returns (longer: seq<Sys>)
    requires IsRun(run) && run[|run| - 1] == s && s.reapers == map[] && s.handle.Available? && s.result.None?
    requires s.waiters == map[POSTER := Parked] && s.poster.BeforeLoad?
    ensures IsRun(longer) && longer != []
    ensures longer[|longer| - 1] ==
              s.(handle := TakenBy(0), reapers := map[0 := Finished], waits := s.waits + [wait],
                 result := Some(ResultOf(wait)), waiters := map[POSTER := Looking])
  {
    var taken := s.(handle := TakenBy(0), reapers := map[0 := Waiting]);
    var waited := s.(handle := TakenBy(0), reapers := map[0 := Completing(ResultOf(wait))], waits := s.waits + [wait]);
    hide IsRun, Follows;
    longer := Extend(run, StartReaper(0), s.(reapers := map[0 := Taking]));
    longer := Extend(longer, TakeChild(0), taken);
    longer := Extend(longer, ChildWaited(0, wait), waited);
    assert Woken(map[POSTER := Parked]) == map[POSTER := Looking];
    longer := Extend(longer, Complete(0),
                     waited.(result := Some(ResultOf(wait)), waiters := map[POSTER := Looking],
                             reapers := map[0 := Finished]));
  }

  lemma PosterPosts(run: seq<Sys>, s: Sys, result: ExitResult) returns (longer: seq<Sys>)
    requires IsRun(run) && run[|run| - 1] == s && !s.stop && s.poster.BeforeLoad? && s.events == []
    requires s.waiters == map[POSTER := Looking] && s.result == Some(result)
    ensures IsRun(longer) && longer != [] && longer[|longer| - 1].events == [EventOf(result)]
  {
    hide IsRun, Follows;
    var looked := s.(waiters := map[POSTER := Returned(result)]);
    longer := Extend(run, Look(POSTER), looked);
    longer := Extend(longer, LoadStop, looked.(poster := Posting));
    longer := Extend(longer, Post, looked.(poster := Posted, events := [EventOf(result)]));
  }

  /** What else may happen at any moment: anyone may begin to wait or to kill, a waiter may
      wake for no reason and looks again, stop may be set, and a thread that finds the child
      taken completes with that error. */
  lemma AnythingCanHappen(s: Sys, id: nat)
    ensures id !in s.waiters ==> Enabled(s, BeginWait(id)) && WaiterAt(Next(s, BeginWait(id)), id, Looking)
    ensures id !in s.kills ==> Enabled(s, BeginKill(id)) && KillAt(Next(s, BeginKill(id)), id, Testing)
    ensures WaiterAt(s, id, Parked) ==>
              Enabled(s, SpuriousWakeup(id)) && WaiterAt(Next(s, SpuriousWakeup(id)), id, Looking)
    ensures Enabled(s, SetStop) && Next(s, SetStop) == s.(stop := true)
    ensures ReaperAt(s, id, Taking) && s.handle.TakenBy? ==>
              ReaperAt(Next(s, TakeChild(id)), id, Completing(Err(CHILD_CLOSED)))
  {
  }

  /** A stop flag set before the poster loads it withholds the event for good. */
  lemma StopSilences(run: seq<Sys>, i: nat, j: nat)
    requires IsRun(run) && i <= j < |run| && run[i].stop && run[i].poster.BeforeLoad?
    ensures run[j].events == []
  {
    AlwaysInv(run, j);
    NothingIsUndone(run, i, j);
  }

  /** The whole path of an exit code: the one the monitor frames is the one the parent's
      wait finds after the PID frame, and the one the exit event carries. */
  lemma ExitEventCarriesTheCode(order: Monitor.ByteOrder, trace: seq<Monitor.Message>)
    requires Monitor.MonitorTrace(trace) && trace[0].tag == Monitor.MONITOR_PID
    ensures var code := Monitor.ExitOf(order, Monitor.EncodeAll(order, trace)[8..]);
            && code == Some(trace[1].value)
            && EventOf(ResultOf(Exited(Monitor.ToU32(code.value)))) == ExitEvent(trace[1].value)
            && 0 <= trace[1].value < 256
  {
    var stream := Monitor.EncodeAll(order, trace);
    Monitor.PrefixDecodes(order, trace, 0);
    Monitor.ParentFollowsMonitor(order, trace, 16);
    assert stream[..16] == stream;
  }
}
