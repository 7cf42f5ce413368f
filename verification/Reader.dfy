/** The reader thread: the loops that drive an output buffer from the PTY until end of
    file, stop or an error, and always finish with the closed message.

    Read and poll results come from finite scripts. A run whose script is used up is a
    prefix of a longer run and ends `Unfinished`, so what holds for every script holds
    at every loop turn of every run. */
module Reader {
  import opened Ptyx
  import opened RuntimeConfig
  import opened Output

  datatype ReadResult = Data(bytes: Bytes) | NoData | Eof | ReadError(error: PtyxError)
  datatype PollResult = Ready | Timeout | PollError(error: PtyxError)

  /** A blocking read; `delayElapsed` is whether the batch is then old enough to flush. */
  datatype BlockingRead =
    | Bytes(bytes: Ptyx.Bytes, delayElapsed: bool)
    | EndOfFile
    | Interrupted
    | Failed(error: PtyxError)

  datatype Cause = AtEof | AtStop | AtError(error: PtyxError)

  /** How a run ended. A final flush found `batch` pending and used the world from
      `load` and `post` on. */
  datatype End =
    | Unfinished
    | NotStarted(error: PtyxError)
    | FlushFailed
    | FinalFlush(cause: Cause, batch: Ptyx.Bytes, load: nat, post: nat)

  /** The error events a run posts. */
  function ErrorsOf(end: End): seq<PtyxError> {
    match end
    case NotStarted(error) => [error]
    case FlushFailed => [POST_FAILED]
    case FinalFlush(AtError(error), _, _, _) => [error]
    case _ => []
  }

  /** What a run leaves: `sent` was accepted by the output port, `taken` was read, and
      `posts` were attempted. */
  ghost predicate RunSound(c: OutputConfig, w: World, end: End, sent: seq<Ptyx.Bytes>, taken: Ptyx.Bytes, posts: nat) {
    && Sized(c, sent)
    && Concat(sent) <= taken
    && (end.NotStarted? ==> sent == [] && taken == [])
    && (end.Unfinished? ==> forall k: nat | k < posts :: w.accepts(k))
    && (end.FlushFailed? ==> 0 < posts && !w.accepts(posts - 1))
    && (end.FinalFlush? ==>
          && (forall k: nat | k < end.post :: w.accepts(k))
          && 0 < end.load && (end.cause.AtStop? <==> w.stop(end.load - 1))
          && (Concat(sent) == taken <==>
                end.batch == [] || (!(c.requireAcks && w.stop(end.load)) && w.accepts(end.post))))
  }

  // ----- the results a run consumed, interleaved

  datatype Event = Read(result: ReadResult) | Polled(outcome: PollResult)

  ghost function Before(log: seq<Event>): seq<Event>
    requires log != []
  {
    log[..|log| - 1]
  }

  ghost function Last(log: seq<Event>): Event
    requires log != []
  {
    log[|log| - 1]
  }

  ghost function ReadsOf(log: seq<Event>): seq<ReadResult> {
    if log == [] then [] else ReadsOf(Before(log)) + if Last(log).Read? then [Last(log).result] else []
  }

  ghost function PollsOf(log: seq<Event>): seq<PollResult> {
    if log == [] then [] else PollsOf(Before(log)) + if Last(log).Polled? then [Last(log).outcome] else []
  }

  /** The bytes read, and those read since the last poll that timed out. */
  ghost function TakenBy(log: seq<Event>): Ptyx.Bytes {
    if log == [] then []
    else TakenBy(Before(log)) + if Last(log).Read? && Last(log).result.Data? then Last(log).result.bytes else []
  }

  ghost function FreshBy(log: seq<Event>): Ptyx.Bytes {
    if log == [] then []
    else if Last(log) == Polled(Timeout) then []
    else FreshBy(Before(log)) + if Last(log).Read? && Last(log).result.Data? then Last(log).result.bytes else []
  }

  ghost predicate Ends(e: Event) {
    e == Read(Eof) || (e.Read? && e.result.ReadError?) || (e.Polled? && e.outcome.PollError?)
  }

  /** Polls come exactly after reads that would block, and nothing follows an end. */
  ghost predicate Orderly(log: seq<Event>) {
    && (forall i | 0 <= i < |log| - 1 :: !Ends(log[i]))
    && (forall i, j | 0 <= i < j < |log| && j == i + 1 :: log[i] == Read(NoData) <==> log[j].Polled?)
    && (log != [] ==> log[0].Read?)
  }

  /** The loop's next call after `log` is a read. */
  ghost predicate ReadsNext(log: seq<Event>) {
    log != [] ==> !Ends(Last(log)) && Last(log) != Read(NoData)
  }

  /** The last result consumed is one that ends a run this way. Unless stopped, at most
      what came since the last timeout was pending. */
  ghost predicate EndFits(end: End, log: seq<Event>, allRead: bool, allPolled: bool) {
    match end
    case Unfinished => if log != [] && Last(log) == Read(NoData) then allPolled else ReadsNext(log) && allRead
    case NotStarted(_) => false
    case FlushFailed => log != [] && ((Last(log).Read? && Last(log).result.Data?) || Last(log) == Polled(Timeout))
    case FinalFlush(AtStop, _, _, _) => ReadsNext(log)
    case FinalFlush(AtEof, batch, _, _) => log != [] && Last(log) == Read(Eof) && |batch| <= |FreshBy(log)|
    case FinalFlush(AtError(error), batch, _, _) =>
      && log != [] && (Last(log) == Read(ReadError(error)) || Last(log) == Polled(PollError(error)))
      && |batch| <= |FreshBy(log)|
  }

  /** The run consumed `log` from its scripts, took its data, and ended where it ends. */
  ghost predicate Explained(end: End, taken: Ptyx.Bytes, log: seq<Event>,
                            script: seq<ReadResult>, polls: seq<PollResult>) {
    && Orderly(log) && ReadsOf(log) <= script && PollsOf(log) <= polls
    && taken == TakenBy(log)
    && EndFits(end, log, ReadsOf(log) == script, PollsOf(log) == polls)
  }

  lemma Explain(end: End, taken: Ptyx.Bytes, log: seq<Event>,
                script: seq<ReadResult>, i: nat, polls: seq<PollResult>, j: nat)
    requires Consumed(log, script, i, polls, j) && taken == TakenBy(log)
    requires EndFits(end, log, i == |script|, j == |polls|)
    ensures Explained(end, taken, log, script, polls)
  {
  }

  /** The thread has ended as `end` says: after the output messages one closed message,
      and the error events of that end. An unfinished run has posted only output. */
  ghost predicate Ended(output: OutputBuffer, end: End)
    reads output
  {
    && output.port == Messages(output.sent) + (if end.Unfinished? then [] else [ClosedMessage])
    && output.events == ErrorsOf(end)
  }

  /** What the loops keep between turns. */
  ghost predicate Running(output: OutputBuffer, taken: Ptyx.Bytes)
    reads output
  {
    && 1 <= output.c.batchMax
    && output.Open()
    && Sound(output.c, output.w, output.State())
    && Stream(output.State()) == taken
    && (forall k: nat | k < output.posts :: output.w.accepts(k))
  }

  /** Unless stopped, no more is pending than was read since the last flush that was due. */
  ghost predicate OnlyFresh(output: OutputBuffer, recent: Ptyx.Bytes)
    reads output
  {
    |output.batch| <= |recent| || (0 < output.loads && output.w.stop(output.loads - 1))
  }

  /** The last flush, whose own result is ignored, and the messages that follow it. */
  method Finish(output: OutputBuffer, cause: Cause, ghost taken: Ptyx.Bytes) returns (end: End)
    requires Running(output, taken)
    requires 0 < output.loads && (cause.AtStop? <==> output.w.stop(output.loads - 1))
    modifies output
    ensures end == FinalFlush(cause, old(output.batch), old(output.loads), old(output.posts))
    ensures RunSound(output.c, output.w, end, output.sent, taken, output.posts) && Ended(output, end)
  {
    FlushFacts(output.c, output.w, output.State());
    end := FinalFlush(cause, output.batch, output.loads, output.posts);
    var _ := output.FlushBatch();
    if cause.AtError? {
      output.PostError(cause.error);
    }
    output.ClosePorts();
  }

  method FinishFailed(output: OutputBuffer) returns (end: End)
    requires output.Open()
    modifies output`port, output`events
    ensures end == FlushFailed && Ended(output, end)
  {
    output.PostError(POST_FAILED);
    output.ClosePorts();
    end := FlushFailed;
  }

  ghost predicate Unstopped(output: OutputBuffer)
    reads output
  {
    0 < output.loads && !output.w.stop(output.loads - 1)
  }

  method LoadStop(output: OutputBuffer, ghost taken: Ptyx.Bytes) returns (stopped: bool)
    requires Running(output, taken)
    modifies output`loads
    ensures Running(output, taken) && output.loads == old(output.loads) + 1
    ensures stopped == output.w.stop(output.loads - 1)
  {
    stopped := output.StopIsSet();
  }

  lemma RunningIsSound(output: OutputBuffer, taken: Ptyx.Bytes)
    requires Running(output, taken)
    ensures RunSound(output.c, output.w, Unfinished, output.sent, taken, output.posts)
    ensures Ended(output, Unfinished)
  {
  }

  /** Appends one read. */
  method Accept(output: OutputBuffer, bytes: Ptyx.Bytes, ghost taken: Ptyx.Bytes) returns (ok: bool)
    requires Running(output, taken)
    modifies output
    ensures output.loads >= old(output.loads)
    ensures ok ==> Running(output, taken + bytes) && |output.batch| <= |old(output.batch)| + |bytes|
    ensures !ok ==> output.Open() && RunSound(output.c, output.w, FlushFailed, output.sent, taken + bytes, output.posts)
  {
    AppendFacts(output.c, output.w, output.State(), bytes);
    AppendPosts(output.c, output.w, output.State(), bytes);
    ok := output.AppendBytes(bytes);
  }

  /** Flushes what is pending between reads. */
  method FlushPending(output: OutputBuffer, ghost taken: Ptyx.Bytes) returns (ok: bool)
    requires Running(output, taken)
    modifies output
    ensures output.loads >= old(output.loads)
    ensures ok ==> Running(output, taken) && (output.batch == [] || Stopped(output.c, output.w, output.State()))
    ensures !ok ==> output.Open() && RunSound(output.c, output.w, FlushFailed, output.sent, taken, output.posts)
  {
    FlushFacts(output.c, output.w, output.State());
    ok := output.FlushBatch();
  }

  datatype Drained = MustPoll | StopSeen | Over(end: End)

  /** What the outer loop keeps: besides the above, the log explains what was consumed,
      and unless stopped only bytes read since the last timeout are pending. */
  ghost predicate Turning(output: OutputBuffer, taken: Ptyx.Bytes, log: seq<Event>,
                          script: seq<ReadResult>, i: nat, polls: seq<PollResult>, j: nat)
    reads output
  {
    && i <= |script| && j <= |polls|
    && Running(output, taken)
    && Consumed(log, script, i, polls, j) && taken == TakenBy(log)
    && OnlyFresh(output, FreshBy(log))
  }

  /** The inner loop: reads and appends until a read would block, the stop flag is seen,
      or the run is over. */
  method DrainReads(output: OutputBuffer, script: seq<ReadResult>, start: nat,
                    ghost polls: seq<PollResult>, ghost j: nat,
                    before: Ptyx.Bytes, ghost logBefore: seq<Event>)
    returns (drained: Drained, i: nat, taken: Ptyx.Bytes, ghost log: seq<Event>)
    requires Turning(output, before, logBefore, script, start, polls, j) && ReadsNext(logBefore) && Unstopped(output)
    modifies output
    ensures start <= i <= |script|
    ensures !drained.Over? ==> start < i && Turning(output, taken, log, script, i, polls, j)
    ensures drained.MustPoll? ==> log != [] && Last(log) == Read(NoData) && Unstopped(output)
    ensures drained.StopSeen? ==> ReadsNext(log)
    ensures drained.Over? ==>
              && RunSound(output.c, output.w, drained.end, output.sent, taken, output.posts)
              && !drained.end.NotStarted?
              && Explained(drained.end, taken, log, script, polls)
              && Ended(output, drained.end)
  {
    hide Running, RunSound, Ended, Consumed, Explained;
    i, taken, log := start, before, logBefore;
    while i < |script|
      invariant start <= i <= |script|
      invariant Turning(output, taken, log, script, i, polls, j) && ReadsNext(log) && Unstopped(output)
    {
      var result := script[i];
      ReadConsumed(log, script, i, polls, j);
      log := log + [Read(result)];
      i := i + 1;
      match result {
        case Data(bytes) =>
          var ok := Accept(output, bytes, taken);
          taken := taken + bytes;
          if !ok {
            var end := FinishFailed(output);
            Explain(end, taken, log, script, i, polls, j);
            return Over(end), i, taken, log;
          }
          var stopSeen := LoadStop(output, taken);
          if stopSeen {
            return StopSeen, i, taken, log;
          }
        case NoData =>
          return MustPoll, i, taken, log;
        case Eof =>
          var end := Finish(output, AtEof, taken);
          Explain(end, taken, log, script, i, polls, j);
          return Over(end), i, taken, log;
        case ReadError(error) =>
          var end := Finish(output, AtError(error), taken);
          Explain(end, taken, log, script, i, polls, j);
          return Over(end), i, taken, log;
      }
    }
    RunningIsSound(output, taken);
    Explain(Unfinished, taken, log, script, i, polls, j);
    drained := Over(Unfinished);
  }

  method ReadUnixFd(output: OutputBuffer, script: seq<ReadResult>, polls: seq<PollResult>)
    returns (end: End, taken: Ptyx.Bytes, ghost log: seq<Event>)
    requires Running(output, []) && output.State() == EMPTY_BUFFER
    modifies output
    ensures RunSound(output.c, output.w, end, output.sent, taken, output.posts) && !end.NotStarted?
    ensures Explained(end, taken, log, script, polls)
    ensures Ended(output, end)
  {
    hide Running, RunSound, Ended, Consumed, Explained;
    var i, j := 0, 0;
    taken, log := [], [];
    NothingConsumed(script, polls);
    while true
      invariant i <= |script| && j <= |polls|
      invariant Turning(output, taken, log, script, i, polls, j) && ReadsNext(log)
      decreases |script| - i
    {
      var stopped := LoadStop(output, taken);
      if stopped {
        end := Finish(output, AtStop, taken);
        Explain(end, taken, log, script, i, polls, j);
        return;
      }
      var drained;
      drained, i, taken, log := DrainReads(output, script, i, polls, j, taken, log);
      match drained {
        case Over(over) =>
          end := over;
          return;
        case StopSeen =>
          continue;
        case MustPoll =>
      }
      if j == |polls| {
        RunningIsSound(output, taken);
        Explain(Unfinished, taken, log, script, i, polls, j);
        return Unfinished, taken, log;
      }
      var poll := polls[j];
      PollConsumed(log, script, i, polls, j);
      log := log + [Polled(poll)];
      j := j + 1;
      match poll {
        case Timeout =>
          var ok := FlushPending(output, taken);
          if !ok {
            end := FinishFailed(output);
            Explain(end, taken, log, script, i, polls, j);
            return;
          }
        case Ready =>
        case PollError(error) =>
          end := Finish(output, AtError(error), taken);
          Explain(end, taken, log, script, i, polls, j);
          return;
      }
    }
  }

  ghost predicate Consumed(log: seq<Event>, script: seq<ReadResult>, i: nat, polls: seq<PollResult>, j: nat) {
    && i <= |script| && j <= |polls|
    && Orderly(log) && ReadsOf(log) == script[..i] && PollsOf(log) == polls[..j]
  }

  lemma NothingConsumed(script: seq<ReadResult>, polls: seq<PollResult>)
    ensures Consumed([], script, 0, polls, 0)
  {
  }

  lemma ReadConsumed(log: seq<Event>, script: seq<ReadResult>, i: nat, polls: seq<PollResult>, j: nat)
    requires Consumed(log, script, i, polls, j) && i < |script|
    requires ReadsNext(log)
    ensures var log' := log + [Read(script[i])];
            && Consumed(log', script, i + 1, polls, j)
            && Last(log') == Read(script[i])
            && TakenBy(log') == TakenBy(log) + (if script[i].Data? then script[i].bytes else [])
            && FreshBy(log') == FreshBy(log) + if script[i].Data? then script[i].bytes else []
  {
    assert Before(log + [Read(script[i])]) == log;
  }

  lemma PollConsumed(log: seq<Event>, script: seq<ReadResult>, i: nat, polls: seq<PollResult>, j: nat)
    requires Consumed(log, script, i, polls, j) && j < |polls|
    requires log != [] && Last(log) == Read(NoData)
    ensures var log' := log + [Polled(polls[j])];
            && Consumed(log', script, i, polls, j + 1)
            && Last(log') == Polled(polls[j])
            && TakenBy(log') == TakenBy(log)
            && FreshBy(log') == if polls[j] == Timeout then [] else FreshBy(log)
  {
    assert Before(log + [Polled(polls[j])]) == log;
  }

  // ----- the blocking loop

  ghost function TakenFrom(script: seq<BlockingRead>): Ptyx.Bytes {
    if script == [] then []
    else
      var last := script[|script| - 1];
      TakenFrom(script[..|script| - 1]) + if last.Bytes? then last.bytes else []
  }

  /** The bytes read since the last read that found the batch old enough to flush. */
  ghost function FreshFrom(script: seq<BlockingRead>): Ptyx.Bytes {
    if script == [] then []
    else
      var last := script[|script| - 1];
      if !last.Bytes? then FreshFrom(script[..|script| - 1])
      else if last.delayElapsed then []
      else FreshFrom(script[..|script| - 1]) + last.bytes
  }

  /** Here the data consumed is that of the first `used` results, of which only the last
      can end the run. Unless stopped, at most what came since the last flush that was
      due was pending at the end. */
  ghost predicate BlockingExplained(end: End, taken: Ptyx.Bytes, used: nat, script: seq<BlockingRead>) {
    && used <= |script| && taken == TakenFrom(script[..used])
    && (forall i | 0 <= i < used - 1 :: script[i].Bytes? || script[i].Interrupted?)
    && match end
       case Unfinished => used == |script| && Continues(script, used)
       case NotStarted(_) => false
       case FlushFailed => 0 < used && script[used - 1].Bytes?
       case FinalFlush(AtStop, _, _, _) => Continues(script, used)
       case FinalFlush(AtEof, batch, _, _) =>
         0 < used && script[used - 1] == EndOfFile && |batch| <= |FreshFrom(script[..used])|
       case FinalFlush(AtError(error), batch, _, _) =>
         0 < used && script[used - 1] == Failed(error) && |batch| <= |FreshFrom(script[..used])|
  }

  ghost predicate Continues(script: seq<BlockingRead>, used: nat)
    requires used <= |script|
  {
    0 < used ==> script[used - 1].Bytes? || script[used - 1].Interrupted?
  }

  /** Appends one read and flushes a batch that has become old enough. */
  method AcceptBlocking(output: OutputBuffer, bytes: Ptyx.Bytes, delayElapsed: bool, ghost taken: Ptyx.Bytes)
    returns (ok: bool)
    requires Running(output, taken)
    modifies output
    ensures output.loads >= old(output.loads)
    ensures ok ==> Running(output, taken + bytes)
    ensures ok && delayElapsed ==> output.batch == [] || Stopped(output.c, output.w, output.State())
    ensures ok && !delayElapsed ==> |output.batch| <= |old(output.batch)| + |bytes|
    ensures !ok ==> output.Open() && RunSound(output.c, output.w, FlushFailed, output.sent, taken + bytes, output.posts)
  {
    ok := Accept(output, bytes, taken);
    if ok && output.pending && delayElapsed {
      ok := FlushPending(output, taken + bytes);
    }
  }

  method ReadBlocking(output: OutputBuffer, script: seq<BlockingRead>)
    returns (end: End, taken: Ptyx.Bytes, ghost used: nat)
    requires Running(output, []) && output.State() == EMPTY_BUFFER
    modifies output
    ensures RunSound(output.c, output.w, end, output.sent, taken, output.posts) && !end.NotStarted?
    ensures BlockingExplained(end, taken, used, script)
    ensures Ended(output, end)
  {
    hide Running, RunSound, Ended;
    var i := 0;
    taken, used := [], 0;
    while true
      invariant used == i <= |script|
      invariant Running(output, taken) && taken == TakenFrom(script[..i])
      invariant OnlyFresh(output, FreshFrom(script[..i]))
      invariant forall k | 0 <= k < i :: script[k].Bytes? || script[k].Interrupted?
      decreases |script| - i
    {
      var stopped := LoadStop(output, taken);
      if stopped {
        end := Finish(output, AtStop, taken);
        return;
      }
      if i == |script| {
        RunningIsSound(output, taken);
        end := Unfinished;
        return;
      }
      var result := script[i];
      assert script[..i + 1][..i] == script[..i];
      i := i + 1;
      used := i;
      match result {
        case Bytes(bytes, delayElapsed) =>
          var ok := AcceptBlocking(output, bytes, delayElapsed, taken);
          taken := taken + bytes;
          if !ok {
            end := FinishFailed(output);
            return;
          }
        case Interrupted =>
        case EndOfFile =>
          end := Finish(output, AtEof, taken);
          return;
        case Failed(error) =>
          end := Finish(output, AtError(error), taken);
          return;
      }
    }
  }

  /** How the thread enters its loop: another reader is busy, the descriptor or its
      nonblocking mode is unavailable, or one of the two loops runs. */
  datatype Entry =
    | Refused(error: PtyxError)
    | UnixFd(script: seq<ReadResult>, polls: seq<PollResult>)
    | Blocking(results: seq<BlockingRead>)

  /** The one error event a descriptor run posts, if any: that of the failing read or poll
      it consumed last, or that of a refused post. */
  ghost predicate EventsFit(events: seq<PtyxError>, end: End, log: seq<Event>) {
    if log != [] && Last(log).Read? && Last(log).result.ReadError? then events == [Last(log).result.error]
    else if log != [] && Last(log).Polled? && Last(log).outcome.PollError? then events == [Last(log).outcome.error]
    else events == if end.FlushFailed? then [PtyxError(Closed, "failed to post output")] else []
  }

  /** The same for a run of the blocking loop. */
  ghost predicate BlockingEventsFit(events: seq<PtyxError>, end: End, used: nat, script: seq<BlockingRead>)
    requires used <= |script|
  {
    if 0 < used && script[used - 1].Failed? then events == [script[used - 1].error]
    else events == if end.FlushFailed? then [PtyxError(Closed, "failed to post output")] else []
  }

  lemma ErrorsFit(end: End, taken: Ptyx.Bytes, log: seq<Event>, script: seq<ReadResult>, polls: seq<PollResult>)
    requires Explained(end, taken, log, script, polls)
    ensures EventsFit(ErrorsOf(end), end, log)
  {
  }

  lemma BlockingErrorsFit(end: End, taken: Ptyx.Bytes, used: nat, script: seq<BlockingRead>)
    requires BlockingExplained(end, taken, used, script)
    ensures BlockingEventsFit(ErrorsOf(end), end, used, script)
  {
  }

  /** The whole thread. The output port sees output messages and then, on every path
      that ends, one closed message. The event port sees the error that refused the
      entry, the failing read or poll that ended the run, or a refused post, and nothing
      otherwise; a run ends by a refused post exactly when the last post it made, other
      than in its last flush, was refused. The payloads are sized, and together a prefix
      of what was read. They are all of it exactly when the last flush had nothing
      pending or was allowed to post. */
  method Run(c: OutputConfig, w: World, entry: Entry)
    returns (port: seq<PortMessage>, events: seq<PtyxError>, end: End, sent: seq<Ptyx.Bytes>, taken: Ptyx.Bytes,
             posts: nat)
    requires 1 <= c.batchMax
    ensures port == Messages(sent) + if end.Unfinished? then [] else [ClosedMessage]
    ensures |port| == |sent| + (if end.Unfinished? then 0 else 1)
    ensures forall i | 0 <= i < |sent| :: port[i] == OutputMessage(sent[i])
    ensures !end.Unfinished? ==> port[|sent|] == ClosedMessage
    ensures events == ErrorsOf(end)
    ensures RunSound(c, w, end, sent, taken, posts)
    ensures match entry
            case Refused(error) => end == NotStarted(error) && events == [error]
            case UnixFd(script, polls) =>
              exists log :: Explained(end, taken, log, script, polls) && EventsFit(events, end, log)
            case Blocking(script) =>
              exists used ::
                BlockingExplained(end, taken, used, script) && BlockingEventsFit(events, end, used, script)
  {
    var output := new OutputBuffer(c, w);
    match entry {
      case Refused(error) =>
        output.PostError(error);
        output.ClosePorts();
        end, taken := NotStarted(error), [];
      case UnixFd(script, polls) =>
        ghost var log;
        end, taken, log := ReadUnixFd(output, script, polls);
        ErrorsFit(end, taken, log, script, polls);
      case Blocking(results) =>
        ghost var used;
        end, taken, used := ReadBlocking(output, results);
        BlockingErrorsFit(end, taken, used, results);
    }
    port, events, sent, posts := output.port, output.events, output.sent, output.posts;
  }
}
