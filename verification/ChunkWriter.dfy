/** The loop that writes one chunk to the PTY, against every sequence of results the
    closed poll, the write call and the readiness poll can give. */
module ChunkWriter {
  import opened Ptyx

  datatype IoKind = PipeBroken | NotReady | NotPermitted | Other
  datatype IoError = IoError(kind: IoKind, text: string)

  datatype WriteCall =
    | Accepts(count: nat)          // zero is the write-zero error
    | Interrupted
    | Full(poll: Result<bool, IoError>)
    | Fails(error: IoError)

  /** One turn of the loop: what the closed poll saw, and what the call then did. */
  datatype Turn = Turn(closed: bool, call: WriteCall)

  datatype ChunkResult = Complete | Stopped | Broke(error: PtyxError) | Unfinished

  function MapWriteError(error: IoError): PtyxError {
    match error.kind
    case PipeBroken => PtyxError(BrokenPipe, error.text)
    case NotReady => PtyxError(WouldBlock, error.text)
    case NotPermitted => PtyxError(PermissionDenied, error.text)
    case Other => PtyxError(IoFailed, error.text)
  }

  /** A mapped error keeps its text, and the three kinds a caller can act on. */
  lemma MapKeepsTheKind(error: IoError)
    ensures MapWriteError(error).message == error.text
    ensures MapWriteError(error).kind == BrokenPipe <==> error.kind == PipeBroken
    ensures MapWriteError(error).kind == WouldBlock <==> error.kind == NotReady
    ensures MapWriteError(error).kind == PermissionDenied <==> error.kind == NotPermitted
    ensures MapWriteError(error).kind == IoFailed <==> error.kind == Other
  {
  }

  const WRITE_ZERO := PtyxError(IoFailed, "failed to write to PTY")

  /** How a turn that reached the write call ends the loop, if it does. */
  function Breaks(call: WriteCall): Option<PtyxError> {
    match call
    case Accepts(n) => if n == 0 then Some(WRITE_ZERO) else None
    case Interrupted => None
    case Full(poll) => if poll.Err? then Some(MapWriteError(poll.error)) else None
    case Fails(error) => Some(MapWriteError(error))
  }

  /** The calls that break are those that take nothing, fail, or find the PTY full and then
      fail to wait for it; each breaks with its own error. */
  lemma BreaksExactly(call: WriteCall)
    ensures Breaks(call).Some? <==> call == Accepts(0) || call.Fails? || (call.Full? && call.poll.Err?)
    ensures call == Accepts(0) ==> Breaks(call) == Some(PtyxError(IoFailed, "failed to write to PTY"))
    ensures call.Fails? ==> Breaks(call) == Some(MapWriteError(call.error))
    ensures call.Full? && call.poll.Err? ==> Breaks(call) == Some(MapWriteError(call.poll.error))
  {
  }

  function TakenBy(turns: seq<Turn>): nat {
    if turns == [] then 0
    else TakenBy(turns[..|turns| - 1]) +
         var call := turns[|turns| - 1].call; if call.Accepts? then call.count else 0
  }

  /** The kernel never takes more than it is offered. */
  ghost predicate Possible(data: Bytes, turns: seq<Turn>) {
    forall i | 0 <= i < |turns| && turns[i].call.Accepts? && TakenBy(turns[..i]) <= |data| ::
      TakenBy(turns[..i]) + turns[i].call.count <= |data|
  }

  /** Offers the rest of `data` until it is all taken. The PTY gets a prefix; all of it
      exactly when the result is `Complete`; the loop stops without another call at
      the first turn whose poll sees the queue closed, and fails exactly at the first
      call that breaks. */
  method WriteChunk(data: Bytes, turns: seq<Turn>) returns (r: ChunkResult, taken: Bytes, ghost used: nat)
    requires Possible(data, turns)
    ensures taken <= data && used <= |turns|
    ensures r.Complete? <==> taken == data
    ensures forall i | 0 <= i < used :: !turns[i].closed && (i < used - 1 ==> Breaks(turns[i].call).None?)
    ensures |taken| == TakenBy(turns[..used])
    ensures r.Stopped? <==>
              && taken != data && used < |turns| && turns[used].closed
              && (used > 0 ==> Breaks(turns[used - 1].call).None?)
    ensures r.Broke? <==> used > 0 && Breaks(turns[used - 1].call).Some?
    ensures r.Broke? ==> Breaks(turns[used - 1].call) == Some(r.error)
    ensures r.Unfinished? ==> used == |turns|
  {
    var rest := data;
    taken := [];
    used := 0;
    var i := 0;
    while rest != []
      invariant used == i <= |turns| && taken + rest == data
      invariant |taken| == TakenBy(turns[..i])
      invariant forall k | 0 <= k < i :: !turns[k].closed && Breaks(turns[k].call).None?
      decreases |turns| - i
    {
      if i == |turns| {
        return Unfinished, taken, used;
      }
      if turns[i].closed {
        return Stopped, taken, used;
      }
      var call := turns[i].call;
      assert turns[..i + 1][..i] == turns[..i];
      i := i + 1;
      used := i;
      match call {
        case Accepts(n) =>
          if n == 0 {
            return Broke(WRITE_ZERO), taken, used;
          }
          taken, rest := taken + rest[..n], rest[n..];
        case Interrupted =>
        case Full(poll) =>
          if poll.Err? {
            return Broke(MapWriteError(poll.error)), taken, used;
          }
        case Fails(error) =>
          return Broke(MapWriteError(error)), taken, used;
      }
    }
    r := Complete;
  }
}
