/** The terminal mode watcher: it polls the mode and posts an event when the mode differs
    from the last one posted.

    One turn of the loop is what its load of the stop flag, its snapshot and its post
    give; a script that is used up leaves the run `Unfinished`. */
module ModeWatcher {
  import opened Ptyx

  datatype TermMode = TermMode(canonical: Option<bool>, echo: Option<bool>, signals: Option<bool>)

  datatype Turn = Turn(stop: bool, snapshot: Result<TermMode, PtyxError>, accepts: bool)

  /** A refused mode was offered but not delivered. */
  datatype End = Unfinished | Stopped | Refused(mode: TermMode) | SnapshotFailed(error: PtyxError)

  datatype Event = ModeEvent(mode: TermMode) | ModeErrorEvent(error: PtyxError)

  // ----- the reference: every mode that differs from the one seen just before it

  ghost function Changes(seen: seq<TermMode>): seq<TermMode> {
    if seen == [] then []
    else
      var before, last := seen[..|seen| - 1], seen[|seen| - 1];
      if before != [] && before[|before| - 1] == last then Changes(before) else Changes(before) + [last]
  }

  /** No two changes in a row are equal, and the latest is the mode last seen: a receiver
      that keeps the latest always has the mode as of the last snapshot. */
  lemma {:induction false} ChangesTrackTheMode(seen: seq<TermMode>)
    ensures |Changes(seen)| <= |seen|
    ensures Changes(seen) == [] <==> seen == []
    ensures seen != [] ==> Changes(seen)[|Changes(seen)| - 1] == seen[|seen| - 1]
    ensures forall i, j | 0 <= i < j < |Changes(seen)| && j == i + 1 :: Changes(seen)[i] != Changes(seen)[j]
  {
    if seen != [] {
      ChangesTrackTheMode(seen[..|seen| - 1]);
    }
  }

  ghost function SeenIn(turns: seq<Turn>): seq<TermMode> {
    if turns == [] then []
    else
      var last := turns[|turns| - 1];
      SeenIn(turns[..|turns| - 1]) + if !last.stop && last.snapshot.Ok? then [last.snapshot.value] else []
  }

  lemma SeenSnoc(turns: seq<Turn>, i: nat)
    requires i < |turns|
    ensures var before, after := SeenIn(turns[..i]), SeenIn(turns[..i + 1]);
            && after == (if !turns[i].stop && turns[i].snapshot.Ok? then before + [turns[i].snapshot.value] else before)
            && Changes(after) ==
                 if after == before || (before != [] && before[|before| - 1] == after[|before|]) then Changes(before)
                 else Changes(before) + [after[|before|]]
  {
    assert turns[..i + 1][..i] == turns[..i];
    var before, after := SeenIn(turns[..i]), SeenIn(turns[..i + 1]);
    if after != before {
      assert after[..|before|] == before;
    }
  }

  lemma NothingSeen(turns: seq<Turn>)
    ensures SeenIn(turns[..0]) == [] && Changes([]) == []
  {
  }

  function Delivered(modes: seq<TermMode>): seq<Event> {
    seq(|modes|, i requires 0 <= i < |modes| => ModeEvent(modes[i]))
  }

  ghost predicate EndsAt(end: End, turns: seq<Turn>, used: nat)
    requires used <= |turns|
  {
    match end
    case Unfinished => used == |turns|
    case Stopped => 0 < used && turns[used - 1].stop
    case Refused(mode) =>
      0 < used && !turns[used - 1].stop && turns[used - 1].snapshot == Ok(mode) && !turns[used - 1].accepts
    case SnapshotFailed(error) => 0 < used && !turns[used - 1].stop && turns[used - 1].snapshot == Err(error)
  }

  /** The modes offered are exactly the changes among the modes seen; all are delivered
      but one that was refused, and an error event comes only last. */
  method ModeLoop(turns: seq<Turn>) returns (end: End, posted: seq<TermMode>, events: seq<Event>, ghost used: nat)
    ensures used <= |turns| && EndsAt(end, turns, used)
    ensures posted + (if end.Refused? then [end.mode] else []) == Changes(SeenIn(turns[..used]))
    ensures |events| == |posted| + (if end.SnapshotFailed? then 1 else 0)
    ensures forall i | 0 <= i < |posted| :: events[i] == ModeEvent(posted[i])
    ensures events == Delivered(posted) + if end.SnapshotFailed? then [ModeErrorEvent(end.error)] else []
    ensures forall i | 0 <= i < used - 1 :: !turns[i].stop && turns[i].snapshot.Ok?
  {
    hide SeenIn, Changes;
    NothingSeen(turns);
    var lastMode: Option<TermMode> := None;
    posted, events, used := [], [], 0;
    var i := 0;
    while i < |turns|
      invariant used == i <= |turns|
      invariant posted == Changes(SeenIn(turns[..i])) && events == Delivered(posted)
      invariant |SeenIn(turns[..i])| == i
      invariant lastMode == if i == 0 then None else Some(SeenIn(turns[..i])[i - 1])
      invariant forall k | 0 <= k < i :: !turns[k].stop && turns[k].snapshot.Ok?
    {
      var turn := turns[i];
      SeenSnoc(turns, i);
      i := i + 1;
      used := i;
      if turn.stop {
        return Stopped, posted, events, used;
      }
      match turn.snapshot {
        case Ok(mode) =>
          if lastMode != Some(mode) {
            if !turn.accepts {
              return Refused(mode), posted, events, used;
            }
            posted := posted + [mode];
            events := events + [ModeEvent(mode)];
            lastMode := Some(mode);
          }
        case Err(error) =>
          return SnapshotFailed(error), posted, events + [ModeErrorEvent(error)], used;
      }
    }
    end := Unfinished;
  }
}
