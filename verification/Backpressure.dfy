/** The reader thread's flush against concurrent acknowledgements, concurrent
    finalizers of external buffers, and the stop flag.

    Only lengths matter here. The flush is cut wherever another thread can act: around
    every lock of the in-flight counter, around the external reservation, and before
    and after the post, so an acknowledgement can arrive inside the post. */
module Backpressure {
  import opened Ptyx
  import opened RuntimeConfig

  datatype Freer = Poster | Finalizer

  /** An external buffer handed to the receiver, or held by the flush. `freedBy` is the
      history of its frees. */
  datatype Peer = Peer(len: usize, posted: bool, freedBy: seq<Freer>)

  datatype Flusher =
    | Idle
    | Waiting                       // about to take the in-flight lock
    | Parked                        // in the timed condvar wait
    | Leaving                       // out of the wait loop, before the last stop load
    | Granted
    | Reserved(len: usize)
    | ExternalReserved(len: usize)
    | HoldingPeer(len: usize, peer: nat)
    | PeerRefused(len: usize, peer: nat)
    | CopyPosting(len: usize)
    | RollingBack(len: usize)
    | Dead                          // flush returned an error

  /** `posted` and `acked` are history: bytes delivered to the port, bytes acknowledged. */
  datatype Sys = Sys(
    c: OutputConfig,
    stop: bool,
    inflight: nat,
    external: nat,
    batch: usize,
    flusher: Flusher,
    peers: seq<Peer>,
    posted: nat,
    acked: nat)

  function Initial(c: OutputConfig): Sys {
    Sys(c, false, 0, 0, 0, Idle, [], 0, 0)
  }

  datatype Action =
    | Fill(count: nat)
    | BeginFlush
    | TestCapacity
    | Wake
    | LastStopLoad
    | Reserve
    | TryExternal
    | MakePeer
    | PostExternal(ok: bool)
    | DropRefused
    | PostCopied(ok: bool)
    | RollBack
    | Ack(bytes: u64)
    | Finalize(peer: nat)
    | SetStop

  predicate Enabled(s: Sys, a: Action) {
    match a
    case Fill(n) =>
      && s.flusher.Idle? && 0 < n && s.batch + n <= U64_MAX
      && (s.batch + n <= s.c.batchMax || (s.stop && s.c.requireAcks))
    case BeginFlush => s.flusher.Idle? && 0 < s.batch
    case TestCapacity => s.flusher.Waiting?
    case Wake => s.flusher.Parked?
    case LastStopLoad => s.flusher.Leaving?
    case Reserve => s.flusher.Granted?
    case TryExternal => s.flusher.Reserved?
    case MakePeer => s.flusher.ExternalReserved?
    case PostExternal(_) => s.flusher.HoldingPeer? && s.flusher.peer < |s.peers|
    case DropRefused => s.flusher.PeerRefused? && s.flusher.peer < |s.peers|
    case PostCopied(_) => s.flusher.CopyPosting?
    case RollBack => s.flusher.RollingBack?
    case Ack(_) => true
    // The receiver runs the finalizer of a buffer it was given, once.
    case Finalize(i) => i < |s.peers| && s.peers[i].posted && s.peers[i].freedBy == []
    case SetStop => true
  }

  /** The atomic reservation of external bytes. */
  predicate ExternalFits(s: Sys, len: usize) {
    0 < len <= s.c.maxExternal && s.external + len <= s.c.maxExternal
  }

  function Free(s: Sys, i: nat, who: Freer): Sys
    requires i < |s.peers|
  {
    var p := s.peers[i];
    s.(peers := s.peers[i := p.(freedBy := p.freedBy + [who])], external := WrappingSub(s.external, p.len))
  }

  function Next(s: Sys, a: Action): Sys
    requires Enabled(s, a)
  {
    match a
    case Fill(n) => s.(batch := s.batch + n)
    case BeginFlush => s.(flusher := if s.c.requireAcks then Waiting else Granted)
    case TestCapacity =>
      s.(flusher := if s.inflight >= s.c.maxInflight && !s.stop then Parked else Leaving)
    case Wake => s.(flusher := Waiting)
    case LastStopLoad => s.(flusher := if s.stop then Idle else Granted)
    case Reserve =>
      s.(inflight := if s.c.requireAcks then SaturatingAdd(s.inflight, s.batch) else s.inflight,
         flusher := Reserved(s.batch))
    case TryExternal =>
      var len := s.flusher.len;
      if s.c.useExternal && ExternalFits(s, len)
      then s.(external := s.external + len, flusher := ExternalReserved(len))
      else s.(flusher := CopyPosting(len))
    case MakePeer =>
      var len := s.flusher.len;
      s.(batch := 0, peers := s.peers + [Peer(len, false, [])], flusher := HoldingPeer(len, |s.peers|))
    case PostExternal(ok) =>
      var len, i := s.flusher.len, s.flusher.peer;
      if ok
      then s.(peers := s.peers[i := s.peers[i].(posted := true)], posted := s.posted + len, flusher := Idle)
      else s.(flusher := PeerRefused(len, i))
    case DropRefused =>
      var len, i := s.flusher.len, s.flusher.peer;
      Free(s, i, Poster).(flusher := RollingBack(len))
    case PostCopied(ok) =>
      var len := s.flusher.len;
      if ok then s.(batch := 0, posted := s.posted + len, flusher := Idle)
      else s.(flusher := RollingBack(len))
    case RollBack =>
      s.(inflight := if s.c.requireAcks then SaturatingSub(s.inflight, s.flusher.len) else s.inflight,
         flusher := Dead)
    case Ack(n) =>
      s.(inflight := if s.c.requireAcks then SaturatingSub(s.inflight, n) else s.inflight,
         acked := s.acked + n,
         flusher := if s.flusher.Parked? && s.c.requireAcks then Waiting else s.flusher)
    case Finalize(i) => Free(s, i, Finalizer)
    case SetStop => s.(stop := true)
  }

  // ----- runs

  /** The receiver acknowledges only bytes it was given. */
  predicate Honest(s: Sys, a: Action) {
    a.Ack? ==> s.acked + a.bytes <= s.posted
  }

  ghost predicate Follows(s: Sys, t: Sys, honest: bool) {
    exists a: Action :: Enabled(s, a) && (honest ==> Honest(s, a)) && t == Next(s, a)
  }

  ghost predicate IsRun(run: seq<Sys>, honest: bool) {
    && run != []
    && (exists c: OutputConfig :: Usable(c) && run[0] == Initial(c))
    && forall i, j | 0 <= i < j < |run| && j == i + 1 :: Follows(run[i], run[j], honest)
  }

  // ----- the invariant, for any receiver

  ghost function Live(p: Peer): nat {
    if p.freedBy == [] then p.len else 0
  }

  ghost function LiveBytes(peers: seq<Peer>): nat {
    if peers == [] then 0 else LiveBytes(peers[..|peers| - 1]) + Live(peers[|peers| - 1])
  }

  /** The reservation of a flush that has not yet moved into a peer. */
  ghost function ReservedExternal(f: Flusher): nat {
    if f.ExternalReserved? then f.len else 0
  }

  /** A reservation of in-flight bytes that is neither posted nor rolled back. */
  ghost function Unposted(f: Flusher): nat {
    if f.Reserved? || f.ExternalReserved? || f.HoldingPeer? || f.PeerRefused? || f.CopyPosting? || f.RollingBack?
    then f.len else 0
  }

  ghost predicate ExternalSound(s: Sys) {
    s.external == LiveBytes(s.peers) + ReservedExternal(s.flusher) <= s.c.maxExternal
  }

  ghost predicate Holds(f: Flusher, i: nat) {
    (f.HoldingPeer? || f.PeerRefused?) && f.peer == i
  }

  /** Who may have freed a peer: no one, or once the finalizer if it was posted, and the
      poster if not. */
  ghost predicate FreedRightly(p: Peer) {
    p.freedBy == [] || p.freedBy == [if p.posted then Finalizer else Poster]
  }

  /** Each peer is freed rightly; an unposted one is held by the flush or was freed by it. */
  ghost predicate PeersSound(s: Sys) {
    && (forall i | 0 <= i < |s.peers| :: FreedRightly(s.peers[i]))
    && (forall i | 0 <= i < |s.peers| && !s.peers[i].posted :: Holds(s.flusher, i) <==> s.peers[i].freedBy == [])
    && (s.flusher.HoldingPeer? || s.flusher.PeerRefused? ==>
          && s.flusher.peer < |s.peers|
          && !s.peers[s.flusher.peer].posted
          && s.peers[s.flusher.peer].len == s.flusher.len)
  }

  ghost predicate BatchSound(s: Sys) {
    && (s.batch > s.c.batchMax ==> s.stop && s.c.requireAcks)
    && (s.flusher.Waiting? || s.flusher.Parked? || s.flusher.Leaving? || s.flusher.Granted? ==> 0 < s.batch)
    && (s.flusher.Granted? ==> s.batch <= s.c.batchMax)
    && (Unposted(s.flusher) > 0 ==> Unposted(s.flusher) <= s.c.batchMax)
    && (s.flusher.Reserved? ==> 0 < s.flusher.len)
  }

  ghost predicate InflightBounded(s: Sys) {
    && Usable(s.c)
    && s.inflight <= s.c.maxInflight - 1 + s.c.batchMax && s.inflight <= U64_MAX
    && (!s.c.requireAcks ==> s.inflight == 0 && !s.flusher.Waiting? && !s.flusher.Parked? && !s.flusher.Leaving?)
    && (s.flusher.Parked? ==> s.inflight >= s.c.maxInflight)
    && (s.flusher.Leaving? ==> s.inflight < s.c.maxInflight || s.stop)
    && (s.flusher.Granted? ==> s.inflight < s.c.maxInflight)
  }

  ghost predicate Inv(s: Sys) {
    && BatchSound(s)
    && InflightBounded(s)
    && PeersSound(s)
    && ExternalSound(s)
  }

  /** Bytes posted or reserved for a post, less those acknowledged. */
  ghost function Owed(s: Sys): int {
    s.posted + Unposted(s.flusher) - s.acked
  }

  /** With an honest receiver the counter never exceeds what it counts, */
  ghost predicate Covered(s: Sys) {
    && s.acked <= s.posted
    && (s.c.requireAcks ==> s.inflight <= Owed(s))
  }

  /** and is exactly that if it has room. */
  ghost predicate Exact(s: Sys) {
    && s.acked <= s.posted
    && (s.c.requireAcks ==> s.inflight == Owed(s))
  }

  lemma {:induction false} LiveBytesUpdate(peers: seq<Peer>, i: nat, p: Peer)
    requires i < |peers|
    ensures LiveBytes(peers[i := p]) == LiveBytes(peers) - Live(peers[i]) + Live(p)
  {
    var last := |peers| - 1;
    if i == last {
      assert peers[i := p][..last] == peers[..last];
    } else {
      assert peers[i := p][..last] == peers[..last][i := p];
      LiveBytesUpdate(peers[..last], i, p);
    }
  }

  lemma {:induction false} LiveBytesCovers(peers: seq<Peer>, i: nat)
    requires i < |peers|
    ensures Live(peers[i]) <= LiveBytes(peers)
  {
    if i < |peers| - 1 {
      LiveBytesCovers(peers[..|peers| - 1], i);
    }
  }

  lemma FreeKeeps(s: Sys, i: nat, who: Freer)
    requires i < |s.peers| && s.peers[i].freedBy == [] && ExternalSound(s)
    ensures s.peers[i].len <= s.external
    ensures ExternalSound(Free(s, i, who))
  {
    LiveBytesCovers(s.peers, i);
    LiveBytesUpdate(s.peers, i, s.peers[i].(freedBy := s.peers[i].freedBy + [who]));
  }

  lemma FinalizeKeeps(s: Sys, i: nat)
    requires Inv(s) && Enabled(s, Finalize(i))
    ensures Inv(Next(s, Finalize(i)))
  {
    FreeKeeps(s, i, Finalizer);
  }

  lemma DropKeeps(s: Sys)
    requires Inv(s) && Enabled(s, DropRefused)
    ensures Inv(Next(s, DropRefused))
  {
    FreeKeeps(s, s.flusher.peer, Poster);
  }

  lemma MakeKeeps(s: Sys)
    requires Inv(s) && Enabled(s, MakePeer)
    ensures Inv(Next(s, MakePeer))
  {
    var t, p := Next(s, MakePeer), Peer(s.flusher.len, false, []);
    assert BatchSound(t) && InflightBounded(t) by {
      hide PeersSound, ExternalSound;
    }
    assert PeersSound(t);
    assert ExternalSound(t) by {
      hide PeersSound, BatchSound, InflightBounded;
      assert t.peers == s.peers + [p] && t.peers[..|s.peers|] == s.peers;
    }
    hide *;
  }

  lemma PostKeeps(s: Sys, ok: bool)
    requires Inv(s) && Enabled(s, PostExternal(ok))
    ensures Inv(Next(s, PostExternal(ok)))
  {
    if ok { LiveBytesUpdate(s.peers, s.flusher.peer, s.peers[s.flusher.peer].(posted := true)); }
  }

  predicate ActsOnPeers(a: Action) {
    a.Finalize? || a.DropRefused? || a.MakePeer? || a.PostExternal?
  }

  lemma OtherKeepsPeers(s: Sys, a: Action)
    requires Inv(s) && Enabled(s, a) && !ActsOnPeers(a)
    ensures PeersSound(Next(s, a)) && ExternalSound(Next(s, a))
  {
    hide InflightBounded;
  }

  lemma OtherKeepsInflight(s: Sys, a: Action)
    requires Inv(s) && Enabled(s, a) && !ActsOnPeers(a)
    ensures InflightBounded(Next(s, a))
  {
    hide PeersSound, ExternalSound;
  }

  lemma OtherKeepsBatch(s: Sys, a: Action)
    requires Inv(s) && Enabled(s, a) && !ActsOnPeers(a)
    ensures BatchSound(Next(s, a))
  {
    hide PeersSound, ExternalSound;
  }

  lemma Keeps(s: Sys, a: Action)
    requires Inv(s) && Enabled(s, a)
    ensures Inv(Next(s, a))
  {
    hide BatchSound, InflightBounded, PeersSound, ExternalSound;
    match a
    case Finalize(i) => FinalizeKeeps(s, i);
    case DropRefused => DropKeeps(s);
    case MakePeer => MakeKeeps(s);
    case PostExternal(ok) => PostKeeps(s, ok);
    case _ =>
      OtherKeepsPeers(s, a);
      OtherKeepsInflight(s, a);
      OtherKeepsBatch(s, a);
  }

  /** No saturating or wrapping operation of the step leaves its exact range. */
  ghost predicate StaysInRange(s: Sys, a: Action)
    requires Enabled(s, a)
  {
    match a
    case Reserve => s.c.requireAcks ==> s.inflight + s.batch <= U64_MAX
    case RollBack => s.c.requireAcks ==> s.flusher.len <= s.inflight
    case Ack(n) => s.c.requireAcks ==> n <= s.inflight
    case DropRefused => s.peers[s.flusher.peer].len <= s.external
    case Finalize(i) => s.peers[i].len <= s.external
    case _ => true
  }

  lemma FreesInRange(s: Sys, a: Action)
    requires Inv(s) && Enabled(s, a) && (a.DropRefused? || a.Finalize?)
    ensures StaysInRange(s, a)
  {
    FreeKeeps(s, if a.Finalize? then a.peer else s.flusher.peer, Poster);
  }

  lemma CoveredKeeps(s: Sys, a: Action)
    requires Inv(s) && Covered(s) && Enabled(s, a) && Honest(s, a)
    ensures Covered(Next(s, a))
  {
    hide PeersSound, ExternalSound;
  }

  lemma ExactKeeps(s: Sys, a: Action)
    requires Inv(s) && Exact(s) && HasRoom(s.c) && Enabled(s, a) && Honest(s, a)
    ensures Exact(Next(s, a)) && StaysInRange(s, a)
  {
    hide PeersSound, ExternalSound;
    if a.DropRefused? || a.Finalize? { FreesInRange(s, a); }
  }

  /** The invariant for either kind of receiver. */
  ghost predicate Sound(s: Sys, honest: bool) {
    && Inv(s)
    && (honest ==> Covered(s) && (HasRoom(s.c) ==> Exact(s)))
  }

  lemma StepKeeps(s: Sys, t: Sys, honest: bool)
    requires Sound(s, honest) && Follows(s, t, honest)
    ensures Sound(t, honest) && t.c == s.c
  {
    hide Inv, Covered, Exact, HasRoom;
    var a :| Enabled(s, a) && (honest ==> Honest(s, a)) && t == Next(s, a);
    Keeps(s, a);
    ConfigKept(s, a);
    if honest {
      CoveredKeeps(s, a);
      if HasRoom(s.c) { ExactKeeps(s, a); }
    }
  }

  lemma ConfigKept(s: Sys, a: Action)
    requires Enabled(s, a)
    ensures Next(s, a).c == s.c
  {
  }

  lemma {:induction false} AlwaysInv(run: seq<Sys>, honest: bool, i: nat)
    requires IsRun(run, honest) && i < |run|
    ensures Sound(run[i], honest) && run[i].c == run[0].c
  {
    if i == 0 {
      var c: OutputConfig :| Usable(c) && run[0] == Initial(c);
    } else {
      hide Sound, Follows;
      AlwaysInv(run, honest, i - 1);
      assert Follows(run[i - 1], run[i], honest);
      StepKeeps(run[i - 1], run[i], honest);
    }
  }

  // ----- what holds over every run

  /** With an honest receiver and a counter that has room, the in-flight counter is, at
      every point, what was posted plus what a flush has reserved but not posted, less
      what was acknowledged; and the next step, whatever it is, saturates nothing. */
  lemma InflightExact(run: seq<Sys>, i: nat, a: Action)
    requires IsRun(run, true) && i < |run| && run[i].c.requireAcks && HasRoom(run[i].c)
    requires Enabled(run[i], a) && Honest(run[i], a)
    ensures run[i].inflight + run[i].acked == run[i].posted + Unposted(run[i].flusher)
    ensures StaysInRange(run[i], a)
  {
    AlwaysInv(run, true, i);
    ExactKeeps(run[i], a);
  }

  /** Whatever is acknowledged, the counter stays below the limit plus one batch. */
  lemma InflightBound(run: seq<Sys>, honest: bool, i: nat)
    requires IsRun(run, honest) && i < |run|
    ensures run[i].inflight <= run[i].c.maxInflight - 1 + run[i].c.batchMax
  {
    AlwaysInv(run, honest, i);
  }

  /** A blocked reader never waits on itself: the receiver holds at least a full limit
      of delivered bytes it has not acknowledged, and acknowledging them unblocks it. */
  lemma BlockedReaderIsOwedAcks(run: seq<Sys>, i: nat)
    requires IsRun(run, true) && i < |run| && run[i].flusher.Parked?
    ensures var s := run[i];
            var owed := s.posted - s.acked;
            && owed >= s.c.maxInflight >= 1
            && s.c.requireAcks
            && (var t := Next(Next(s, Ack(Min(owed, U64_MAX))), TestCapacity); t.flusher.Leaving? && t.inflight == 0)
  {
    AlwaysInv(run, true, i);
  }

  /** The external counter is the bytes of buffers not yet freed plus the reservation of
      the flush under way, and stays within its limit. No free underflows it. */
  lemma ExternalConserved(run: seq<Sys>, honest: bool, i: nat)
    requires IsRun(run, honest) && i < |run|
    ensures var s := run[i];
            && s.external == LiveBytes(s.peers) + ReservedExternal(s.flusher) <= s.c.maxExternal
            && (forall k | 0 <= k < |s.peers| && s.peers[k].freedBy == [] :: s.peers[k].len <= s.external)
  {
    AlwaysInv(run, honest, i);
    var s := run[i];
    forall k | 0 <= k < |s.peers| && s.peers[k].freedBy == [] ensures s.peers[k].len <= s.external {
      LiveBytesCovers(s.peers, k);
    }
  }

  /** A buffer is freed once at most: by the finalizer if the port accepted it, and by the
      poster if not. One the port refused has been freed as soon as the flush is over; one
      it accepted can be freed as long as it has not been, and by nothing afterwards. */
  lemma PeersFreedOnce(run: seq<Sys>, honest: bool, i: nat, k: nat)
    requires IsRun(run, honest) && i < |run| && k < |run[i].peers|
    ensures var p := run[i].peers[k];
            && (p.posted ==> p.freedBy == [] || p.freedBy == [Finalizer])
            && (!p.posted ==> p.freedBy == [] || p.freedBy == [Poster])
            && (run[i].flusher.Idle? || run[i].flusher.Dead? ==> (p.posted || p.freedBy == [Poster]))
            && (p.posted && p.freedBy == [] <==> Enabled(run[i], Finalize(k)))
            && (p.freedBy != [] ==> !Holds(run[i].flusher, k))
  {
    AlwaysInv(run, honest, i);
  }

  /** What the rest of the process may do at any moment. An acknowledgement of any size
      takes that much off the counter and wakes a parked flush; a parked flush also wakes
      by itself; stop may be set; and a posted buffer not yet freed may be finalized, which
      gives its bytes back. An honest receiver may acknowledge up to all it was given. */
  lemma AnythingCanHappen(s: Sys, n: u64, k: nat)
    ensures Enabled(s, Ack(n)) && (Honest(s, Ack(n)) <==> n <= s.posted - s.acked)
    ensures s.c.requireAcks ==> Next(s, Ack(n)).inflight == SaturatingSub(s.inflight, n)
    ensures s.c.requireAcks && s.flusher.Parked? ==> Next(s, Ack(n)).flusher == Waiting
    ensures s.flusher.Parked? ==> Enabled(s, Wake) && Next(s, Wake) == s.(flusher := Waiting)
    ensures Enabled(s, SetStop) && Next(s, SetStop) == s.(stop := true)
    ensures k < |s.peers| && s.peers[k].posted && s.peers[k].freedBy == [] && s.peers[k].len <= s.external ==>
              && Enabled(s, Finalize(k))
              && Next(s, Finalize(k)) == s.(peers := s.peers[k := Peer(s.peers[k].len, true, [Finalizer])],
                                           external := s.external - s.peers[k].len)
    ensures s.flusher.Idle? && 0 < n && s.batch + n <= s.c.batchMax ==>
              Enabled(s, Fill(n)) && Next(s, Fill(n)) == s.(batch := s.batch + n)
  {
    if k < |s.peers| { assert s.peers[k].freedBy == [] ==> s.peers[k].freedBy + [Finalizer] == [Finalizer]; }
  }

  // ----- a flush left alone

  /** The flush's own steps, its post answered `accepted`. */
  predicate OfFlush(a: Action, accepted: bool) {
    a in {BeginFlush, TestCapacity, LastStopLoad, Reserve, TryExternal, MakePeer, DropRefused, RollBack,
          PostExternal(accepted), PostCopied(accepted)}
  }

  ghost predicate Leads(s: Sys, acts: seq<Action>, t: Sys, accepted: bool)
    decreases |acts|
  {
    if acts == [] then t == s
    else Enabled(s, acts[0]) && OfFlush(acts[0], accepted) && Leads(Next(s, acts[0]), acts[1..], t, accepted)
  }

  lemma LeadsOn(s: Sys, a: Action, acts: seq<Action>, t: Sys, accepted: bool)
    requires Enabled(s, a) && OfFlush(a, accepted) && Leads(Next(s, a), acts, t, accepted)
    ensures Leads(s, [a] + acts, t, accepted)
  {
    assert ([a] + acts)[1..] == acts;
  }

  /** What the flush of a batch comes to once it has reserved: `external` is the branch it
      takes. An accepted batch is delivered and gone, and if external its buffer is the
      receiver's; a refused one has been taken back out of the counter, and is gone if it
      was external, its buffer freed, and still there if it was not. */
  ghost predicate Posted(s: Sys, t: Sys, len: usize, external: bool, accepted: bool) {
    && t.c == s.c && t.stop == s.stop && t.acked == s.acked
    && t.flusher == (if accepted then Idle else Dead)
    && t.posted == (if accepted then s.posted + len else s.posted)
    && t.batch == (if accepted || external then 0 else s.batch)
    && t.inflight == (if accepted || !s.c.requireAcks then s.inflight else SaturatingSub(s.inflight, len))
    && t.external == (if accepted && external then s.external + len else s.external)
    && t.peers == s.peers + (if !external then [] else [Peer(len, accepted, if accepted then [] else [Poster])])
  }

  lemma PostAlone(s: Sys, accepted: bool) returns (acts: seq<Action>, t: Sys)
    requires s.flusher.Reserved? && s.flusher.len == s.batch && 0 < s.batch
    ensures Leads(s, acts, t, accepted)
    ensures var external := s.c.useExternal && s.external + s.batch <= s.c.maxExternal;
            Posted(s, t, s.batch, external, accepted)
  {
    if s.c.useExternal && ExternalFits(s, s.batch) {
      acts, t := ExternalAlone(Next(s, TryExternal), accepted);
    } else {
      acts, t := CopiedAlone(Next(s, TryExternal), accepted);
    }
    LeadsOn(s, TryExternal, acts, t, accepted);
    acts := [TryExternal] + acts;
  }

  lemma CopiedAlone(s: Sys, accepted: bool) returns (acts: seq<Action>, t: Sys)
    requires s.flusher.CopyPosting?
    ensures Leads(s, acts, t, accepted)
    ensures Posted(s, t, s.flusher.len, false, accepted)
  {
    var s1 := Next(s, PostCopied(accepted));
    if accepted {
      acts, t := [], s1;
    } else {
      t := Next(s1, RollBack);
      LeadsOn(s1, RollBack, [], t, accepted);
      acts := [RollBack];
    }
    LeadsOn(s, PostCopied(accepted), acts, t, accepted);
    acts := [PostCopied(accepted)] + acts;
  }

  lemma ExternalAlone(s: Sys, accepted: bool) returns (acts: seq<Action>, t: Sys)
    requires s.flusher.ExternalReserved? && s.flusher.len <= s.external
    ensures Leads(s, acts, t, accepted)
    ensures Posted(s.(external := s.external - s.flusher.len), t, s.flusher.len, true, accepted)
  {
    var s1 := Next(s, MakePeer);
    var s2 := Next(s1, PostExternal(accepted));
    var len := s.flusher.len;
    if accepted {
      acts, t := [], s2;
      assert t.peers == s.peers + [Peer(len, true, [])];
    } else {
      var s3 := Next(s2, DropRefused);
      assert s2.peers[s2.flusher.peer].freedBy + [Poster] == [Poster];
      assert s3.peers == s.peers + [Peer(len, false, [Poster])];
      t := Next(s3, RollBack);
      LeadsOn(s3, RollBack, [], t, accepted);
      LeadsOn(s2, DropRefused, [RollBack], t, accepted);
      acts := [DropRefused] + [RollBack];
    }
    LeadsOn(s1, PostExternal(accepted), acts, t, accepted);
    acts := [PostExternal(accepted)] + acts;
    LeadsOn(s, MakePeer, acts, t, accepted);
    acts := [MakePeer] + acts;
  }

  /** A flush that nothing else interrupts. With acknowledgements required it waits while
      the counter is at its limit, and does nothing once stop is set; otherwise it reserves
      the batch, posts it externally exactly if that is enabled and fits, and leaves what
      `Posted` says. */
  lemma FlushAlone(s: Sys, accepted: bool) returns (acts: seq<Action>, t: Sys)
    requires s.flusher.Idle? && 0 < s.batch
    ensures Leads(s, acts, t, accepted)
    ensures if s.c.requireAcks && s.stop then t == s
            else if s.c.requireAcks && s.inflight >= s.c.maxInflight then t == s.(flusher := Parked)
            else
              var inflight := if s.c.requireAcks then SaturatingAdd(s.inflight, s.batch) else s.inflight;
              var reserved := s.(inflight := inflight);
              var external := s.c.useExternal && s.external + s.batch <= s.c.maxExternal;
              Posted(reserved, t, s.batch, external, accepted)
  {
    if !s.c.requireAcks {
      acts, t := GrantedAlone(Next(s, BeginFlush), accepted);
    } else {
      acts, t := WaitAlone(Next(s, BeginFlush), accepted);
    }
    LeadsOn(s, BeginFlush, acts, t, accepted);
    acts := [BeginFlush] + acts;
  }

  lemma WaitAlone(s: Sys, accepted: bool) returns (acts: seq<Action>, t: Sys)
    requires s.flusher.Waiting? && 0 < s.batch && s.c.requireAcks
    ensures Leads(s, acts, t, accepted)
    ensures if s.stop then t == s.(flusher := Idle)
            else if s.inflight >= s.c.maxInflight then t == s.(flusher := Parked)
            else
              var external := s.c.useExternal && s.external + s.batch <= s.c.maxExternal;
              Posted(s.(inflight := SaturatingAdd(s.inflight, s.batch)), t, s.batch, external, accepted)
  {
    var s1 := Next(s, TestCapacity);
    if s1.flusher.Parked? {
      acts, t := [], s1;
    } else {
      var s2 := Next(s1, LastStopLoad);
      if s2.flusher.Idle? {
        acts, t := [], s2;
      } else {
        acts, t := GrantedAlone(s2, accepted);
      }
      LeadsOn(s1, LastStopLoad, acts, t, accepted);
      acts := [LastStopLoad] + acts;
    }
    LeadsOn(s, TestCapacity, acts, t, accepted);
    acts := [TestCapacity] + acts;
  }

  lemma GrantedAlone(s: Sys, accepted: bool) returns (acts: seq<Action>, t: Sys)
    requires s.flusher.Granted? && 0 < s.batch
    ensures Leads(s, acts, t, accepted)
    ensures var reserved := s.(inflight := if s.c.requireAcks then SaturatingAdd(s.inflight, s.batch) else s.inflight);
            var external := s.c.useExternal && s.external + s.batch <= s.c.maxExternal;
            Posted(reserved, t, s.batch, external, accepted)
  {
    acts, t := PostAlone(Next(s, Reserve), accepted);
    LeadsOn(s, Reserve, acts, t, accepted);
    acts := [Reserve] + acts;
  }

  // ----- without room the counter is not exact

  /** Between flushes, with `n` bytes delivered one at a time and none acknowledged. */
  ghost predicate Delivered(s: Sys, c: OutputConfig, n: nat) {
    && s.c == c && s.flusher.Idle? && !s.stop
    && s.batch == 0 && s.inflight == s.posted == n && s.acked == 0
  }

  lemma Extend(run: seq<Sys>, a: Action) returns (longer: seq<Sys>)
    requires IsRun(run, true) && Enabled(run[|run| - 1], a) && !a.Ack?
    ensures IsRun(longer, true) && longer != [] && longer[0] == run[0]
    ensures longer[|longer| - 1] == Next(run[|run| - 1], a)
  {
    var t := Next(run[|run| - 1], a);
    longer := run + [t];
    assert Follows(run[|run| - 1], t, true);
    hide Follows;
    forall i, j | 0 <= i < j < |longer| && j == i + 1 ensures Follows(longer[i], longer[j], true) {
      if j < |run| { assert Follows(run[i], run[j], true); }
    }
  }

  /** A flush of `n` bytes that has its capacity and is about to reserve. */
  lemma CanReserve(run: seq<Sys>, c: OutputConfig, d: nat, n: nat) returns (longer: seq<Sys>)
    requires IsRun(run, true) && Delivered(run[|run| - 1], c, d) && c.requireAcks
    requires d < c.maxInflight && 0 < n <= c.batchMax
    ensures IsRun(longer, true) && longer != [] && longer[0] == run[0]
    ensures longer[|longer| - 1] == run[|run| - 1].(batch := n, flusher := Granted)
  {
    hide IsRun;
    longer := Extend(run, Fill(n));
    longer := Extend(longer, BeginFlush);
    longer := Extend(longer, TestCapacity);
    longer := Extend(longer, LastStopLoad);
  }

  lemma CanDeliver(run: seq<Sys>, c: OutputConfig, d: nat) returns (longer: seq<Sys>)
    requires IsRun(run, true) && Delivered(run[|run| - 1], c, d) && c.requireAcks
    requires d < c.maxInflight && 1 <= c.batchMax && d < U64_MAX
    ensures IsRun(longer, true) && longer[0] == run[0] && Delivered(longer[|longer| - 1], c, d + 1)
  {
    hide IsRun;
    longer := CanReserve(run, c, d, 1);
    longer := Extend(longer, Reserve);
    longer := Extend(longer, TryExternal);
    if longer[|longer| - 1].flusher.ExternalReserved? {
      longer := Extend(longer, MakePeer);
      longer := Extend(longer, PostExternal(true));
    } else {
      longer := Extend(longer, PostCopied(true));
    }
  }

  lemma {:induction false} CanDeliverMany(c: OutputConfig, n: nat) returns (run: seq<Sys>)
    requires Usable(c) && c.requireAcks && n < c.maxInflight
    ensures IsRun(run, true) && run[0] == Initial(c) && Delivered(run[|run| - 1], c, n)
  {
    if n == 0 {
      run := [Initial(c)];
    } else {
      run := CanDeliverMany(c, n - 1);
      run := CanDeliver(run, c, n - 1);
    }
  }

  /** Without room an honest receiver that delays its acknowledgements makes the counter
      saturate, and it is then less than what it counts. */
  lemma CounterSaturates(c: OutputConfig) returns (run: seq<Sys>)
    requires Usable(c) && c.requireAcks && !HasRoom(c)
    ensures IsRun(run, true) && run != [] && run[0] == Initial(c)
    ensures run[|run| - 1].c == c && run[|run| - 1].inflight < Owed(run[|run| - 1])
  {
    run := CanDeliverMany(c, c.maxInflight - 1);
    run := CanReserve(run, c, c.maxInflight - 1, c.batchMax);
    run := Extend(run, Reserve);
  }

  ghost predicate AlwaysExact(c: OutputConfig) {
    forall run, i | IsRun(run, true) && 0 <= i < |run| && run[0] == Initial(c) :: Exact(run[i])
  }

  /** The counter of a usable configuration with acknowledgements is exact in every run of
      an honest receiver if and only if it has room. */
  lemma ExactIffRoom(c: OutputConfig)
    requires Usable(c) && c.requireAcks
    ensures AlwaysExact(c) <==> HasRoom(c)
  {
    if HasRoom(c) {
      forall run, i | IsRun(run, true) && 0 <= i < |run| && run[0] == Initial(c) ensures Exact(run[i]) {
        AlwaysInv(run, true, i);
      }
    } else {
      var run := CounterSaturates(c);
      assert !Exact(run[|run| - 1]);
    }
  }
}
