/** The Linux monitor process: it forks the PTY program, learns over one pipe whether
    exec succeeded, and reports over another pipe in 8-byte frames to the parent.

    A read end holds every byte its writers will have written when they are gone, and a
    script of kernel results: each read takes a short count of what is left, is
    interrupted, or fails. A write end takes short counts the same way. A call whose
    script is used up is `Blocked`: scripts of every length are every schedule. A
    monitor killed at any instant leaves a prefix of its bytes. */
module Monitor {
  import opened Ptyx

  const MONITOR_PID: byte := 1
  const MONITOR_EXIT: byte := 2
  const MONITOR_EXEC_ERROR: byte := 3

  // ----- integers and frames

  datatype ByteOrder = LittleEndian | BigEndian

  /** The `as u32` and `as i32` casts. */
  function ToU32(v: i32): nat {
    if v < 0 then v + 0x1_0000_0000 else v
  }

  function ToI32(u: nat): i32
    requires u < 0x1_0000_0000
  {
    if u < 0x8000_0000 then u else u - 0x1_0000_0000
  }

  function LittleBytes(u: nat): (b: Bytes)
    requires u < 0x1_0000_0000
    ensures |b| == 4
  {
    [u % 256, u / 256 % 256, u / 0x1_0000 % 256, u / 0x100_0000]
  }

  function FromLittle(b: Bytes): (u: nat)
    requires |b| == 4
    ensures u < 0x1_0000_0000
  {
    (b[0] as int) + 256 * (b[1] as int) + 0x1_0000 * (b[2] as int) + 0x100_0000 * (b[3] as int)
  }

  function I32ToBytes(order: ByteOrder, v: i32): (b: Bytes)
    ensures |b| == 4
  {
    var b := LittleBytes(ToU32(v));
    if order.LittleEndian? then b else [b[3], b[2], b[1], b[0]]
  }

  function I32FromBytes(order: ByteOrder, b: Bytes): i32
    requires |b| == 4
  {
    ToI32(FromLittle(if order.LittleEndian? then b else [b[3], b[2], b[1], b[0]]))
  }

  lemma LittleRoundTrip(u: nat)
    requires u < 0x1_0000_0000
    ensures FromLittle(LittleBytes(u)) == u
  {
    var high := u / 256;
    assert u / 0x1_0000 == high / 256 && u / 0x100_0000 == high / 256 / 256;
  }

  lemma I32RoundTrip(order: ByteOrder, v: i32)
    ensures I32FromBytes(order, I32ToBytes(order, v)) == v
  {
    hide FromLittle, LittleBytes;
    var b := LittleBytes(ToU32(v));
    LittleRoundTrip(ToU32(v));
    assert |b| == 4 && [b[0], b[1], b[2], b[3]] == b;
  }

  /** The casts keep the value modulo 2^32, and the bytes are in the order of the machine. */
  lemma CastsAreModular(v: i32, u: nat)
    requires u < 0x1_0000_0000
    ensures 0 <= ToU32(v) < 0x1_0000_0000 && (ToU32(v) - v) % 0x1_0000_0000 == 0
    ensures (ToI32(u) - u) % 0x1_0000_0000 == 0
    ensures I32ToBytes(LittleEndian, 0x0102_0304) == [4, 3, 2, 1]
    ensures I32ToBytes(BigEndian, 0x0102_0304) == [1, 2, 3, 4]
    ensures I32ToBytes(LittleEndian, -2) == [254, 255, 255, 255]
  {
  }

  datatype Message = Message(tag: byte, value: i32)

  function Encode(order: ByteOrder, m: Message): (b: Bytes)
    ensures |b| == 8
  {
    [m.tag, 0, 0, 0] + I32ToBytes(order, m.value)
  }

  function Decode(order: ByteOrder, b: Bytes): Message
    requires |b| == 8
  {
    Message(b[0], I32FromBytes(order, b[4..8]))
  }

  lemma FrameRoundTrip(order: ByteOrder, m: Message)
    ensures Decode(order, Encode(order, m)) == m
  {
    assert Encode(order, m)[4..8] == I32ToBytes(order, m.value);
    I32RoundTrip(order, m.value);
  }

  function EncodeAll(order: ByteOrder, ms: seq<Message>): Bytes {
    if ms == [] then [] else Encode(order, ms[0]) + EncodeAll(order, ms[1..])
  }

  /** The complete frames of a stream. */
  function DecodeAll(order: ByteOrder, stream: Bytes): seq<Message> {
    if |stream| < 8 then [] else [Decode(order, stream[..8])] + DecodeAll(order, stream[8..])
  }

  /** From any prefix of what was sent, exactly the messages whose frames are complete
      are decoded. */
  lemma {:induction false} PrefixDecodes(order: ByteOrder, ms: seq<Message>, cut: nat)
    requires cut <= |EncodeAll(order, ms)|
    ensures |EncodeAll(order, ms)| == 8 * |ms|
    ensures DecodeAll(order, EncodeAll(order, ms)[..cut]) == ms[..cut / 8]
  {
    hide Encode, Decode;
    if ms != [] {
      var frame, rest := Encode(order, ms[0]), EncodeAll(order, ms[1..]);
      var stream := EncodeAll(order, ms)[..cut];
      PrefixDecodes(order, ms[1..], if cut < 8 then 0 else cut - 8);
      if cut >= 8 {
        assert stream[..8] == frame && stream[8..] == rest[..cut - 8];
        FrameRoundTrip(order, ms[0]);
        assert ms[..cut / 8] == [ms[0]] + ms[1..][..(cut - 8) / 8];
      }
    }
  }

  // ----- pipes

  datatype Call = Takes(count: nat) | Interrupted | Fails(errno: i32)

  datatype Outcome<+T> = Got(value: T) | AtEof | Failed(errno: i32) | Blocked

  class ReadEnd {
    var content: Bytes
    var calls: seq<Call>

    constructor (content: Bytes, calls: seq<Call>)
      ensures this.content == content && this.calls == calls
    {
      this.content, this.calls := content, calls;
    }

    predicate NeverFails()
      reads this
    {
      forall call | call in calls :: !call.Fails?
    }

    /** One read call: end of file on an empty pipe, otherwise a non-empty short count. */
    method Read(want: nat) returns (r: Outcome<Bytes>, interrupted: bool)
      requires 0 < want
      modifies this
      ensures interrupted ==> r.Got? && content == old(content)
      ensures r.Got? && !interrupted ==> 0 < |r.value| <= want && r.value + content == old(content)
      ensures r.AtEof? ==> content == old(content) == []
      ensures r.Failed? ==> content == old(content) && Fails(r.errno) in old(calls)
      ensures r.Blocked? ==> content == old(content) && calls == []
      ensures !r.Blocked? ==> |calls| < |old(calls)|
      ensures forall call | call in calls :: call in old(calls)
    {
      interrupted := false;
      if calls == [] {
        return Blocked, false;
      }
      var call := calls[0];
      calls := calls[1..];
      match call {
        case Takes(limit) =>
          if content == [] {
            return AtEof, false;
          }
          var count := Min(Min(want, Max(limit, 1)), |content|);
          var bytes := content[..count];
          content := content[count..];
          return Got(bytes), false;
        case Interrupted =>
          return Got([]), true;
        case Fails(errno) =>
          return Failed(errno), false;
      }
    }
  }

  /** Reads exactly `want` bytes. When it finishes, it got the next `want` bytes exactly
      when there were that many, however the reads were cut. */
  method ReadExact(fd: ReadEnd, want: nat) returns (r: Outcome<Bytes>)
    modifies fd
    ensures r.Got? ==>
              && |old(fd.content)| >= want
              && r.value == old(fd.content)[..want]
              && fd.content == old(fd.content)[want..]
    ensures r.AtEof? ==> |old(fd.content)| < want && fd.content == []
    ensures r.Failed? ==> Fails(r.errno) in old(fd.calls)
    ensures r.Blocked? ==> fd.calls == [] && |old(fd.content)| - want < |fd.content|
    ensures forall call | call in fd.calls :: call in old(fd.calls)
  {
    var buffer := [];
    while |buffer| < want
      invariant |buffer| <= want && buffer + fd.content == old(fd.content)
      invariant forall call | call in fd.calls :: call in old(fd.calls)
      decreases |fd.calls|
    {
      var result, interrupted := fd.Read(want - |buffer|);
      if interrupted {
        continue;
      }
      if !result.Got? {
        return result;
      }
      buffer := buffer + result.value;
    }
    r := Got(buffer);
  }

  method ReadMessage(order: ByteOrder, fd: ReadEnd) returns (r: Outcome<Message>)
    modifies fd
    ensures r.Got? ==>
              && |old(fd.content)| >= 8
              && r.value == Decode(order, old(fd.content)[..8])
              && fd.content == old(fd.content)[8..]
    ensures r.AtEof? ==> |old(fd.content)| < 8
    ensures r.Failed? ==> Fails(r.errno) in old(fd.calls)
    ensures r.Blocked? ==> fd.calls == [] && |old(fd.content)| - 8 < |fd.content|
    ensures forall call | call in fd.calls :: call in old(fd.calls)
  {
    var bytes := ReadExact(fd, 8);
    match bytes {
      case Got(buffer) => return Got(Decode(order, buffer));
      case AtEof => return AtEof;
      case Failed(errno) => return Failed(errno);
      case Blocked => return Blocked;
    }
  }

  datatype ExecStatus = ExecFailed(errno: i32) | ExecEof | ExecBroken

  /** The exec-status pipe: closed without a byte is success, four bytes are an errno,
      anything else is broken. */
  method ReadI32OrEof(order: ByteOrder, fd: ReadEnd) returns (r: Outcome<ExecStatus>)
    modifies fd
    ensures r.Got? || (r.Blocked? && fd.calls == [] && |old(fd.content)| - 4 < |fd.content|)
    ensures r.Got? && r.value.ExecFailed? ==>
              |old(fd.content)| >= 4 && r.value.errno == I32FromBytes(order, old(fd.content)[..4])
    ensures r.Got? && r.value.ExecEof? ==> old(fd.content) == []
    ensures r.Got? && r.value.ExecBroken? ==> 0 < |old(fd.content)| < 4 || exists errno :: Fails(errno) in old(fd.calls)
  {
    var buffer := [];
    while |buffer| < 4
      invariant |buffer| <= 4 && buffer + fd.content == old(fd.content)
      invariant forall call | call in fd.calls :: call in old(fd.calls)
      decreases |fd.calls|
    {
      var result, interrupted := fd.Read(4 - |buffer|);
      if interrupted {
        continue;
      }
      match result {
        case AtEof => return Got(if buffer == [] then ExecEof else ExecBroken);
        case Failed(_) => return Got(ExecBroken);
        case Blocked => return Blocked;
        case Got(bytes) => buffer := buffer + bytes;
      }
    }
    assert buffer == old(fd.content)[..4];
    r := Got(ExecFailed(I32FromBytes(order, buffer)));
  }

  class WriteEnd {
    var written: Bytes
    var calls: seq<Call>

    constructor (calls: seq<Call>)
      ensures written == [] && this.calls == calls
    {
      written, this.calls := [], calls;
    }

    predicate NeverFails()
      reads this
    {
      forall call | call in calls :: !call.Fails?
    }

    /** Writes the whole buffer, in as many calls as it takes. A call that takes nothing
        is simply tried again. */
    method WriteAll(buffer: Bytes) returns (r: Outcome<bool>)
      modifies this
      ensures old(written) <= written <= old(written) + buffer
      ensures r.Got? || (r.Blocked? && calls == [] && written != old(written) + buffer)
      ensures r == Got(true) ==> written == old(written) + buffer
      ensures old(NeverFails()) ==> NeverFails() && (r.Got? ==> r.value)
    {
      var offset := 0;
      while offset < |buffer|
        invariant 0 <= offset <= |buffer| && written == old(written) + buffer[..offset]
        invariant old(NeverFails()) ==> NeverFails()
        decreases |calls|
      {
        if calls == [] {
          return Blocked;
        }
        var call := calls[0];
        assert old(NeverFails()) ==> !call.Fails?;
        calls := calls[1..];
        match call {
          case Interrupted =>
          case Fails(_) => return Got(false);
          case Takes(limit) =>
            var count := Min(limit, |buffer| - offset);
            written := written + buffer[offset..offset + count];
            offset := offset + count;
        }
      }
      r := Got(true);
    }
  }

  // ----- the wait status

  /** The status word of waitpid, with the platform's tests written out. */
  function ExitCode(status: nat): i32 {
    var low := status % 128;
    if low == 0 then status / 256 % 256        // exited
    else if low < 127 then 128 + low           // killed by signal `low`
    else 1
  }

  /** Every status maps into a byte; an exit status keeps its code, and a signal maps
      to 128 plus its number whether or not it dumped core. */
  lemma ExitCodeIsByte(status: nat, code: nat, signal: nat, dumped: bool)
    requires code < 256 && 0 < signal < 127
    ensures 0 <= ExitCode(status) < 256
    ensures ExitCode(code * 256) == code
    ensures ExitCode(signal + if dumped then 128 else 0) == 128 + signal
    ensures status % 128 == 127 ==> ExitCode(status) == 1
    ensures WaitResult(Reaped(status)) == ExitCode(status) && WaitResult(WaitCall.WaitFailed) == 1
  {
    assert code * 256 % 128 == 0;
  }

  datatype WaitCall = Reaped(status: nat) | WaitInterrupted | WaitFailed

  function WaitResult(call: WaitCall): i32 {
    if call.Reaped? then ExitCode(call.status) else 1
  }

  /** The code of the first wait that was not interrupted. */
  ghost predicate WaitGives(calls: seq<WaitCall>, code: i32) {
    exists i | 0 <= i < |calls| ::
      !calls[i].WaitInterrupted? && code == WaitResult(calls[i]) && forall k | 0 <= k < i :: calls[k].WaitInterrupted?
  }

  method WaitForPid(calls: seq<WaitCall>) returns (r: Outcome<i32>)
    ensures r.Got? || r.Blocked?
    ensures r.Got? ==> 0 <= r.value < 256
    ensures r.Blocked? <==> forall i | 0 <= i < |calls| :: calls[i].WaitInterrupted?
    ensures r.Got? ==> WaitGives(calls, r.value)
  {
    var i := 0;
    while i < |calls|
      invariant i <= |calls|
      invariant forall k | 0 <= k < i :: calls[k].WaitInterrupted?
    {
      match calls[i] {
        case Reaped(status) => return Got(ExitCode(status));
        case WaitFailed => return Got(1);
        case WaitInterrupted =>
      }
      i := i + 1;
    }
    r := Blocked;
  }

  // ----- the monitor

  /** What the monitor sends when it runs to its end. */
  ghost predicate MonitorTrace(trace: seq<Message>) {
    || (|trace| == 1 && trace[0].tag == MONITOR_EXEC_ERROR)
    || (|trace| == 2 && trace[0].tag == MONITOR_PID && trace[1].tag == MONITOR_EXIT && 0 <= trace[1].value < 256)
  }

  /** The whole monitor. `pipeError` and `forkError` are the errno of a failed pipe or
      fork, `errno` what errno holds when the exec pipe is broken. While its writes do
      not fail, the bytes written are a prefix of a trace, and all of it if it runs to
      its end. Once it has written anything, that is about the PID exactly when pipe and
      fork succeeded and the exec pipe closed without a byte, and otherwise about the
      errno the child sent; the exit code it reports is what waiting on the child gave. */
  method RunMonitor(order: ByteOrder, events: WriteEnd, pipeError: Option<i32>, forkError: Option<i32>, pid: i32,
                    execPipe: ReadEnd, errno: i32, waits: seq<WaitCall>)
    returns (finished: bool, ghost trace: seq<Message>)
    requires events.written == []
    modifies events, execPipe
    ensures MonitorTrace(trace)
    ensures old(events.NeverFails()) ==> events.written <= EncodeAll(order, trace)
    ensures old(events.NeverFails()) && finished ==> events.written == EncodeAll(order, trace)
    ensures trace[0].tag == MONITOR_PID ==>
              trace[0].value == pid && pipeError.None? && forkError.None? && old(execPipe.content) == []
    ensures pipeError.None? && forkError.None? && old(execPipe.NeverFails()) && (finished || events.written != []) ==>
              && (old(execPipe.content) == [] ==> trace[0].tag == MONITOR_PID)
              && (|old(execPipe.content)| >= 4 ==>
                    trace[0] == Message(MONITOR_EXEC_ERROR, I32FromBytes(order, old(execPipe.content)[..4])))
              && (0 < |old(execPipe.content)| < 4 ==> trace[0] == Message(MONITOR_EXEC_ERROR, errno))
    ensures pipeError.Some? ==> trace == [Message(MONITOR_EXEC_ERROR, pipeError.value)]
    ensures pipeError.None? && forkError.Some? ==> trace == [Message(MONITOR_EXEC_ERROR, forkError.value)]
    ensures trace[0].tag == MONITOR_PID && (finished || |events.written| > 8) ==> WaitGives(waits, trace[1].value)
    ensures !finished ==>
              events.calls == [] || execPipe.calls == [] || (forall i | 0 <= i < |waits| :: waits[i].WaitInterrupted?)
  {
    hide Encode, EncodeAll, I32FromBytes, WaitGives;
    finished := false;
    if pipeError.Some? || forkError.Some? {
      var error := if pipeError.Some? then pipeError.value else forkError.value;
      finished, trace := Report(order, events, error);
      return;
    }
    var status := ReadI32OrEof(order, execPipe);
    if status.Blocked? {
      trace := [Message(MONITOR_EXEC_ERROR, errno)];
      return;
    }
    if !status.value.ExecEof? {
      var error := if status.value.ExecFailed? then status.value.errno else errno;
      var sent;
      sent, trace := Report(order, events, error);
      if sent {
        var reaped := WaitForPid(waits);
        finished := reaped.Got?;
      }
      return;
    }
    var started := Message(MONITOR_PID, pid);
    trace := [started, Message(MONITOR_EXIT, 0)];
    TwoFrames(order, trace[0], trace[1]);
    var sentPid := events.WriteAll(Encode(order, started));
    if sentPid.Blocked? {
      return;
    }
    var code := WaitForPid(waits);
    if code.Blocked? {
      return;
    }
    var exited := Message(MONITOR_EXIT, code.value);
    trace := [started, exited];
    TwoFrames(order, started, exited);
    var sentExit := events.WriteAll(Encode(order, exited));
    finished := sentExit.Got?;
  }

  method Report(order: ByteOrder, events: WriteEnd, error: i32) returns (sent: bool, ghost trace: seq<Message>)
    requires events.written == []
    modifies events
    ensures trace == [Message(MONITOR_EXEC_ERROR, error)]
    ensures old(events.NeverFails()) ==> events.written <= EncodeAll(order, trace)
    ensures old(events.NeverFails()) && sent ==> events.written == EncodeAll(order, trace)
    ensures !sent ==> events.calls == []
  {
    var message := Message(MONITOR_EXEC_ERROR, error);
    trace := [message];
    OneFrame(order, message);
    var outcome := events.WriteAll(Encode(order, message));
    sent := outcome.Got?;
  }

  lemma OneFrame(order: ByteOrder, m: Message)
    ensures EncodeAll(order, [m]) == Encode(order, m)
  {
    assert EncodeAll(order, [m][1..]) == [];
  }

  lemma TwoFrames(order: ByteOrder, a: Message, b: Message)
    ensures EncodeAll(order, [a, b]) == Encode(order, a) + Encode(order, b)
  {
    assert [a, b][1..] == [b];
    OneFrame(order, b);
  }

  // ----- the parent

  datatype Spawned = Child(pid: i32) | ExecRefused(errno: i32) | InvalidMessage | MonitorGone

  /** What spawn makes of the monitor's bytes. */
  function SpawnOf(order: ByteOrder, stream: Bytes): Spawned {
    if |stream| < 8 then MonitorGone
    else
      var m := Decode(order, stream[..8]);
      if m.tag == MONITOR_PID then Child(m.value)
      else if m.tag == MONITOR_EXEC_ERROR then ExecRefused(m.value)
      else InvalidMessage
  }

  /** The exit code a wait finds in the monitor's bytes: the first exit message. */
  function ExitOf(order: ByteOrder, stream: Bytes): Option<i32> {
    if |stream| < 8 then None
    else
      var m := Decode(order, stream[..8]);
      if m.tag == MONITOR_EXIT then Some(m.value) else ExitOf(order, stream[8..])
  }

  /** Reads the first message. A finished spawn is decided by the monitor's bytes; only
      a failing read ends it otherwise. */
  method Spawn(order: ByteOrder, events: ReadEnd) returns (r: Outcome<Spawned>)
    modifies events
    ensures r.Got? ==> r.value == SpawnOf(order, old(events.content))
    ensures r.Got? && !r.value.MonitorGone? ==> events.content == old(events.content)[8..]
    ensures !r.AtEof?
    ensures r.Failed? ==> !old(events.NeverFails())
    ensures r.Blocked? ==> events.calls == []
    ensures old(events.NeverFails()) ==> events.NeverFails()
  {
    var message := ReadMessage(order, events);
    match message {
      case Blocked => return Blocked;
      case AtEof => return Got(MonitorGone);
      case Failed(errno) => return Failed(errno);
      case Got(m) =>
        if m.tag == MONITOR_PID {
          return Got(Child(m.value));
        }
        if m.tag == MONITOR_EXEC_ERROR {
          return Got(ExecRefused(m.value));
        }
        return Got(InvalidMessage);
    }
  }

  /** A 32-bit unsigned exit status, as the PTY library holds it. */
  type ExitStatus = x: nat | x < 0x1_0000_0000

  class SupervisedChild {
    const order: ByteOrder
    const pid: i32
    const events: ReadEnd
    var cached: Option<ExitStatus>

    constructor (order: ByteOrder, pid: i32, events: ReadEnd)
      ensures this.order == order && this.pid == pid && this.events == events && cached == None
    {
      this.order, this.pid, this.events, cached := order, pid, events, None;
    }

    /** The first wait finds the exit message, whatever precedes it, and caches it; later
        waits repeat it without reading. A pipe that ends first is an error each time. */
    method Wait() returns (r: Outcome<ExitStatus>)
      modifies this, events
      ensures old(cached).Some? ==>
                r == Got(old(cached).value) && cached == old(cached) && events.content == old(events.content)
      ensures old(cached).None? && r.Got? ==>
                && ExitOf(order, old(events.content)).Some?
                && r.value == ToU32(ExitOf(order, old(events.content)).value)
                && cached == Some(r.value)
      ensures r.AtEof? ==> old(cached).None? && ExitOf(order, old(events.content)).None? && cached.None?
      ensures r.Failed? ==> !old(events.NeverFails()) && cached.None?
      ensures r.Blocked? ==> cached.None? && events.calls == []
    {
      if cached.Some? {
        return Got(cached.value);
      }
      while true
        invariant cached.None?
        invariant ExitOf(order, events.content) == ExitOf(order, old(events.content))
        invariant old(events.NeverFails()) ==> events.NeverFails()
        decreases |events.content|
      {
        var message := ReadMessage(order, events);
        match message {
          case Got(m) =>
            if m.tag == MONITOR_EXIT {
              cached := Some(ToU32(m.value));
              return Got(ToU32(m.value));
            }
          case AtEof => return AtEof;
          case Failed(errno) => return Failed(errno);
          case Blocked => return Blocked;
        }
      }
    }
  }

  // ----- end to end

  /** The value posted for an exit status: `as i32`, then widened. */
  function PostedExitCode(status: ExitStatus): int {
    ToI32(status)
  }

  lemma ExitCodeSurvives(order: ByteOrder, code: i32)
    ensures PostedExitCode(ToU32(Decode(order, Encode(order, Message(MONITOR_EXIT, code))).value)) == code
  {
    FrameRoundTrip(order, Message(MONITOR_EXIT, code));
  }

  /** Whatever instant the monitor dies at, its bytes cut at `cut`: spawn returns the
      child exactly when the PID frame is complete, an exec error exactly when that frame
      is, and wait then returns the code exactly when the exit frame is complete. */
  lemma ParentFollowsMonitor(order: ByteOrder, trace: seq<Message>, cut: nat)
    requires MonitorTrace(trace) && cut <= |EncodeAll(order, trace)|
    ensures var stream := EncodeAll(order, trace)[..cut];
            var execFailed := trace[0].tag == MONITOR_EXEC_ERROR;
            && (SpawnOf(order, stream) ==
                  if cut < 8 then MonitorGone
                  else if execFailed then ExecRefused(trace[0].value)
                  else Child(trace[0].value))
            && (cut >= 8 && !execFailed ==>
                  ExitOf(order, stream[8..]) == if cut == 16 then Some(trace[1].value) else None)
  {
    var stream := EncodeAll(order, trace)[..cut];
    PrefixDecodes(order, trace, cut);
    SpawnIsFirstMessage(order, stream);
    if cut >= 8 && trace[0].tag == MONITOR_PID {
      assert DecodeAll(order, stream)[1..] == DecodeAll(order, stream[8..]);
      if cut == 16 {
        assert DecodeAll(order, stream[8..]) == trace[1..];
        assert DecodeAll(order, stream[8..])[0] == trace[1];
      }
    }
  }

  /** Monitor and parent together. `delivered` is how many of the monitor's bytes reach the
      parent, fewer than it wrote if it is killed first. With event writes and exec-status
      reads that do not fail, spawn returns a child only if pipe and fork succeeded and the
      exec pipe closed without a byte, and if the first frame is delivered, exactly then;
      the child is the forked one. */
  method SpawnChild(order: ByteOrder, eventWrites: seq<Call>, eventReads: seq<Call>, delivered: nat,
                    pipeError: Option<i32>, forkError: Option<i32>, pid: i32,
                    execPipe: ReadEnd, errno: i32, waits: seq<WaitCall>)
    returns (r: Outcome<Spawned>, finished: bool)
    requires forall call | call in eventWrites :: !call.Fails?
    requires execPipe.NeverFails()
    modifies execPipe
    ensures r.Got? && r.value.Child? ==>
              r.value.pid == pid && pipeError.None? && forkError.None? && old(execPipe.content) == []
    ensures r.Got? && !r.value.MonitorGone? ==>
              (r.value.Child? <==> pipeError.None? && forkError.None? && old(execPipe.content) == [])
    ensures r.Got? && finished && delivered >= 8 ==> !r.value.MonitorGone? && !r.value.InvalidMessage?
  {
    var events := new WriteEnd(eventWrites);
    ghost var trace;
    finished, trace := RunMonitor(order, events, pipeError, forkError, pid, execPipe, errno, waits);
    var count := Min(delivered, |events.written|);
    var parentEnd := new ReadEnd(events.written[..count], eventReads);
    r := Spawn(order, parentEnd);
    assert events.written[..count] == EncodeAll(order, trace)[..count];
    ParentFollowsMonitor(order, trace, count);
    PrefixDecodes(order, trace, 0);
  }

  ghost function ExitCodes(ms: seq<Message>): seq<i32> {
    if ms == [] then []
    else (if ms[0].tag == MONITOR_EXIT then [ms[0].value] else []) + ExitCodes(ms[1..])
  }

  /** For any bytes at all: spawn is decided by the first complete message alone, each tag
      having its own answer, and wait finds the first exit message among the complete ones. */
  lemma {:induction false} ParentReadsMessages(order: ByteOrder, stream: Bytes)
    ensures var ms := DecodeAll(order, stream);
            && (SpawnOf(order, stream) == MonitorGone <==> ms == [])
            && (SpawnOf(order, stream) == InvalidMessage <==> ms != [] && ms[0].tag != 1 && ms[0].tag != 3)
            && (forall pid :: SpawnOf(order, stream) == Child(pid) <==> ms != [] && ms[0] == Message(1, pid))
            && (forall e :: SpawnOf(order, stream) == ExecRefused(e) <==> ms != [] && ms[0] == Message(3, e))
            && ExitOf(order, stream) == (if ExitCodes(ms) == [] then None else Some(ExitCodes(ms)[0]))
  {
    if |stream| >= 8 {
      ParentReadsMessages(order, stream[8..]);
      assert DecodeAll(order, stream)[1..] == DecodeAll(order, stream[8..]);
    }
  }

  lemma SpawnIsFirstMessage(order: ByteOrder, stream: Bytes)
    ensures |stream| >= 8 ==> DecodeAll(order, stream)[0] == Decode(order, stream[..8])
  {
  }
}
