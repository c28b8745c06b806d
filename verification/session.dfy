/** The session logic of `src/main.rs` over an abstract serial transport:
    draining stale input, choosing the wire dialect from the reply to the
    neutral probe, and sending one frame per controller update. Each transport
    call is represented by its outcome, supplied as a parameter. */
module Session {
  import opened Results
  import opened Codec
  import opened Packet

  /** The header of the 20-byte firmware's vibration reply. */
  const TwentyByteOkHeader: bv8 := DualShockMagic
  /** The 7-byte firmware acknowledges a frame with 'k' ... */
  const SevenByteOkResponse: bv8 := 0x6B
  /** ... and answers input it does not recognise with 'x'. */
  const SevenByteErrResponse: bv8 := 0x78

  /** Both response buffers hold four bytes and start zeroed. */
  const ResponseLength: nat := 4

  /** The wire dialect; `None` only logs and never transmits. */
  datatype PacketType = None | SevenByte | TwentyByte

  /** A `std::io::Error` that the core propagates without looking inside. */
  datatype IoError = IoError

  /** The outcome of one `read`: the bytes the device delivered, or an error. */
  datatype ReadOutcome = Received(data: seq<bv8>) | ReadFailed

  /** The outcome of one `write_all`. */
  datatype WriteAllOutcome = AllWritten | WriteAllFailed

  /** The outcome of one `write`: how many bytes it accepted, or an error. */
  datatype WriteOutcome = Wrote(count: nat) | WriteFailed

  function ZeroBuffer(n: nat): (buffer: seq<bv8>)
    ensures |buffer| == n
    ensures forall i :: 0 <= i < n ==> buffer[i] == 0
  {
    seq(n, i => 0)
  }

  /** `read` into `buffer`: the delivered bytes overwrite a prefix of at most
      the buffer's length, and the rest of the buffer keeps its contents; on
      an error nothing changes. */
  function ReadInto(buffer: seq<bv8>, outcome: ReadOutcome): (r: seq<bv8>)
    ensures |r| == |buffer|
    ensures forall i :: 0 <= i < |buffer| ==>
      r[i] == if outcome.Received? && i < |outcome.data| then outcome.data[i] else buffer[i]
  {
    match outcome
    case ReadFailed => buffer
    case Received(data) =>
      if |data| >= |buffer| then data[..|buffer|]
      else data + buffer[|data|..]
  }

  /** The byte count a `read` reports, with an error counted as 0 bytes, as
      `send_event_to_controller` does. */
  function BytesRead(capacity: nat, outcome: ReadOutcome): (n: nat)
    ensures n <= capacity
    ensures outcome.ReadFailed? ==> n == 0
    ensures outcome.Received? ==> n == |outcome.data| || (n == capacity < |outcome.data|)
  {
    match outcome
    case ReadFailed => 0
    case Received(data) => if |data| < capacity then |data| else capacity
  }

  /** Whether the device's reply starts with the byte `b`. */
  predicate RepliedWith(outcome: ReadOutcome, b: bv8) {
    outcome.Received? && |outcome.data| > 0 && outcome.data[0] == b
  }

  /** The dialect decision on the reply to the probe. It looks at the first
      byte of the zeroed 4-byte buffer, so a failed or empty read sees 0,
      which neither firmware sends first: only a real first byte of 0x5A or
      'x' selects a dialect. */
  function ClassifyResponse(outcome: ReadOutcome): (mode: PacketType)
    ensures mode == TwentyByte <==> RepliedWith(outcome, TwentyByteOkHeader)
    ensures mode == SevenByte <==> RepliedWith(outcome, SevenByteErrResponse)
    ensures mode == None <==> !RepliedWith(outcome, TwentyByteOkHeader) && !RepliedWith(outcome, SevenByteErrResponse)
  {
    match outcome
    case ReadFailed => None
    case Received(_) =>
      var response := ReadInto(ZeroBuffer(ResponseLength), outcome);
      if response[0] == TwentyByteOkHeader then TwentyByte
      else if response[0] == SevenByteErrResponse then SevenByte
      else None
  }

  // ---------------------------------------------------------------------------
  // Clearing the serial buffer

  /** The outcome of one one-byte `read` while draining. */
  datatype DrainRead = Delivered(count: nat) | TimedOut | OtherError

  /** Where `clear_serial_buffer` ends on a finite run of read outcomes:
      drained after some number of reads, panicked, or still reading when the
      run ends. */
  datatype DrainResult = Drained(readCount: nat) | Panicked | StillDraining

  /** `clear_serial_buffer`: read until the first error. A timeout is the
      expected end; any other error panics. */
  function ClearSerialBuffer(attempts: seq<DrainRead>): (r: DrainResult)
    ensures r.Drained? ==>
      && 1 <= r.readCount <= |attempts|
      && attempts[r.readCount - 1].TimedOut?
      && forall j :: 0 <= j < r.readCount - 1 ==> attempts[j].Delivered?
    ensures r.Panicked? ==>
      exists k :: 0 <= k < |attempts| && attempts[k].OtherError? && forall j :: 0 <= j < k ==> attempts[j].Delivered?
    ensures r.StillDraining? <==> forall j :: 0 <= j < |attempts| ==> attempts[j].Delivered?
  {
    if |attempts| == 0 then StillDraining
    else
      match attempts[0]
      case TimedOut => Drained(1)
      case OtherError => Panicked
      case Delivered(_) =>
        var rest := ClearSerialBuffer(attempts[1..]);
        assert forall j :: 1 <= j < |attempts| ==> attempts[j] == attempts[1..][j - 1];
        if rest.Drained? then Drained(rest.readCount + 1) else rest
  }

  // ---------------------------------------------------------------------------
  // Negotiation

  /** Where the start of a session ends: a dialect chosen (after writing
      `written`), the probe's write error propagated, or a drain that
      panicked or never finished. */
  datatype Negotiation =
    | Negotiated(written: seq<bv8>, mode: PacketType)
    | ProbeWriteError(error: IoError)
    | DrainPanic
    | DrainPending

  function Min(a: nat, b: nat): nat {
    if a < b then a else b
  }

  /** The start of `send_to_ps2_controller_emulator_via`: drain, write the
      neutral probe with a single `write` (whose byte count is not checked),
      read the reply, classify it, drain again. */
  function Negotiate(before: seq<DrainRead>, probe: WriteOutcome, reply: ReadOutcome,
                     after: seq<DrainRead>): (r: Negotiation)
    ensures r.Negotiated? <==>
      ClearSerialBuffer(before).Drained? && probe.Wrote? && ClearSerialBuffer(after).Drained?
    ensures r.ProbeWriteError? <==> ClearSerialBuffer(before).Drained? && probe.WriteFailed?
    ensures r.Negotiated? ==> r.mode == ClassifyResponse(reply)
    ensures r.Negotiated? ==> |r.written| <= |NeutralProbe| && NeutralProbe[..|r.written|] == r.written
    ensures r.Negotiated? && probe.count >= 20 ==> r.written == NeutralProbe
  {
    match ClearSerialBuffer(before)
    case Panicked => DrainPanic
    case StillDraining => DrainPending
    case Drained(_) =>
      match probe
      case WriteFailed => ProbeWriteError(IoError)
      case Wrote(count) =>
        var mode := ClassifyResponse(reply);
        match ClearSerialBuffer(after)
        case Panicked => DrainPanic
        case StillDraining => DrainPending
        case Drained(_) => Negotiated(NeutralProbe[..Min(count, |NeutralProbe|)], mode)
  }

  // ---------------------------------------------------------------------------
  // One update

  /** What one update did: the bytes written to the device, the frame it
      built (logged as "Sent"), the response buffer and byte count, and
      whether it warned that the 7-byte adapter reported an error. */
  datatype SendReport = SendReport(
    written: seq<bv8>, sent: seq<bv8>, received: seq<bv8>, bytesReceived: nat, warned: bool)

  /** `send_event_to_controller`. In `None` mode the 20-byte frame is only
      built for the log; in the two real dialects the frame is written with
      `write_all` (an error propagates), then up to four bytes are read (an
      error counts as 0 bytes), and the 7-byte dialect warns unless the reply
      started with 'k'. */
  function SendEventToController(mode: PacketType, s: Snapshot, triggerMode: string,
                                 normalise: Normaliser, write: WriteAllOutcome,
                                 reply: ReadOutcome): (r: Result<SendReport, IoError>)
    requires NoTriggerOverflow(s, ParseTriggerMode(triggerMode))
    ensures r.Failure? <==> mode != None && write.WriteAllFailed?
    ensures r.Success? && mode == None ==>
      r.value.written == [] && r.value.bytesReceived == 0 && !r.value.warned
      && r.value.sent == MapTwentyByte(s, triggerMode, normalise)
    ensures r.Success? && mode == SevenByte ==>
      && r.value.written == r.value.sent == MapTwentyByte(s, triggerMode, normalise)[..7]
      && (r.value.warned <==> !RepliedWith(reply, SevenByteOkResponse))
    ensures r.Success? && mode == TwentyByte ==>
      r.value.written == r.value.sent == MapTwentyByte(s, triggerMode, normalise) && !r.value.warned
    ensures r.Success? && mode != None ==>
      r.value.bytesReceived == BytesRead(ResponseLength, reply)
      && r.value.received == ReadInto(ZeroBuffer(ResponseLength), reply)
  {
    var received := ZeroBuffer(ResponseLength);
    match mode
    case None =>
      Success(SendReport([], MapTwentyByte(s, triggerMode, normalise), received, 0, false))
    case SevenByte =>
      var state := MapSevenByte(s, triggerMode, normalise);
      if write.WriteAllFailed? then Failure(IoError)
      else
        var filled := ReadInto(received, reply);
        var warned := filled[0] != SevenByteOkResponse;
        Success(SendReport(state, state, filled, BytesRead(ResponseLength, reply), warned))
    case TwentyByte =>
      var state := MapTwentyByte(s, triggerMode, normalise);
      if write.WriteAllFailed? then Failure(IoError)
      else
        var filled := ReadInto(received, reply);
        Success(SendReport(state, state, filled, BytesRead(ResponseLength, reply), false))
  }

  /** An update succeeds whenever its write does, and then writes a whole
      frame of the dialect's length, the 7-byte frame being the 20-byte
      frame's prefix. */
  lemma UpdateWritesDialectFrame(mode: PacketType, s: Snapshot, triggerMode: string,
                                 normalise: Normaliser, write: WriteAllOutcome, reply: ReadOutcome)
    requires NoTriggerOverflow(s, ParseTriggerMode(triggerMode))
    requires mode == None || write.AllWritten?
    ensures SendEventToController(mode, s, triggerMode, normalise, write, reply).Success?
    ensures var written := SendEventToController(mode, s, triggerMode, normalise, write, reply).value.written;
      && |written| == (match mode case None => 0 case SevenByte => 7 case TwentyByte => 20)
      && written == MapTwentyByte(s, triggerMode, normalise)[..|written|]
  {
  }

  /** After a probe accepted whole and a reply that starts with the magic
      byte, the session runs the 20-byte dialect, and each update of a
      controller at rest repeats the probe exactly. */
  lemma RestingUpdateRepeatsProbe(before: seq<DrainRead>, reply: ReadOutcome, after: seq<DrainRead>,
                                  triggerMode: string, normalise: Normaliser, update: ReadOutcome)
    requires ClearSerialBuffer(before).Drained? && ClearSerialBuffer(after).Drained?
    requires RepliedWith(reply, TwentyByteOkHeader)
    requires normalise(0, 0) == (0, 0)
    ensures var n := Negotiate(before, Wrote(20), reply, after);
      && n == Negotiated(NeutralProbe, TwentyByte)
      && SendEventToController(n.mode, Neutral, triggerMode, normalise, AllWritten, update).value.written
         == n.written
  {
    var n := Negotiate(before, Wrote(20), reply, after);
    assert n.mode == TwentyByte;
    assert n == Negotiated(NeutralProbe, TwentyByte);
    NeutralSnapshotGivesProbe(triggerMode, normalise);
    assert SendEventToController(TwentyByte, Neutral, triggerMode, normalise, AllWritten, update).Success?;
  }
}
