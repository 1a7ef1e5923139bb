/**
 * Packet formats shared by the bridge and its peer process.
 *
 * Outbound (bridge -> peer): `[lengthHi, lengthLo, eventId, payload...]`, the
 * 16-bit length counting the event id and the payload.
 * Inbound (peer -> bridge): a run of frames `[size, eventId, payload...]`,
 * the one-byte size counting the event id and the payload.
 * Station-scoped frames carry the station hash big-endian in bytes 1..4.
 */
module Frames {
  import opened Bytes
  import opened Wrappers

  // Event ids (one byte; the high nibble is the device class).
  const STATUS_FROM_UNITY: uint8 := 0x00
  const DEVICE_CONNECTED: uint8 := 0x01
  const DEVICE_DISCONNECTED: uint8 := 0x02
  const OMNI_EVENT: uint8 := 0x03
  const RETRIEVE_CONNECTED_DEVICES: uint8 := 0x04
  const KILL_APPLICATION_EVENT: uint8 := 0x05
  const DRAX_ID: uint8 := 0x10
  const DRAX_INPUT_EVENT: uint8 := 0x11
  const DRAX_OUTPUT_EVENT: uint8 := 0x12
  const DRAX_OUTPUT_BIT_ENABLE_EVENT: uint8 := 0x13
  const DRAX_OUTPUT_BIT_DISABLE_EVENT: uint8 := 0x14
  const DRAX_HARD_METER_EVENT: uint8 := 0x15
  const DRAX_METER_ERROR: uint8 := 0x16
  const JOYSTICK_ID: uint8 := 0x20
  const JOYSTICK_INPUT_EVENT: uint8 := 0x21
  const PRINTER_ID: uint8 := 0x40
  const PRINTER_CASHOUT_TICKET: uint8 := 0x41
  const PRINTER_AUDIT_TICKET: uint8 := 0x42
  const PRINTER_CODEX_TICKET: uint8 := 0x43
  const PRINTER_TEST_TICKET: uint8 := 0x44
  const PRINTER_REPRINT_TICKET: uint8 := 0x45
  const PRINT_COMPLETE_EVENT: uint8 := 0x46
  const PRINT_ERROR_EVENT: uint8 := 0x47
  const PRINTER_STATE_EVENT: uint8 := 0x48
  const CUSTOM_TG02: uint8 := 0x01
  const BILL_ACCEPTOR_ID: uint8 := 0x80
  const BA_BILL_INSERTED_EVENT: uint8 := 0x81
  const BA_BILL_ACCEPTED_EVENT: uint8 := 0x82
  const BA_BILL_REJECTED_EVENT: uint8 := 0x83
  const BA_BILL_RETURNED_EVENT: uint8 := 0x84
  const BA_BILL_STATE_UPDATE_EVENT: uint8 := 0x85
  const BA_ACCEPT_BILL_EVENT: uint8 := 0x86
  const BA_REJECT_BILL_EVENT: uint8 := 0x87
  const BA_IDLE_EVENT: uint8 := 0x88
  const BA_INHIBIT_EVENT: uint8 := 0x89
  const BA_RESET_EVENT: uint8 := 0x8a

  // ---------------------------------------------------------------- outbound

  /**
   * The packet the bridge builds for an event whose payload has
   * `payloadLength` bytes. The length field is truncated to 16 bits, and the
   * payload bytes are never copied in: the body stays zero.
   */
  function QueuedPacket(eventId: uint8, payloadLength: nat): seq<uint8>
  {
    BE16(ToUShort(payloadLength + 1)) + [eventId] + Zeros(payloadLength)
  }

  /**
   * How a reader of the outbound format recovers `(eventId, payload)` from
   * one packet: the length field must count exactly the bytes after it.
   */
  function DecodeOutbound(p: seq<uint8>): (r: Option<(uint8, seq<uint8>)>)
    ensures r.Some? ==> |p| >= 3 && r.value.0 == p[2] && r.value.1 == p[3..]
    ensures r.Some? <==> |p| >= 3 && FromBE16(p[0], p[1]) == |p| - 2
  {
    if |p| >= 3 && FromBE16(p[0], p[1]) == |p| - 2 then Some((p[2], p[3..])) else None
  }

  /** A queued packet decodes to its event id and as many zero bytes as the payload had. */
  lemma QueuedPacketDecodes(eventId: uint8, payloadLength: nat)
    requires payloadLength + 1 < 0x1_0000
    ensures |QueuedPacket(eventId, payloadLength)| == payloadLength + 3
    ensures DecodeOutbound(QueuedPacket(eventId, payloadLength)) == Some((eventId, Zeros(payloadLength)))
  {
    var p := QueuedPacket(eventId, payloadLength);
    BE16RoundTrip(payloadLength + 1);
    assert p[3..] == Zeros(payloadLength);
  }

  /** The payload a caller hands in never reaches the wire unless it is all zeros. */
  lemma QueuedPacketLosesPayload(eventId: uint8, payload: seq<uint8>)
    requires |payload| + 1 < 0x1_0000
    ensures DecodeOutbound(QueuedPacket(eventId, |payload|)) == Some((eventId, payload))
        <==> forall i :: 0 <= i < |payload| ==> payload[i] == 0
  {
    QueuedPacketDecodes(eventId, |payload|);
    if forall i :: 0 <= i < |payload| ==> payload[i] == 0 {
      assert payload == Zeros(|payload|);
    }
  }

  /** A payload of 65535 bytes wraps the length field to 0, and no reader can frame the packet. */
  lemma QueuedPacketLengthWraps(eventId: uint8)
    ensures QueuedPacket(eventId, 0xFFFF)[..2] == [0, 0]
    ensures DecodeOutbound(QueuedPacket(eventId, 0xFFFF)) == None
  {
  }

  // ----------------------------------------------------------------- inbound

  /** Every frame fits the one-byte size field of the inbound format. */
  ghost predicate FitsSizeByte(frames: seq<seq<uint8>>)
  {
    forall i :: 0 <= i < |frames| ==> |frames[i]| < 0x100
  }

  /**
   * Splits a received buffer into frames: a size byte, then that many bytes,
   * until the buffer ends. None when a size byte promises more bytes than
   * remain.
   */
  function ParseFrames(buf: seq<uint8>): Option<seq<seq<uint8>>>
    decreases |buf|
  {
    if |buf| == 0 then Some([])
    else if 1 + buf[0] > |buf| then None
    else match ParseFrames(buf[1 + buf[0]..])
      case None => None
      case Some(rest) => Some([buf[1..1 + buf[0]]] + rest)
  }

  /** Frames already split off, followed by the outcome of splitting the rest. */
  function Prepend(done: seq<seq<uint8>>, rest: Option<seq<seq<uint8>>>): Option<seq<seq<uint8>>>
  {
    match rest
    case None => None
    case Some(fs) => Some(done + fs)
  }

  /** Splitting from offset `i` reads one size byte there, then goes on after that frame. */
  lemma ParseFramesAt(buf: seq<uint8>, i: nat)
    requires i < |buf|
    ensures ParseFrames(buf[i..]) ==
      if i + 1 + buf[i] > |buf| then None
      else Prepend([buf[i + 1..i + 1 + buf[i]]], ParseFrames(buf[i + 1 + buf[i]..]))
  {
    var tail := buf[i..];
    if i + 1 + buf[i] <= |buf| {
      assert tail[1 + tail[0]..] == buf[i + 1 + buf[i]..];
      assert tail[1..1 + tail[0]] == buf[i + 1..i + 1 + buf[i]];
    }
  }

  lemma PrependSome(done: seq<seq<uint8>>, f: seq<uint8>, rest: Option<seq<seq<uint8>>>)
    ensures Prepend(done, Prepend([f], rest)) == Prepend(done + [f], rest)
  {
    if rest.Some? {
      assert done + ([f] + rest.value) == (done + [f]) + rest.value;
    }
  }

  /** The peer's framing: each frame preceded by one byte holding its length. */
  function JoinFrames(frames: seq<seq<uint8>>): seq<uint8>
    requires FitsSizeByte(frames)
  {
    if frames == [] then [] else [|frames[0]| as uint8] + frames[0] + JoinFrames(frames[1..])
  }

  lemma {:induction false} JoinFramesAppend(frames: seq<seq<uint8>>, f: seq<uint8>)
    requires FitsSizeByte(frames) && |f| < 0x100
    ensures FitsSizeByte(frames + [f])
    ensures JoinFrames(frames + [f]) == JoinFrames(frames) + [|f| as uint8] + f
  {
    if frames != [] {
      assert (frames + [f])[1..] == frames[1..] + [f];
      JoinFramesAppend(frames[1..], f);
    }
  }

  /** Splitting what the peer framed gives back the peer's frames. */
  lemma {:induction false} ParseJoin(frames: seq<seq<uint8>>)
    requires FitsSizeByte(frames)
    ensures ParseFrames(JoinFrames(frames)) == Some(frames)
  {
    if frames != [] {
      var buf := JoinFrames(frames);
      var f := frames[0];
      assert buf[1..1 + buf[0]] == f;
      assert buf[1 + buf[0]..] == JoinFrames(frames[1..]);
      ParseJoin(frames[1..]);
      assert ParseFrames(buf) == Some([f] + frames[1..]);
      assert [f] + frames[1..] == frames;
    }
  }

  /** Every buffer that splits cleanly is exactly the framing of its frames. */
  lemma {:induction false} JoinParse(buf: seq<uint8>)
    requires ParseFrames(buf).Some?
    ensures FitsSizeByte(ParseFrames(buf).value)
    ensures JoinFrames(ParseFrames(buf).value) == buf
  {
    if |buf| > 0 {
      var tail := buf[1 + buf[0]..];
      JoinParse(tail);
      var frames := ParseFrames(buf).value;
      assert frames[1..] == ParseFrames(tail).value;
      assert buf == [buf[0]] + buf[1..1 + buf[0]] + tail;
    }
  }

  // ----------------------------------------------------------- event fields

  /**
   * The station hash of a station-scoped frame: bytes 1..4 read big-endian,
   * or 0 (the "no station" sentinel) when the frame is shorter than 5 bytes.
   */
  function StationHashOf(p: seq<uint8>): uint32
  {
    if |p| < 5 then 0 else FromBE32(p[1], p[2], p[3], p[4])
  }

  /** A frame built as `[eventId] + BE32(hash) + rest` yields that hash back. */
  lemma StationHashRoundTrip(eventId: uint8, hash: uint32, rest: seq<uint8>)
    ensures StationHashOf([eventId] + BE32(hash) + rest) == hash
  {
    BE32RoundTrip(hash);
  }

  /** Draxboard input bitmask: bytes 5 and 6, big-endian. */
  function DraxInputMask(p: seq<uint8>): (m: uint16)
    requires |p| >= 7
    ensures BE16(m) == p[5..7]
  {
    FromBE16(p[5], p[6])
  }

  /** Draxboard output state: bytes 5 to 8, little-endian. */
  function DraxOutputState(p: seq<uint8>): (v: uint32)
    requires |p| >= 9
    ensures LE32(v) == p[5..9]
  {
    FromLE32(p[5], p[6], p[7], p[8])
  }

  /** Payload of the output bit enable / disable commands: the 16-bit mask, big-endian. */
  function OutputBitsPayload(outputs: uint16): (r: seq<uint8>)
    ensures |r| == 2 && FromBE16(r[0], r[1]) == outputs
  {
    BE16RoundTrip(outputs);
    BE16(outputs)
  }

  /** Payload of the hard-meter command: meter id, then the tick count big-endian. */
  function HardMeterPayload(meterId: uint8, ticks: uint16): (r: seq<uint8>)
    ensures |r| == 3 && r[0] == meterId && FromBE16(r[1], r[2]) == ticks
  {
    BE16RoundTrip(ticks);
    [meterId] + BE16(ticks)
  }

  /** A draxboard input frame as the peer builds it is read back to its hash and mask. */
  lemma DraxInputFrameRoundTrip(hash: uint32, mask: uint16)
    ensures var p := [DRAX_INPUT_EVENT] + BE32(hash) + BE16(mask);
      StationHashOf(p) == hash && DraxInputMask(p) == mask
  {
    var p := [DRAX_INPUT_EVENT] + BE32(hash) + BE16(mask);
    StationHashRoundTrip(DRAX_INPUT_EVENT, hash, BE16(mask));
    BE16RoundTrip(mask);
    assert p[5..7] == BE16(mask);
  }
}
