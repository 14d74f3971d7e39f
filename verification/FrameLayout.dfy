/** The byte layout of one Bluetooth frame, as a pure printer and parser.

    Both `ProtocolConverter` (which fills and reads mutable buffers) and the send adapter
    (which needs to know which payloads can be framed at all) are specified by this module. */
module FrameLayout {
  import opened Options

  type Byte = n: int | 0 <= n < 0x100
  type Word = n: int | 0 <= n < 0x1_0000

  /** "MechanicData", the name every converter starts with. */
  const BT_PAYLOAD_MECH_SERVICE_NAME: seq<Byte> := [77, 101, 99, 104, 97, 110, 105, 99, 68, 97, 116, 97]

  const MAX_DATA_SIZE := 251
  const MAX_SERVICE_NAME_SIZE := 0xFF
  const BT_HEADER_LENGTH := 8
  const BT_SERVICE_HEADER_LENGTH := 4
  const BT_COMMAND_HEADER_LENGTH := 2
  const BT_PAYLOAD_DATA_FORMAT := 0x02
  const BT_PROTOCOL_TOTAL_FRAME: Byte := 1
  const CMD_TYPE_REQ := 0
  const CMD_TYPE_RSP := 1

  datatype OptType = PUT | GET | REPORT {
    function Code(): Byte {
      match this
      case PUT => 0
      case GET => 1
      case REPORT => 2
    }
  }

  /** What `GetData` hands back when it accepts a frame. */
  datatype Decoded = Decoded(payload: seq<Byte>, seqNo: Word, isAck: bool)

  /** The two bytes a little-endian machine stores for a 16-bit value. */
  function LittleEndian16(w: Word): (bytes: seq<Byte>)
    ensures |bytes| == 2 && Word16(bytes) == w
  {
    [w % 0x100, w / 0x100]
  }

  function Word16(bytes: seq<Byte>): Word
    requires |bytes| == 2
  {
    var low: int, high: int := bytes[0], bytes[1];
    low + 0x100 * high
  }

  /** The low byte comes first, written and read. */
  lemma LowByteFirst(w: Word, bytes: seq<Byte>)
    requires |bytes| == 2
    ensures LittleEndian16(w) == [w % 256, w / 256]
    ensures Word16(bytes) == w <==> bytes[0] == w % 256 && bytes[1] == w / 256
  {
    var low: int, high: int := bytes[0], bytes[1];
    assert Word16(bytes) == low + 256 * high;
  }

  /** Offset of the sequence number in a frame whose service name has `nameLength` bytes. */
  function SeqNoOffset(nameLength: nat): nat {
    BT_HEADER_LENGTH + BT_SERVICE_HEADER_LENGTH + nameLength
  }

  function FrameLength(nameLength: nat, payloadLength: nat): nat {
    SeqNoOffset(nameLength) + BT_COMMAND_HEADER_LENGTH + payloadLength
  }

  /** Exactly the name and payload lengths for which a frame comes out. An empty payload is not among
      them: the copy that appends it has no room left in the exactly sized frame and fails. */
  predicate FrameFits(nameLength: nat, payloadLength: nat) {
    && nameLength <= MAX_SERVICE_NAME_SIZE
    && FrameLength(nameLength, payloadLength) <= MAX_DATA_SIZE
    && payloadLength > 0
  }

  function Header(): seq<Byte> {
    [CMD_TYPE_REQ, 0, BT_PROTOCOL_TOTAL_FRAME, 0, 0, 0] + LittleEndian16(0)
  }

  function Frame(optType: OptType, seqNo: Word, name: seq<Byte>, payload: seq<Byte>): (frame: seq<Byte>)
    requires FrameFits(|name|, |payload|)
    ensures |frame| == FrameLength(|name|, |payload|)
  {
    Header()
    + [0x10 * BT_PAYLOAD_DATA_FORMAT + optType.Code(), |name|] + name
    + LittleEndian16(|payload| + BT_COMMAND_HEADER_LENGTH)
    + LittleEndian16(seqNo) + payload
  }

  /** A 16-bit read at `offset` of a range that starts `base` bytes into its storage. The bound is the
      one the buffer checks: it adds `base` on the left only. */
  function Read16(bytes: seq<Byte>, base: nat, offset: nat): Option<Word> {
    if base + offset + 2 > |bytes| then None else Some(Word16(bytes[offset..offset + 2]))
  }

  /** The parser: a reader that knows its own service name's length, not the frame's. */
  function Parse(bytes: seq<Byte>, base: nat, nameLength: nat): Option<Decoded> {
    if base + 1 > |bytes| then None
    else
      var seqNo := Read16(bytes, base, SeqNoOffset(nameLength));
      var bodyLength := Read16(bytes, base, SeqNoOffset(nameLength) - 2);
      if seqNo.None? || bodyLength.None? then None
      else if bodyLength.value > |bytes| - SeqNoOffset(nameLength) then None
      else if bodyLength.value <= BT_COMMAND_HEADER_LENGTH then None
      else
        var start := SeqNoOffset(nameLength) + BT_COMMAND_HEADER_LENGTH;
        var end := SeqNoOffset(nameLength) + bodyLength.value;
        Some(Decoded(bytes[start..end], seqNo.value, bytes[0] % 0x10 == CMD_TYPE_RSP))
  }

  /** The frame, byte by byte. */
  ghost predicate HasLayout(frame: seq<Byte>, optType: OptType, seqNo: Word, name: seq<Byte>, payload: seq<Byte>) {
    var n := |name|;
    && |frame| == 14 + n + |payload|
    && frame[..8] == [0, 0, 1, 0, 0, 0, 0, 0]
    && (optType == PUT ==> frame[8] == 0x20)
    && (optType == GET ==> frame[8] == 0x21)
    && (optType == REPORT ==> frame[8] == 0x22)
    && frame[9] == n && frame[10..10 + n] == name
    && frame[10 + n] == (|payload| + 2) % 256 && frame[11 + n] == (|payload| + 2) / 256
    && frame[12 + n] == seqNo % 256 && frame[13 + n] == seqNo / 256
    && frame[14 + n..] == payload
  }

  lemma FrameHasLayout(optType: OptType, seqNo: Word, name: seq<Byte>, payload: seq<Byte>)
    requires FrameFits(|name|, |payload|)
    ensures HasLayout(Frame(optType, seqNo, name, payload), optType, seqNo, name, payload)
  {
    var frame := Frame(optType, seqNo, name, payload);
    var service := [0x10 * BT_PAYLOAD_DATA_FORMAT + optType.Code(), |name|];
    var numbers := LittleEndian16(|payload| + BT_COMMAND_HEADER_LENGTH) + LittleEndian16(seqNo);
    assert frame == Header() + service + name + numbers + payload;
    assert frame[8..10] == service;
    assert frame[10 + |name|..14 + |name|] == numbers;
  }

  /** Printing then parsing with the same service name gives back payload and sequence number, and the
      frame is never mistaken for an acknowledgement. */
  lemma RoundTrip(optType: OptType, seqNo: Word, name: seq<Byte>, payload: seq<Byte>)
    requires FrameFits(|name|, |payload|)
    ensures Parse(Frame(optType, seqNo, name, payload), 0, |name|) == Some(Decoded(payload, seqNo, false))
  {
    var frame := Frame(optType, seqNo, name, payload);
    var at := SeqNoOffset(|name|);
    assert |frame| == at + 2 + |payload| && frame[0] == CMD_TYPE_REQ;
    assert frame[at - 2..at] == LittleEndian16(|payload| + BT_COMMAND_HEADER_LENGTH);
    assert frame[at..at + 2] == LittleEndian16(seqNo);
    assert frame[at + 2..at + 2 + |payload|] == payload;
  }

  /** Two requests with the same frame under one service name are the same request: nothing the device
      is told gets lost in framing. */
  lemma FrameIsInjective(o1: OptType, s1: Word, p1: seq<Byte>, o2: OptType, s2: Word, p2: seq<Byte>, name: seq<Byte>)
    requires FrameFits(|name|, |p1|) && FrameFits(|name|, |p2|)
    requires Frame(o1, s1, name, p1) == Frame(o2, s2, name, p2)
    ensures o1 == o2 && s1 == s2 && p1 == p2
  {
    RoundTrip(o1, s1, name, p1);
    RoundTrip(o2, s2, name, p2);
    assert Frame(o1, s1, name, p1)[8] == 0x20 + o1.Code();
    assert Frame(o2, s2, name, p2)[8] == 0x20 + o2.Code();
  }

  /** The length field of a frame, when the frame is long enough to have one. */
  function BodyLength(bytes: seq<Byte>, nameLength: nat): int
    requires |bytes| >= 12 + nameLength
  {
    var low: int, high: int := bytes[10 + nameLength], bytes[11 + nameLength];
    low + 256 * high
  }

  /** For every received byte string: exactly when it is accepted, and exactly which slice comes out. */
  lemma AcceptedSlice(bytes: seq<Byte>, base: nat, nameLength: nat)
    ensures Parse(bytes, base, nameLength).Some? <==>
              && |bytes| >= base + 14 + nameLength
              && 3 <= BodyLength(bytes, nameLength) <= |bytes| - (12 + nameLength)
    ensures Parse(bytes, base, nameLength).Some? ==>
              var body := BodyLength(bytes, nameLength);
              var decoded := Parse(bytes, base, nameLength).value;
              && 14 + nameLength < 12 + nameLength + body <= |bytes|
              && decoded.payload == bytes[14 + nameLength..12 + nameLength + body]
              && bytes[12 + nameLength] == decoded.seqNo % 256 && bytes[13 + nameLength] == decoded.seqNo / 256
              && (decoded.isAck <==> bytes[0] % 16 == 1)
  {
    var at := SeqNoOffset(nameLength);
    if |bytes| >= base + at + 2 {
      assert Read16(bytes, base, at) == Some(Word16(bytes[at..at + 2]));
      assert Read16(bytes, base, at - 2) == Some(Word16(bytes[at - 2..at]));
    }
  }
}
