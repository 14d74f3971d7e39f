/** Printing a command into a frame buffer and reading one back out of a received buffer. */
module Protocol {
  import opened Options
  import opened FrameLayout
  import opened DataBuffer

  function ServiceHeader(optType: OptType, name: seq<Byte>): seq<Byte>
    requires |name| <= MAX_SERVICE_NAME_SIZE
  {
    [0x10 * BT_PAYLOAD_DATA_FORMAT + optType.Code(), |name|] + name
  }

  function Body(seqNo: Word, payload: seq<Byte>): seq<Byte>
    requires |payload| + BT_COMMAND_HEADER_LENGTH < 0x1_0000
  {
    LittleEndian16(|payload| + BT_COMMAND_HEADER_LENGTH) + LittleEndian16(seqNo) + payload
  }

  lemma FrameInParts(optType: OptType, seqNo: Word, name: seq<Byte>, payload: seq<Byte>)
    requires FrameFits(|name|, |payload|)
    ensures Frame(optType, seqNo, name, payload) == Header() + ServiceHeader(optType, name) + Body(seqNo, payload)
  {
  }

  lemma HeaderInParts(before: seq<Byte>)
    ensures before + Header() ==
            before + [CMD_TYPE_REQ, 0, BT_PROTOCOL_TOTAL_FRAME] + ([0, 0, 0] + LittleEndian16(0))
  {
    assert [CMD_TYPE_REQ, 0, BT_PROTOCOL_TOTAL_FRAME, 0, 0, 0] ==
           [CMD_TYPE_REQ, 0, BT_PROTOCOL_TOTAL_FRAME] + [0, 0, 0];
    Associates([CMD_TYPE_REQ, 0, BT_PROTOCOL_TOTAL_FRAME], [0, 0, 0], LittleEndian16(0));
    Associates(before, [CMD_TYPE_REQ, 0, BT_PROTOCOL_TOTAL_FRAME], [0, 0, 0] + LittleEndian16(0));
  }

  lemma Associates(a: seq<Byte>, b: seq<Byte>, c: seq<Byte>)
    ensures (a + b) + c == a + (b + c)
  {
  }

  class ProtocolConverter {
    var serviceName: seq<Byte>

    constructor ()
      ensures serviceName == BT_PAYLOAD_MECH_SERVICE_NAME
    {
      serviceName := BT_PAYLOAD_MECH_SERVICE_NAME;
    }

    /** The frame buffer for a payload, or null exactly when the payload cannot be framed. */
    method Convert(optType: OptType, seqNo: Word, data: MechDataBuffer?) returns (frame: MechDataBuffer?)
      requires data != null ==> data.Valid()
      ensures frame != null <==> data != null && FrameFits(|serviceName|, |data.Contents()|)
      ensures frame != null <==> data != null && 0 < |data.Contents()| && |serviceName| + |data.Contents()| <= 237
      ensures frame != null ==> fresh(frame) && fresh(frame.storage) && frame.Valid() && frame.rangeOffset == 0
      ensures frame != null ==> frame.Contents() == Frame(optType, seqNo, serviceName, data.Contents())
      ensures frame != null ==> HasLayout(frame.Contents(), optType, seqNo, serviceName, data.Contents())
    {
      if data == null || |serviceName| > MAX_SERVICE_NAME_SIZE {
        return null;
      }
      var size := FrameLength(|serviceName|, data.rangeLength);
      if size > MAX_DATA_SIZE {
        return null;
      }
      var pcl := new MechDataBuffer(size);
      var ok := AppendHeader(pcl);
      ok := AppendServiceHeader(pcl, optType);
      ok := AppendBody(pcl, seqNo, data);
      if !ok {
        return null;
      }
      assert [] + Header() == Header();
      FrameInParts(optType, seqNo, serviceName, data.Contents());
      FrameHasLayout(optType, seqNo, serviceName, data.Contents());
      frame := pcl;
    }

    method AppendHeader(pcl: MechDataBuffer) returns (ok: bool)
      requires pcl.Valid() && pcl.Room() >= BT_HEADER_LENGTH
      modifies pcl`rangeLength, pcl.storage
      ensures pcl.Valid() && pcl.Contents() == old(pcl.Contents()) + Header() && ok
    {
      ghost var before := pcl.Contents();
      ok := pcl.AppendUint8(CMD_TYPE_REQ);
      ok := pcl.AppendUint8(0);
      ok := pcl.AppendUint8(BT_PROTOCOL_TOTAL_FRAME);
      assert pcl.Contents() == before + [CMD_TYPE_REQ, 0, BT_PROTOCOL_TOTAL_FRAME];
      ok := AppendHeaderEnd(pcl);
      HeaderInParts(before);
    }

    /** The fields of the header a request leaves at zero. */
    method AppendHeaderEnd(pcl: MechDataBuffer) returns (ok: bool)
      requires pcl.Valid() && pcl.Room() >= 5
      modifies pcl`rangeLength, pcl.storage
      ensures pcl.Valid() && pcl.Contents() == old(pcl.Contents()) + ([0, 0, 0] + LittleEndian16(0)) && ok
    {
      ghost var before := pcl.Contents();
      ok := pcl.AppendUint8(0);
      ok := pcl.AppendUint8(0);
      ok := pcl.AppendUint8(0);
      assert pcl.Contents() == before + [0, 0, 0];
      ok := pcl.AppendUint16(0);
      Associates(before, [0, 0, 0], LittleEndian16(0));
    }

    method AppendServiceHeader(pcl: MechDataBuffer, optType: OptType) returns (ok: bool)
      requires pcl.Valid() && |serviceName| <= MAX_SERVICE_NAME_SIZE && pcl.Room() >= 2 + |serviceName|
      requires {pcl, pcl.storage} !! {this}
      modifies pcl`rangeLength, pcl.storage
      ensures pcl.Valid() && ok
      ensures pcl.Contents() == old(pcl.Contents()) + ServiceHeader(optType, serviceName)
    {
      ghost var before := pcl.Contents();
      ok := pcl.AppendUint8(0x10 * BT_PAYLOAD_DATA_FORMAT + optType.Code());
      ok := pcl.AppendUint8(|serviceName|);
      assert pcl.Contents() == before + [0x10 * BT_PAYLOAD_DATA_FORMAT + optType.Code(), |serviceName|];
      ok := AppendServiceName(pcl);
      Associates(before, [0x10 * BT_PAYLOAD_DATA_FORMAT + optType.Code(), |serviceName|], serviceName);
    }

    method AppendServiceName(pcl: MechDataBuffer) returns (ok: bool)
      requires pcl.Valid() && pcl.Room() >= |serviceName| && {pcl, pcl.storage} !! {this}
      modifies pcl`rangeLength, pcl.storage
      ensures pcl.Valid() && ok
      ensures pcl.Contents() == old(pcl.Contents()) + serviceName
    {
      ghost var before := pcl.Contents();
      ok := true;
      var i := 0;
      while i < |serviceName|
        invariant 0 <= i <= |serviceName| && ok
        invariant pcl.Valid() && pcl.Room() >= |serviceName| - i
        invariant pcl.Contents() == before + serviceName[..i]
      {
        ok := pcl.AppendUint8(serviceName[i]);
        Associates(before, serviceName[..i], [serviceName[i]]);
        assert serviceName[..i] + [serviceName[i]] == serviceName[..i + 1];
        i := i + 1;
      }
      assert serviceName[..i] == serviceName;
    }

    method AppendBody(pcl: MechDataBuffer, seqNo: Word, data: MechDataBuffer) returns (ok: bool)
      requires pcl.Valid() && data.Valid() && data != pcl && data.storage != pcl.storage
      requires data.rangeLength + BT_COMMAND_HEADER_LENGTH < 0x1_0000
      requires pcl.Room() == 2 + BT_COMMAND_HEADER_LENGTH + data.rangeLength
      modifies pcl`rangeLength, pcl.storage
      ensures pcl.Valid() && (ok <==> data.rangeLength > 0)
      ensures ok ==> pcl.Contents() == old(pcl.Contents()) + Body(seqNo, data.Contents())
    {
      ghost var before := pcl.Contents();
      var size := data.rangeLength + BT_COMMAND_HEADER_LENGTH;
      ok := pcl.AppendUint16(size);
      ok := pcl.AppendUint16(seqNo);
      Associates(before, LittleEndian16(size), LittleEndian16(seqNo));
      ok := pcl.AppendDataBuffer(data);
      Associates(before, LittleEndian16(size) + LittleEndian16(seqNo), data.Contents());
    }

    /** The overload that changes the converter's service name for good. */
    method ConvertFor(optType: OptType, seqNo: Word, data: MechDataBuffer?, name: seq<Byte>)
      returns (frame: MechDataBuffer?)
      requires data != null ==> data.Valid() && data as object != this
      modifies this`serviceName
      ensures serviceName == name
      ensures frame != null <==> data != null && FrameFits(|name|, |data.Contents()|)
      ensures frame != null ==> fresh(frame) && fresh(frame.storage) && frame.Valid() && frame.rangeOffset == 0
      ensures frame != null ==> frame.Contents() == Frame(optType, seqNo, name, data.Contents())
      ensures frame != null ==> HasLayout(frame.Contents(), optType, seqNo, name, data.Contents())
    {
      serviceName := name;
      frame := Convert(optType, seqNo, data);
    }

    /** The payload of a received frame in a buffer of its own, with the sequence number and the
        acknowledgement flag; null for a frame that does not parse. */
    method GetData(pclData: MechDataBuffer?) returns (data: MechDataBuffer?, seqNo: Word, isAck: bool)
      requires pclData != null ==> pclData.Valid() && |serviceName| < SIZE_COUNT / 2
      ensures data != null <==>
                pclData != null && Parse(pclData.Contents(), pclData.rangeOffset, |serviceName|).Some?
      ensures data != null ==> fresh(data) && fresh(data.storage) && data.Valid()
      ensures data != null ==>
                Parse(pclData.Contents(), pclData.rangeOffset, |serviceName|).value ==
                Decoded(data.Contents(), seqNo, isAck)
    {
      seqNo, isAck := 0, false;
      if pclData == null {
        return null, seqNo, isAck;
      }
      var versionAndType := pclData.ReadUint8(0);
      if !versionAndType.Value? {
        return null, seqNo, isAck;
      }
      isAck := versionAndType.value % 0x10 == CMD_TYPE_RSP;
      var seqNoOffset := SeqNoOffset(|serviceName|);
      var readSeqNo := pclData.ReadUint16(seqNoOffset);
      if !readSeqNo.Value? {
        return null, seqNo, isAck;
      }
      seqNo := readSeqNo.value;
      var readLength := pclData.ReadUint16(seqNoOffset - 2);
      if !readLength.Value? || readLength.value > pclData.rangeLength - seqNoOffset {
        return null, seqNo, isAck;
      }
      // A body length below 2 wraps to a size no buffer is allocated for; a length of 2 leaves no
      // storage to copy into. The checked copy rejects both.
      if readLength.value <= BT_COMMAND_HEADER_LENGTH {
        return null, seqNo, isAck;
      }
      var count := readLength.value - BT_COMMAND_HEADER_LENGTH;
      data := CopyOut(pclData, seqNoOffset + BT_COMMAND_HEADER_LENGTH, count);
    }

    /** A new buffer holding `count` bytes of the range, sized to fit. */
    method CopyOut(pclData: MechDataBuffer, offset: nat, count: nat) returns (data: MechDataBuffer)
      requires pclData.Valid() && offset + count <= pclData.rangeLength && 0 < count < MECH_MAX_BUFFER_SIZE
      ensures fresh(data) && fresh(data.storage) && data.Valid()
      ensures data.Contents() == pclData.Contents()[offset..offset + count]
    {
      data := new MechDataBuffer(count);
      var ok := data.SetRange(0, count);
      var start := pclData.rangeOffset + offset;
      forall i | 0 <= i < count {
        data.storage[i] := pclData.storage[start + i];
      }
      SliceOfSlice(pclData.storage[..], pclData.rangeOffset, pclData.rangeOffset + pclData.rangeLength,
                   offset, offset + count);
      assert data.Contents() == pclData.storage[..][start..start + count];
    }

    /** Whether a received byte string, if there is one, has an acceptable length. */
    predicate Validate(bytes: Option<seq<Byte>>) {
      bytes.Some? && 0 < |bytes.value| <= MAX_DATA_SIZE
    }
  }

  /** The Bluetooth listener: a validated byte string is copied into a buffer and parsed with the
      default service name. */
  method OnReceive(bytes: Option<seq<Byte>>) returns (decoded: Option<Decoded>)
    ensures decoded == if bytes.Some? && 0 < |bytes.value| <= 251
                       then Parse(bytes.value, 0, |BT_PAYLOAD_MECH_SERVICE_NAME|) else None
  {
    var converter := new ProtocolConverter();
    if !converter.Validate(bytes) {
      return None;
    }
    var buffer := new MechDataBuffer(|bytes.value|);
    var ok := buffer.SetRange(0, |bytes.value|);
    forall i | 0 <= i < |bytes.value| {
      buffer.storage[i] := bytes.value[i];
    }
    assert buffer.Contents() == bytes.value;
    var data, seqNo, isAck := converter.GetData(buffer);
    if data == null {
      return None;
    }
    decoded := Some(Decoded(data.storage[data.rangeOffset..data.rangeOffset + data.rangeLength], seqNo, isAck));
  }

  /** What one converter prints, any converter of the same service name reads back. */
  method SendThenReceive(converter: ProtocolConverter, optType: OptType, seqNo: Word, data: MechDataBuffer)
    returns (received: MechDataBuffer?, receivedSeqNo: Word, isAck: bool)
    requires data.Valid()
    ensures received != null <==> 0 < |data.Contents()| && |converter.serviceName| + |data.Contents()| <= 237
    ensures received != null ==> received.Valid() && received.Contents() == data.Contents()
    ensures received != null ==> receivedSeqNo == seqNo && !isAck
  {
    var frame := converter.Convert(optType, seqNo, data);
    if frame == null {
      return null, 0, false;
    }
    RoundTrip(optType, seqNo, converter.serviceName, data.Contents());
    received, receivedSeqNo, isAck := converter.GetData(frame);
  }
}
