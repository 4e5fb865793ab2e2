/**
 * What the ENTTEC interface promises, stated over the functions of
 * EnttecSpec: the message it writes decodes under the widget API framing,
 * and a received-DMX message replaces the levels while anything else leaves
 * the interface alone.
 */
module EnttecProperties {
  import opened Wrappers
  import opened JavaBytes
  import opened DmxInterface
  import opened EnttecSpec

  /**
   * The send-DMX message decodes as label 6 carrying the start code and the
   * first `slots` levels, and is five bytes longer than that data.
   */
  lemma {:induction false} SendFrameDecodes(w: Widget)
    requires Valid(w) && w.slots + 1 <= ENTTEC_LEVELS
    ensures SendDmx(w).Ok?
    ensures |SendDmx(w).value| == w.slots + 6
    ensures DecodeMessage(SendDmx(w).value) == Some(ApiMessage(ENTTEC_LABEL_SEND_DMX, w.buffer[..w.slots + 1]))
  {
    var dlen := w.slots + 1;
    var f := SendFrame(w.buffer, dlen);
    SmallByte(ENTTEC_START_PACKET);
    SmallByte(ENTTEC_LABEL_SEND_DMX);
    SmallByte(ENTTEC_END_PACKET);
    SmallByte(dlen % 256);
    SmallByte(dlen / 256);
    assert Byte2Int(f[2]) + Byte2Int(f[3]) * 256 == dlen;
    assert f[4..4 + dlen] == w.buffer[..dlen];
  }

  /** Sending faults exactly when the slot count and start code no longer fit the 513-entry buffer. */
  lemma {:induction false} SendFaultsPastBuffer(w: Widget)
    requires Valid(w)
    ensures SendDmx(w).Fault? <==> w.slots > DMX_UNIVERSE_MAX
  {
  }

  /**
   * A label-5 message with good status sets the slot count to its length
   * less one and copies that many bytes from offset 4; the rest of the level
   * buffer is unchanged.
   */
  lemma {:induction false} ReceivedDmxCopies(w: Widget, size: int)
    requires Valid(w) && size > 1 && w.packet[0] as int == ENTTEC_LABEL_RECEIVED_DMX && w.packet[3] == 0
    requires MessageLength(w.packet) <= ENTTEC_LEVELS
    ensures var (m, r) := ParsePacket(w, size);
      var count := MessageLength(w.packet);
      && r == Ok(ENTTEC_LABEL_RECEIVED_DMX)
      && m.slots == count - 1
      && m.buffer[..count] == w.packet[4..4 + count]
      && m.buffer[count..] == w.buffer[count..]
      && m.packet == w.packet && m.connected == w.connected
  {
    var (m, r) := ParsePacket(w, size);
    var count := MessageLength(w.packet);
    assert m.buffer[..count] == w.packet[4..4 + count];
    assert m.buffer[count..] == w.buffer[count..];
  }

  /** Any other label, a bad status or a read of at most one byte changes nothing. */
  lemma {:induction false} OtherMessagesChangeNothing(w: Widget, size: int)
    requires Valid(w)
    requires !(size > 1 && w.packet[0] as int == ENTTEC_LABEL_RECEIVED_DMX && w.packet[3] == 0)
    ensures ParsePacket(w, size).0 == w
    ensures ParsePacket(w, size).1 == Ok(if size <= 1 then ENTTEC_LABEL_NONE else w.packet[0] as int)
  {
  }

  /**
   * readPacket answers true exactly when a connected widget's port starts a
   * message with the start delimiter, readBytesUntil delivers more than one
   * byte, the label is 5, and the copy does not run past the level buffer.
   */
  lemma {:induction false} ReadPacketTrueIffReceivedDmx(w: Widget, delim: Option<int>, avail: seq<int8>)
    requires Valid(w)
    ensures var (size, read) := ReadBytesUntilEnd(avail);
      var pb := read + w.packet[|read|..];
      ReadPacket(w, delim, avail).1 == Ok(true) <==>
        (&& w.connected && delim == Some(ENTTEC_START_PACKET) && size > 1
         && read[0] as int == ENTTEC_LABEL_RECEIVED_DMX
         && !(pb[3] == 0 && MessageLength(pb) > ENTTEC_LEVELS))
  {
  }

  /** Every read keeps the interface's invariant. */
  lemma {:induction false} ReadKeepsValid(w: Widget, delim: Option<int>, avail: seq<int8>)
    requires Valid(w)
    ensures Valid(ReadPacket(w, delim, avail).0)
  {
  }

  /**
   * readBytesUntil stops at the first end delimiter, wherever it stands in
   * the message: the bytes after it are never parsed, and a message longer
   * than the packet buffer is refused whole.
   */
  lemma {:induction false} ReadStopsAtFirstEnd(avail: seq<int8>, k: int)
    requires 0 <= k < |avail| && avail[k] == ENTTEC_END_BYTE
    requires forall j :: 0 <= j < k ==> avail[j] != ENTTEC_END_BYTE
    ensures ReadBytesUntilEnd(avail) == if k + 1 > ENTTEC_PACKET_BUFFER then (-1, []) else (k + 1, avail[..k + 1])
  {
    var n := DelimitedLength(avail);
    assert n != 0;
    assert avail[n - 1] == ENTTEC_END_BYTE;
  }

  /**
   * A received-DMX message as the widget frames it after the start
   * delimiter: label 5, a length counting the status byte and the levels
   * (low byte first), status 0, the start code and slots, the end delimiter.
   */
  function ReceivedFrame(levels: seq<int8>): seq<int8>
  {
    var len := |levels| + 1;
    [ToByte(ENTTEC_LABEL_RECEIVED_DMX), ToByte(len % 256), ToByte(len / 256), 0] + levels + [ENTTEC_END_BYTE]
  }

  /**
   * With no end delimiter among its levels or length bytes, readBytesUntil
   * delivers the whole frame, whose length field reads back.
   */
  lemma {:induction false} WholeFrameRead(w: Widget, levels: seq<int8>, rest: seq<int8>)
    requires Valid(w) && |levels| <= ENTTEC_LEVELS
    requires forall k :: 0 <= k < |levels| ==> levels[k] != ENTTEC_END_BYTE
    requires ToByte((|levels| + 1) % 256) != ENTTEC_END_BYTE
    ensures var f := ReceivedFrame(levels);
      && ReadBytesUntilEnd(f + rest) == (|f|, f)
      && MessageLength(f + w.packet[|f|..]) == |levels| + 1
  {
    var len := |levels| + 1;
    var f := ReceivedFrame(levels);
    SmallByte(len % 256);
    SmallByte(len / 256);
    assert ToByte(ENTTEC_LABEL_RECEIVED_DMX) != ENTTEC_END_BYTE;
    assert ToByte(len / 256) != ENTTEC_END_BYTE;
    forall j | 0 <= j < |f| - 1
      ensures (f + rest)[j] != ENTTEC_END_BYTE
    {
      if 4 <= j {
        assert (f + rest)[j] == levels[j - 4];
      }
    }
    ReadStopsAtFirstEnd(f + rest, |f| - 1);
    assert (f + rest)[..|f|] == f;
  }

  /**
   * A received-DMX message whose levels and length hold no end delimiter
   * leaves the start code and slots in the level buffer; the slot count
   * becomes the number of those bytes, start code included, and the entry
   * after them takes the end delimiter, because the copy counts the status
   * byte.
   */
  lemma {:induction false} ReceivedMessageLevels(w: Widget, levels: seq<int8>, rest: seq<int8>)
    requires Valid(w) && |levels| < ENTTEC_LEVELS
    requires forall k :: 0 <= k < |levels| ==> levels[k] != ENTTEC_END_BYTE
    requires ToByte((|levels| + 1) % 256) != ENTTEC_END_BYTE
    ensures var (m, r) := ReadSerialPacket(w, Some(ENTTEC_START_PACKET), ReceivedFrame(levels) + rest);
      && r == Ok(ENTTEC_LABEL_RECEIVED_DMX)
      && m.slots == |levels|
      && m.buffer[..|levels|] == levels
      && m.buffer[|levels|] == ENTTEC_END_BYTE
  {
    var f := ReceivedFrame(levels);
    WholeFrameRead(w, levels, rest);
    var (m, r) := ReadSerialPacket(w, Some(ENTTEC_START_PACKET), f + rest);
    assert m.buffer[..|levels|] == levels;
  }

  /**
   * As written, a full universe (start code and 512 slots) faults: the copy
   * counts the status byte, so 514 bytes go into the 513-entry level buffer.
   */
  lemma {:induction false} FullUniverseFaultsAsWritten(w: Widget, levels: seq<int8>, rest: seq<int8>)
    requires Valid(w) && |levels| == ENTTEC_LEVELS
    requires forall k :: 0 <= k < |levels| ==> levels[k] != ENTTEC_END_BYTE
    ensures ReadSerialPacket(w, Some(ENTTEC_START_PACKET), ReceivedFrame(levels) + rest).1 == Fault
  {
    WholeFrameRead(w, levels, rest);
  }

  /**
   * With the status byte left out of the copy, every received-DMX message up
   * to a full universe lands whole: the start code and slots fill the front
   * of the level buffer, the rest of it is untouched, and the slot count is
   * their number.
   */
  lemma {:induction false} IntendedReceiveLevels(w: Widget, levels: seq<int8>, rest: seq<int8>)
    requires Valid(w) && |levels| <= ENTTEC_LEVELS
    requires forall k :: 0 <= k < |levels| ==> levels[k] != ENTTEC_END_BYTE
    requires ToByte((|levels| + 1) % 256) != ENTTEC_END_BYTE
    ensures var (size, read) := ReadBytesUntilEnd(ReceivedFrame(levels) + rest);
      var (m, r) := ParsePacketIntended(w.(packet := read + w.packet[|read|..]), size);
      && r == Ok(ENTTEC_LABEL_RECEIVED_DMX)
      && m.slots == |levels|
      && m.buffer[..|levels|] == levels
      && m.buffer[|levels|..] == w.buffer[|levels|..]
  {
    var f := ReceivedFrame(levels);
    WholeFrameRead(w, levels, rest);
    var (m, r) := ParsePacketIntended(w.(packet := f + w.packet[|f|..]), |f|);
    assert m.buffer[..|levels|] == levels;
    assert m.buffer[|levels|..] == w.buffer[|levels|..];
  }
}
