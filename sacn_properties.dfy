/**
 * What the E1.31 node promises, stated over the functions of SacnSpec: the
 * flags-and-length field, which packets are dropped, how sources are bound
 * by CID, and that a packet the node sends is read back as sent.
 */
module SacnProperties {
  import opened Wrappers
  import opened JavaBytes
  import opened DmxInterface
  import opened SacnSpec

  /** The two bytes sendDMX writes for a PDU length below 0x1000, read unsigned. */
  lemma {:induction false} FlagsAndLengthBytes(len: int)
    requires 0 <= len < 0x1000
    ensures Byte2Int(FlagsAndLength(len).0) == 0x70 + len / 256
    ensures Byte2Int(FlagsAndLength(len).1) == len % 256
  {
    assert (len + 0x7000) / 256 == 0x70 + len / 256;
    assert (len + 0x7000) % 256 == len % 256;
    SmallByte(0x70 + len / 256);
    SmallByte(len % 256);
  }

  /**
   * A field written for a non-zero length reads back as that length, and the
   * check accepts it exactly when the remaining size covers it.
   */
  lemma {:induction false} FlagsAndLengthReadsBack(pb: seq<int8>, i: int, len: int, size: int)
    requires 0 <= i && i + 1 < |pb| && 0 < len < 0x1000
    requires pb[i] == FlagsAndLength(len).0 && pb[i + 1] == FlagsAndLength(len).1
    ensures PduLength(pb, i) == len
    ensures CheckFlagsAndLength(pb, i, size) <==> size >= len
  {
    FlagsAndLengthBytes(len);
    Nibbles(7, len / 256);
  }

  /** Conversely, every field the check accepts is the one sendDMX writes for its length. */
  lemma {:induction false} CheckedFieldIsWritten(pb: seq<int8>, i: int, size: int)
    requires 0 <= i && i + 1 < |pb| && CheckFlagsAndLength(pb, i, size)
    ensures 0 < PduLength(pb, i) <= size
    ensures (pb[i], pb[i + 1]) == FlagsAndLength(PduLength(pb, i))
  {
    var len := PduLength(pb, i);
    FlagsAndLengthBytes(len);
    var h := Byte2Int(pb[i]);
    assert h == 0x70 + len / 256;
    ByteRoundTrip(pb[i], 0);
    ByteRoundTrip(pb[i + 1], 0);
    ByteRoundTrip(FlagsAndLength(len).0, 0);
    ByteRoundTrip(FlagsAndLength(len).1, 0);
  }

  /** Every datagram keeps the node's invariant: a bound second source sits beside a different bound first one. */
  lemma {:induction false} ProcessKeepsValid(n: Node, length: int)
    requires Valid(n)
    ensures Valid(ProcessDatagram(n, length).0)
  {
  }

  /**
   * The stored universe is a signed byte compared against the unsigned byte
   * at 114, so a universe set above 127 never matches and every packet is
   * dropped unchanged.
   */
  lemma {:induction false} UniverseAbove127NeverMatches(n: Node, length: int)
    requires Valid(n) && Byte2Int(n.universe) > 127
    ensures ProcessDatagram(n, length) == (n, Ok(false))
  {
  }

  /** With both sources bound to other CIDs, a packet from a third CID changes nothing. */
  lemma {:induction false} ThirdCidIgnored(n: Node, size: int, priority: int8)
    requires Valid(n) && !IsEmptyCid(n.source1) && !IsEmptyCid(n.source2)
    requires n.source1 != PacketCid(n.packet) && n.source2 != PacketCid(n.packet)
    ensures ParseDmp(n, size, priority) == (n, Ok(false))
  {
  }

  /**
   * A packet the DMP layer accepts came from one of the two bound sources:
   * afterwards its CID is the first or the second source, that source's
   * priority is the packet's, and the other source's buffer is untouched.
   */
  lemma {:induction false} AcceptedPacketBindsItsCid(n: Node, size: int, priority: int8)
    requires Valid(n)
    ensures var (m, r) := ParseDmp(n, size, priority);
      r != Ok(false) ==>
        (|| (m.source1 == PacketCid(n.packet) && m.priority1 == priority && m.buffer2 == n.buffer2)
         || (m.source2 == PacketCid(n.packet) && m.priority2 == priority && m.buffer1 == n.buffer1
             && m.source1 == n.source1 && n.source1 != PacketCid(n.packet)))
  {
  }

  /** The ACN identifier is plain ASCII, so its bytes read back as the identifier. */
  lemma {:induction false} AcnIdReadsBack()
    ensures Latin1(AsciiBytes(ACN_ID)) == ACN_ID
  {
    forall i | 0 <= i < |ACN_ID|
      ensures ACN_ID[i] as int < TWO_8
    {
      assert ACN_ID == ['A', 'S', 'C', '-', 'E', '1', '.', '1', '7'];
    }
    Latin1AsciiRoundTrip(ACN_ID);
  }

  /** The header bytes of a sent packet, as a receiver finds them in its packet buffer. */
  lemma {:induction false} ReceivedHeader(tx: Node, to: InetAddress, old_packet: seq<int8>)
    requires Valid(tx) && tx.slots <= SACN_LEVELS && |old_packet| == SACN_BUFFER_MAX
    ensures var sent := SendDmx(tx, to);
      sent.1.Ok? &&
      var pb := Received(old_packet, sent.1.value.data);
      && |sent.1.value.data| == DMP_DATA_OFFSET + tx.slots
      && (forall k :: 0 <= k < DMP_DATA_OFFSET ==>
           pb[k] == HeaderByte(tx.myCid, tx.slots, tx.priority1, tx.universe, sent.0.sequence, k))
      && (forall j :: 0 <= j < tx.slots ==> pb[DMP_DATA_OFFSET + j] == tx.buffer1[j])
  {
    var sent := SendDmx(tx, to);
    var data := sent.1.value.data;
    var packet := sent.0.packet;
    assert data == packet[..DMP_DATA_OFFSET + tx.slots];
    var pb := Received(old_packet, data);
    forall k | 0 <= k < DMP_DATA_OFFSET
      ensures pb[k] == HeaderByte(tx.myCid, tx.slots, tx.priority1, tx.universe, sent.0.sequence, k)
    {
      assert pb[k] == data[k] == packet[k];
    }
    forall j | 0 <= j < tx.slots
      ensures pb[DMP_DATA_OFFSET + j] == tx.buffer1[j]
    {
      assert pb[DMP_DATA_OFFSET + j] == data[DMP_DATA_OFFSET + j] == packet[DMP_DATA_OFFSET + j];
    }
  }

  /** The checks of the three layers all pass on a sent packet's header. */
  lemma {:induction false} SentHeaderPassesChecks(tx: Node, pb: seq<int8>, sq: int8)
    requires Valid(tx) && tx.slots <= SACN_LEVELS && |pb| == SACN_BUFFER_MAX
    requires forall k :: 0 <= k < DMP_DATA_OFFSET ==>
      pb[k] == HeaderByte(tx.myCid, tx.slots, tx.priority1, tx.universe, sq, k)
    ensures Byte2Int(pb[1]) == 0x10 && Latin1(pb[4..13]) == ACN_ID && Byte2Int(pb[21]) == 0x04
    ensures CheckFlagsAndLength(pb, 16, tx.slots + 109)
    ensures CheckFlagsAndLength(pb, 38, tx.slots + 87) && Byte2Int(pb[43]) == 0x02
    ensures CheckFlagsAndLength(pb, 115, tx.slots + 10)
    ensures Byte2Int(pb[117]) == 0x02 && Byte2Int(pb[118]) == 0xa1
    ensures DmpSlots(pb) == tx.slots && PacketCid(pb) == tx.myCid
    ensures pb[114] == tx.universe && pb[108] == tx.priority1
  {
    assert pb[4..13] == AsciiBytes(ACN_ID);
    AcnIdReadsBack();
    FlagsAndLengthReadsBack(pb, 16, tx.slots + 109, tx.slots + 109);
    FlagsAndLengthReadsBack(pb, 38, tx.slots + 87, tx.slots + 87);
    FlagsAndLengthReadsBack(pb, 115, tx.slots + 10, tx.slots + 10);
    SmallByte(0xa1);
    SmallByte(tx.slots / 256);
    SmallByte(tx.slots % 256);
    assert PacketCid(pb) == tx.myCid;
  }

  /**
   * Send then receive: a node on the same universe (one of 0..127) whose
   * first source is free or is the sender's CID accepts the packet as its
   * first source at the sender's priority, and its first buffer holds the
   * sent start code and levels followed by zeros up to its slot count.
   */
  lemma {:induction false} SendReceiveRoundTrip(tx: Node, to: InetAddress, rx: Node)
    requires Valid(tx) && Valid(rx) && tx.slots <= SACN_LEVELS && rx.slots <= SACN_LEVELS
    requires 0 <= tx.universe && rx.universe == tx.universe
    requires IsEmptyCid(rx.source1) || rx.source1 == tx.myCid
    ensures var sent := SendDmx(tx, to);
      sent.1.Ok? &&
      var d := sent.1.value.data;
      var (m, r) := ProcessDatagram(rx.(packet := Received(rx.packet, d)), |d|);
      && r == Ok(true)
      && m.source1 == tx.myCid && m.priority1 == tx.priority1
      && m.slots == (if tx.slots > rx.slots then tx.slots else rx.slots)
      && m.buffer1[..tx.slots] == tx.buffer1[..tx.slots]
      && (forall j :: tx.slots <= j < m.slots ==> m.buffer1[j] == 0)
  {
    var sent := SendDmx(tx, to);
    ReceivedHeader(tx, to, rx.packet);
    var d := sent.1.value.data;
    var pb := Received(rx.packet, d);
    SentHeaderPassesChecks(tx, pb, sent.0.sequence);
    var n := rx.(packet := pb);
    var size := |d|;
    assert ParseRoot(n, size) == ParseFraming(n, size - 16);
    assert ParseFraming(n, size - 16) == ParseDmp(n, size - 38, tx.priority1);
    assert Bound(n.source1, tx.myCid) == tx.myCid;
    var (m, r) := ProcessDatagram(n, size);
    assert (m, r) == TakeLevels(n.(source1 := tx.myCid), true, tx.slots, tx.priority1);
    LevelsCopied(rx.buffer1, pb, tx.buffer1, tx.slots, m.slots);
  }

  /** The levels of a received packet land at the front of the source buffer, zeros after them up to the slot count. */
  lemma {:induction false} LevelsCopied(buf: seq<int8>, pb: seq<int8>, levels: seq<int8>, count: int, slots: int)
    requires |buf| == SACN_LEVELS && |pb| == SACN_BUFFER_MAX && 0 <= count <= slots <= SACN_LEVELS && count <= |levels|
    requires forall j :: 0 <= j < count ==> pb[DMP_DATA_OFFSET + j] == levels[j]
    ensures CopiedLevels(buf, pb, count, slots)[..count] == levels[..count]
    ensures forall j :: count <= j < slots ==> CopiedLevels(buf, pb, count, slots)[j] == 0
  {
    var c := CopiedLevels(buf, pb, count, slots);
    assert forall j :: 0 <= j < count ==> c[j] == levels[j];
  }
}
