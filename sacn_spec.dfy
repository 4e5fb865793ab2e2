/**
 * LXSACN, the pure half: the receiver/sender state of an E1.31 (streaming
 * ACN) node as a value, the root, framing and DMP layer checks of ANSI
 * E1.31-2016 sections 5 to 7 as the node applies them, the CID binding of up
 * to two sources, and the packet the node sends.
 */
module SacnSpec {
  import opened Wrappers
  import opened JavaBytes
  import opened DmxInterface

  const SACN_PORT: int := 0x15C0
  const SACN_BUFFER_MAX: int := 638
  const SACN_CID_LENGTH: int := 16
  /** Level buffers hold the start code at index 0 and 512 slots after it. */
  const SACN_LEVELS: int := 513
  /** Offset of the start code in a DMP layer. */
  const DMP_DATA_OFFSET: int := 125
  /** Offset of the sender's CID in the root layer. */
  const CID_OFFSET: int := 22
  /** The ACN packet identifier at offset 4. */
  const ACN_ID: string := "ASC-E1.17"
  /** Source name written at offset 44 of the framing layer. */
  const SOURCE_NAME: string := "LXSACN"

  /** The fields of an LXSACN object that the protocol logic reads or writes. */
  datatype Node = Node(
    packet: seq<int8>,
    buffer1: seq<int8>,
    buffer2: seq<int8>,
    slots: int,
    universe: int8,
    sequence: int8,
    source1: seq<int8>,
    source2: seq<int8>,
    priority1: int8,
    priority2: int8,
    myCid: seq<int8>,
    multicast: Option<InetAddress>)

  /** A CID that is all zeros: no source bound. */
  predicate IsEmptyCid(cid: seq<int8>)
  {
    forall i :: 0 <= i < |cid| ==> cid[i] == 0
  }

  /**
   * Fixed buffer sizes, a non-negative slot count, and a second source bound
   * only beside a different first source.
   */
  predicate Valid(n: Node)
  {
    && |n.packet| == SACN_BUFFER_MAX
    && |n.buffer1| == SACN_LEVELS && |n.buffer2| == SACN_LEVELS
    && |n.source1| == SACN_CID_LENGTH && |n.source2| == SACN_CID_LENGTH && |n.myCid| == SACN_CID_LENGTH
    && n.slots >= 0
    && (!IsEmptyCid(n.source2) ==> !IsEmptyCid(n.source1) && n.source1 != n.source2)
  }

  function Zeros(k: nat): (z: seq<int8>)
    ensures |z| == k && forall i :: 0 <= i < k ==> z[i] == 0
  {
    seq(k, i => 0)
  }

  /** The state a freshly constructed node starts in: 512 slots counting the start code, universe 1, priority 100. */
  function Initial(multicast: Option<InetAddress>): Node
  {
    Node(Zeros(SACN_BUFFER_MAX), Zeros(SACN_LEVELS), Zeros(SACN_LEVELS), DMX_UNIVERSE_MAX, 1, 0,
         Zeros(SACN_CID_LENGTH), Zeros(SACN_CID_LENGTH), 100, 0, Zeros(SACN_CID_LENGTH), multicast)
  }

  /** A fresh node is well formed: it has no source bound. */
  lemma {:induction false} InitialValid(multicast: Option<InetAddress>)
    ensures Valid(Initial(multicast))
  {
    assert IsEmptyCid(Zeros(SACN_CID_LENGTH));
  }

  /** The 12-bit PDU length of the flags-and-length field at `i`. */
  function PduLength(pb: seq<int8>, i: int): (len: int)
    requires 0 <= i && i + 1 < |pb|
    ensures 0 <= len < 0x1000
  {
    Byte2Int(pb[i]) % 16 * 256 + Byte2Int(pb[i + 1])
  }

  /** checkFlagsAndLength: flags nibble 0x7 and a non-zero PDU length that fits in `size`. */
  predicate CheckFlagsAndLength(pb: seq<int8>, i: int, size: int)
    requires 0 <= i && i + 1 < |pb|
  {
    Byte2Int(pb[i]) / 16 == 7 && PduLength(pb, i) != 0 && size >= PduLength(pb, i)
  }

  /** The two flags-and-length bytes sendDMX writes for a PDU of `len` bytes. */
  function FlagsAndLength(len: int): (int8, int8)
  {
    (ToByte((len + 0x7000) / 256), ToByte((len + 0x7000) % 256))
  }

  /** The slot count carried at 123-124 (start code included). */
  function DmpSlots(pb: seq<int8>): (slots: int)
    requires |pb| == SACN_BUFFER_MAX
    ensures 0 <= slots < 0x10000
  {
    Byte2Int(pb[124]) + Byte2Int(pb[123]) * 256
  }

  /**
   * The DMP copy loop: entries below `slots` take the packet's level while
   * below the packet's count and zero after it; with more than 513 slots the
   * loop faults after the last entry.
   */
  function CopiedLevels(buf: seq<int8>, pb: seq<int8>, count: int, slots: int): (r: seq<int8>)
    requires |buf| == SACN_LEVELS && |pb| == SACN_BUFFER_MAX
    ensures |r| == SACN_LEVELS
  {
    seq(SACN_LEVELS, j requires 0 <= j < SACN_LEVELS =>
      if j < slots then (if j < count then pb[DMP_DATA_OFFSET + j] else 0) else buf[j])
  }

  /** The CID of the packet in the buffer. */
  function PacketCid(pb: seq<int8>): seq<int8>
    requires |pb| == SACN_BUFFER_MAX
  {
    pb[CID_OFFSET..CID_OFFSET + SACN_CID_LENGTH]
  }

  /** The source after the binding step: an unbound (all-zero) source takes the packet's CID. */
  function Bound(source: seq<int8>, cid: seq<int8>): seq<int8>
  {
    if IsEmptyCid(source) then cid else source
  }

  /**
   * Accepting a packet from the first (`first`) or second source: the slot
   * count grows to the packet's, the priority is the packet's, and the levels
   * are copied into that source's buffer.
   */
  function TakeLevels(n: Node, first: bool, count: int, priority: int8): (Node, Result<bool>)
    requires |n.packet| == SACN_BUFFER_MAX && |n.buffer1| == SACN_LEVELS && |n.buffer2| == SACN_LEVELS
  {
    var slots := if count > n.slots then count else n.slots;
    var outcome := if slots > SACN_LEVELS then Fault else Ok(true);
    if first then
      (n.(slots := slots, priority1 := priority, buffer1 := CopiedLevels(n.buffer1, n.packet, count, slots)), outcome)
    else
      (n.(slots := slots, priority2 := priority, buffer2 := CopiedLevels(n.buffer2, n.packet, count, slots)), outcome)
  }

  /** parseDMPLayer: the DMP checks, then binding by CID and the copy into the bound source's buffer. */
  function ParseDmp(n: Node, size: int, priority: int8): (Node, Result<bool>)
    requires Valid(n)
  {
    var pb := n.packet;
    if !(CheckFlagsAndLength(pb, 115, size - 77) && Byte2Int(pb[117]) == 0x02 && Byte2Int(pb[118]) == 0xa1) then
      (n, Ok(false))
    else
      var cid := PacketCid(pb);
      var s1 := Bound(n.source1, cid);
      if s1 == cid then TakeLevels(n.(source1 := s1), true, DmpSlots(pb), priority)
      else
        var s2 := Bound(n.source2, cid);
        if s2 == cid then TakeLevels(n.(source2 := s2), false, DmpSlots(pb), priority)
        else (n, Ok(false))
  }

  /** parseFramingLayer: flags and length at 38, vector 2, and the universe at 114 against the stored signed byte. */
  function ParseFraming(n: Node, size: int): (Node, Result<bool>)
    requires Valid(n)
  {
    var pb := n.packet;
    var tsize := size - 22;
    if CheckFlagsAndLength(pb, 38, tsize) && Byte2Int(pb[43]) == 0x02 && Byte2Int(pb[114]) == n.universe as int then
      ParseDmp(n, tsize, pb[108])
    else (n, Ok(false))
  }

  /** parseRootLayer: preamble size 0x10, the ACN identifier, flags and length at 16, vector 4. */
  function ParseRoot(n: Node, size: int): (Node, Result<bool>)
    requires Valid(n)
  {
    var pb := n.packet;
    var tsize := size - 16;
    if Byte2Int(pb[1]) == 0x10 && Latin1(pb[4..13]) == ACN_ID
       && CheckFlagsAndLength(pb, 16, tsize) && Byte2Int(pb[21]) == 0x04 then
      ParseFraming(n, tsize)
    else (n, Ok(false))
  }

  /** processDatagramPacket: a non-empty datagram is parsed from the root layer. */
  function ProcessDatagram(n: Node, length: int): (Node, Result<bool>)
    requires Valid(n)
  {
    if length > 0 then ParseRoot(n, length) else (n, Ok(false))
  }

  /** The packet buffer after socket.receive: the datagram's bytes over the previous contents. */
  function Received(old_packet: seq<int8>, datagram: seq<int8>): (pb: seq<int8>)
    requires |old_packet| == SACN_BUFFER_MAX
    ensures |pb| == SACN_BUFFER_MAX
  {
    var k := if |datagram| < SACN_BUFFER_MAX then |datagram| else SACN_BUFFER_MAX;
    datagram[..k] + old_packet[k..]
  }

  /**
   * getSlot: the level of `slot` (0 is the start code). A second source
   * counts only while its priority is non-zero: a higher priority takes its
   * level, an equal one merges highest-takes-precedence, a lower one leaves
   * the first source's level.
   */
  function Level(n: Node, slot: int): (level: int)
    requires Valid(n) && 0 <= slot < SACN_LEVELS
    ensures IsLevel(level)
    ensures (n.priority2 == 0 || n.priority2 < n.priority1) ==> level == Byte2Int(n.buffer1[slot])
    ensures (n.priority2 != 0 && n.priority2 > n.priority1) ==> level == Byte2Int(n.buffer2[slot])
    ensures (n.priority2 != 0 && n.priority2 == n.priority1) ==>
      (&& level >= Byte2Int(n.buffer1[slot]) && level >= Byte2Int(n.buffer2[slot])
       && (level == Byte2Int(n.buffer1[slot]) || level == Byte2Int(n.buffer2[slot])))
  {
    if n.priority2 != 0 && n.priority2 > n.priority1 then Byte2Int(n.buffer2[slot])
    else if n.priority2 != 0 && n.priority2 == n.priority1 then
      var b1 := Byte2Int(n.buffer1[slot]);
      var b2 := Byte2Int(n.buffer2[slot]);
      if b1 > b2 then b1 else b2
    else Byte2Int(n.buffer1[slot])
  }

  /**
   * readPacket on a received datagram: the packet buffer takes its bytes, the
   * layers are parsed, and the answer is whether the packet carried levels
   * with start code 0. A fault while parsing is caught and answers false.
   */
  function ReadPacket(n: Node, datagram: seq<int8>): (Node, bool)
    requires Valid(n)
  {
    var length := if |datagram| < SACN_BUFFER_MAX then |datagram| else SACN_BUFFER_MAX;
    var m := n.(packet := Received(n.packet, datagram));
    var (p, r) := ProcessDatagram(m, length);
    (p, r == Ok(true) && Level(p, 0) == 0)
  }

  /** The text written after the MAC address in a CID. */
  const CID_SUFFIX: string := "processing"

  /**
   * setCIDwithMACAddress: the first six bytes of the MAC, then "processing";
   * a MAC shorter than six bytes faults after its bytes are copied.
   */
  function CidWithMac(cid: seq<int8>, mac: seq<int8>): (r: (seq<int8>, bool))
    requires |cid| == SACN_CID_LENGTH
    ensures |r.0| == SACN_CID_LENGTH
    ensures r.1 <==> |mac| < 6
    ensures !r.1 ==> r.0[..6] == mac[..6] && r.0[6..] == AsciiBytes(CID_SUFFIX)
    ensures r.1 ==> r.0[..|mac|] == mac && r.0[|mac|..] == cid[|mac|..]
  {
    if |mac| >= 6 then (mac[..6] + AsciiBytes(CID_SUFFIX), false)
    else (mac + cid[|mac|..], true)
  }

  /** The sequence byte before each packet: 0 becomes 1, anything else is incremented with byte wrap-around. */
  function NextSequence(s: int8): (r: int8)
    ensures Byte2Int(s) == 0 ==> Byte2Int(r) == 1
    ensures Byte2Int(s) != 0 ==> Byte2Int(r) == (Byte2Int(s) + 1) % 256
  {
    if s == 0 then 1 else ToByte(s as int + 1)
  }

  /** Byte `i` (below 126) of the three layer headers sendDMX writes over the zeroed first 126 bytes. */
  function HeaderByte(cid: seq<int8>, slots: int, priority: int8, universe: int8, sq: int8, i: int): int8
    requires |cid| == SACN_CID_LENGTH && 0 <= i < DMP_DATA_OFFSET + 1
  {
    if i == 1 then 0x10
    else if 4 <= i < 13 then CharToByte(ACN_ID[i - 4])
    else if i == 16 then FlagsAndLength(slots + 109).0
    else if i == 17 then FlagsAndLength(slots + 109).1
    else if i == 21 then 0x04
    else if CID_OFFSET <= i < CID_OFFSET + SACN_CID_LENGTH then cid[i - CID_OFFSET]
    else if i == 38 then FlagsAndLength(slots + 87).0
    else if i == 39 then FlagsAndLength(slots + 87).1
    else if i == 43 then 0x02
    else if 44 <= i < 50 then CharToByte(SOURCE_NAME[i - 44])
    else if i == 108 then priority
    else if i == 111 then sq
    else if i == 114 then universe
    else if i == 115 then FlagsAndLength(slots + 10).0
    else if i == 116 then FlagsAndLength(slots + 10).1
    else if i == 117 then 0x02
    else if i == 118 then ToByte(0xa1)
    else if i == 122 then 0x01
    else if i == 123 then ToByte(slots / 256)
    else if i == 124 then ToByte(slots % 256)
    else 0
  }

  /** Byte `i` of the packet buffer after sendDMX: the levels of buffer 1 from 125 on, the headers before. */
  function DmxPacketByte(n: Node, sq: int8, i: int): int8
    requires Valid(n) && 0 <= i < SACN_BUFFER_MAX
  {
    if DMP_DATA_OFFSET <= i && i - DMP_DATA_OFFSET < n.slots then n.buffer1[i - DMP_DATA_OFFSET]
    else if i < DMP_DATA_OFFSET + 1 then HeaderByte(n.myCid, n.slots, n.priority1, n.universe, sq, i)
    else n.packet[i]
  }

  /**
   * sendDMX to `to`: the new state (sequence advanced, packet buffer filled)
   * and the first `125 + slots` bytes sent, or a fault when the slot count
   * runs past the 513-entry level buffer.
   */
  function SendDmx(n: Node, to: InetAddress): (Node, Result<Datagram>)
    requires Valid(n)
  {
    var sq := NextSequence(n.sequence);
    var pb := seq(SACN_BUFFER_MAX, i requires 0 <= i < SACN_BUFFER_MAX => DmxPacketByte(n, sq, i));
    (n.(sequence := sq, packet := pb),
     if n.slots > SACN_LEVELS then Fault else Ok(Datagram(pb[..DMP_DATA_OFFSET + n.slots], to)))
  }

  /** sendDMX to the multicast address: nothing at all happens while none is set. */
  function SendDmxMulticast(n: Node): (Node, Result<Option<Datagram>>)
    requires Valid(n)
  {
    if n.multicast.None? then (n, Ok(None))
    else
      var (m, r) := SendDmx(n, n.multicast.value);
      (m, if r.Fault? then Fault else Ok(Some(r.value)))
  }
}
