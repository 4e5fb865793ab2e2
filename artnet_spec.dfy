/**
 * LXArtNet, the pure half: the node's state as a value, and what each
 * operation of the Art-Net node does to it (ArtDmx receive and send,
 * ArtPoll, ArtPollReply, ArtAddress), together with the properties these
 * operations promise. The class in artnet.dfy is proved against these functions.
 */
module ArtNetSpec {
  import opened Wrappers
  import opened JavaBytes
  import opened DmxInterface
  import PollReplyInfo = ArtNetPollReplyInfo

  const ARTNET_PORT: int := 0x1936
  const ARTNET_BUFFER_MAX: int := 530
  const ARTNET_REPLY_SIZE: int := 239

  const ARTNET_ART_POLL: int := 0x2000
  const ARTNET_ART_POLL_REPLY: int := 0x2100
  const ARTNET_ART_DMX: int := 0x5000
  const ARTNET_ART_ADDRESS: int := 0x6000
  const ARTNET_NOP: int := 0

  /** Packet identifier at offset 0, followed by a NUL. */
  const ARTNET_ID: string := "Art-Net"
  /** Short and long name advertised in ArtPollReply. */
  const NODE_NAME: string := "LXforProcessing"
  /** Lowest accepted protocol version (low byte at offset 11). */
  const PROTOCOL_VERSION: int := 14
  /** Offset of the first level in an ArtDmx packet. */
  const DMX_DATA_OFFSET: int := 18

  /** The fields of an LXArtNet object that the protocol logic reads or writes. */
  datatype Node = Node(
    packet: seq<int8>,
    buffer1: seq<int8>,
    buffer2: seq<int8>,
    slots: int,
    universe: int8,
    net: int8,
    sequence: int8,
    myAddress: InetAddress,
    broadcast: Option<InetAddress>,
    broadcastDmx: bool,
    source1: Option<InetAddress>,
    source2: Option<InetAddress>,
    outputNode: Option<InetAddress>,
    hasListener: bool)

  /**
   * Buffer sizes are fixed, the slot count is never negative, and a second
   * source is only ever bound beside a different first source.
   */
  predicate Valid(n: Node)
  {
    && |n.packet| == ARTNET_BUFFER_MAX
    && |n.buffer1| == DMX_UNIVERSE_MAX
    && |n.buffer2| == DMX_UNIVERSE_MAX
    && n.slots >= 0
    && (n.source2.Some? ==> n.source1.Some? && n.source1 != n.source2)
  }

  function Zeros(k: nat): (z: seq<int8>)
    ensures |z| == k && forall i :: 0 <= i < k ==> z[i] == 0
  {
    seq(k, i => 0)
  }

  /** The bytes `setStringInByteArray(s, buf, 0, true)` leaves at the start of a buffer: the chars, then a NUL. */
  function CString(s: string): (bs: seq<int8>)
    ensures |bs| == |s| + 1 && bs[|s|] == 0
    ensures forall i :: 0 <= i < |s| ==> bs[i] == CharToByte(s[i])
  {
    AsciiBytes(s) + [0]
  }

  predicate HasArtNetId(pb: seq<int8>)
    requires |pb| >= 7
  {
    pb[..7] == AsciiBytes(ARTNET_ID)
  }

  /** parseHeader: the opcode, low byte first, of a packet that starts with "Art-Net"; NOP otherwise. */
  function ParseHeader(pb: seq<int8>): (opcode: int)
    requires |pb| >= 10
    ensures !HasArtNetId(pb) ==> opcode == ARTNET_NOP
    ensures HasArtNetId(pb) ==>
      (0 <= opcode < 0x10000 && opcode % 256 == Byte2Int(pb[8]) && opcode / 256 == Byte2Int(pb[9]))
  {
    if HasArtNetId(pb) then Byte2Int(pb[9]) * 256 + Byte2Int(pb[8]) else ARTNET_NOP
  }

  /** clearSlots: both level buffers and the level area of the packet buffer are zeroed. */
  function ClearSlots(n: Node): (m: Node)
    requires |n.packet| == ARTNET_BUFFER_MAX
  {
    n.(buffer1 := Zeros(DMX_UNIVERSE_MAX), buffer2 := Zeros(DMX_UNIVERSE_MAX),
       packet := n.packet[..DMX_DATA_OFFSET] + Zeros(ARTNET_BUFFER_MAX - DMX_DATA_OFFSET))
  }

  /** The state a freshly constructed node starts in. */
  function Initial(myAddress: InetAddress, broadcast: Option<InetAddress>): (n: Node)
  {
    Node(Zeros(ARTNET_BUFFER_MAX), Zeros(DMX_UNIVERSE_MAX), Zeros(DMX_UNIVERSE_MAX), DMX_MIN_SLOTS,
         0, 0, 0, myAddress, broadcast, false, None, None, None, false)
  }

  /** setUniverseAddress: unless the byte is 0x7F or bit 7 is clear, the low nibble becomes `u & 7`. */
  function UniverseAddress(universe: int8, u: int8): (r: int8)
    ensures Byte2Int(u) < 0x80 ==> r == universe
    ensures Byte2Int(u) >= 0x80 ==>
      Byte2Int(r) / 16 == Byte2Int(universe) / 16 && Byte2Int(r) % 16 == Byte2Int(u) % 8
  {
    var b := Byte2Int(u);
    if b != 0x7f && b >= 0x80 then
      var h, l := Byte2Int(universe) / 16, b % 8;
      Nibbles(h, l);
      SmallByte(h * 16 + l);
      ToByte(h * 16 + l)
    else universe
  }

  /** setSubnetAddress: unless the byte is 0x7F or bit 7 is clear, the high nibble becomes `s & 7`. */
  function SubnetAddress(universe: int8, s: int8): (r: int8)
    ensures Byte2Int(s) < 0x80 ==> r == universe
    ensures Byte2Int(s) >= 0x80 ==>
      Byte2Int(r) % 16 == Byte2Int(universe) % 16 && Byte2Int(r) / 16 == Byte2Int(s) % 8
  {
    var b := Byte2Int(s);
    if b != 0x7f && b >= 0x80 then
      var h, l := b % 8, Byte2Int(universe) % 16;
      Nibbles(h, l);
      SmallByte(h * 16 + l);
      ToByte(h * 16 + l)
    else universe
  }

  /** setNetAddress: with bit 7 set, the net becomes `s & 7`; otherwise it is unchanged. */
  function NetAddress(net: int8, s: int8): (r: int8)
    ensures Byte2Int(s) < 0x80 ==> r == net
    ensures Byte2Int(s) >= 0x80 ==> 0 <= r < 8 && r as int == Byte2Int(s) % 8
  {
    if Byte2Int(s) >= 0x80 then (Byte2Int(s) % 8) as int8 else net
  }

  /** The slot count declared by an ArtDmx packet, big-endian at 16-17. */
  function DmxLength(pb: seq<int8>): (len: int)
    requires |pb| >= DMX_DATA_OFFSET
    ensures 0 <= len < 0x10000
  {
    Byte2Int(pb[16]) * 256 + Byte2Int(pb[17])
  }

  /** The ArtDmx acceptance test: universe, net, protocol version and a datagram long enough for its levels. */
  predicate DmxAddressed(n: Node, length: int)
    requires Valid(n)
  {
    && n.universe == n.packet[14]
    && n.net == n.packet[15]
    && Byte2Int(n.packet[11]) >= PROTOCOL_VERSION
    && length >= DmxLength(n.packet) + DMX_DATA_OFFSET
  }

  /**
   * The copy loop: slots below `slots` take the packet's level while below
   * `dmxlen` and zero after it; the buffer has 512 entries, so a larger slot
   * count stops the loop with an exception after the last one.
   */
  function CopiedLevels(buf: seq<int8>, pb: seq<int8>, dmxlen: int, slots: int): (r: seq<int8>)
    requires |buf| == DMX_UNIVERSE_MAX && |pb| == ARTNET_BUFFER_MAX
    ensures |r| == DMX_UNIVERSE_MAX
  {
    seq(DMX_UNIVERSE_MAX, j requires 0 <= j < DMX_UNIVERSE_MAX =>
      if j < slots then (if j < dmxlen then pb[DMX_DATA_OFFSET + j] else 0) else buf[j])
  }

  /** The ArtDmx branch of processDatagramPacket: the new state and the opcode, or a fault. */
  function ReceiveDmx(n: Node, length: int, sender: InetAddress): (Node, Result<int>)
    requires Valid(n)
  {
    if !DmxAddressed(n, length) then (n, Ok(ARTNET_NOP))
    else
      var dmxlen := DmxLength(n.packet);
      var slots := if dmxlen > n.slots then dmxlen else n.slots;
      var outcome := if slots > DMX_UNIVERSE_MAX then Fault else Ok(ARTNET_ART_DMX);
      if n.source1.None? || n.source1 == Some(sender) then
        (n.(source1 := Some(sender), slots := slots, buffer1 := CopiedLevels(n.buffer1, n.packet, dmxlen, slots)), outcome)
      else if n.source2.None? || n.source2 == Some(sender) then
        (n.(source2 := Some(sender), slots := slots, buffer2 := CopiedLevels(n.buffer2, n.packet, dmxlen, slots)), outcome)
      else (n, Ok(ARTNET_NOP))
  }

  /** Byte `i` of the ArtPollReply that sendArtPollReply builds. */
  function PollReplyByte(myAddress: InetAddress, universe: int8, i: int): int8
    requires 0 <= i < ARTNET_REPLY_SIZE
  {
    if i < 8 then CString(ARTNET_ID)[i]
    else if i == 9 then 0x21
    else if i == 10 then myAddress.a
    else if i == 11 then myAddress.b
    else if i == 12 then myAddress.c
    else if i == 13 then myAddress.d
    else if i == 14 then 0x36
    else if i == 15 then 0x19
    else if i == 24 then 0x50
    else if i == 25 then 0x12
    else if 26 <= i < 26 + |NODE_NAME| + 1 then CString(NODE_NAME)[i - 26]
    else if 44 <= i < 44 + |NODE_NAME| + 1 then CString(NODE_NAME)[i - 44]
    else if i == 173 then 1
    else if i == 174 then -128
    else if i == 182 then -128
    else if i == 190 then universe
    else 0
  }

  /** sendArtPollReply: 239 bytes, to the broadcast address when one is set, else to the poller. */
  function PollReply(n: Node, toIp: InetAddress): (d: Datagram)
    ensures |d.data| == ARTNET_REPLY_SIZE
  {
    Datagram(seq(ARTNET_REPLY_SIZE, i requires 0 <= i < ARTNET_REPLY_SIZE => PollReplyByte(n.myAddress, n.universe, i)),
             if n.broadcast.Some? then n.broadcast.value else toIp)
  }

  /** parseArtAddress: net, universe and subnet switches, then command 0x01 (cancel merge) or 0x90 (clear). */
  function ParseArtAddress(n: Node): (Node, int)
    requires Valid(n)
  {
    var m := n.(net := NetAddress(n.net, n.packet[12]),
                universe := SubnetAddress(UniverseAddress(n.universe, n.packet[100]), n.packet[104]));
    var command := Byte2Int(n.packet[106]);
    if command == 0x01 then
      (m.(source1 := None, source2 := None, buffer2 := Zeros(DMX_UNIVERSE_MAX), slots := 0), ARTNET_ART_ADDRESS)
    else if command == 0x90 then
      (ClearSlots(m.(source1 := None, source2 := None)), ARTNET_ART_DMX)
    else (m, ARTNET_ART_ADDRESS)
  }

  /** What processDatagramPacket produces: the new state, its result, a reply sent, a poll reply handed to the listener. */
  datatype Processed = Processed(node: Node, result: Result<int>, reply: Option<Datagram>, delivered: Option<PollReplyInfo.Info>)

  /**
   * processDatagramPacket on the `length` bytes received into the packet
   * buffer from `sender`; `accepts` is the answer of the poll-reply listener.
   */
  function ProcessDatagram(n: Node, length: int, sender: InetAddress, accepts: bool): (p: Processed)
    requires Valid(n)
  {
    var opcode := ParseHeader(n.packet);
    if opcode == ARTNET_ART_DMX then
      var (m, r) := ReceiveDmx(n, length, sender);
      Processed(m, r, None, None)
    else if opcode == ARTNET_ART_POLL then
      Processed(n, Ok(opcode), if Byte2Int(n.packet[11]) >= PROTOCOL_VERSION then Some(PollReply(n, sender)) else None, None)
    else if opcode == ARTNET_ART_ADDRESS then
      if length >= 107 && n.packet[11] >= PROTOCOL_VERSION as int8 then
        var (m, op) := ParseArtAddress(n);
        Processed(m, Ok(op), Some(PollReply(m, sender)), None)
      else Processed(n, Ok(opcode), None, None)
    else if opcode == ARTNET_ART_POLL_REPLY && n.hasListener then
      var info := PollReplyInfo.ParseInfo(n.packet, sender);
      Processed(if accepts && sender != n.myAddress then n.(outputNode := Some(sender)) else n,
                Ok(opcode), None, Some(info))
    else Processed(n, Ok(opcode), None, None)
  }

  /** The sequence byte before each ArtDmx: 0 becomes 1, anything else is incremented with byte wrap-around. */
  function NextSequence(s: int8): (r: int8)
    ensures Byte2Int(s) == 0 ==> Byte2Int(r) == 1
    ensures Byte2Int(s) != 0 ==> Byte2Int(r) == (Byte2Int(s) + 1) % 256
  {
    if s == 0 then 1 else ToByte(s as int + 1)
  }

  /** Byte `i` of the packet buffer after sendDMX has filled it with sequence byte `sq`. */
  function DmxHeaderByte(universe: int8, net: int8, slots: int, sq: int8, i: int): int8
    requires 0 <= i < DMX_DATA_OFFSET
  {
    if i < 8 then CString(ARTNET_ID)[i]
    else if i == 9 then 0x50
    else if i == 11 then PROTOCOL_VERSION as int8
    else if i == 12 then sq
    else if i == 14 then universe
    else if i == 15 then net
    else if i == 16 then ToByte(slots / 256)
    else if i == 17 then ToByte(slots % 256)
    else 0
  }

  /** Byte `i` of the packet buffer after sendDMX: the header, then the levels of buffer 1 up to the slot count. */
  function DmxPacketByte(n: Node, sq: int8, i: int): int8
    requires Valid(n) && 0 <= i < ARTNET_BUFFER_MAX
  {
    if i < DMX_DATA_OFFSET then DmxHeaderByte(n.universe, n.net, n.slots, sq, i)
    else if i - DMX_DATA_OFFSET < n.slots then n.buffer1[i - DMX_DATA_OFFSET]
    else n.packet[i]
  }

  /**
   * sendDMX: the new state (sequence advanced, packet buffer filled) and the
   * first `slots + 18` bytes sent, or a fault when the slot count exceeds the
   * 512-entry level buffer.
   */
  function SendDmx(n: Node): (Node, Result<seq<int8>>)
    requires Valid(n)
  {
    var sq := NextSequence(n.sequence);
    var pb := seq(ARTNET_BUFFER_MAX, i requires 0 <= i < ARTNET_BUFFER_MAX => DmxPacketByte(n, sq, i));
    (n.(sequence := sq, packet := pb),
     if n.slots > DMX_UNIVERSE_MAX then Fault else Ok(pb[..n.slots + DMX_DATA_OFFSET]))
  }

  /** sendDMX(socket): the output node if known, else the broadcast address when broadcasting is enabled. */
  function DmxDestination(n: Node): (to: Option<InetAddress>)
    ensures to.Some? <==> (n.outputNode.Some? || (n.broadcastDmx && n.broadcast.Some?))
  {
    if n.outputNode.Some? then n.outputNode
    else if n.broadcastDmx && n.broadcast.Some? then n.broadcast
    else None
  }

  /** The packet buffer after socket.receive: the zeroed buffer with the datagram's bytes at the front. */
  function Received(datagram: seq<int8>): (pb: seq<int8>)
    ensures |pb| == ARTNET_BUFFER_MAX
  {
    var k := if |datagram| < ARTNET_BUFFER_MAX then |datagram| else ARTNET_BUFFER_MAX;
    datagram[..k] + Zeros(ARTNET_BUFFER_MAX - k)
  }
}
