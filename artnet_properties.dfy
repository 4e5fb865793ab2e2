/**
 * What the Art-Net node promises, stated over the functions of ArtNetSpec:
 * what ArtDmx drops, binds and copies, what ArtAddress commands do, the
 * sequence byte, and that the packets it sends decode to what it sent.
 */
module ArtNetProperties {
  import opened Wrappers
  import opened JavaBytes
  import opened DmxInterface
  import opened ArtNetSpec
  import PollReplyInfo = ArtNetPollReplyInfo

  /** Every packet keeps the node's invariant, in particular the two bound sources stay distinct. */
  lemma {:induction false} ProcessKeepsValid(n: Node, length: int, sender: InetAddress, accepts: bool)
    requires Valid(n)
    ensures Valid(ProcessDatagram(n, length, sender, accepts).node)
  {
    var opcode := ParseHeader(n.packet);
    if opcode == ARTNET_ART_DMX {
      ReceiveDmxKeepsValid(n, length, sender);
    } else if opcode == ARTNET_ART_ADDRESS && length >= 107 && n.packet[11] >= PROTOCOL_VERSION as int8 {
      ArtAddressKeepsValid(n);
    }
  }

  lemma {:induction false} ReceiveDmxKeepsValid(n: Node, length: int, sender: InetAddress)
    requires Valid(n)
    ensures Valid(ReceiveDmx(n, length, sender).0)
  {
  }

  lemma {:induction false} ArtAddressKeepsValid(n: Node)
    requires Valid(n)
    ensures Valid(ParseArtAddress(n).0)
  {
  }

  /** An ArtDmx for another universe or net, of an old protocol version, or shorter than its levels changes nothing. */
  lemma {:induction false} DmxDroppedUnlessAddressed(n: Node, length: int, sender: InetAddress)
    requires Valid(n) && !DmxAddressed(n, length)
    ensures ReceiveDmx(n, length, sender) == (n, Ok(ARTNET_NOP))
  {
  }

  /** With both sources bound, a third sender changes nothing and yields NOP. */
  lemma {:induction false} ThirdSenderIgnored(n: Node, length: int, sender: InetAddress)
    requires Valid(n) && n.source1.Some? && n.source2.Some?
    requires n.source1 != Some(sender) && n.source2 != Some(sender)
    ensures ReceiveDmx(n, length, sender) == (n, Ok(ARTNET_NOP))
  {
  }

  /**
   * An accepted ArtDmx from the first source (or any sender while none is
   * bound) binds that sender, raises the slot count to the packet's, copies
   * the packet's levels, zero-fills up to the slot count, and leaves the
   * second buffer and the second source alone.
   */
  lemma {:induction false} DmxFirstSourceCopy(n: Node, length: int, sender: InetAddress)
    requires Valid(n) && length <= ARTNET_BUFFER_MAX && DmxAddressed(n, length)
    requires n.source1 == None || n.source1 == Some(sender)
    ensures var (m, r) := ReceiveDmx(n, length, sender);
      var dmxlen := DmxLength(n.packet);
      && m.source1 == Some(sender) && m.source2 == n.source2 && m.buffer2 == n.buffer2
      && m.slots == (if dmxlen > n.slots then dmxlen else n.slots)
      && (r == Ok(ARTNET_ART_DMX) <==> m.slots <= DMX_UNIVERSE_MAX)
      && (forall j :: 0 <= j < dmxlen ==> m.buffer1[j] == n.packet[DMX_DATA_OFFSET + j])
      && (forall j :: dmxlen <= j < DMX_UNIVERSE_MAX ==> m.buffer1[j] == if j < m.slots then 0 else n.buffer1[j])
  {
  }

  /** The same for a second, different sender: it binds source 2 and only buffer 2 takes its levels. */
  lemma {:induction false} DmxSecondSourceCopy(n: Node, length: int, sender: InetAddress)
    requires Valid(n) && length <= ARTNET_BUFFER_MAX && DmxAddressed(n, length)
    requires n.source1.Some? && n.source1 != Some(sender)
    requires n.source2 == None || n.source2 == Some(sender)
    ensures var (m, r) := ReceiveDmx(n, length, sender);
      var dmxlen := DmxLength(n.packet);
      && m.source1 == n.source1 && m.source2 == Some(sender) && m.buffer1 == n.buffer1
      && m.slots == (if dmxlen > n.slots then dmxlen else n.slots)
      && (r == Ok(ARTNET_ART_DMX) <==> m.slots <= DMX_UNIVERSE_MAX)
      && (forall j :: 0 <= j < dmxlen ==> m.buffer2[j] == n.packet[DMX_DATA_OFFSET + j])
      && (forall j :: dmxlen <= j < DMX_UNIVERSE_MAX ==> m.buffer2[j] == if j < m.slots then 0 else n.buffer2[j])
  {
  }

  /**
   * ArtAddress command 0x01 (cancel merge) unbinds both sources, zeroes
   * buffer 2 and the slot count; 0x90 (clear) unbinds both sources and zeroes
   * both buffers; any other command keeps the sources and levels.
   */
  lemma {:induction false} ArtAddressCommands(n: Node)
    requires Valid(n)
    ensures var (m, op) := ParseArtAddress(n);
      var command := Byte2Int(n.packet[106]);
      && (command == 0x01 ==>
            (m.source1 == None && m.source2 == None && m.slots == 0
             && m.buffer1 == n.buffer1 && m.buffer2 == Zeros(DMX_UNIVERSE_MAX) && op == ARTNET_ART_ADDRESS))
      && (command == 0x90 ==>
            (m.source1 == None && m.source2 == None && m.slots == n.slots
             && m.buffer1 == Zeros(DMX_UNIVERSE_MAX) && m.buffer2 == Zeros(DMX_UNIVERSE_MAX) && op == ARTNET_ART_DMX))
      && (command != 0x01 && command != 0x90 ==>
            (m.source1 == n.source1 && m.source2 == n.source2
             && m.buffer1 == n.buffer1 && m.buffer2 == n.buffer2 && m.slots == n.slots && op == ARTNET_ART_ADDRESS))
  {
  }

  /** The switch bytes 0x7F and anything with bit 7 clear leave the port address alone. */
  lemma {:induction false} NoChangeSwitches(universe: int8, net: int8, b: int8)
    requires Byte2Int(b) == 0x7f || Byte2Int(b) < 0x80
    ensures UniverseAddress(universe, b) == universe
    ensures SubnetAddress(universe, b) == universe
    ensures NetAddress(net, b) == net
  {
  }

  /** The sequence byte sent is 0 only right after 255, so from 0 it runs 1, 2, ..., 255, 0, 1, ... */
  lemma {:induction false} SequenceZeroOnlyAfter255(s: int8)
    ensures Byte2Int(NextSequence(s)) == 0 <==> Byte2Int(s) == 255
    ensures Byte2Int(NextSequence(s)) != 0 ==> Byte2Int(NextSequence(s)) == Byte2Int(s) % 255 + 1
  {
  }

  /** The header of an ArtDmx that sendDMX builds, as a receiver reads it. */
  lemma {:induction false} DmxHeaderReadsBack(n: Node)
    requires Valid(n) && n.slots <= DMX_UNIVERSE_MAX
    ensures var pb := SendDmx(n).0.packet;
      && ParseHeader(pb) == ARTNET_ART_DMX
      && DmxLength(pb) == n.slots
      && Byte2Int(pb[11]) == PROTOCOL_VERSION
      && pb[12] == NextSequence(n.sequence) && pb[14] == n.universe && pb[15] == n.net
  {
    var sq := NextSequence(n.sequence);
    var pb := SendDmx(n).0.packet;
    assert pb[..7] == AsciiBytes(ARTNET_ID) by {
      forall i | 0 <= i < 7 ensures pb[i] == AsciiBytes(ARTNET_ID)[i] {
        assert pb[i] == DmxHeaderByte(n.universe, n.net, n.slots, sq, i);
      }
    }
    assert pb[8] == 0 && pb[9] == 0x50;
    assert pb[16] == ToByte(n.slots / 256) && pb[17] == ToByte(n.slots % 256);
    SmallByte(n.slots / 256);
    SmallByte(n.slots % 256);
  }

  /**
   * ArtDmx round trip: the packet one node sends, received by a node on the
   * same universe and net that has not bound another first source, is
   * accepted, binds the sender, and leaves the receiver's first buffer
   * holding the sender's levels (zero beyond them up to the receiver's count).
   */
  lemma {:induction false} DmxRoundTrip(tx: Node, rx: Node, from: InetAddress, accepts: bool)
    requires Valid(tx) && Valid(rx)
    requires tx.slots <= DMX_UNIVERSE_MAX && rx.slots <= DMX_UNIVERSE_MAX
    requires rx.universe == tx.universe && rx.net == tx.net
    requires rx.source1 == None || rx.source1 == Some(from)
    requires rx.packet == Received(SendDmx(tx).0.packet[..tx.slots + DMX_DATA_OFFSET])
    ensures SendDmx(tx).1 == Ok(SendDmx(tx).0.packet[..tx.slots + DMX_DATA_OFFSET])
    ensures var p := ProcessDatagram(rx, tx.slots + DMX_DATA_OFFSET, from, accepts);
      && p.result == Ok(ARTNET_ART_DMX)
      && p.node.source1 == Some(from)
      && p.node.slots == (if tx.slots > rx.slots then tx.slots else rx.slots)
      && p.node.buffer1[..tx.slots] == tx.buffer1[..tx.slots]
      && (forall j :: tx.slots <= j < p.node.slots ==> p.node.buffer1[j] == 0)
  {
    var pb := SendDmx(tx).0.packet;
    var sent := pb[..tx.slots + DMX_DATA_OFFSET];
    DmxHeaderReadsBack(tx);
    assert forall i :: 0 <= i < tx.slots + DMX_DATA_OFFSET ==> rx.packet[i] == pb[i];
    assert rx.packet[..7] == pb[..7];
    assert rx.packet[8] == pb[8] && rx.packet[9] == pb[9];
    assert ParseHeader(rx.packet) == ARTNET_ART_DMX;
    assert DmxLength(rx.packet) == tx.slots;
    assert DmxAddressed(rx, tx.slots + DMX_DATA_OFFSET);
    DmxFirstSourceCopy(rx, tx.slots + DMX_DATA_OFFSET, from);
    var p := ProcessDatagram(rx, tx.slots + DMX_DATA_OFFSET, from, accepts);
    forall j | 0 <= j < tx.slots
      ensures p.node.buffer1[j] == tx.buffer1[j]
    {
      assert rx.packet[DMX_DATA_OFFSET + j] == pb[DMX_DATA_OFFSET + j];
    }
  }

  /** The name fields of an ArtPollReply that sendArtPollReply builds. */
  lemma {:induction false} PollReplyNameBytes(n: Node, to: InetAddress)
    ensures var d := PollReply(n, to).data;
      && (forall k :: 0 <= k < |NODE_NAME| ==> d[26 + k] == CharToByte(NODE_NAME[k]) && d[44 + k] == CharToByte(NODE_NAME[k]))
      && d[26 + |NODE_NAME|] == 0 && d[44 + |NODE_NAME|] == 0
      && (forall k :: 26 <= k < 26 + |NODE_NAME| ==> d[k] != 0)
      && (forall k :: 44 <= k < 44 + |NODE_NAME| ==> d[k] != 0)
  {
    var d := PollReply(n, to).data;
    forall k | 0 <= k < |NODE_NAME|
      ensures CharToByte(NODE_NAME[k]) != 0
    {
      assert 0 < NODE_NAME[k] as int < 128;
    }
  }

  /**
   * ArtPollReply round trip: a controller decoding the reply this node sends
   * (with each name read from its own offset) sees the ArtPollReply opcode,
   * the node's name twice, one port, the node's universe and an output port.
   */
  lemma {:induction false} PollReplyRoundTrip(n: Node, to: InetAddress, sender: InetAddress)
    ensures var d := PollReply(n, to).data;
      var info := PollReplyInfo.ParseInfo(d, sender);
      && ParseHeader(d) == ARTNET_ART_POLL_REPLY
      && info.nodeNameShort == NODE_NAME && info.nodeNameLong == NODE_NAME
      && info.ports == 1 && info.port1Universe == n.universe as int && info.port1CanOutput
  {
    var d := PollReply(n, to).data;
    assert d[..7] == AsciiBytes(ARTNET_ID);
    PollReplyNameBytes(n, to);
    PollReplyInfo.NameEndAt(d, 26, 26 + |NODE_NAME|);
    PollReplyInfo.NameEndAt(d, 44, 44 + |NODE_NAME|);
    Latin1AsciiRoundTrip(NODE_NAME);
    assert d[26..26 + |NODE_NAME|] == AsciiBytes(NODE_NAME);
    assert d[44..44 + |NODE_NAME|] == AsciiBytes(NODE_NAME);
  }

  /**
   * The as-written constructor on the same reply: the short name loses its
   * first seven chars ("ocessing"), and the long name is read from offset 33,
   * so it is "ocessing", the bytes from the short name's NUL up to offset 44,
   * and then the node name.
   */
  lemma {:induction false} PollReplyMisreadAsWritten(n: Node, to: InetAddress, sender: InetAddress)
    ensures var d := PollReply(n, to).data;
      var r := PollReplyInfo.ParseInfoAsWritten(d, sender);
      && r.Ok?
      && r.value.nodeNameShort == "ocessing"
      && r.value.nodeNameShort != PollReplyInfo.ParseInfo(d, sender).nodeNameShort
      && r.value.nodeNameLong == "ocessing" + Latin1(d[26 + |NODE_NAME|..44]) + NODE_NAME
      && |r.value.nodeNameLong| == 44 + |NODE_NAME| - 33
  {
    var d := PollReply(n, to).data;
    PollReplyRoundTrip(n, to, sender);
    PollReplyInfo.AsWrittenDropsShortNamePrefix(d, sender);
    PollReplyNameBytes(n, to);
    PollReplyInfo.NameEndAt(d, 44, 44 + |NODE_NAME|);
    assert NODE_NAME[7..] == "ocessing";
  }
}
