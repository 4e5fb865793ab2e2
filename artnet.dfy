/**
 * LXArtNet: an Art-Net node that receives ArtDmx from up to two sources and
 * merges them highest-takes-precedence, answers ArtPoll and ArtAddress, and
 * builds ArtDmx and ArtPollReply packets in its buffers. Each method is proved
 * against the function of ArtNetSpec that says what it does to the node.
 */
module ArtNet {
  import opened Wrappers
  import opened JavaBytes
  import opened DmxInterface
  import opened ArtNetSpec
  import PollReplyInfo = ArtNetPollReplyInfo

  class ArtNetNode {
    /** Receives datagrams and holds outgoing ArtDmx packets. */
    var packetBuffer: array<int8>
    /** Levels to send, and levels received from the first source. */
    var dmxBuffer1: array<int8>
    /** Levels received from the second source. */
    var dmxBuffer2: array<int8>
    var dmxSlots: int
    /** High nibble subnet, low nibble universe. */
    var universe: int8
    var net: int8
    var sequence: int8
    var myAddress: InetAddress
    var broadcastAddress: Option<InetAddress>
    var broadcastDmxEnabled: bool
    var dmxSource1: Option<InetAddress>
    var dmxSource2: Option<InetAddress>
    var outputNodeAddress: Option<InetAddress>
    /** Whether a poll-reply listener is registered. */
    var hasReplyListener: bool

    /** The node's fields as a value. */
    function Model(): Node
      reads this, packetBuffer, dmxBuffer1, dmxBuffer2
    {
      Node(packetBuffer[..], dmxBuffer1[..], dmxBuffer2[..], dmxSlots, universe, net, sequence,
           myAddress, broadcastAddress, broadcastDmxEnabled, dmxSource1, dmxSource2, outputNodeAddress,
           hasReplyListener)
    }

    ghost predicate Valid()
      reads this, packetBuffer, dmxBuffer1, dmxBuffer2
    {
      && packetBuffer != dmxBuffer1 && packetBuffer != dmxBuffer2 && dmxBuffer1 != dmxBuffer2
      && ArtNetSpec.Valid(Model())
    }

    constructor (myaddress: InetAddress)
      ensures Valid() && fresh(packetBuffer) && fresh(dmxBuffer1) && fresh(dmxBuffer2)
      ensures Model() == Initial(myaddress, None)
    {
      packetBuffer := new int8[ARTNET_BUFFER_MAX](i => 0);
      dmxBuffer1 := new int8[DMX_UNIVERSE_MAX](i => 0);
      dmxBuffer2 := new int8[DMX_UNIVERSE_MAX](i => 0);
      myAddress := myaddress;
      broadcastAddress := None;
      broadcastDmxEnabled := false;
      dmxSource1, dmxSource2, outputNodeAddress := None, None, None;
      hasReplyListener := false;
      universe, net, sequence := 0, 0, 0;
      dmxSlots := DMX_MIN_SLOTS;
      new;
      ClearSlots();
      assert packetBuffer[..] == Zeros(ARTNET_BUFFER_MAX);
    }

    constructor WithBroadcast(myaddress: InetAddress, baddr: InetAddress)
      ensures Valid() && fresh(packetBuffer) && fresh(dmxBuffer1) && fresh(dmxBuffer2)
      ensures Model() == Initial(myaddress, Some(baddr))
    {
      packetBuffer := new int8[ARTNET_BUFFER_MAX](i => 0);
      dmxBuffer1 := new int8[DMX_UNIVERSE_MAX](i => 0);
      dmxBuffer2 := new int8[DMX_UNIVERSE_MAX](i => 0);
      myAddress := myaddress;
      broadcastAddress := Some(baddr);
      broadcastDmxEnabled := false;
      dmxSource1, dmxSource2, outputNodeAddress := None, None, None;
      hasReplyListener := false;
      universe, net, sequence := 0, 0, 0;
      dmxSlots := DMX_MIN_SLOTS;
      new;
      ClearSlots();
      assert packetBuffer[..] == Zeros(ARTNET_BUFFER_MAX);
    }

    /** getSlot: the level of 1-based `slot`; with two sources bound, the higher of the two. */
    function GetSlot(slot: int): (level: int)
      reads this, packetBuffer, dmxBuffer1, dmxBuffer2
      requires Valid() && 1 <= slot <= DMX_UNIVERSE_MAX
      ensures IsLevel(level)
      ensures dmxSource2.None? ==> level == Byte2Int(dmxBuffer1[slot - 1])
      ensures dmxSource2.Some? ==>
        (level >= Byte2Int(dmxBuffer1[slot - 1]) && level >= Byte2Int(dmxBuffer2[slot - 1])
         && (level == Byte2Int(dmxBuffer1[slot - 1]) || level == Byte2Int(dmxBuffer2[slot - 1])))
    {
      if dmxSource2.Some? then
        var b1 := Byte2Int(dmxBuffer1[slot - 1]);
        var b2 := Byte2Int(dmxBuffer2[slot - 1]);
        if b1 > b2 then b1 else b2
      else Byte2Int(dmxBuffer1[slot - 1])
    }

    /** setSlot: the level to send in 1-based `slot`. */
    method SetSlot(slot: int, value: int8)
      requires Valid() && 1 <= slot <= DMX_UNIVERSE_MAX
      modifies dmxBuffer1
      ensures Valid()
      ensures Model() == old(Model()).(buffer1 := old(Model()).buffer1[slot - 1 := value])
    {
      dmxBuffer1[slot - 1] := value;
    }

    /** setSlot(int, int): stores `(byte) value`. */
    method SetSlotLevel(slot: int, value: int)
      requires Valid() && 1 <= slot <= DMX_UNIVERSE_MAX
      modifies dmxBuffer1
      ensures Valid()
      ensures Model() == old(Model()).(buffer1 := old(Model()).buffer1[slot - 1 := SlotByte(value)])
      ensures Byte2Int(dmxBuffer1[slot - 1]) == value % 256
    {
      SetSlot(slot, SlotByte(value));
    }

    /** clearSlots: zeroes both level buffers and the level area of the packet buffer. */
    method ClearSlots()
      requires packetBuffer != dmxBuffer1 && packetBuffer != dmxBuffer2 && dmxBuffer1 != dmxBuffer2
      requires packetBuffer.Length == ARTNET_BUFFER_MAX
      requires dmxBuffer1.Length == DMX_UNIVERSE_MAX && dmxBuffer2.Length == DMX_UNIVERSE_MAX
      modifies packetBuffer, dmxBuffer1, dmxBuffer2
      ensures Model() == ArtNetSpec.ClearSlots(old(Model()))
    {
      var j := 0;
      while j < DMX_UNIVERSE_MAX
        invariant 0 <= j <= DMX_UNIVERSE_MAX
        invariant forall k :: 0 <= k < j ==> dmxBuffer1[k] == 0 && dmxBuffer2[k] == 0
        invariant forall k :: 0 <= k < DMX_DATA_OFFSET + j ==>
          packetBuffer[k] == if k < DMX_DATA_OFFSET then old(packetBuffer[k]) else 0
        invariant forall k :: DMX_DATA_OFFSET + j <= k < ARTNET_BUFFER_MAX ==> packetBuffer[k] == old(packetBuffer[k])
      {
        dmxBuffer1[j] := 0;
        dmxBuffer2[j] := 0;
        packetBuffer[DMX_DATA_OFFSET + j] := 0;
        j := j + 1;
      }
      assert packetBuffer[..] == old(packetBuffer[..])[..DMX_DATA_OFFSET] + Zeros(ARTNET_BUFFER_MAX - DMX_DATA_OFFSET);
      assert dmxBuffer1[..] == Zeros(DMX_UNIVERSE_MAX);
      assert dmxBuffer2[..] == Zeros(DMX_UNIVERSE_MAX);
    }

    /** setNumberOfSlots: at least DMX_MIN_SLOTS, with no upper bound. */
    method SetNumberOfSlots(slots: int)
      requires Valid()
      modifies this`dmxSlots
      ensures Valid()
      ensures Model() == old(Model()).(slots := AtLeastMinSlots(slots))
    {
      dmxSlots := AtLeastMinSlots(slots);
    }

    /** getUniverse: the subnet/universe byte read unsigned. */
    function GetUniverse(): (u: int)
      reads this
      ensures 0 <= u < 256 && ToByte(u) == universe
    {
      Byte2Int(universe)
    }

    /** setUniverse: stores `(byte) u`. */
    method SetUniverse(u: int)
      requires Valid()
      modifies this`universe
      ensures Valid()
      ensures Model() == old(Model()).(universe := ToByte(u))
      ensures GetUniverse() == u % 256
    {
      universe := ToByte(u);
    }

    /** setSubnetUniverse: `((s & 7) << 4) | u`, narrowed to a byte. */
    method SetSubnetUniverse(s: int8, u: int8)
      requires Valid()
      modifies this`universe
      ensures Valid()
      ensures Model() == old(Model()).(universe := FromBits8(((Byte2Int(s) % 8 * 16) as bv8) | (Byte2Int(u) as bv8)))
    {
      universe := FromBits8(((Byte2Int(s) % 8 * 16) as bv8) | (Byte2Int(u) as bv8));
    }

    method SetUniverseAddress(u: int8)
      requires Valid()
      modifies this`universe
      ensures Valid()
      ensures Model() == old(Model()).(universe := UniverseAddress(old(universe), u))
    {
      if Byte2Int(u) != 0x7f {
        if Byte2Int(u) >= 0x80 {
          universe := ToByte(Byte2Int(universe) / 16 * 16 + Byte2Int(u) % 8);
        }
      }
    }

    method SetSubnetAddress(s: int8)
      requires Valid()
      modifies this`universe
      ensures Valid()
      ensures Model() == old(Model()).(universe := SubnetAddress(old(universe), s))
    {
      if Byte2Int(s) != 0x7f {
        if Byte2Int(s) >= 0x80 {
          universe := ToByte(Byte2Int(universe) % 16 + Byte2Int(s) % 8 * 16);
        }
      }
    }

    method SetNetAddress(s: int8)
      requires Valid()
      modifies this`net
      ensures Valid()
      ensures Model() == old(Model()).(net := NetAddress(old(net), s))
    {
      if Byte2Int(s) >= 0x80 {
        net := (Byte2Int(s) % 8) as int8;
      }
    }

    /** readPacket's receive step: the zeroed packet buffer takes the datagram's bytes. */
    method ReceiveDatagram(datagram: seq<int8>) returns (length: int)
      requires Valid()
      modifies packetBuffer
      ensures Valid()
      ensures length == if |datagram| < ARTNET_BUFFER_MAX then |datagram| else ARTNET_BUFFER_MAX
      ensures Model() == old(Model()).(packet := Received(datagram))
    {
      var i := 0;
      while i < packetBuffer.Length
        invariant 0 <= i <= packetBuffer.Length
        invariant forall k :: 0 <= k < i ==> packetBuffer[k] == 0
      {
        packetBuffer[i] := 0;
        i := i + 1;
      }
      length := if |datagram| < ARTNET_BUFFER_MAX then |datagram| else ARTNET_BUFFER_MAX;
      i := 0;
      while i < length
        invariant 0 <= i <= length
        invariant forall k :: 0 <= k < i ==> packetBuffer[k] == datagram[k]
        invariant forall k :: i <= k < ARTNET_BUFFER_MAX ==> packetBuffer[k] == 0
      {
        packetBuffer[i] := datagram[i];
        i := i + 1;
      }
      assert packetBuffer[..] == Received(datagram);
    }

    /** The ArtDmx copy loop into `buf`, which faults once the slot count runs past the 512 entries. */
    method CopyLevels(buf: array<int8>, dmxlen: int) returns (fault: bool)
      requires Valid() && (buf == dmxBuffer1 || buf == dmxBuffer2)
      modifies buf
      ensures Valid()
      ensures buf[..] == CopiedLevels(old(buf[..]), packetBuffer[..], dmxlen, dmxSlots)
      ensures fault <==> dmxSlots > DMX_UNIVERSE_MAX
    {
      var j := 0;
      while j < dmxSlots
        invariant 0 <= j <= DMX_UNIVERSE_MAX
        invariant j <= dmxSlots
        invariant forall k :: 0 <= k < j ==> buf[k] == if k < dmxlen then packetBuffer[DMX_DATA_OFFSET + k] else 0
        invariant forall k :: j <= k < DMX_UNIVERSE_MAX ==> buf[k] == old(buf[k])
      {
        if j >= buf.Length {
          assert buf[..] == CopiedLevels(old(buf[..]), packetBuffer[..], dmxlen, dmxSlots);
          return true;
        }
        buf[j] := if j < dmxlen then packetBuffer[DMX_DATA_OFFSET + j] else 0;
        j := j + 1;
      }
      assert buf[..] == CopiedLevels(old(buf[..]), packetBuffer[..], dmxlen, dmxSlots);
      return false;
    }

    /** The ArtDmx branch of processDatagramPacket. */
    method ReceiveArtDmx(length: int, sender: InetAddress) returns (r: Result<int>)
      requires Valid()
      modifies this, dmxBuffer1, dmxBuffer2
      ensures Valid()
      ensures packetBuffer == old(packetBuffer) && dmxBuffer1 == old(dmxBuffer1) && dmxBuffer2 == old(dmxBuffer2)
      ensures (Model(), r) == ReceiveDmx(old(Model()), length, sender)
    {
      if universe == packetBuffer[14] && net == packetBuffer[15] && Byte2Int(packetBuffer[11]) >= PROTOCOL_VERSION {
        var dmxlen := Byte2Int(packetBuffer[16]) * 256 + Byte2Int(packetBuffer[17]);
        if length >= dmxlen + DMX_DATA_OFFSET {
          if dmxSource1.None? {
            dmxSource1 := Some(sender);
          }
          if dmxSource1 == Some(sender) {
            if dmxlen > dmxSlots {
              dmxSlots := dmxlen;
            }
            var fault := CopyLevels(dmxBuffer1, dmxlen);
            return if fault then Fault else Ok(ARTNET_ART_DMX);
          } else {
            if dmxSource2.None? {
              dmxSource2 := Some(sender);
            }
            if dmxSource2 == Some(sender) {
              if dmxlen > dmxSlots {
                dmxSlots := dmxlen;
              }
              var fault := CopyLevels(dmxBuffer2, dmxlen);
              return if fault then Fault else Ok(ARTNET_ART_DMX);
            }
          }
        }
      }
      return Ok(ARTNET_NOP);
    }

    /** setStringInByteArray(s, buf, start, true): the chars of `s`, then a NUL. */
    static method SetStringInByteArray(s: string, buf: array<int8>, start: int)
      requires 0 <= start && start + |s| < buf.Length
      modifies buf
      ensures forall k :: start <= k <= start + |s| ==> buf[k] == CString(s)[k - start]
      ensures forall k :: 0 <= k < buf.Length && !(start <= k <= start + |s|) ==> buf[k] == old(buf[k])
    {
      var i := 0;
      while i < |s|
        invariant 0 <= i <= |s|
        invariant forall k :: 0 <= k < buf.Length ==>
          buf[k] == if start <= k < start + i then CString(s)[k - start] else old(buf[k])
      {
        buf[start + i] := CharToByte(s[i]);
        i := i + 1;
      }
      buf[start + |s|] := 0;
    }

    /** The zeroing loop of parseArtAddress's cancel-merge command. */
    static method ZeroLevels(buf: array<int8>)
      modifies buf
      ensures buf[..] == Zeros(buf.Length)
    {
      var j := 0;
      while j < buf.Length
        invariant 0 <= j <= buf.Length
        invariant forall k :: 0 <= k < j ==> buf[k] == 0
      {
        buf[j] := 0;
        j := j + 1;
      }
      assert buf[..] == Zeros(buf.Length);
    }

    /** The fixed fields before the short name: identifier, opcode, IP address, port and manufacturer code. */
    static method WritePollReplyHeader(reply: array<int8>, a: InetAddress, u: int8)
      requires reply.Length == ARTNET_REPLY_SIZE
      requires forall k :: 0 <= k < ARTNET_REPLY_SIZE ==> reply[k] == 0
      modifies reply
      ensures forall k :: 0 <= k < 26 ==> reply[k] == PollReplyByte(a, u, k)
      ensures forall k :: 26 <= k < ARTNET_REPLY_SIZE ==> reply[k] == 0
    {
      SetStringInByteArray(ARTNET_ID, reply, 0);
      reply[8] := 0;
      reply[9] := 0x21;
      reply[10] := a.a;
      reply[11] := a.b;
      reply[12] := a.c;
      reply[13] := a.d;
      reply[14] := 0x36;
      reply[15] := 0x19;
      reply[24] := 0x50;
      reply[25] := 0x12;
      forall k | 0 <= k < 26
        ensures reply[k] == PollReplyByte(a, u, k)
      {
        if k < 8 {
          assert reply[k] == CString(ARTNET_ID)[k];
        }
      }
    }

    /** The two name fields. */
    static method WritePollReplyNames(reply: array<int8>, a: InetAddress, u: int8)
      requires reply.Length == ARTNET_REPLY_SIZE
      requires forall k :: 0 <= k < 26 ==> reply[k] == PollReplyByte(a, u, k)
      requires forall k :: 26 <= k < ARTNET_REPLY_SIZE ==> reply[k] == 0
      modifies reply
      ensures forall k :: 0 <= k < 173 ==> reply[k] == PollReplyByte(a, u, k)
      ensures forall k :: 173 <= k < ARTNET_REPLY_SIZE ==> reply[k] == 0
    {
      SetStringInByteArray(NODE_NAME, reply, 26);
      SetStringInByteArray(NODE_NAME, reply, 44);
    }

    /** sendArtPollReply: builds the 239-byte reply; reads the node and changes nothing. */
    method SendArtPollReply(toIp: InetAddress) returns (d: Datagram)
      requires Valid()
      ensures d == PollReply(Model(), toIp)
    {
      var reply := new int8[ARTNET_REPLY_SIZE];
      var i := 0;
      while i < ARTNET_REPLY_SIZE
        invariant 0 <= i <= ARTNET_REPLY_SIZE
        invariant forall k :: 0 <= k < i ==> reply[k] == 0
      {
        reply[i] := 0;
        i := i + 1;
      }
      WritePollReplyHeader(reply, myAddress, universe);
      WritePollReplyNames(reply, myAddress, universe);
      reply[173] := 1;
      reply[174] := -128;
      reply[182] := -128;
      reply[190] := universe;
      var to := if broadcastAddress.Some? then broadcastAddress.value else toIp;
      assert forall k :: 0 <= k < ARTNET_REPLY_SIZE ==> reply[k] == PollReplyByte(myAddress, universe, k);
      d := Datagram(reply[..], to);
    }

    /** parseArtAddress: applies the switches and the command of the ArtAddress in the packet buffer. */
    method ParseArtAddressPacket() returns (opcode: int)
      requires Valid()
      modifies this, packetBuffer, dmxBuffer1, dmxBuffer2
      ensures Valid()
      ensures packetBuffer == old(packetBuffer) && dmxBuffer1 == old(dmxBuffer1) && dmxBuffer2 == old(dmxBuffer2)
      ensures (Model(), opcode) == ParseArtAddress(old(Model()))
    {
      SetNetAddress(packetBuffer[12]);
      SetUniverseAddress(packetBuffer[100]);
      SetSubnetAddress(packetBuffer[104]);
      var command := Byte2Int(packetBuffer[106]);
      assert Valid();
      if command == 0x01 {
        dmxSource1 := None;
        dmxSource2 := None;
        ZeroLevels(dmxBuffer2);
        dmxSlots := 0;
      } else if command == 0x90 {
        dmxSource1 := None;
        dmxSource2 := None;
        ClearSlots();
        return ARTNET_ART_DMX;
      }
      return ARTNET_ART_ADDRESS;
    }

    /**
     * processDatagramPacket on the `length` bytes in the packet buffer from
     * `sender`; `accepts` is what the poll-reply listener answers if asked.
     */
    method ProcessDatagramPacket(length: int, sender: InetAddress, accepts: bool)
      returns (r: Result<int>, reply: Option<Datagram>, delivered: Option<PollReplyInfo.Info>)
      requires Valid()
      modifies this, packetBuffer, dmxBuffer1, dmxBuffer2
      ensures Valid()
      ensures packetBuffer == old(packetBuffer) && dmxBuffer1 == old(dmxBuffer1) && dmxBuffer2 == old(dmxBuffer2)
      ensures Processed(Model(), r, reply, delivered) == ProcessDatagram(old(Model()), length, sender, accepts)
    {
      var opcode := ParseHeader(packetBuffer[..]);
      reply, delivered := None, None;
      if opcode == ARTNET_ART_DMX {
        r := ReceiveArtDmx(length, sender);
      } else if opcode == ARTNET_ART_POLL {
        r := Ok(opcode);
        if Byte2Int(packetBuffer[11]) >= PROTOCOL_VERSION {
          var d := SendArtPollReply(sender);
          reply := Some(d);
        }
      } else if opcode == ARTNET_ART_ADDRESS {
        r := Ok(opcode);
        if length >= 107 && packetBuffer[11] >= PROTOCOL_VERSION as int8 {
          var op := ParseArtAddressPacket();
          r := Ok(op);
          var d := SendArtPollReply(sender);
          reply := Some(d);
        }
      } else {
        r := Ok(opcode);
        if opcode == ARTNET_ART_POLL_REPLY && hasReplyListener {
          var info := PollReplyInfo.Decode(packetBuffer[..], sender);
          delivered := Some(info);
          if accepts && sender != myAddress {
            outputNodeAddress := Some(sender);
          }
        }
      }
    }

    /** The ArtDmx header fields at 0..17. */
    static method WriteDmxHeader(pb: array<int8>, universe: int8, net: int8, slots: int, sq: int8)
      requires pb.Length == ARTNET_BUFFER_MAX
      modifies pb
      ensures forall k :: 0 <= k < DMX_DATA_OFFSET ==> pb[k] == DmxHeaderByte(universe, net, slots, sq, k)
      ensures forall k :: DMX_DATA_OFFSET <= k < ARTNET_BUFFER_MAX ==> pb[k] == old(pb[k])
    {
      SetStringInByteArray(ARTNET_ID, pb, 0);
      pb[8] := 0;
      pb[9] := 0x50;
      pb[10] := 0;
      pb[11] := PROTOCOL_VERSION as int8;
      pb[12] := sq;
      pb[13] := 0;
      pb[14] := universe;
      pb[15] := net;
      pb[16] := ToByte(slots / 256);
      pb[17] := ToByte(slots % 256);
      forall k | 0 <= k < DMX_DATA_OFFSET
        ensures pb[k] == DmxHeaderByte(universe, net, slots, sq, k)
      {
        if k < 8 {
          assert pb[k] == CString(ARTNET_ID)[k];
        }
      }
    }

    /** sendDMX: advances the sequence, fills the packet buffer and returns the bytes sent. */
    method SendDmx() returns (r: Result<seq<int8>>)
      requires Valid()
      modifies this`sequence, packetBuffer
      ensures Valid()
      ensures (Model(), r) == ArtNetSpec.SendDmx(old(Model()))
    {
      ghost var n := Model();
      if sequence == 0 {
        sequence := 1;
      } else {
        sequence := ToByte(sequence as int + 1);
      }
      WriteDmxHeader(packetBuffer, universe, net, dmxSlots, sequence);
      var fault := CopyLevelsOut(n);
      assert packetBuffer[..] == ArtNetSpec.SendDmx(n).0.packet;
      if fault {
        return Fault;
      }
      return Ok(packetBuffer[..dmxSlots + DMX_DATA_OFFSET]);
    }

    /** sendDMX's loop copying buffer 1 behind the header; faults once the slot count passes 512. */
    method CopyLevelsOut(ghost n: Node) returns (fault: bool)
      requires Valid() && ArtNetSpec.Valid(n) && n.slots == dmxSlots && n.buffer1 == dmxBuffer1[..]
      requires forall k :: DMX_DATA_OFFSET <= k < ARTNET_BUFFER_MAX ==> packetBuffer[k] == n.packet[k]
      modifies packetBuffer
      ensures Valid()
      ensures forall k :: 0 <= k < DMX_DATA_OFFSET ==> packetBuffer[k] == old(packetBuffer[k])
      ensures forall k :: DMX_DATA_OFFSET <= k < ARTNET_BUFFER_MAX ==>
        packetBuffer[k] == if k - DMX_DATA_OFFSET < dmxSlots then dmxBuffer1[k - DMX_DATA_OFFSET] else n.packet[k]
      ensures fault <==> dmxSlots > DMX_UNIVERSE_MAX
    {
      var j := 0;
      while j < dmxSlots
        invariant 0 <= j <= DMX_UNIVERSE_MAX && j <= dmxSlots
        invariant forall k :: 0 <= k < DMX_DATA_OFFSET ==> packetBuffer[k] == old(packetBuffer[k])
        invariant forall k :: DMX_DATA_OFFSET <= k < DMX_DATA_OFFSET + j ==> packetBuffer[k] == dmxBuffer1[k - DMX_DATA_OFFSET]
        invariant forall k :: DMX_DATA_OFFSET + j <= k < ARTNET_BUFFER_MAX ==> packetBuffer[k] == n.packet[k]
      {
        if j >= dmxBuffer1.Length {
          return true;
        }
        packetBuffer[DMX_DATA_OFFSET + j] := dmxBuffer1[j];
        j := j + 1;
      }
      return false;
    }
  }
}
