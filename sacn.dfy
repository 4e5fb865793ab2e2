/**
 * LXSACN: an E1.31 node that accepts levels from up to two sources told
 * apart by CID, merges them by priority, and builds E1.31 data packets in its
 * packet buffer. Each method is proved against the function of SacnSpec that
 * says what it does to the node.
 */
module Sacn {
  import opened Wrappers
  import opened JavaBytes
  import opened DmxInterface
  import opened SacnSpec

  class SacnNode {
    /** Receives datagrams and holds the outgoing packet. */
    var packetBuffer: array<int8>
    /** Start code and levels to send, and those received from the first source. */
    var dmxBuffer1: array<int8>
    /** Start code and levels received from the second source. */
    var dmxBuffer2: array<int8>
    /** Slot count including the start code. */
    var dmxSlots: int
    var universe: int8
    var sequence: int8
    var multicastAddress: Option<InetAddress>
    /** CID of the first source; all zeros while unbound. */
    var dmxSource1: array<int8>
    var priority1: int8
    /** CID of the second source; all zeros while unbound. */
    var dmxSource2: array<int8>
    var priority2: int8
    /** The CID this node sends with. */
    var myCid: array<int8>

    /** The node's fields as a value. */
    function Model(): Node
      reads this, packetBuffer, dmxBuffer1, dmxBuffer2, dmxSource1, dmxSource2, myCid
    {
      Node(packetBuffer[..], dmxBuffer1[..], dmxBuffer2[..], dmxSlots, universe, sequence,
           dmxSource1[..], dmxSource2[..], priority1, priority2, myCid[..], multicastAddress)
    }

    ghost predicate Valid()
      reads this, packetBuffer, dmxBuffer1, dmxBuffer2, dmxSource1, dmxSource2, myCid
    {
      && dmxBuffer1 != dmxBuffer2
      && dmxSource1 != dmxSource2 && dmxSource1 != myCid && dmxSource2 != myCid
      && SacnSpec.Valid(Model())
    }

    constructor ()
      ensures Valid() && Model() == Initial(None)
    {
      packetBuffer := new int8[SACN_BUFFER_MAX](i => 0);
      dmxBuffer1 := new int8[SACN_LEVELS](i => 0);
      dmxBuffer2 := new int8[SACN_LEVELS](i => 0);
      dmxSource1 := new int8[SACN_CID_LENGTH](i => 0);
      dmxSource2 := new int8[SACN_CID_LENGTH](i => 0);
      myCid := new int8[SACN_CID_LENGTH](i => 0);
      dmxSlots := DMX_UNIVERSE_MAX;
      universe, sequence := 1, 0;
      priority1, priority2 := 100, 0;
      multicastAddress := None;
      new;
      ClearSlots();
      assert packetBuffer[..] == Zeros(SACN_BUFFER_MAX);
      assert Model() == Initial(None);
      InitialValid(None);
    }

    constructor WithMulticast(maddr: InetAddress)
      ensures Valid() && Model() == Initial(Some(maddr))
    {
      packetBuffer := new int8[SACN_BUFFER_MAX](i => 0);
      dmxBuffer1 := new int8[SACN_LEVELS](i => 0);
      dmxBuffer2 := new int8[SACN_LEVELS](i => 0);
      dmxSource1 := new int8[SACN_CID_LENGTH](i => 0);
      dmxSource2 := new int8[SACN_CID_LENGTH](i => 0);
      myCid := new int8[SACN_CID_LENGTH](i => 0);
      dmxSlots := DMX_UNIVERSE_MAX;
      universe, sequence := 1, 0;
      priority1, priority2 := 100, 0;
      multicastAddress := None;
      new;
      ClearSlots();
      multicastAddress := Some(maddr);
      assert packetBuffer[..] == Zeros(SACN_BUFFER_MAX);
      assert Model() == Initial(Some(maddr));
      InitialValid(Some(maddr));
    }

    /** getSlot: the priority-merged level of `slot`, 0 being the start code. */
    function GetSlot(slot: int): (level: int)
      reads this, packetBuffer, dmxBuffer1, dmxBuffer2, dmxSource1, dmxSource2, myCid
      requires Valid() && 0 <= slot < SACN_LEVELS
      ensures level == Level(Model(), slot)
    {
      if priority2 != 0 && priority2 > priority1 then Byte2Int(dmxBuffer2[slot])
      else if priority2 != 0 && priority2 == priority1 then
        var b1 := Byte2Int(dmxBuffer1[slot]);
        var b2 := Byte2Int(dmxBuffer2[slot]);
        if b1 > b2 then b1 else b2
      else Byte2Int(dmxBuffer1[slot])
    }

    /** setSlot: the level to send in `slot`. */
    method SetSlot(slot: int, value: int8)
      requires Valid() && 0 <= slot < SACN_LEVELS
      modifies dmxBuffer1
      ensures Valid()
      ensures Model() == old(Model()).(buffer1 := old(Model()).buffer1[slot := value])
    {
      dmxBuffer1[slot] := value;
    }

    /** clearSlots: zeroes all 513 entries of both level buffers. */
    method ClearSlots()
      requires dmxBuffer1 != dmxBuffer2 && packetBuffer.Length == SACN_BUFFER_MAX
      requires dmxSource1.Length == SACN_CID_LENGTH && dmxSource2.Length == SACN_CID_LENGTH && myCid.Length == SACN_CID_LENGTH
      requires dmxBuffer1.Length == SACN_LEVELS && dmxBuffer2.Length == SACN_LEVELS
      modifies dmxBuffer1, dmxBuffer2
      ensures Model() == old(Model()).(buffer1 := Zeros(SACN_LEVELS), buffer2 := Zeros(SACN_LEVELS))
    {
      var j := 0;
      while j < SACN_LEVELS
        invariant 0 <= j <= SACN_LEVELS
        invariant forall k :: 0 <= k < j ==> dmxBuffer1[k] == 0 && dmxBuffer2[k] == 0
      {
        dmxBuffer1[j] := 0;
        dmxBuffer2[j] := 0;
        j := j + 1;
      }
      assert dmxBuffer1[..] == Zeros(SACN_LEVELS);
      assert dmxBuffer2[..] == Zeros(SACN_LEVELS);
    }

    /** getNumberOfSlots: the slot count without the start code. */
    function GetNumberOfSlots(): int
      reads this
    {
      dmxSlots - 1
    }

    /** setNumberOfSlots: at least DMX_MIN_SLOTS, plus one entry for the start code. */
    method SetNumberOfSlots(slots: int)
      requires Valid()
      modifies this`dmxSlots
      ensures Valid()
      ensures Model() == old(Model()).(slots := AtLeastMinSlots(slots) + 1)
      ensures GetNumberOfSlots() == AtLeastMinSlots(slots)
    {
      dmxSlots := AtLeastMinSlots(slots) + 1;
    }

    /** getUniverse: the universe byte read unsigned. */
    function GetUniverse(): (u: int)
      reads this
      ensures 0 <= u < 256 && ToByte(u) == universe
    {
      Byte2Int(universe)
    }

    /** setUniverse: stores `(byte) u`. */
    method SetUniverse(u: int)
      requires Valid()
      modifies this`universe
      ensures Valid()
      ensures Model() == old(Model()).(universe := ToByte(u))
      ensures GetUniverse() == u % 256
    {
      universe := ToByte(u);
    }

    /** getStartCode: the merged level of slot 0. */
    function GetStartCode(): (c: int)
      reads this, packetBuffer, dmxBuffer1, dmxBuffer2, dmxSource1, dmxSource2, myCid
      requires Valid()
      ensures c == Level(Model(), 0)
    {
      GetSlot(0)
    }

    /** setStartCode: stores `(byte) c` in slot 0 of the first buffer. */
    method SetStartCode(c: int)
      requires Valid()
      modifies dmxBuffer1
      ensures Valid()
      ensures Model() == old(Model()).(buffer1 := old(Model()).buffer1[0 := SlotByte(c)])
      ensures Byte2Int(dmxBuffer1[0]) == c % 256
    {
      SetSlot(0, SlotByte(c));
    }

    /** packetPriorty: the first source's priority, read signed. */
    function PacketPriority(): (p: int)
      reads this
      ensures -128 <= p < 128 && ToByte(p) == priority1
    {
      priority1 as int
    }

    /** setPacketPriority: stores `(byte) p`. */
    method SetPacketPriority(p: int)
      requires Valid()
      modifies this`priority1
      ensures Valid()
      ensures Model() == old(Model()).(priority1 := ToByte(p))
      ensures (PacketPriority() - p) % TWO_8 == 0
    {
      priority1 := ToByte(p);
    }

    /** setCIDwithMACAddress: returns whether indexing the MAC faulted. */
    method SetCidWithMacAddress(mac: seq<int8>) returns (fault: bool)
      requires Valid()
      modifies myCid
      ensures Valid()
      ensures (Model().myCid, fault) == CidWithMac(old(Model()).myCid, mac)
      ensures Model() == old(Model()).(myCid := CidWithMac(old(Model()).myCid, mac).0)
    {
      var i := 0;
      while i < 6
        invariant 0 <= i <= 6 && i <= |mac|
        invariant forall k :: 0 <= k < SACN_CID_LENGTH ==> myCid[k] == if k < i then mac[k] else old(myCid[k])
      {
        if i >= |mac| {
          assert myCid[..] == CidWithMac(old(myCid[..]), mac).0;
          return true;
        }
        myCid[i] := mac[i];
        i := i + 1;
      }
      while i < SACN_CID_LENGTH
        invariant 6 <= i <= SACN_CID_LENGTH
        invariant forall k :: 0 <= k < SACN_CID_LENGTH ==>
          myCid[k] == if k < 6 then mac[k] else if k < i then CharToByte(CID_SUFFIX[k - 6]) else old(myCid[k])
      {
        myCid[i] := CharToByte(CID_SUFFIX[i - 6]);
        i := i + 1;
      }
      assert myCid[..] == CidWithMac(old(myCid[..]), mac).0;
      return false;
    }

    method SetMulticastAddress(maddr: Option<InetAddress>)
      requires Valid()
      modifies this`multicastAddress
      ensures Valid()
      ensures Model() == old(Model()).(multicast := maddr)
    {
      multicastAddress := maddr;
    }

    /** isEmptyUUIDBytes: whether every byte of `ba` is zero. */
    static method IsEmptyUuidBytes(ba: array<int8>) returns (r: bool)
      ensures r <==> IsEmptyCid(ba[..])
    {
      var i := 0;
      while i < ba.Length
        invariant 0 <= i <= ba.Length
        invariant forall k :: 0 <= k < i ==> ba[k] == 0
      {
        if ba[i] != 0 {
          return false;
        }
        i := i + 1;
      }
      return true;
    }

    /** isEqualUUIDBytes: whether `ba` equals the bytes of `ca` from `ci` on. */
    static method IsEqualUuidBytes(ba: array<int8>, ca: array<int8>, ci: int) returns (r: bool)
      requires 0 <= ci && ci + ba.Length <= ca.Length
      ensures r <==> ba[..] == ca[ci..ci + ba.Length]
    {
      var i := 0;
      while i < ba.Length
        invariant 0 <= i <= ba.Length
        invariant forall k :: 0 <= k < i ==> ba[k] == ca[ci + k]
      {
        if ba[i] != ca[ci + i] {
          assert ba[..][i] != ca[ci..ci + ba.Length][i];
          return false;
        }
        i := i + 1;
      }
      assert ba[..] == ca[ci..ci + ba.Length];
      return true;
    }

    /** The loop binding a source: the packet's CID copied into `dst`. */
    static method CopyCid(pb: array<int8>, dst: array<int8>)
      requires pb.Length == SACN_BUFFER_MAX && dst.Length == SACN_CID_LENGTH
      modifies dst
      ensures dst[..] == PacketCid(pb[..])
    {
      var k := 0;
      while k < SACN_CID_LENGTH
        invariant 0 <= k <= SACN_CID_LENGTH
        invariant forall j :: 0 <= j < k ==> dst[j] == pb[CID_OFFSET + j]
      {
        dst[k] := pb[CID_OFFSET + k];
        k := k + 1;
      }
      assert dst[..] == PacketCid(pb[..]);
    }

    /** The DMP copy loop into `buf`, which faults once the slot count runs past the 513 entries. */
    static method CopyLevels(buf: array<int8>, pb: array<int8>, count: int, slots: int) returns (fault: bool)
      requires buf.Length == SACN_LEVELS && pb.Length == SACN_BUFFER_MAX
      modifies buf
      ensures buf[..] == CopiedLevels(old(buf[..]), pb[..], count, slots)
      ensures fault <==> slots > SACN_LEVELS
    {
      var j := 0;
      while j < slots
        invariant 0 <= j <= SACN_LEVELS
        invariant j <= slots || j == 0
        invariant forall k :: 0 <= k < j ==> buf[k] == if k < count then pb[DMP_DATA_OFFSET + k] else 0
        invariant forall k :: j <= k < SACN_LEVELS ==> buf[k] == old(buf[k])
      {
        if j >= buf.Length {
          assert buf[..] == CopiedLevels(old(buf[..]), pb[..], count, slots);
          return true;
        }
        buf[j] := if j < count then pb[DMP_DATA_OFFSET + j] else 0;
        j := j + 1;
      }
      assert buf[..] == CopiedLevels(old(buf[..]), pb[..], count, slots);
      return false;
    }

    /** The binding step of parseDMPLayer for one source array. */
    static method BindSource(src: array<int8>, pb: array<int8>)
      requires pb.Length == SACN_BUFFER_MAX && src.Length == SACN_CID_LENGTH
      modifies src
      ensures src[..] == Bound(old(src[..]), PacketCid(pb[..]))
    {
      var empty := IsEmptyUuidBytes(src);
      if empty {
        CopyCid(pb, src);
      }
    }

    /** Accepting the packet's levels for the first (`first`) or second source. */
    method TakeLevels(first: bool, count: int, priority: int8) returns (r: Result<bool>)
      requires Valid()
      modifies this`dmxSlots, this`priority1, this`priority2, dmxBuffer1, dmxBuffer2
      ensures (Model(), r) == SacnSpec.TakeLevels(old(Model()), first, count, priority)
    {
      if count > dmxSlots {
        dmxSlots := count;
      }
      var fault;
      if first {
        priority1 := priority;
        fault := CopyLevels(dmxBuffer1, packetBuffer, count, dmxSlots);
      } else {
        priority2 := priority;
        fault := CopyLevels(dmxBuffer2, packetBuffer, count, dmxSlots);
      }
      r := if fault then Fault else Ok(true);
    }

    /** parseDMPLayer: binds the packet's CID to a free source and copies the levels of a bound one. */
    method ParseDmpLayer(size: int, priority: int8) returns (r: Result<bool>)
      requires Valid()
      modifies this`dmxSlots, this`priority1, this`priority2, dmxBuffer1, dmxBuffer2, dmxSource1, dmxSource2
      ensures Valid()
      ensures (Model(), r) == ParseDmp(old(Model()), size, priority)
    {
      ghost var n := Model();
      var tsize := size - 77;
      if CheckFlagsAndLength(packetBuffer[..], 115, tsize)
         && Byte2Int(packetBuffer[117]) == 0x02 && Byte2Int(packetBuffer[118]) == 0xa1 {
        var slots := Byte2Int(packetBuffer[124]) + Byte2Int(packetBuffer[123]) * 256;
        ghost var cid := PacketCid(packetBuffer[..]);
        BindSource(dmxSource1, packetBuffer);
        var equal := IsEqualUuidBytes(dmxSource1, packetBuffer, CID_OFFSET);
        if equal {
          assert Model() == n.(source1 := cid) && Valid();
          r := TakeLevels(true, slots, priority);
          return;
        }
        assert Model() == n;
        BindSource(dmxSource2, packetBuffer);
        equal := IsEqualUuidBytes(dmxSource2, packetBuffer, CID_OFFSET);
        if equal {
          assert Model() == n.(source2 := cid) && Valid();
          r := TakeLevels(false, slots, priority);
          return;
        }
        assert Model() == n;
      }
      return Ok(false);
    }

    /** parseFramingLayer: the framing checks and the universe match, then the DMP layer at the packet's priority. */
    method ParseFramingLayer(size: int) returns (r: Result<bool>)
      requires Valid()
      modifies this`dmxSlots, this`priority1, this`priority2, dmxBuffer1, dmxBuffer2, dmxSource1, dmxSource2
      ensures Valid()
      ensures (Model(), r) == ParseFraming(old(Model()), size)
    {
      var tsize := size - 22;
      if CheckFlagsAndLength(packetBuffer[..], 38, tsize) && Byte2Int(packetBuffer[43]) == 0x02
         && Byte2Int(packetBuffer[114]) == universe as int {
        r := ParseDmpLayer(tsize, packetBuffer[108]);
        return;
      }
      return Ok(false);
    }

    /** parseRootLayer: the root layer checks, then the framing layer. */
    method ParseRootLayer(size: int) returns (r: Result<bool>)
      requires Valid()
      modifies this`dmxSlots, this`priority1, this`priority2, dmxBuffer1, dmxBuffer2, dmxSource1, dmxSource2
      ensures Valid()
      ensures (Model(), r) == ParseRoot(old(Model()), size)
    {
      if Byte2Int(packetBuffer[1]) == 0x10 {
        var header := Latin1(packetBuffer[4..13]);
        if header == ACN_ID {
          var tsize := size - 16;
          if CheckFlagsAndLength(packetBuffer[..], 16, tsize) && Byte2Int(packetBuffer[21]) == 0x04 {
            r := ParseFramingLayer(tsize);
            return;
          }
        }
      }
      return Ok(false);
    }

    /** processDatagramPacket on the `length` bytes received into the packet buffer. */
    method ProcessDatagramPacket(length: int) returns (r: Result<bool>)
      requires Valid()
      modifies this`dmxSlots, this`priority1, this`priority2, dmxBuffer1, dmxBuffer2, dmxSource1, dmxSource2
      ensures Valid()
      ensures (Model(), r) == ProcessDatagram(old(Model()), length)
    {
      r := Ok(false);
      if length > 0 {
        r := ParseRootLayer(length);
      }
    }

    /** readPacket's receive step: the datagram's bytes over the packet buffer, which is not cleared first. */
    method ReceiveDatagram(datagram: seq<int8>) returns (length: int)
      requires Valid()
      modifies packetBuffer
      ensures Valid()
      ensures length == if |datagram| < SACN_BUFFER_MAX then |datagram| else SACN_BUFFER_MAX
      ensures Model() == old(Model()).(packet := Received(old(Model()).packet, datagram))
    {
      length := if |datagram| < SACN_BUFFER_MAX then |datagram| else SACN_BUFFER_MAX;
      var i := 0;
      while i < length
        invariant 0 <= i <= length
        invariant forall k :: 0 <= k < i ==> packetBuffer[k] == datagram[k]
        invariant forall k :: i <= k < SACN_BUFFER_MAX ==> packetBuffer[k] == old(packetBuffer[k])
      {
        packetBuffer[i] := datagram[i];
        i := i + 1;
      }
      assert packetBuffer[..] == Received(old(packetBuffer[..]), datagram);
    }

    /**
     * readPacket: receives `datagram`, parses it, and answers whether it
     * carried levels with start code 0; a fault while parsing answers false.
     */
    method ReadPacket(datagram: seq<int8>) returns (good: bool)
      requires Valid()
      modifies packetBuffer, this`dmxSlots, this`priority1, this`priority2, dmxBuffer1, dmxBuffer2, dmxSource1, dmxSource2
      ensures Valid()
      ensures (Model(), good) == SacnSpec.ReadPacket(old(Model()), datagram)
    {
      var length := ReceiveDatagram(datagram);
      var r := ProcessDatagramPacket(length);
      good := r == Ok(true) && GetStartCode() == 0;
    }

    /** sendDMX's first loop: the layer headers and the start code position are zeroed. */
    static method ZeroHeaders(pb: array<int8>)
      requires pb.Length == SACN_BUFFER_MAX
      modifies pb
      ensures forall k :: 0 <= k < DMP_DATA_OFFSET + 1 ==> pb[k] == 0
      ensures forall k :: DMP_DATA_OFFSET + 1 <= k < SACN_BUFFER_MAX ==> pb[k] == old(pb[k])
    {
      var n := 0;
      while n < DMP_DATA_OFFSET + 1
        invariant 0 <= n <= DMP_DATA_OFFSET + 1
        invariant forall k :: 0 <= k < n ==> pb[k] == 0
        invariant forall k :: n <= k < SACN_BUFFER_MAX ==> pb[k] == old(pb[k])
      {
        pb[n] := 0;
        n := n + 1;
      }
    }

    /** The root layer: preamble size, ACN identifier, flags and length, vector and CID. */
    static method WriteRootLayer(pb: array<int8>, cid: array<int8>, slots: int, priority: int8, universe: int8, sq: int8)
      requires pb.Length == SACN_BUFFER_MAX && cid.Length == SACN_CID_LENGTH
      requires forall k :: 0 <= k < DMP_DATA_OFFSET + 1 ==> pb[k] == 0
      modifies pb
      ensures forall k :: 0 <= k < 38 ==> pb[k] == HeaderByte(cid[..], slots, priority, universe, sq, k)
      ensures forall k :: 38 <= k < SACN_BUFFER_MAX ==> pb[k] == old(pb[k])
    {
      pb[1] := 0x10;
      var i := 0;
      while i < |ACN_ID|
        invariant 0 <= i <= |ACN_ID|
        invariant forall k :: 0 <= k < SACN_BUFFER_MAX ==>
          pb[k] == if 4 <= k < 4 + i then CharToByte(ACN_ID[k - 4]) else if k == 1 then 0x10 else old(pb[k])
      {
        pb[4 + i] := CharToByte(ACN_ID[i]);
        i := i + 1;
      }
      pb[16] := FlagsAndLength(slots + 109).0;
      pb[17] := FlagsAndLength(slots + 109).1;
      pb[21] := 0x04;
      i := 0;
      while i < cid.Length
        invariant 0 <= i <= cid.Length
        invariant forall k :: 0 <= k < 22 ==> pb[k] == HeaderByte(cid[..], slots, priority, universe, sq, k)
        invariant forall k :: 22 <= k < 22 + i ==> pb[k] == cid[k - 22]
        invariant forall k :: 22 + i <= k < SACN_BUFFER_MAX ==> pb[k] == old(pb[k])
      {
        pb[CID_OFFSET + i] := cid[i];
        i := i + 1;
      }
    }

    /** The framing layer: flags and length, vector, source name, priority, sequence and universe. */
    static method WriteFramingLayer(pb: array<int8>, ghost cid: seq<int8>, slots: int, priority: int8, universe: int8, sq: int8)
      requires pb.Length == SACN_BUFFER_MAX && |cid| == SACN_CID_LENGTH
      requires forall k :: 38 <= k < DMP_DATA_OFFSET + 1 ==> pb[k] == 0
      modifies pb
      ensures forall k :: 38 <= k < 115 ==> pb[k] == HeaderByte(cid, slots, priority, universe, sq, k)
      ensures forall k :: 0 <= k < SACN_BUFFER_MAX && !(38 <= k < 115) ==> pb[k] == old(pb[k])
    {
      pb[38] := FlagsAndLength(slots + 87).0;
      pb[39] := FlagsAndLength(slots + 87).1;
      pb[43] := 0x02;
      var i := 0;
      while i < |SOURCE_NAME|
        invariant 0 <= i <= |SOURCE_NAME|
        invariant forall k :: 0 <= k < SACN_BUFFER_MAX ==>
          pb[k] == if 44 <= k < 44 + i then CharToByte(SOURCE_NAME[k - 44])
                   else if k == 38 || k == 39 || k == 43 then HeaderByte(cid, slots, priority, universe, sq, k)
                   else old(pb[k])
      {
        pb[44 + i] := CharToByte(SOURCE_NAME[i]);
        i := i + 1;
      }
      pb[108] := priority;
      pb[111] := sq;
      pb[113] := 0;
      pb[114] := universe;
    }

    /** The DMP layer header: flags and length, vector, address type, increment and slot count. */
    static method WriteDmpLayer(pb: array<int8>, ghost cid: seq<int8>, slots: int, priority: int8, universe: int8, sq: int8)
      requires pb.Length == SACN_BUFFER_MAX && |cid| == SACN_CID_LENGTH
      requires forall k :: 115 <= k < DMP_DATA_OFFSET + 1 ==> pb[k] == 0
      modifies pb
      ensures forall k :: 115 <= k < DMP_DATA_OFFSET + 1 ==> pb[k] == HeaderByte(cid, slots, priority, universe, sq, k)
      ensures forall k :: 0 <= k < SACN_BUFFER_MAX && !(115 <= k < DMP_DATA_OFFSET + 1) ==> pb[k] == old(pb[k])
    {
      pb[115] := FlagsAndLength(slots + 10).0;
      pb[116] := FlagsAndLength(slots + 10).1;
      pb[117] := 0x02;
      pb[118] := ToByte(0xa1);
      pb[122] := 0x01;
      pb[123] := ToByte(slots / 256);
      pb[124] := ToByte(slots % 256);
    }

    /** sendDMX's loop copying buffer 1 from offset 125; faults once the slot count passes 513. */
    static method CopyLevelsOut(pb: array<int8>, buf: array<int8>, slots: int) returns (fault: bool)
      requires pb.Length == SACN_BUFFER_MAX && buf.Length == SACN_LEVELS
      modifies pb
      ensures forall k :: 0 <= k < DMP_DATA_OFFSET ==> pb[k] == old(pb[k])
      ensures forall k :: DMP_DATA_OFFSET <= k < SACN_BUFFER_MAX ==>
        pb[k] == if k - DMP_DATA_OFFSET < slots then buf[k - DMP_DATA_OFFSET] else old(pb[k])
      ensures fault <==> slots > SACN_LEVELS
    {
      var j := 0;
      while j < slots
        invariant 0 <= j <= SACN_LEVELS
        invariant j <= slots || j == 0
        invariant forall k :: 0 <= k < DMP_DATA_OFFSET ==> pb[k] == old(pb[k])
        invariant forall k :: DMP_DATA_OFFSET <= k < DMP_DATA_OFFSET + j ==> pb[k] == buf[k - DMP_DATA_OFFSET]
        invariant forall k :: DMP_DATA_OFFSET + j <= k < SACN_BUFFER_MAX ==> pb[k] == old(pb[k])
      {
        if j >= buf.Length {
          return true;
        }
        pb[DMP_DATA_OFFSET + j] := buf[j];
        j := j + 1;
      }
      return false;
    }

    /** sendDMX(socket, to_ip): advances the sequence, fills the packet buffer and returns the datagram sent. */
    method SendDmx(to: InetAddress) returns (r: Result<Datagram>)
      requires Valid()
      modifies this`sequence, packetBuffer
      ensures Valid()
      ensures (Model(), r) == SacnSpec.SendDmx(old(Model()), to)
    {
      ghost var n := Model();
      if sequence == 0 {
        sequence := 1;
      } else {
        sequence := ToByte(sequence as int + 1);
      }
      var fault := FillDmxPacket(n, sequence);
      if fault {
        return Fault;
      }
      return Ok(Datagram(packetBuffer[..DMP_DATA_OFFSET + dmxSlots], to));
    }

    /** The packet buffer of sendDMX: headers zeroed and written for sequence `sq`, then the levels. */
    method FillDmxPacket(ghost n: Node, sq: int8) returns (fault: bool)
      requires Valid() && n == Model().(sequence := n.sequence)
      modifies packetBuffer
      ensures packetBuffer[..] == seq(SACN_BUFFER_MAX, i requires 0 <= i < SACN_BUFFER_MAX => DmxPacketByte(n, sq, i))
      ensures fault <==> n.slots > SACN_LEVELS
    {
      ZeroHeaders(packetBuffer);
      WriteRootLayer(packetBuffer, myCid, dmxSlots, priority1, universe, sq);
      WriteFramingLayer(packetBuffer, myCid[..], dmxSlots, priority1, universe, sq);
      WriteDmpLayer(packetBuffer, myCid[..], dmxSlots, priority1, universe, sq);
      fault := CopyLevelsOut(packetBuffer, dmxBuffer1, dmxSlots);
      assert forall i :: 0 <= i < SACN_BUFFER_MAX ==> packetBuffer[i] == DmxPacketByte(n, sq, i);
    }

    /** sendDMX(socket): sends to the multicast address when one is set. */
    method SendDmxMulticast() returns (r: Result<Option<Datagram>>)
      requires Valid()
      modifies this`sequence, packetBuffer
      ensures Valid()
      ensures (Model(), r) == SacnSpec.SendDmxMulticast(old(Model()))
    {
      r := Ok(None);
      if multicastAddress.Some? {
        var s := SendDmx(multicastAddress.value);
        r := if s.Fault? then Fault else Ok(Some(s.value));
      }
    }
  }
}
