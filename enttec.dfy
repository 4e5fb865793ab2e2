/**
 * LXENTTEC: a DMX interface through an ENTTEC DMX USB Pro widget, with one
 * level buffer that received messages overwrite and that sendDMX frames for
 * the widget. Each method is proved against the function of EnttecSpec that
 * says what it does.
 */
module Enttec {
  import opened Wrappers
  import opened JavaBytes
  import opened DmxInterface
  import opened EnttecSpec

  class EnttecWidget {
    /** Receives the bytes of a message after its start delimiter. */
    var packetBuffer: array<int8>
    /** Start code at 0, then the levels. */
    var dmxBuffer: array<int8>
    var dmxSlots: int
    /** Whether the object holds a serial port. */
    var connected: bool

    function Model(): Widget
      reads this, packetBuffer, dmxBuffer
    {
      Widget(packetBuffer[..], dmxBuffer[..], dmxSlots, connected)
    }

    ghost predicate Valid()
      reads this, packetBuffer, dmxBuffer
    {
      EnttecSpec.Valid(Model())
    }

    /** LXENTTEC(): no serial port. */
    constructor ()
      ensures Valid() && Model() == Initial(false)
    {
      packetBuffer := new int8[ENTTEC_PACKET_BUFFER](i => 0);
      dmxBuffer := new int8[ENTTEC_LEVELS](i => 0);
      dmxSlots := DMX_MIN_SLOTS;
      connected := false;
    }

    /** LXENTTEC(sPort). */
    constructor WithSerialPort()
      ensures Valid() && Model() == Initial(true)
    {
      packetBuffer := new int8[ENTTEC_PACKET_BUFFER](i => 0);
      dmxBuffer := new int8[ENTTEC_LEVELS](i => 0);
      dmxSlots := DMX_MIN_SLOTS;
      connected := true;
    }

    /** getSlot: the unsigned level at `slot`, 0 being the start code. */
    function GetSlot(slot: int): (level: int)
      reads this, dmxBuffer
      requires 0 <= slot < dmxBuffer.Length
      ensures IsLevel(level) && ToByte(level) == dmxBuffer[slot]
    {
      ByteRoundTrip(dmxBuffer[slot], 0);
      Byte2Int(dmxBuffer[slot])
    }

    method SetSlot(slot: int, value: int8)
      requires Valid() && 0 <= slot < ENTTEC_LEVELS
      modifies dmxBuffer
      ensures Valid()
      ensures Model() == old(Model()).(buffer := old(Model()).buffer[slot := value])
    {
      dmxBuffer[slot] := value;
    }

    /** setSlot(int, int): stores `(byte) value`. */
    method SetSlotLevel(slot: int, value: int)
      requires Valid() && 0 <= slot < ENTTEC_LEVELS
      modifies dmxBuffer
      ensures Valid()
      ensures Model() == old(Model()).(buffer := old(Model()).buffer[slot := SlotByte(value)])
      ensures GetSlot(slot) == value % 256
    {
      SetSlot(slot, SlotByte(value));
    }

    /** clearSlots: zeroes all 513 entries and nothing else. */
    method ClearSlots()
      requires Valid()
      modifies dmxBuffer
      ensures Valid()
      ensures Model() == old(Model()).(buffer := seq(ENTTEC_LEVELS, i => 0))
    {
      var j := 0;
      while j < ENTTEC_LEVELS
        invariant 0 <= j <= ENTTEC_LEVELS
        invariant forall k :: 0 <= k < j ==> dmxBuffer[k] == 0
      {
        dmxBuffer[j] := 0;
        j := j + 1;
      }
      assert dmxBuffer[..] == seq(ENTTEC_LEVELS, i => 0);
    }

    function GetNumberOfSlots(): int
      reads this
    {
      dmxSlots
    }

    /** setNumberOfSlots: at least DMX_MIN_SLOTS. */
    method SetNumberOfSlots(slots: int)
      requires Valid()
      modifies this`dmxSlots
      ensures Valid()
      ensures Model() == old(Model()).(slots := AtLeastMinSlots(slots))
      ensures GetNumberOfSlots() == AtLeastMinSlots(slots)
    {
      dmxSlots := AtLeastMinSlots(slots);
    }

    /** getStartCode: the level at slot 0. */
    function GetStartCode(): (c: int)
      reads this, dmxBuffer
      requires 0 < dmxBuffer.Length
      ensures IsLevel(c) && ToByte(c) == dmxBuffer[0]
    {
      GetSlot(0)
    }

    /** setStartCode: stores `(byte) c` in slot 0. */
    method SetStartCode(c: int)
      requires Valid()
      modifies dmxBuffer
      ensures Valid()
      ensures Model() == old(Model()).(buffer := old(Model()).buffer[0 := SlotByte(c)])
      ensures GetStartCode() == c % 256
    {
      SetSlotLevel(0, c);
    }

    /** readBytesUntil's copy: the bytes read stored from the start of the packet buffer. */
    method ReceiveBytes(read: seq<int8>)
      requires Valid() && |read| <= ENTTEC_PACKET_BUFFER
      modifies packetBuffer
      ensures Valid()
      ensures Model() == old(Model()).(packet := read + old(Model()).packet[|read|..])
    {
      var i := 0;
      while i < |read|
        invariant 0 <= i <= |read|
        invariant forall k :: 0 <= k < ENTTEC_PACKET_BUFFER ==> packetBuffer[k] == if k < i then read[k] else old(packetBuffer[k])
      {
        packetBuffer[i] := read[i];
        i := i + 1;
      }
      assert packetBuffer[..] == read + old(packetBuffer[..])[|read|..];
    }

    /** The label-5 copy loop; faults once it runs past the level buffer. */
    method CopyReceivedLevels(count: int) returns (fault: bool)
      requires Valid()
      modifies dmxBuffer
      ensures Valid()
      ensures dmxBuffer[..] == ReceivedLevels(old(dmxBuffer[..]), packetBuffer[..], count)
      ensures fault <==> count > ENTTEC_LEVELS
    {
      var j := 0;
      while j < count
        invariant 0 <= j <= ENTTEC_LEVELS
        invariant j <= count || j == 0
        invariant forall k :: 0 <= k < ENTTEC_LEVELS ==> dmxBuffer[k] == if k < j then packetBuffer[4 + k] else old(dmxBuffer[k])
      {
        if j >= dmxBuffer.Length {
          assert dmxBuffer[..] == ReceivedLevels(old(dmxBuffer[..]), packetBuffer[..], count);
          return true;
        }
        dmxBuffer[j] := packetBuffer[4 + j];
        j := j + 1;
      }
      assert dmxBuffer[..] == ReceivedLevels(old(dmxBuffer[..]), packetBuffer[..], count);
      return false;
    }

    /** readSerialPacket's handling of the `size` bytes read into the packet buffer. */
    method ParseSerialPacket(size: int) returns (r: Result<int>)
      requires Valid()
      modifies this`dmxSlots, dmxBuffer
      ensures Valid()
      ensures (Model(), r) == ParsePacket(old(Model()), size)
    {
      r := Ok(ENTTEC_LABEL_NONE);
      if size > 1 {
        var labelCode := packetBuffer[0] as int;
        r := Ok(labelCode);
        if labelCode == ENTTEC_LABEL_RECEIVED_DMX {
          if packetBuffer[3] == 0 {
            var slots := Byte2Int(packetBuffer[1]);
            slots := slots + Byte2Int(packetBuffer[2]) * 256;
            dmxSlots := slots - 1;
            var fault := CopyReceivedLevels(slots);
            if fault {
              r := Fault;
            }
          }
        }
      }
    }

    /**
     * readSerialPacket(sPort): `delim` is the first byte available, `avail`
     * the bytes waiting after it; readBytesUntil stores those up to the first
     * end delimiter.
     */
    method ReadSerialPacket(delim: Option<int>, avail: seq<int8>) returns (r: Result<int>)
      requires Valid()
      modifies packetBuffer, this`dmxSlots, dmxBuffer
      ensures Valid()
      ensures (Model(), r) == EnttecSpec.ReadSerialPacket(old(Model()), delim, avail)
    {
      r := Ok(ENTTEC_LABEL_NONE);
      if delim == Some(ENTTEC_START_PACKET) {
        var (size, read) := ReadBytesUntilEnd(avail);
        ReceiveBytes(read);
        r := ParseSerialPacket(size);
      }
    }

    /** readPacket: whether a label-5 message arrived through the serial port. */
    method ReadPacket(delim: Option<int>, avail: seq<int8>) returns (r: Result<bool>)
      requires Valid()
      modifies packetBuffer, this`dmxSlots, dmxBuffer
      ensures Valid()
      ensures (Model(), r) == EnttecSpec.ReadPacket(old(Model()), delim, avail)
    {
      if connected {
        var labelCode := ReadSerialPacket(delim, avail);
        return if labelCode.Fault? then Fault else Ok(labelCode.value == ENTTEC_LABEL_RECEIVED_DMX);
      }
      return Ok(false);
    }

    /** sendDMX(sPort): builds the label-6 message in a fresh array; reads the widget and changes nothing. */
    method SendDmx() returns (r: Result<seq<int8>>)
      requires Valid()
      ensures r == EnttecSpec.SendDmx(Model())
    {
      var dlen := dmxSlots + 1;
      var buffer := new int8[dlen + 5];
      buffer[0] := ToByte(ENTTEC_START_PACKET);
      buffer[1] := ToByte(ENTTEC_LABEL_SEND_DMX);
      buffer[2] := ToByte(dlen % 256);
      buffer[3] := ToByte(dlen / 256);
      var j := 0;
      while j < dlen
        invariant 0 <= j <= dlen && j <= ENTTEC_LEVELS
        invariant buffer[0] == ToByte(ENTTEC_START_PACKET) && buffer[1] == ToByte(ENTTEC_LABEL_SEND_DMX)
        invariant buffer[2] == ToByte(dlen % 256) && buffer[3] == ToByte(dlen / 256)
        invariant forall k :: 0 <= k < j ==> buffer[4 + k] == dmxBuffer[k]
      {
        if j >= dmxBuffer.Length {
          return Fault;
        }
        buffer[4 + j] := dmxBuffer[j];
        j := j + 1;
      }
      buffer[4 + dlen] := ToByte(ENTTEC_END_PACKET);
      assert buffer[..] == SendFrame(dmxBuffer[..], dlen);
      return Ok(buffer[..]);
    }

    /** sendDMX(): writes nothing without a serial port. */
    method SendDmxIfConnected() returns (r: Result<Option<seq<int8>>>)
      requires Valid()
      ensures r == EnttecSpec.SendDmxIfConnected(Model())
    {
      if connected {
        var s := SendDmx();
        return if s.Fault? then Fault else Ok(Some(s.value));
      }
      return Ok(None);
    }
  }
}
