/**
 * LXENTTEC, the pure half: the state of an ENTTEC DMX USB Pro widget
 * interface as a value, the serial library's readBytesUntil, the handling of
 * a "received DMX" message (label 5) once its bytes are in the packet buffer,
 * the "send DMX" message (label 6) it hands to the serial port, and a decoder
 * of the widget API's message framing to check that message against.
 */
module EnttecSpec {
  import opened Wrappers
  import opened JavaBytes
  import opened DmxInterface

  const ENTTEC_BUFFER_MAX: int := 518
  /** The packet buffer is 100 bytes longer than the largest message. */
  const ENTTEC_PACKET_BUFFER: int := ENTTEC_BUFFER_MAX + 100
  /** The level buffer holds the start code at 0 and 512 slots after it. */
  const ENTTEC_LEVELS: int := DMX_UNIVERSE_MAX + 1

  const ENTTEC_LABEL_NONE: int := 0
  const ENTTEC_LABEL_GET_INFO: int := 3
  const ENTTEC_LABEL_RECEIVED_DMX: int := 5
  const ENTTEC_LABEL_SEND_DMX: int := 6
  const ENTTEC_LABEL_RECEIVE_DMX: int := 8
  const ENTTEC_LABEL_GET_SERIAL: int := 10

  const ENTTEC_START_PACKET: int := 0x7E
  const ENTTEC_END_PACKET: int := 0xE7

  /** The fields of an LXENTTEC object; `connected` stands for a non-null serial port. */
  datatype Widget = Widget(packet: seq<int8>, buffer: seq<int8>, slots: int, connected: bool)

  /** Fixed buffer sizes; a received message can leave the slot count at -1 but never below. */
  predicate Valid(w: Widget)
  {
    |w.packet| == ENTTEC_PACKET_BUFFER && |w.buffer| == ENTTEC_LEVELS && w.slots >= -1
  }

  function Initial(connected: bool): Widget
  {
    Widget(seq(ENTTEC_PACKET_BUFFER, i => 0), seq(ENTTEC_LEVELS, i => 0), DMX_MIN_SLOTS, connected)
  }

  /** The label-5 copy loop: the first `count` entries (at most 513) take the bytes from offset 4. */
  function ReceivedLevels(buf: seq<int8>, pb: seq<int8>, count: int): (r: seq<int8>)
    requires |buf| == ENTTEC_LEVELS && |pb| == ENTTEC_PACKET_BUFFER
    ensures |r| == ENTTEC_LEVELS
  {
    seq(ENTTEC_LEVELS, j requires 0 <= j < ENTTEC_LEVELS => if j < count then pb[4 + j] else buf[j])
  }

  /** The length field of a received message: bytes 1 and 2, low byte first. */
  function MessageLength(pb: seq<int8>): (len: int)
    requires |pb| == ENTTEC_PACKET_BUFFER
    ensures 0 <= len < 0x10000
  {
    Byte2Int(pb[1]) + Byte2Int(pb[2]) * 256
  }

  /**
   * readSerialPacket after `size` bytes were read into the packet buffer: the
   * label is byte 0 read signed; a label-5 message with status 0 sets the slot
   * count to its length less one and copies `count` bytes from offset 4,
   * faulting once the copy runs past the 513-entry level buffer.
   */
  function ParseWithCopy(w: Widget, size: int, count: int): (Widget, Result<int>)
    requires Valid(w)
  {
    if size <= 1 then (w, Ok(ENTTEC_LABEL_NONE))
    else
      var labelCode := w.packet[0] as int;
      if labelCode == ENTTEC_LABEL_RECEIVED_DMX && w.packet[3] == 0 then
        (w.(slots := MessageLength(w.packet) - 1, buffer := ReceivedLevels(w.buffer, w.packet, count)),
         if count > ENTTEC_LEVELS then Fault else Ok(labelCode))
      else (w, Ok(labelCode))
  }

  /** The parse as written: the copy takes the whole message length, status byte included. */
  function ParsePacket(w: Widget, size: int): (Widget, Result<int>)
    requires Valid(w)
  {
    ParseWithCopy(w, size, MessageLength(w.packet))
  }

  /**
   * The parse as evidently intended: the status byte is not a level, so the
   * copy takes one byte fewer than the message length, the count the slot
   * count is set from.
   */
  function ParsePacketIntended(w: Widget, size: int): (Widget, Result<int>)
    requires Valid(w)
  {
    ParseWithCopy(w, size, MessageLength(w.packet) - 1)
  }

  /** The end delimiter as the signed byte the port delivers. */
  const ENTTEC_END_BYTE: int8 := ToByte(ENTTEC_END_PACKET)

  /** One past the first end delimiter in `avail`, or 0 when none has arrived. */
  function DelimitedLength(avail: seq<int8>): (n: nat)
    ensures n <= |avail|
    ensures n > 0 ==> avail[n - 1] == ENTTEC_END_BYTE
    ensures forall k :: 0 <= k < |avail| && (n == 0 || k < n - 1) ==> avail[k] != ENTTEC_END_BYTE
  {
    if |avail| == 0 then 0
    else if avail[0] == ENTTEC_END_BYTE then 1
    else
      var m := DelimitedLength(avail[1..]);
      if m == 0 then 0 else m + 1
  }

  /**
   * The serial library's readBytesUntil(0xE7, packet buffer) over the bytes
   * `avail` waiting after the start delimiter: the count and the bytes up to
   * and including the first end delimiter; 0 and nothing when no delimiter has
   * arrived; -1 and nothing when those bytes do not fit the packet buffer.
   */
  function ReadBytesUntilEnd(avail: seq<int8>): (r: (int, seq<int8>))
    ensures |r.1| <= ENTTEC_PACKET_BUFFER && r.1 <= avail
    ensures r.0 == |r.1| || (r.0 == -1 && r.1 == [])
    ensures r.0 > 0 ==> r.1[r.0 - 1] == ENTTEC_END_BYTE && forall k :: 0 <= k < r.0 - 1 ==> r.1[k] != ENTTEC_END_BYTE
  {
    var n := DelimitedLength(avail);
    if n > ENTTEC_PACKET_BUFFER then (-1, []) else (n as int, avail[..n])
  }

  /**
   * readSerialPacket: `delim` is the first byte available (None when nothing
   * is), `avail` the bytes waiting after it, of which readBytesUntil takes
   * those up to the first end delimiter. Only a start delimiter leads to a
   * parse.
   */
  function ReadSerialPacket(w: Widget, delim: Option<int>, avail: seq<int8>): (Widget, Result<int>)
    requires Valid(w)
  {
    if delim == Some(ENTTEC_START_PACKET) then
      var (size, read) := ReadBytesUntilEnd(avail);
      ParsePacket(w.(packet := read + w.packet[|read|..]), size)
    else (w, Ok(ENTTEC_LABEL_NONE))
  }

  /** readPacket: whether a connected widget delivered a label-5 message. */
  function ReadPacket(w: Widget, delim: Option<int>, avail: seq<int8>): (Widget, Result<bool>)
    requires Valid(w)
  {
    if !w.connected then (w, Ok(false))
    else
      var (m, r) := ReadSerialPacket(w, delim, avail);
      (m, if r.Fault? then Fault else Ok(r.value == ENTTEC_LABEL_RECEIVED_DMX))
  }

  /** The label-6 message for `dlen` bytes of levels: delimiters, label, length low byte first. */
  function SendFrame(levels: seq<int8>, dlen: int): (f: seq<int8>)
    requires 0 <= dlen <= |levels|
  {
    [ToByte(ENTTEC_START_PACKET), ToByte(ENTTEC_LABEL_SEND_DMX), ToByte(dlen % 256), ToByte(dlen / 256)]
    + levels[..dlen] + [ToByte(ENTTEC_END_PACKET)]
  }

  /** sendDMX(sPort): the message written, the start code and the slots; faults past 513 levels. */
  function SendDmx(w: Widget): Result<seq<int8>>
    requires Valid(w)
  {
    var dlen := w.slots + 1;
    if dlen > ENTTEC_LEVELS then Fault else Ok(SendFrame(w.buffer, dlen))
  }

  /** sendDMX(): nothing is written without a serial port. */
  function SendDmxIfConnected(w: Widget): Result<Option<seq<int8>>>
    requires Valid(w)
  {
    if !w.connected then Ok(None)
    else
      var r := SendDmx(w);
      if r.Fault? then Fault else Ok(Some(r.value))
  }

  /** A widget API message: its label and its data bytes. */
  datatype ApiMessage = ApiMessage(labelCode: int, data: seq<int8>)

  /**
   * The widget API's framing read independently of the sender: start
   * delimiter, label, 16-bit length low byte first, that many data bytes, end
   * delimiter.
   */
  function DecodeMessage(f: seq<int8>): (m: Option<ApiMessage>)
    ensures m.Some? ==> |f| == |m.value.data| + 5 && 0 <= m.value.labelCode < 256
  {
    if |f| < 5 || Byte2Int(f[0]) != ENTTEC_START_PACKET || Byte2Int(f[|f| - 1]) != ENTTEC_END_PACKET then None
    else
      var len := Byte2Int(f[2]) + Byte2Int(f[3]) * 256;
      if |f| != len + 5 then None else Some(ApiMessage(Byte2Int(f[1]), f[4..4 + len]))
  }
}
