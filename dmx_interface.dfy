/**
 * What every DMX interface of the library shares: the universe size, the
 * minimum slot count, the `(byte)` narrowing of `setSlot(int, int)` and the
 * slot-level contract, plus the IPv4 identity of a network peer.
 */
module DmxInterface {
  import opened JavaBytes

  /** Slots in one DMX universe. */
  const DMX_UNIVERSE_MAX: int := 512
  /** The smallest slot count an interface sends. */
  const DMX_MIN_SLOTS: int := 24

  /** The IPv4 address of a peer (InetAddress.getAddress), compared by value. */
  datatype InetAddress = InetAddress(a: int8, b: int8, c: int8, d: int8)

  /** An outbound UDP packet. */
  datatype Datagram = Datagram(data: seq<int8>, to: InetAddress)

  /** The level contract of `getSlot`: 0..255. */
  predicate IsLevel(v: int)
  {
    0 <= v <= 255
  }

  /** `setSlot(slot, int value)` stores `(byte) value`: the level kept is `value` modulo 256. */
  function SlotByte(value: int): (b: int8)
    ensures IsLevel(Byte2Int(b))
    ensures Byte2Int(b) == value % 256
    ensures 0 <= value < 256 ==> Byte2Int(b) == value
  {
    ToByte(value)
  }

  /** `Math.max(slots, DMX_MIN_SLOTS)`. */
  function AtLeastMinSlots(slots: int): (r: int)
    ensures r >= DMX_MIN_SLOTS && r >= slots
    ensures r == slots || r == DMX_MIN_SLOTS
  {
    if slots > DMX_MIN_SLOTS then slots else DMX_MIN_SLOTS
  }
}
