/**
 * LXDNSReplyRecord: one record of an mDNS packet as the discoverer decodes
 * it. The class field's top bit is the cache-flush flag of section 10.2 of
 * RFC 6762; the record also says where the next record of the packet starts.
 */
module DnsRecord {
  import opened Wrappers
  import opened JavaBytes

  const CLASS_MASK: int := 0x7FFF
  const CACHE_FLUSH_BIT: int := 0x8000

  /** A record's fields; `data` is null for questions and for names read on their own. */
  datatype RecordValue = RecordValue(name: string, qtype: int, qclass: int, timeToLive: int,
                                     pointer: int, data: Option<seq<int8>>)

  /** `qclass & 0x7FFF`: the class without the cache-flush bit (the low 15 bits, also of a negative `int`). */
  function ClassOf(qclass: int): (r: int)
    ensures 0 <= r < CACHE_FLUSH_BIT
    ensures (qclass - r) % CACHE_FLUSH_BIT == 0
  {
    qclass % CACHE_FLUSH_BIT
  }

  /** `(qclass & 0x8000) != 0`: bit 15 of the two's-complement value. */
  predicate CacheFlushOf(qclass: int)
  {
    (qclass / CACHE_FLUSH_BIT) % 2 == 1
  }

  /** A 16-bit class field is the flag bit plus the class: the two getters split it without loss. */
  lemma {:induction false} ClassSplit(qclass: int)
    requires 0 <= qclass < TWO_16
    ensures qclass == (if CacheFlushOf(qclass) then CACHE_FLUSH_BIT else 0) + ClassOf(qclass)
    ensures CacheFlushOf(qclass) <==> qclass >= CACHE_FLUSH_BIT
  {
  }

  /** `getNextLocation`: the data start when there is no data, else the index just past the data. */
  function NextLocation(v: RecordValue): (r: int)
    ensures v.data.None? ==> r == v.pointer
    ensures v.data.Some? ==> r - v.pointer == |v.data.value|
  {
    match v.data
    case None => v.pointer
    case Some(d) => v.pointer + |d|
  }

  class ReplyRecord {
    var name: string
    var packetid: int
    var qtype: int
    var qclass: int
    var timeToLive: int
    var pointer: int
    var data: Option<seq<int8>>

    /** The decoded fields, without the packet id. */
    function Value(): RecordValue
      reads this
    {
      RecordValue(name, qtype, qclass, timeToLive, pointer, data)
    }

    /** The constructor stores every field as given; the packet id starts at Java's default 0. */
    constructor (n: string, qt: int, qc: int, ttl: int, p: int, d: Option<seq<int8>>)
      ensures Value() == RecordValue(n, qt, qc, ttl, p, d)
      ensures packetid == 0
    {
      name, qtype, qclass, timeToLive, pointer, data := n, qt, qc, ttl, p, d;
      packetid := 0;
    }

    /** `setPacketID`: `packetID()` then reads back `i`, and the decoded fields are as they were. */
    method SetPacketID(i: int)
      modifies this`packetid
      ensures PacketID() == i
      ensures Value() == old(Value())
    {
      packetid := i;
    }

    function PacketID(): int
      reads this
    {
      packetid
    }

    function QClass(): int
      reads this
    {
      ClassOf(qclass)
    }

    predicate CacheFlag()
      reads this
    {
      CacheFlushOf(qclass)
    }

    function GetNextLocation(): int
      reads this
    {
      NextLocation(Value())
    }
  }
}
