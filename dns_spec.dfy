/**
 * What LXmDNSDiscoverer computes, as functions over the packet bytes: the
 * name of a record (labels of section 3.1 of RFC 1035, with the compression
 * pointers of section 4.1.4), the rest of a question or resource record
 * (sections 4.1.2 and 4.1.3), the walk over the four sections a header
 * (section 4.1.1) counts, and the query `sendSearch` builds.
 *
 * Java's exceptions are outcomes: `Threw` for an index out of bounds (the
 * discoverer catches it), `TooDeep` for a pointer chain deeper than the
 * stack allows (a StackOverflowError, which it does not catch).
 */
module MdnsSpec {
  import opened Wrappers
  import opened JavaBytes
  import opened DnsRecord
  import OscMatch

  const HEADER_LENGTH: int := 12
  const PACKET_BUFFER_LENGTH: int := 1024
  const SEARCH_BUFFER_LENGTH: int := 255
  /** The two top bits of a length byte that mark a pointer. */
  const POINTER_FLAGS: int := 0xC0
  /** The 6 offset bits a pointer's first byte carries. */
  const POINTER_MASK: int := 0x3F
  /** The mask the source applies instead: it drops the offset bit 0x10. */
  const POINTER_MASK_AS_WRITTEN: int := 0x2F
  /** Flags byte of a standard response with no error. */
  const RESPONSE_FLAGS: int := 0x84
  /** The class `sendSearch` asks for (IN). */
  const CLASS_IN: int := 1

  /** How a read ends: a value, an exception the discoverer catches, or a stack overflow. */
  datatype Read<T> = Got(value: T) | Threw | TooDeep

  /** `a & b` on values 0..255. */
  function BitAnd8(a: int, b: int): (r: int)
    requires 0 <= a < TWO_8 && 0 <= b < TWO_8
    ensures 0 <= r < TWO_8
  {
    ((a as bv8) & (b as bv8)) as int
  }

  /** The big-endian unsigned 16-bit value at `i`. */
  function Word16(buf: seq<int8>, i: int): (r: int)
    requires 0 <= i && i + 1 < |buf|
    ensures 0 <= r < TWO_16
  {
    Byte2Int(buf[i]) * TWO_8 + Byte2Int(buf[i + 1])
  }

  /** The big-endian unsigned 32-bit value at `i`. */
  function Word32(buf: seq<int8>, i: int): (r: int)
    requires 0 <= i && i + 3 < |buf|
    ensures 0 <= r < TWO_32
  {
    Word16(buf, i) * TWO_16 + Word16(buf, i + 2)
  }

  /**
   * `Arrays.copyOfRange(buf, from, to)`: the bytes from `from`, padded with
   * zeros past the end of `buf`.
   */
  function CopyOfRange(buf: seq<int8>, from: int, to: int): (r: seq<int8>)
    requires 0 <= from <= |buf| && from <= to
    ensures |r| == to - from
    ensures forall i :: 0 <= i < |r| ==> r[i] == if from + i < |buf| then buf[from + i] else 0
  {
    seq(to - from, i requires 0 <= i < to - from => if from + i < |buf| then buf[from + i] else 0)
  }

  /** The name buffer after one more piece: a '.' goes between pieces. */
  function Dot(sb: string, piece: string): (r: string)
    ensures sb == [] ==> r == piece
    ensures sb != [] ==> r == sb + "." + piece
  {
    if sb == [] then piece else sb + "." + piece
  }

  /** The two offset masks: the one of section 4.1.4 of RFC 1035, and the one the source applies. */
  predicate IsOffsetMask(mask: int)
  {
    mask == POINTER_MASK || mask == POINTER_MASK_AS_WRITTEN
  }

  /** `(l & 0xC0) == 0xC0`: the two top bits are set. */
  predicate IsPointer(l: int)
    requires 0 <= l < TWO_8
  {
    l >= POINTER_FLAGS
  }

  /** `l & mask` for the first byte `l` of a pointer, in arithmetic: the 0x2F mask drops bit 4. */
  function HighOffset(l: int, mask: int): (r: int)
    requires 0 <= l < TWO_8 && IsPointer(l) && IsOffsetMask(mask)
    ensures 0 <= r < 64
  {
    var x := l - POINTER_FLAGS;
    if mask == POINTER_MASK || x < 16 || 32 <= x < 48 then x else x - 16
  }

  /** Where a pointer whose bytes are `l` and `low` points, with the given offset mask. */
  function PointerTarget(l: int, low: int, mask: int): int
    requires 0 <= l < TWO_8 && IsPointer(l) && IsOffsetMask(mask)
  {
    low + HighOffset(l, mask) * TWO_8
  }

  /** The arithmetic forms above are the source's bit masks. */
  lemma {:induction false} MasksAreArithmetic(l: int)
    requires 0 <= l < TWO_8
    ensures IsPointer(l) <==> BitAnd8(l, POINTER_FLAGS) == POINTER_FLAGS
    ensures IsPointer(l) ==> HighOffset(l, POINTER_MASK) == BitAnd8(l, POINTER_MASK)
    ensures IsPointer(l) ==> HighOffset(l, POINTER_MASK_AS_WRITTEN) == BitAnd8(l, POINTER_MASK_AS_WRITTEN)
  {
    var b := l as bv8;
    assert b as int == l;
    assert ((b & 0xC0) == 0xC0) <==> b >= 0xC0;
    if b >= 0xC0 {
      assert b & 0x3F == b - 0xC0;
      var x := b - 0xC0;
      assert b & 0x2F == if x < 16 || 32 <= x < 48 then x else x - 16;
    }
  }

  /**
   * The label loop of `readReplyRecordFromPacket` from cursor `s`, with `sb`
   * the name read so far: the name and the index of its last byte (the zero
   * terminator, or the second byte of the pointer that ends it). A pointer
   * is resolved by a nested read, `depth` deep at most.
   */
  function NameFrom(buf: seq<int8>, s: int, sb: string, depth: nat, mask: int): (r: Read<(string, int)>)
    requires IsOffsetMask(mask)
    ensures r.Got? ==> 0 <= s <= r.value.1 < |buf|
    decreases depth, |buf| - s
  {
    if s < 0 || s >= |buf| then Threw
    else
      var l := Byte2Int(buf[s]);
      if l == 0 then Got((sb, s))
      else if IsPointer(l) then
        if s + 1 >= |buf| then Threw
        else if depth == 0 then TooDeep
        else
          match NameFrom(buf, PointerTarget(l, Byte2Int(buf[s + 1]), mask), [], depth - 1, mask)
          case Got(nl) => Got((Dot(sb, nl.0), s + 1))
          case Threw => Threw
          case TooDeep => TooDeep
      else NameFrom(buf, s + 1 + l, Dot(sb, Latin1(CopyOfRange(buf, s + 1, s + 1 + l))), depth, mask)
  }

  /** The name at `start`, with the offset mask of section 4.1.4 of RFC 1035. */
  function NameAt(buf: seq<int8>, start: int, depth: nat): Read<(string, int)>
  {
    NameFrom(buf, start, [], depth, POINTER_MASK)
  }

  /**
   * `readReplyRecordFromPacket(bpacket, start, isQuery, labelsOnly)`: the
   * name; then, unless only the labels are wanted, type and class; then,
   * unless it is a question, the TTL (an `int` computed from four bytes, so
   * negative from 2^31 up), the data length (bit 15 dropped) and the data,
   * zero-padded past the end of the buffer.
   */
  function ReadRecord(buf: seq<int8>, start: int, isQuery: bool, labelsOnly: bool, depth: nat): (r: Read<RecordValue>)
  {
    match NameAt(buf, start, depth)
    case Threw => Threw
    case TooDeep => TooDeep
    case Got(nl) => AfterName(buf, nl.0, nl.1, isQuery, labelsOnly)
  }

  /** The record whose name `name` ends at index `s`. */
  function AfterName(buf: seq<int8>, name: string, s: int, isQuery: bool, labelsOnly: bool): (r: Read<RecordValue>)
    requires 0 <= s
    ensures !r.TooDeep?
    ensures r.Got? ==> r.value.name == name
  {
    if labelsOnly then Got(RecordValue(name, 0, 0, 0, 0, None))
    else if s + 4 >= |buf| then Threw
    else
      var qtype := Word16(buf, s + 1);
      var qclass := Word16(buf, s + 3);
      var t := s + 5;
      if isQuery then Got(RecordValue(name, qtype, qclass, 0, t, None))
      else if t + 5 >= |buf| then Threw
      else
        var d := t + 6;
        var datalength := (Byte2Int(buf[t + 4]) % 128) * TWO_8 + Byte2Int(buf[t + 5]);
        Got(RecordValue(name, qtype, qclass, ToInt32(Word32(buf, t)), d, Some(CopyOfRange(buf, d, d + datalength))))
  }

  /** How a walk over records ends. */
  datatype End = Finished | Raised | Overflowed

  /** The records read before the walk ended, where the next would start, and how it ended. */
  datatype Walk = Walk(records: seq<RecordValue>, next: int, end: End)

  /**
   * The record reader of one packet: for each start, the record
   * `readReplyRecordFromPacket(bpacket, s, isQuery)` reads there.
   */
  function RecordReader(buf: seq<int8>, isQuery: bool, depth: nat): int -> Read<RecordValue>
  {
    s => ReadRecord(buf, s, isQuery, false, depth)
  }

  /** One section loop: `count` records read by `read`, each starting at the previous one's next location. */
  function WalkRecords(read: int -> Read<RecordValue>, s: int, count: nat): (w: Walk)
    ensures |w.records| <= count
    ensures w.end == Finished ==> |w.records| == count
    decreases count
  {
    if count == 0 then Walk([], s, Finished)
    else
      match read(s)
      case Threw => Walk([], s, Raised)
      case TooDeep => Walk([], s, Overflowed)
      case Got(v) =>
        var w := WalkRecords(read, NextLocation(v), count - 1);
        Walk([v] + w.records, w.next, w.end)
  }

  /** A delegate call: question records go to `receivedMDNSQueryRecord`, the rest to `receivedMDNSQueryAnswerRecord`. */
  datatype Delivery = QueryRecord(record: RecordValue, packetID: int) | AnswerRecord(record: RecordValue, packetID: int)

  function Deliveries(records: seq<RecordValue>, question: bool, id: int): (r: seq<Delivery>)
    ensures |r| == |records|
    ensures forall i :: 0 <= i < |r| ==> r[i].record == records[i] && r[i].packetID == id && (r[i].QueryRecord? <==> question)
  {
    seq(|records|, i requires 0 <= i < |records| =>
      if question then QueryRecord(records[i], id) else AnswerRecord(records[i], id))
  }

  /**
   * The section loops from `s`, one per count: each record becomes a call
   * carrying the packet id `id`; the first section's are question calls
   * when `question` holds. A failed read ends the walk.
   */
  function WalkSections(read: int -> Read<RecordValue>, s: int, counts: seq<nat>, question: bool, id: int): (r: (seq<Delivery>, End))
    ensures r.1 == Finished ==> |r.0| == Sum(counts)
    decreases |counts|
  {
    if counts == [] then ([], Finished)
    else
      var w := WalkRecords(read, s, counts[0]);
      var ds := Deliveries(w.records, question, id);
      if w.end != Finished then (ds, w.end)
      else
        var rest := WalkSections(read, w.next, counts[1..], false, id);
        (ds + rest.0, rest.1)
  }

  function Sum(counts: seq<nat>): nat
  {
    if counts == [] then 0 else counts[0] + Sum(counts[1..])
  }

  /** What reading one packet does: the delegate calls, whether it counted as a packet, and how it ended. */
  datatype PacketResult = PacketResult(deliveries: seq<Delivery>, counted: bool, end: End)

  /** The header check: a signed sum of the first two bytes of zero. */
  predicate HeaderAccepted(buf: seq<int8>)
    requires |buf| >= 2
  {
    buf[0] as int + buf[1] as int == 0
  }

  predicate IsQueryHeader(buf: seq<int8>)
    requires |buf| >= 4
  {
    buf[2] == 0 && buf[3] == 0
  }

  predicate IsResponseHeader(buf: seq<int8>)
    requires |buf| >= 4
  {
    Byte2Int(buf[2]) == RESPONSE_FLAGS && buf[3] == 0
  }

  /** The four counts of the header, big-endian from byte 4. */
  function SectionCounts(buf: seq<int8>): (r: seq<nat>)
    requires |buf| >= HEADER_LENGTH
    ensures |r| == 4
    ensures forall k :: 0 <= k < 4 ==> r[k] == Word16(buf, 4 + 2 * k)
  {
    [Word16(buf, 4), Word16(buf, 6), Word16(buf, 8), Word16(buf, 10)]
  }

  /**
   * The byte-parsing body of `readPacket` on the packet buffer, with `id`
   * the packet id the records of this packet share.
   */
  function ParsePacket(buf: seq<int8>, depth: nat, id: int): (r: PacketResult)
    requires |buf| >= HEADER_LENGTH
  {
    if !HeaderAccepted(buf) then PacketResult([], false, Finished)
    else if !(IsQueryHeader(buf) || IsResponseHeader(buf)) then PacketResult([], false, Finished)
    else
      var w := WalkSections(RecordReader(buf, IsQueryHeader(buf), depth), HEADER_LENGTH, SectionCounts(buf), true, id);
      PacketResult(w.0, true, w.1)
  }

  /** What `readPacket` returns when it returns: 1 for a packet read to the end, else 0. */
  function Status(r: PacketResult): int
  {
    if r.counted && r.end == Finished then 1 else 0
  }

  /** The packet buffer after a receive: the datagram's bytes over the old contents, the rest left as it was. */
  function Received(old_buf: seq<int8>, datagram: seq<int8>): (r: seq<int8>)
    ensures |r| == |old_buf|
    ensures forall i :: 0 <= i < |r| ==> r[i] == if i < |datagram| then datagram[i] else old_buf[i]
  {
    if |datagram| >= |old_buf| then datagram[..|old_buf|]
    else datagram + old_buf[|datagram|..]
  }

  /** `getBytes("UTF-8")` of one char. */
  function Utf8Char(c: char): (r: seq<int8>)
    ensures 1 <= |r| <= 4
    ensures (c as int < 0x80) <==> |r| == 1
  {
    var v := c as int;
    if v < 0x80 then [ToByte(v)]
    else if v < 0x800 then [ToByte(0xC0 + v / 64), ToByte(0x80 + v % 64)]
    else if v < 0x1_0000 then [ToByte(0xE0 + v / 4096), ToByte(0x80 + (v / 64) % 64), ToByte(0x80 + v % 64)]
    else [ToByte(0xF0 + v / 0x4_0000), ToByte(0x80 + (v / 4096) % 64), ToByte(0x80 + (v / 64) % 64), ToByte(0x80 + v % 64)]
  }

  /** `getBytes("UTF-8")` of a string. */
  function Utf8(s: string): (r: seq<int8>)
    ensures |r| >= |s|
  {
    if s == [] then [] else Utf8Char(s[0]) + Utf8(s[1..])
  }

  /** The labels of a name as a query writes them: each a length byte and its bytes. */
  function EncodeLabels(labels: seq<string>): (r: seq<int8>)
  {
    if labels == [] then [] else [ToByte(|Utf8(labels[0])|)] + Utf8(labels[0]) + EncodeLabels(labels[1..])
  }

  /** Twelve zero bytes, with byte 5 = 1: one question. */
  function QueryHeader(): (r: seq<int8>)
    ensures |r| == HEADER_LENGTH
  {
    seq(HEADER_LENGTH, i => if i == 5 then 1 else 0)
  }

  /** The query for `labels`: header, labels, terminator, type `0, targetType`, class `0, 1`. */
  function QueryBytes(labels: seq<string>, targetType: int): seq<int8>
  {
    QueryHeader() + EncodeLabels(labels) + [0, 0, ToByte(targetType), 0, ToByte(CLASS_IN)]
  }

  /** Every label, written from `s`, stays inside the 255-byte buffer. */
  predicate LabelsFit(labels: seq<string>, s: int)
  {
    labels == [] || (s + |Utf8(labels[0])| < SEARCH_BUFFER_LENGTH && LabelsFit(labels[1..], s + |Utf8(labels[0])| + 1))
  }

  /**
   * How `sendSearch` ends: the packet sent; abandoned, when a label overruns
   * the buffer (the exception is caught and nothing is sent); or crashed,
   * when the terminator, type or class overrun it (that exception is not
   * caught).
   */
  datatype Search = Sent(packet: seq<int8>) | Abandoned | Crashed

  function SearchOutcome(targetName: string, targetType: int): Search
  {
    var labels := OscMatch.JavaSplit(targetName, '.');
    if !LabelsFit(labels, HEADER_LENGTH) then Abandoned
    else if HEADER_LENGTH + |EncodeLabels(labels)| + 5 > SEARCH_BUFFER_LENGTH then Crashed
    else Sent(QueryBytes(labels, targetType))
  }
}
