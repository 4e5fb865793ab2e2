/**
 * LXmDNSDiscoverer: reads mDNS packets from its packet buffer and hands each
 * record to its delegate, and builds the query it multicasts. Each method is
 * proved against the function of MdnsSpec that says what it computes.
 */
module MdnsDiscoverer {
  import opened Wrappers
  import opened JavaBytes
  import opened DnsRecord
  import opened MdnsSpec
  import OscMatch

  /**
   * `readReplyRecordFromPacket(bpacket, start, isQuery, labelsOnly)`: a
   * fresh record with the fields the packet holds from `start`, or the
   * exception the read raises. `depth` is how many pointers deep the stack
   * lets the nested reads go.
   */
  method ReadReplyRecordFromPacket(bpacket: array<int8>, start: int, isQuery: bool, labelsOnly: bool, depth: nat)
    returns (r: Read<ReplyRecord>)
    ensures r.Threw? <==> ReadRecord(bpacket[..], start, isQuery, labelsOnly, depth).Threw?
    ensures r.TooDeep? <==> ReadRecord(bpacket[..], start, isQuery, labelsOnly, depth).TooDeep?
    ensures r.Got? ==> && fresh(r.value) && r.value.packetid == 0
                       && r.value.Value() == ReadRecord(bpacket[..], start, isQuery, labelsOnly, depth).value
    decreases depth, 2
  {
    var name := ReadLabels(bpacket, start, depth);
    match name
    case Threw => return Threw;
    case TooDeep => return TooDeep;
    case Got(nl) =>
      var sb, s := nl.0, nl.1;
      r := ReadFields(bpacket, sb, s, isQuery, labelsOnly);
  }

  /**
   * The label loop: labels joined with '.' until a zero length byte, or
   * until a pointer, whose target's name is read by a nested
   * `readReplyRecordFromPacket` in labels-only mode.
   */
  method ReadLabels(bpacket: array<int8>, start: int, depth: nat) returns (r: Read<(string, int)>)
    ensures r == NameAt(bpacket[..], start, depth)
    decreases depth, 1
  {
    var s := start;
    var sb: string := [];
    while true
      invariant NameAt(bpacket[..], start, depth) == NameFrom(bpacket[..], s, sb, depth, POINTER_MASK)
      decreases bpacket.Length - s
    {
      var turn := LabelTurn(bpacket, s, sb, depth);
      match turn
      case Stop(res) => return res;
      case Next(t, name) => s, sb := t, name;
    }
  }

  /** How one turn of the label loop ends: the name is read (or the read fails), or the loop goes on. */
  datatype Turn = Stop(r: Read<(string, int)>) | Next(s: int, sb: string)

  /**
   * One turn of the label loop at cursor `s`: a zero byte ends the name, a
   * pointer ends it with the name at its target, and a label joins the name.
   */
  method LabelTurn(bpacket: array<int8>, s: int, sb: string, depth: nat) returns (turn: Turn)
    ensures turn.Stop? ==> turn.r == NameFrom(bpacket[..], s, sb, depth, POINTER_MASK)
    ensures turn.Next? ==> && 0 <= s < bpacket.Length && s < turn.s
                           && NameFrom(bpacket[..], s, sb, depth, POINTER_MASK)
                              == NameFrom(bpacket[..], turn.s, turn.sb, depth, POINTER_MASK)
    decreases depth, 0
  {
    if s < 0 || s >= bpacket.Length {
      return Stop(Threw);
    }
    var l := Byte2Int(bpacket[s]);
    if l == 0 {
      return Stop(Got((sb, s)));
    }
    var at := s + 1;
    if IsPointer(l) {
      if at >= bpacket.Length {
        return Stop(Threw);
      }
      if depth == 0 {
        return Stop(TooDeep);
      }
      var p := PointerTarget(l, Byte2Int(bpacket[at]), POINTER_MASK);
      PointerStep(bpacket[..], s, sb, depth, l, p);
      LabelsOnlyName(bpacket[..], p, depth - 1);
      var resolvePtr := ReadReplyRecordFromPacket(bpacket, p, false, true, depth - 1);
      match resolvePtr
      case Threw => return Stop(Threw);
      case TooDeep => return Stop(TooDeep);
      case Got(rr) => return Stop(Got((Dot(sb, rr.name), at)));
    }
    var t := at + l;
    var piece := Latin1(CopyOfRange(bpacket[..], at, t));
    var name := Dot(sb, piece);
    LabelStep(bpacket[..], s, sb, depth, POINTER_MASK, l, t, piece, name);
    return Next(t, name);
  }

  /** A label: its bytes join the name, and the loop goes on after them. */
  lemma {:induction false} LabelStep(buf: seq<int8>, s: int, sb: string, depth: nat, mask: int, l: int, t: int, piece: string, name: string)
    requires IsOffsetMask(mask) && 0 <= s < |buf| && l == Byte2Int(buf[s]) && l != 0 && !IsPointer(l)
    requires t == s + 1 + l && piece == Latin1(CopyOfRange(buf, s + 1, t)) && name == Dot(sb, piece)
    ensures NameFrom(buf, s, sb, depth, mask) == NameFrom(buf, t, name, depth, mask)
  {
  }

  /** A pointer: the name read at its target ends the name. */
  lemma {:induction false} PointerStep(buf: seq<int8>, s: int, sb: string, depth: nat, l: int, p: int)
    requires 0 <= s && s + 1 < |buf| && l == Byte2Int(buf[s]) && l != 0 && IsPointer(l) && depth > 0
    requires p == PointerTarget(l, Byte2Int(buf[s + 1]), POINTER_MASK)
    ensures NameAt(buf, p, depth - 1).Got? ==>
      NameFrom(buf, s, sb, depth, POINTER_MASK) == Got((Dot(sb, NameAt(buf, p, depth - 1).value.0), s + 1))
    ensures NameAt(buf, p, depth - 1).Threw? ==> NameFrom(buf, s, sb, depth, POINTER_MASK).Threw?
    ensures NameAt(buf, p, depth - 1).TooDeep? ==> NameFrom(buf, s, sb, depth, POINTER_MASK).TooDeep?
  {
  }

  /** A labels-only read is the name read, with nothing after it. */
  lemma {:induction false} LabelsOnlyName(buf: seq<int8>, p: int, depth: nat)
    ensures ReadRecord(buf, p, false, true, depth).Got? <==> NameAt(buf, p, depth).Got?
    ensures ReadRecord(buf, p, false, true, depth).Threw? <==> NameAt(buf, p, depth).Threw?
    ensures ReadRecord(buf, p, false, true, depth).Got? ==>
      ReadRecord(buf, p, false, true, depth).value.name == NameAt(buf, p, depth).value.0
  {
  }

  /** The fields after a name that ends at `s`, and the fresh record that holds them. */
  method ReadFields(bpacket: array<int8>, name: string, s: int, isQuery: bool, labelsOnly: bool)
    returns (r: Read<ReplyRecord>)
    requires 0 <= s
    ensures r.Threw? <==> AfterName(bpacket[..], name, s, isQuery, labelsOnly).Threw?
    ensures !r.TooDeep?
    ensures r.Got? ==> && fresh(r.value) && r.value.packetid == 0
                       && r.value.Value() == AfterName(bpacket[..], name, s, isQuery, labelsOnly).value
  {
    var rr: ReplyRecord;
    if labelsOnly {
      rr := new ReplyRecord(name, 0, 0, 0, 0, None);
      return Got(rr);
    }
    if s + 4 >= bpacket.Length {
      return Threw;
    }
    var qtype := Byte2Int(bpacket[s + 1]) * 0x100 + Byte2Int(bpacket[s + 2]);
    var qclass := Byte2Int(bpacket[s + 3]) * 0x100 + Byte2Int(bpacket[s + 4]);
    var t := s + 5;
    if isQuery {
      rr := new ReplyRecord(name, qtype, qclass, 0, t, None);
      return Got(rr);
    }
    if t + 5 >= bpacket.Length {
      return Threw;
    }
    var ttl := ToInt32(Byte2Int(bpacket[t]) * 0x100_0000 + Byte2Int(bpacket[t + 1]) * 0x1_0000
                       + Byte2Int(bpacket[t + 2]) * 0x100 + Byte2Int(bpacket[t + 3]));
    t := t + 4;
    var datalength := (Byte2Int(bpacket[t]) % 0x80) * 0x100 + Byte2Int(bpacket[t + 1]);
    t := t + 2;
    rr := new ReplyRecord(name, qtype, qclass, ttl, t, Some(CopyOfRange(bpacket[..], t, t + datalength)));
    return Got(rr);
  }

  /** The delegate calls a packet makes: all of them when a delegate is set, none otherwise. */
  function Delegated(hasDelegate: bool, ds: seq<Delivery>): (r: seq<Delivery>)
    ensures hasDelegate ==> r == ds
    ensures !hasDelegate ==> r == []
  {
    if hasDelegate then ds else []
  }

  /** Calls made after the calls for `acc` are the calls for `acc` and `ds`. */
  lemma {:induction false} CallsAppend(hasDelegate: bool, base: seq<Delivery>, acc: seq<Delivery>, ds: seq<Delivery>,
                                       before: seq<Delivery>, after: seq<Delivery>)
    requires before == base + Delegated(hasDelegate, acc) && after == before + Delegated(hasDelegate, ds)
    ensures after == base + Delegated(hasDelegate, acc + ds)
  {
    if hasDelegate {
      assert after == base + (acc + ds);
    } else {
      assert after == base + [];
    }
  }

  /** The first records of a section are read as `done`, the rest is `n` records from `s`. */
  predicate Walked(read: int -> Read<RecordValue>, s0: int, count: nat, s: int, n: nat, done: seq<RecordValue>)
  {
    var w := WalkRecords(read, s, n);
    WalkRecords(read, s0, count) == Walk(done + w.records, w.next, w.end)
  }

  lemma {:induction false} WalkStarts(read: int -> Read<RecordValue>, s0: int, count: nat)
    ensures Walked(read, s0, count, s0, count, [])
  {
    var w := WalkRecords(read, s0, count);
    assert [] + w.records == w.records;
  }

  /** A record read at `s` joins the records read, and the walk goes on at its next location. */
  lemma {:induction false} WalkOn(read: int -> Read<RecordValue>, s0: int, count: nat, s: int, n: nat, m: nat,
                                  done: seq<RecordValue>, v: RecordValue, t: int)
    requires n == m + 1 && Walked(read, s0, count, s, n, done)
    requires read(s) == Got(v) && t == NextLocation(v)
    ensures Walked(read, s0, count, t, m, done + [v])
  {
    var rest := WalkRecords(read, t, m);
    assert WalkRecords(read, s, n) == Walk([v] + rest.records, rest.next, rest.end);
    assert done + ([v] + rest.records) == (done + [v]) + rest.records;
  }

  /** A read that fails at `s` ends the walk with the records read so far. */
  lemma {:induction false} WalkEnds(read: int -> Read<RecordValue>, s0: int, count: nat, s: int, n: nat,
                                    done: seq<RecordValue>)
    requires n > 0 && Walked(read, s0, count, s, n, done)
    ensures read(s).Threw? ==> WalkRecords(read, s0, count) == Walk(done, s, Raised)
    ensures read(s).TooDeep? ==> WalkRecords(read, s0, count) == Walk(done, s, Overflowed)
  {
    assert done + [] == done;
  }

  lemma {:induction false} WalkDone(read: int -> Read<RecordValue>, s0: int, count: nat, s: int, done: seq<RecordValue>)
    requires Walked(read, s0, count, s, 0, done)
    ensures WalkRecords(read, s0, count) == Walk(done, s, Finished)
  {
    assert done + [] == done;
  }

  /** One more record at the end of a section gives one more call at the end. */
  lemma {:induction false} DeliveriesAppend(records: seq<RecordValue>, v: RecordValue, question: bool, id: int)
    ensures Deliveries(records + [v], question, id)
         == Deliveries(records, question, id) + [if question then QueryRecord(v, id) else AnswerRecord(v, id)]
  {
    var l := Deliveries(records + [v], question, id);
    var r := Deliveries(records, question, id) + [if question then QueryRecord(v, id) else AnswerRecord(v, id)];
    assert |l| == |r|;
    forall i | 0 <= i < |l|
      ensures l[i] == r[i]
    {
      if i < |records| {
        assert (records + [v])[i] == records[i];
      }
    }
  }

  /**
   * The mDNS side of LXmDNSDiscoverer: the 1024-byte packet buffer, the id
   * shared by the records of one packet, and the calls made on the delegate
   * so far (a null delegate receives none).
   */
  class Discoverer {
    const packetBuffer: array<int8>
    var packetID: int
    const hasDelegate: bool
    var calls: seq<Delivery>

    ghost predicate Valid()
      reads this
    {
      packetBuffer.Length == PACKET_BUFFER_LENGTH
    }

    /** A discoverer with a zeroed buffer, packet id 0 and no calls yet. */
    constructor (withDelegate: bool)
      ensures Valid() && fresh(packetBuffer)
      ensures packetBuffer[..] == seq(PACKET_BUFFER_LENGTH, i => 0)
      ensures packetID == 0 && hasDelegate == withDelegate && calls == []
    {
      packetBuffer := new int8[PACKET_BUFFER_LENGTH](i => 0);
      packetID := 0;
      hasDelegate := withDelegate;
      calls := [];
    }

    /** The receive: the datagram's bytes over the front of the packet buffer. */
    method Receive(datagram: seq<int8>)
      requires Valid()
      modifies packetBuffer
      ensures Valid()
      ensures packetBuffer[..] == Received(old(packetBuffer[..]), datagram)
    {
      var n := if |datagram| < packetBuffer.Length then |datagram| else packetBuffer.Length;
      var i := 0;
      while i < n
        invariant 0 <= i <= n
        invariant forall k :: 0 <= k < packetBuffer.Length ==>
          packetBuffer[k] == if k < i then datagram[k] else old(packetBuffer[k])
      {
        packetBuffer[i] := datagram[i];
        i := i + 1;
      }
    }

    /**
     * One turn of a section loop: the record at `s`, given the packet id and
     * handed to the delegate when it is read.
     */
    method TakeRecord(s: int, isQuery: bool, question: bool, depth: nat, id: int) returns (r: Read<RecordValue>)
      requires Valid()
      modifies this`calls
      ensures r == ReadRecord(packetBuffer[..], s, isQuery, false, depth)
      ensures r.Got? ==> calls == old(calls) + Delegated(hasDelegate, [if question then QueryRecord(r.value, id) else AnswerRecord(r.value, id)])
      ensures !r.Got? ==> calls == old(calls)
    {
      var read := ReadReplyRecordFromPacket(packetBuffer, s, isQuery, false, depth);
      match read
      case Threw => return Threw;
      case TooDeep => return TooDeep;
      case Got(rr) =>
        rr.SetPacketID(id);
        var v := rr.Value();
        if hasDelegate {
          calls := calls + [if question then QueryRecord(v, id) else AnswerRecord(v, id)];
        }
        return Got(v);
    }

    /**
     * One section loop of `readPacket`: `count` records from `s0`, each
     * given the packet id and handed to the delegate, each starting where
     * the one before ends. It stops at the first record whose read fails.
     */
    method WalkSection(s0: int, count: nat, isQuery: bool, question: bool, depth: nat, id: int)
      returns (next: int, end: End)
      requires Valid()
      modifies this`calls
      ensures var w := WalkRecords(RecordReader(packetBuffer[..], isQuery, depth), s0, count);
        && next == w.next && end == w.end
        && calls == old(calls) + Delegated(hasDelegate, Deliveries(w.records, question, id))
    {
      ghost var buf := packetBuffer[..];
      ghost var read := RecordReader(buf, isQuery, depth);
      var s := s0;
      var n := count;
      ghost var done: seq<RecordValue> := [];
      WalkStarts(read, s0, count);
      while n > 0
        invariant packetBuffer[..] == buf
        invariant Walked(read, s0, count, s, n, done)
        invariant calls == old(calls) + Delegated(hasDelegate, Deliveries(done, question, id))
      {
        var r := TakeRecord(s, isQuery, question, depth, id);
        assert read(s) == r;
        if !r.Got? {
          WalkEnds(read, s0, count, s, n, done);
          return s, if r.Threw? then Raised else Overflowed;
        }
        var v := r.value;
        var t := NextLocation(v);
        var m := n - 1;
        WalkOn(read, s0, count, s, n, m, done, v, t);
        DeliveriesAppend(done, v, question, id);
        done := done + [v];
        s := t;
        n := m;
      }
      WalkDone(read, s0, count, s, done);
      return s, Finished;
    }

    /**
     * The byte-parsing body of `readPacket`: receive (`None` is a timeout,
     * which reads nothing and returns 0), check the header, take a fresh
     * packet id, and walk the four sections. `TooDeep` is a stack overflow
     * in a pointer chain, which `readPacket` does not catch.
     */
    method ReadPacket(datagram: Option<seq<int8>>, depth: nat) returns (r: Read<int>)
      requires Valid()
      modifies this`packetID, this`calls, packetBuffer
      ensures Valid()
      ensures datagram.None? ==> && r == Got(0) && packetBuffer[..] == old(packetBuffer[..])
                                 && packetID == old(packetID) && calls == old(calls)
      ensures datagram.Some? ==>
        var buf := Received(old(packetBuffer[..]), datagram.value);
        var id := ToInt32(old(packetID) + 1);
        var res := ParsePacket(buf, depth, id);
        && packetBuffer[..] == buf
        && packetID == (if res.counted then id else old(packetID))
        && calls == old(calls) + Delegated(hasDelegate, res.deliveries)
        && r == (if res.end == Overflowed then TooDeep else Got(Status(res)))
    {
      if datagram.None? {
        return Got(0);
      }
      Receive(datagram.value);
      r := ParseBuffer(depth);
    }

    /** What `readPacket` does with the bytes it received: the packet of the buffer, read and handed on. */
    method ParseBuffer(depth: nat) returns (r: Read<int>)
      requires Valid()
      modifies this`packetID, this`calls
      ensures var id := ToInt32(old(packetID) + 1);
        var res := ParsePacket(packetBuffer[..], depth, id);
        && packetID == (if res.counted then id else old(packetID))
        && calls == old(calls) + Delegated(hasDelegate, res.deliveries)
        && r == (if res.end == Overflowed then TooDeep else Got(Status(res)))
    {
      var buf := packetBuffer[..];
      ghost var id0 := ToInt32(packetID + 1);
      if buf[0] as int + buf[1] as int != 0 {
        PacketRejected(buf, depth, id0);
        return Got(0);
      }
      var isQuery := buf[2] == 0 && buf[3] == 0;
      var isResponse := Byte2Int(buf[2]) == RESPONSE_FLAGS && buf[3] == 0;
      if !(isQuery || isResponse) {
        PacketRejected(buf, depth, id0);
        return Got(0);
      }
      var counts := [Word16(buf, 4), Word16(buf, 6), Word16(buf, 8), Word16(buf, 10)];
      packetID := ToInt32(packetID + 1);
      var id := packetID;
      PacketAccepted(buf, depth, id, counts, isQuery);
      var end := WalkPacket(counts, isQuery, depth, id);
      return if end == Finished then Got(1) else if end == Overflowed then TooDeep else Got(0);
    }

    /** The four section loops of `readPacket`, the first one over the question records. */
    method WalkPacket(counts: seq<nat>, isQuery: bool, depth: nat, id: int) returns (end: End)
      requires Valid() && |counts| == 4
      modifies this`calls
      ensures var w := WalkSections(RecordReader(packetBuffer[..], isQuery, depth), HEADER_LENGTH, counts, true, id);
        && end == w.1 && calls == old(calls) + Delegated(hasDelegate, w.0)
    {
      ghost var buf := packetBuffer[..];
      ghost var read := RecordReader(buf, isQuery, depth);
      ghost var acc: seq<Delivery> := [];
      var s := HEADER_LENGTH;
      var k := 0;
      SectionsStart(read, counts, id);
      while k < 4
        invariant 0 <= k <= 4 && packetBuffer[..] == buf
        invariant SectionsWalked(read, counts, k, s, id, acc)
        invariant calls == old(calls) + Delegated(hasDelegate, acc)
      {
        var next, e, acc2 := StepSection(counts, k, s, isQuery, depth, id, old(calls), acc);
        if e != Finished {
          return e;
        }
        s, k, acc := next, k + 1, acc2;
      }
      SectionsDone(read, counts, s, id, acc);
      return Finished;
    }

    /**
     * Section `k` of `readPacket`, after the sections before it made the
     * calls `acc`: its records are handed on, and the walk ends with it or
     * goes on after it.
     */
    method StepSection(counts: seq<nat>, k: nat, s: int, isQuery: bool, depth: nat, id: int,
                       ghost base: seq<Delivery>, ghost acc: seq<Delivery>)
      returns (next: int, e: End, ghost acc2: seq<Delivery>)
      requires Valid() && k < |counts|
      requires SectionsWalked(RecordReader(packetBuffer[..], isQuery, depth), counts, k, s, id, acc)
      requires calls == base + Delegated(hasDelegate, acc)
      modifies this`calls
      ensures var read := RecordReader(packetBuffer[..], isQuery, depth);
        && acc2 == acc + Deliveries(WalkRecords(read, s, counts[k]).records, k == 0, id)
        && calls == base + Delegated(hasDelegate, acc2)
        && (e != Finished ==> WalkSections(read, HEADER_LENGTH, counts, true, id) == (acc2, e))
        && (e == Finished ==> SectionsWalked(read, counts, k + 1, next, id, acc2))
    {
      ghost var buf := packetBuffer[..];
      ghost var read := RecordReader(buf, isQuery, depth);
      ghost var w := WalkRecords(read, s, counts[k]);
      ghost var ds := Deliveries(w.records, k == 0, id);
      var n;
      n, e := WalkSection(s, counts[k], isQuery, k == 0, depth, id);
      assert packetBuffer[..] == buf;
      assert calls == old(calls) + Delegated(hasDelegate, ds);
      next := n;
      var k2 := k + 1;
      SectionsOn(read, counts, k, k2, s, id, acc, w, ds);
      acc2 := acc + ds;
      CallsAppend(hasDelegate, base, acc, ds, old(calls), calls);
    }
  }

  /** A packet whose header is not a plain query or response is not counted and calls nothing. */
  lemma {:induction false} PacketRejected(buf: seq<int8>, depth: nat, id: int)
    requires |buf| >= HEADER_LENGTH
    requires !HeaderAccepted(buf) || !(IsQueryHeader(buf) || IsResponseHeader(buf))
    ensures ParsePacket(buf, depth, id) == PacketResult([], false, Finished)
  {
  }

  /** A packet whose header is accepted walks its four sections from byte 12. */
  lemma {:induction false} PacketAccepted(buf: seq<int8>, depth: nat, id: int, counts: seq<nat>, isQuery: bool)
    requires |buf| >= HEADER_LENGTH && HeaderAccepted(buf) && (IsQueryHeader(buf) || IsResponseHeader(buf))
    requires counts == [Word16(buf, 4), Word16(buf, 6), Word16(buf, 8), Word16(buf, 10)]
    requires isQuery == IsQueryHeader(buf)
    ensures var w := WalkSections(RecordReader(buf, isQuery, depth), HEADER_LENGTH, counts, true, id);
      ParsePacket(buf, depth, id) == PacketResult(w.0, true, w.1)
  {
    assert counts == SectionCounts(buf);
  }

  /** The sections before `k` made the calls `acc`; the walk goes on from `s`. */
  predicate SectionsWalked(read: int -> Read<RecordValue>, counts: seq<nat>, k: nat, s: int, id: int, acc: seq<Delivery>)
  {
    k <= |counts| &&
    var rest := WalkSections(read, s, counts[k..], k == 0, id);
    WalkSections(read, HEADER_LENGTH, counts, true, id) == (acc + rest.0, rest.1)
  }

  lemma {:induction false} SectionsStart(read: int -> Read<RecordValue>, counts: seq<nat>, id: int)
    ensures SectionsWalked(read, counts, 0, HEADER_LENGTH, id, [])
  {
    assert counts[0..] == counts;
    var w := WalkSections(read, HEADER_LENGTH, counts, true, id);
    assert [] + w.0 == w.0;
  }

  /** Section `k` walked: the walk ends with it, or goes on after it with its calls added. */
  lemma {:induction false} SectionsOn(read: int -> Read<RecordValue>, counts: seq<nat>, k: nat, k2: nat, s: int,
                                      id: int, acc: seq<Delivery>, w: Walk, ds: seq<Delivery>)
    requires k < |counts| && k2 == k + 1 && SectionsWalked(read, counts, k, s, id, acc)
    requires w == WalkRecords(read, s, counts[k]) && ds == Deliveries(w.records, k == 0, id)
    ensures w.end != Finished ==> WalkSections(read, HEADER_LENGTH, counts, true, id) == (acc + ds, w.end)
    ensures w.end == Finished ==> SectionsWalked(read, counts, k2, w.next, id, acc + ds)
  {
    var cs := counts[k..];
    assert cs[0] == counts[k];
    assert cs[1..] == counts[k2..];
    var here := WalkSections(read, s, cs, k == 0, id);
    if w.end == Finished {
      var rest := WalkSections(read, w.next, counts[k2..], false, id);
      assert here == (ds + rest.0, rest.1);
      assert acc + (ds + rest.0) == (acc + ds) + rest.0;
    } else {
      assert here == (ds, w.end);
    }
  }

  lemma {:induction false} SectionsDone(read: int -> Read<RecordValue>, counts: seq<nat>, s: int, id: int, acc: seq<Delivery>)
    requires |counts| == 4 && SectionsWalked(read, counts, 4, s, id, acc)
    ensures WalkSections(read, HEADER_LENGTH, counts, true, id) == (acc, Finished)
  {
    assert counts[4..] == [];
    assert acc + [] == acc;
  }

  /**
   * The packet `sendSearch` builds in its 255-byte buffer for `targetName`
   * and `targetType`, proved to be the query of MdnsSpec (the send itself is
   * the transport's).
   */
  method SendSearch(targetName: string, targetType: int) returns (result: Search)
    ensures result == SearchOutcome(targetName, targetType)
  {
    var mbytes := new int8[SEARCH_BUFFER_LENGTH](i => 0);
    var labels := OscMatch.JavaSplit(targetName, '.');
    var s := 0;
    while s < HEADER_LENGTH
      invariant 0 <= s <= HEADER_LENGTH
      invariant forall k :: 0 <= k < s ==> mbytes[k] == 0
    {
      mbytes[s] := 0;
      s := s + 1;
    }
    mbytes[5] := 1;
    assert mbytes[..s] == QueryHeader();
    var i := 0;
    assert labels[i..] == labels;
    while i < |labels|
      invariant 0 <= i <= |labels|
      invariant LabelsWritten(mbytes[..], labels, i, s)
      invariant LabelsFit(labels, HEADER_LENGTH) == LabelsFit(labels[i..], s)
    {
      var sbytes := Utf8(labels[i]);
      var l := |sbytes|;
      if s + l >= SEARCH_BUFFER_LENGTH {
        assert labels[i..][0] == labels[i];
        return Abandoned;
      }
      ghost var before := mbytes[..];
      var s2, i2 := s + l + 1, i + 1;
      WriteLabel(mbytes, s, sbytes, s2);
      LabelWritten(before, mbytes[..], labels, i, i2, s, s2, l);
      s, i := s2, i2;
    }
    assert labels[..i] == labels;
    if s + 5 > SEARCH_BUFFER_LENGTH {
      return Crashed;
    }
    WriteQuestionTail(mbytes, s, targetType);
    return Sent(mbytes[..s + 5]);
  }

  /** The terminator, type `0, targetType` and class `0, 1` after the labels. */
  method WriteQuestionTail(mbytes: array<int8>, s: int, targetType: int)
    requires 0 <= s && s + 5 <= mbytes.Length
    modifies mbytes
    ensures mbytes[..s + 5] == old(mbytes[..s]) + [0, 0, ToByte(targetType), 0, ToByte(CLASS_IN)]
  {
    mbytes[s] := 0;
    mbytes[s + 1] := 0;
    mbytes[s + 2] := ToByte(targetType);
    mbytes[s + 3] := 0;
    mbytes[s + 4] := ToByte(CLASS_IN);
  }

  /** The header and the first `i` labels fill the buffer up to `s`. */
  predicate LabelsWritten(mbytes: seq<int8>, labels: seq<string>, i: int, s: int)
  {
    && 0 <= i <= |labels|
    && s == HEADER_LENGTH + |EncodeLabels(labels[..i])| && s <= |mbytes|
    && mbytes[..s] == QueryHeader() + EncodeLabels(labels[..i])
  }

  /** One label: its bytes after index `s`, then its length at `s`. */
  method WriteLabel(mbytes: array<int8>, s: int, sbytes: seq<int8>, end: int)
    requires 0 <= s && s + |sbytes| < mbytes.Length && end == s + |sbytes| + 1
    modifies mbytes
    ensures mbytes[..s] == old(mbytes[..s])
    ensures mbytes[s..end] == [ToByte(|sbytes|)] + sbytes
  {
    var l := |sbytes|;
    var j := 0;
    while j < l
      invariant 0 <= j <= l
      invariant mbytes[..s] == old(mbytes[..s])
      invariant forall k :: 0 <= k < j ==> mbytes[s + 1 + k] == sbytes[k]
    {
      mbytes[s + j + 1] := sbytes[j];
      j := j + 1;
    }
    mbytes[s] := ToByte(l);
    assert forall k :: 0 <= k < l ==> mbytes[s + 1 + k] == sbytes[k];
    assert mbytes[s..s + l + 1] == [ToByte(l)] + sbytes;
  }

  lemma {:induction false} LabelWritten(before: seq<int8>, after: seq<int8>, labels: seq<string>, i: int, i2: int,
                                        s: int, s2: int, l: int)
    requires 0 <= i < |labels| && LabelsWritten(before, labels, i, s)
    requires i2 == i + 1 && s2 == s + l + 1
    requires l == |Utf8(labels[i])| && s + l < |before| == |after| == SEARCH_BUFFER_LENGTH
    requires after[..s] == before[..s] && after[s..s2] == [ToByte(l)] + Utf8(labels[i])
    ensures LabelsWritten(after, labels, i2, s2)
    ensures LabelsFit(labels[i..], s) == LabelsFit(labels[i2..], s2)
  {
    EncodeLabelsAppend(labels[..i], labels[i]);
    assert labels[..i2] == labels[..i] + [labels[i]];
    var e := EncodeLabels(labels[..i]);
    assert EncodeLabels(labels[..i2]) == e + [ToByte(l)] + Utf8(labels[i]);
    assert labels[i..][1..] == labels[i2..];
    assert after[..s2] == after[..s] + after[s..s2];
  }

  /** Labels written one after another. */
  lemma {:induction false} EncodeLabelsAppend(labels: seq<string>, last: string)
    ensures EncodeLabels(labels + [last]) == EncodeLabels(labels) + [ToByte(|Utf8(last)|)] + Utf8(last)
    decreases |labels|
  {
    if labels == [] {
      assert [last][1..] == [];
    } else {
      assert (labels + [last])[1..] == labels[1..] + [last];
      EncodeLabelsAppend(labels[1..], last);
    }
  }
}
