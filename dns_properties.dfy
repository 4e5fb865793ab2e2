/**
 * What the mDNS reader and the query builder promise together: label
 * names read back as their dotted join (section 3.1 of RFC 1035), a
 * compression pointer stands for the labels it points at (section 4.1.4),
 * records lay out their fields as sections 4.1.2 and 4.1.3 say, every
 * record of a packet goes to the delegate with the packet's id, and the
 * query `sendSearch` builds reads back as the one question it asks.
 */
module MdnsProperties {
  import opened Wrappers
  import opened JavaBytes
  import opened DnsRecord
  import opened MdnsSpec
  import OscMatch
  import OscMatchProperties
  import MdnsDiscoverer

  /** `buf` holds `bytes` from index `s`. */
  predicate At(buf: seq<int8>, s: int, bytes: seq<int8>)
  {
    0 <= s && s + |bytes| <= |buf| && forall i {:trigger bytes[i]} :: 0 <= i < |bytes| ==> buf[s + i] == bytes[i]
  }

  /** A label both sides agree on: 1 to 63 chars, all ASCII, so UTF-8 and the one-byte reader see the same bytes. */
  predicate AsciiLabel(l: string)
  {
    1 <= |l| < 64 && forall i :: 0 <= i < |l| ==> l[i] as int < 128
  }

  predicate AsciiLabels(labels: seq<string>)
  {
    forall k :: 0 <= k < |labels| ==> AsciiLabel(labels[k])
  }

  /** The name the label loop builds from `sb` by joining each of `labels`. */
  function DotAll(sb: string, labels: seq<string>): string
    decreases |labels|
  {
    if labels == [] then sb else DotAll(Dot(sb, labels[0]), labels[1..])
  }

  /** The two bytes of a pointer to offset `p`. */
  function PointerBytes(p: int): (r: seq<int8>)
    requires 0 <= p < 0x4000
    ensures |r| == 2
  {
    [ToByte(POINTER_FLAGS + p / TWO_8), ToByte(p % TWO_8)]
  }

  function JoinNames(labels: seq<string>): string
    requires |labels| >= 1
  {
    OscMatchProperties.JoinWith(labels, '.')
  }

  // ---- Names ----

  /** UTF-8 of an ASCII string is one byte per char. */
  lemma {:induction false} Utf8Ascii(s: string)
    requires forall i :: 0 <= i < |s| ==> s[i] as int < 128
    ensures Utf8(s) == AsciiBytes(s)
    decreases |s|
  {
    if s != [] {
      Utf8Ascii(s[1..]);
      assert AsciiBytes(s) == [CharToByte(s[0])] + AsciiBytes(s[1..]);
    }
  }

  /** The bytes of ASCII labels: each a length byte and one byte per char. */
  function LabelBytes(labels: seq<string>): seq<int8>
    decreases |labels|
  {
    if labels == [] then [] else [ToByte(|labels[0]|)] + AsciiBytes(labels[0]) + LabelBytes(labels[1..])
  }

  /** For ASCII labels the query's UTF-8 encoding is the one-byte encoding. */
  lemma {:induction false} EncodeAsciiLabels(labels: seq<string>)
    requires AsciiLabels(labels)
    ensures EncodeLabels(labels) == LabelBytes(labels)
    decreases |labels|
  {
    if labels != [] {
      assert AsciiLabel(labels[0]);
      Utf8Ascii(labels[0]);
      var rest := labels[1..];
      assert forall k :: 0 <= k < |rest| ==> rest[k] == labels[k + 1];
      EncodeAsciiLabels(rest);
    }
  }

  /** The chars of an ASCII label read back one byte each. */
  lemma {:induction false} LabelChars(buf: seq<int8>, s: int, l: string)
    requires AsciiLabel(l) && At(buf, s, AsciiBytes(l))
    ensures Latin1(CopyOfRange(buf, s, s + |l|)) == l
  {
    var piece := Latin1(CopyOfRange(buf, s, s + |l|));
    forall i | 0 <= i < |l|
      ensures piece[i] == l[i]
    {
      AtIndex(buf, s, AsciiBytes(l), i);
      SmallByte(l[i] as int);
    }
  }

  /** One byte of bytes held from `s`. */
  lemma {:induction false} AtIndex(buf: seq<int8>, s: int, bytes: seq<int8>, k: int)
    requires At(buf, s, bytes) && 0 <= k < |bytes|
    ensures buf[s + k] == bytes[k]
  {
    assert buf[s + k] == bytes[k];
  }

  /** Bytes held from `s` are held piece by piece. */
  lemma {:induction false} AtSplit(buf: seq<int8>, s: int, x: seq<int8>, y: seq<int8>)
    requires At(buf, s, x + y)
    ensures At(buf, s, x) && At(buf, s + |x|, y)
  {
    forall i | 0 <= i < |x|
      ensures buf[s + i] == x[i]
    {
      assert buf[s + i] == (x + y)[i];
    }
    forall i | 0 <= i < |y|
      ensures buf[s + |x| + i] == y[i]
    {
      assert buf[s + (|x| + i)] == (x + y)[|x| + i];
    }
  }

  /** One encoded label: the loop joins it to the name and goes on after it. */
  lemma {:induction false} OneLabel(buf: seq<int8>, s: int, sb: string, depth: nat, mask: int, l0: string, t: int)
    requires IsOffsetMask(mask) && AsciiLabel(l0) && At(buf, s, [ToByte(|l0|)] + AsciiBytes(l0)) && t == s + 1 + |l0|
    ensures NameFrom(buf, s, sb, depth, mask) == NameFrom(buf, t, Dot(sb, l0), depth, mask)
  {
    AtSplit(buf, s, [ToByte(|l0|)], AsciiBytes(l0));
    AtIndex(buf, s, [ToByte(|l0|)], 0);
    SmallByte(|l0|);
    LabelChars(buf, s + 1, l0);
    MdnsDiscoverer.LabelStep(buf, s, sb, depth, mask, |l0|, t, l0, Dot(sb, l0));
  }

  /**
   * The label loop passes over encoded labels, joining each to the name:
   * from `s` with `sb` it reaches `e`, just past them, with the name `n`.
   */
  lemma {:induction false} LabelsThen(buf: seq<int8>, s: int, sb: string, depth: nat, mask: int, labels: seq<string>,
                                       e: int, n: string)
    requires IsOffsetMask(mask) && AsciiLabels(labels) && At(buf, s, LabelBytes(labels))
    requires e == s + |LabelBytes(labels)| && n == DotAll(sb, labels)
    ensures NameFrom(buf, s, sb, depth, mask) == NameFrom(buf, e, n, depth, mask)
    decreases |labels|
  {
    if labels != [] {
      var l0, rest := labels[0], labels[1..];
      var t := s + 1 + |l0|;
      FirstLabel(buf, s, labels, t);
      OneLabel(buf, s, sb, depth, mask, l0, t);
      LabelsThen(buf, t, Dot(sb, l0), depth, mask, rest, e, n);
    }
  }

  /** The first label's bytes, and the rest's bytes right after them. */
  lemma {:induction false} FirstLabel(buf: seq<int8>, s: int, labels: seq<string>, t: int)
    requires labels != [] && AsciiLabels(labels) && At(buf, s, LabelBytes(labels)) && t == s + 1 + |labels[0]|
    ensures AsciiLabel(labels[0]) && AsciiLabels(labels[1..])
    ensures At(buf, s, [ToByte(|labels[0]|)] + AsciiBytes(labels[0])) && At(buf, t, LabelBytes(labels[1..]))
    ensures |LabelBytes(labels)| == t - s + |LabelBytes(labels[1..])|
  {
    var l0, rest := labels[0], labels[1..];
    var hd, er := [ToByte(|l0|)] + AsciiBytes(l0), LabelBytes(rest);
    assert LabelBytes(labels) == hd + er;
    AtSplit(buf, s, hd, er);
    assert AsciiLabel(l0);
    assert forall k :: 0 <= k < |rest| ==> rest[k] == labels[k + 1];
  }

  /** Joining labels one by one onto `sb` puts their dotted join after it. */
  lemma {:induction false} DotAllJoins(sb: string, labels: seq<string>)
    requires |labels| >= 1 && AsciiLabels(labels)
    ensures DotAll(sb, labels) == Dot(sb, JoinNames(labels))
    decreases |labels|
  {
    var l0 := labels[0];
    assert AsciiLabel(l0);
    if |labels| > 1 {
      var rest := labels[1..];
      assert forall k :: 0 <= k < |rest| ==> rest[k] == labels[k + 1];
      DotAllJoins(Dot(sb, l0), rest);
      var j := JoinNames(rest);
      assert JoinNames(labels) == l0 + "." + j;
      if sb != [] {
        assert (sb + "." + l0) + "." + j == sb + "." + (l0 + "." + j);
      }
    }
  }

  /** Labels and a zero byte read as their dotted join, ending at the zero byte. */
  lemma {:induction false} PlainNameRead(buf: seq<int8>, s: int, depth: nat, labels: seq<string>)
    requires |labels| >= 1 && AsciiLabels(labels) && At(buf, s, EncodeLabels(labels) + [0])
    ensures NameAt(buf, s, depth) == Got((JoinNames(labels), s + |EncodeLabels(labels)|))
  {
    EncodeAsciiLabels(labels);
    var e := s + |LabelBytes(labels)|;
    PlainLabelsRead(buf, s, depth, labels, e);
  }

  lemma {:induction false} PlainLabelsRead(buf: seq<int8>, s: int, depth: nat, labels: seq<string>, e: int)
    requires |labels| >= 1 && AsciiLabels(labels) && At(buf, s, LabelBytes(labels) + [0]) && e == s + |LabelBytes(labels)|
    ensures NameAt(buf, s, depth) == Got((JoinNames(labels), e))
  {
    AtSplit(buf, s, LabelBytes(labels), [0]);
    LabelsEnded(buf, s, depth, labels, e, DotAll([], labels));
    DotAllJoins([], labels);
  }

  /** Labels and then a zero byte read as the name the label loop builds. */
  lemma {:induction false} LabelsEnded(buf: seq<int8>, s: int, depth: nat, labels: seq<string>, e: int, n: string)
    requires AsciiLabels(labels) && At(buf, s, LabelBytes(labels)) && At(buf, e, [0])
    requires e == s + |LabelBytes(labels)| && n == DotAll([], labels)
    ensures NameAt(buf, s, depth) == Got((n, e))
  {
    HeadRead(buf, s, depth, labels, e, n);
    ZeroEnds(buf, e, n, depth);
  }

  /** A zero length byte ends the name read so far, there. */
  lemma {:induction false} ZeroEnds(buf: seq<int8>, e: int, n: string, depth: nat)
    requires At(buf, e, [0])
    ensures NameFrom(buf, e, n, depth, POINTER_MASK) == Got((n, e))
  {
    AtIndex(buf, e, [0], 0);
  }

  /** A pointer ends the name with the name at its target; a failure there is the failure of the whole read. */
  lemma {:induction false} PointerReadsTarget(buf: seq<int8>, s: int, sb: string, depth: nat, p: int)
    requires depth > 0 && 0 <= p < 0x4000 && At(buf, s, PointerBytes(p))
    ensures NameAt(buf, p, depth - 1).Got? ==>
      NameFrom(buf, s, sb, depth, POINTER_MASK) == Got((Dot(sb, NameAt(buf, p, depth - 1).value.0), s + 1))
    ensures NameAt(buf, p, depth - 1).Threw? ==> NameFrom(buf, s, sb, depth, POINTER_MASK) == Threw
    ensures NameAt(buf, p, depth - 1).TooDeep? ==> NameFrom(buf, s, sb, depth, POINTER_MASK) == TooDeep
  {
    PointerDecodes(buf, s, p);
    MdnsDiscoverer.PointerStep(buf, s, sb, depth, Byte2Int(buf[s]), p);
  }

  /** The two bytes of a pointer to `p` are a pointer, and to `p`. */
  lemma {:induction false} PointerDecodes(buf: seq<int8>, s: int, p: int)
    requires 0 <= p < 0x4000 && At(buf, s, PointerBytes(p))
    ensures 0 <= s && s + 1 < |buf| && IsPointer(Byte2Int(buf[s]))
    ensures PointerTarget(Byte2Int(buf[s]), Byte2Int(buf[s + 1]), POINTER_MASK) == p
  {
    var hi, lo := p / TWO_8, p % TWO_8;
    AtIndex(buf, s, PointerBytes(p), 0);
    AtIndex(buf, s, PointerBytes(p), 1);
    SmallByte(POINTER_FLAGS + hi);
    SmallByte(lo);
    assert PointerTarget(POINTER_FLAGS + hi, lo, POINTER_MASK) == p;
  }

  /** `a` and `b` joined with the separator between them. */
  lemma {:induction false} JoinAppend(a: seq<string>, b: seq<string>)
    requires |a| >= 1 && |b| >= 1
    ensures JoinNames(a + b) == JoinNames(a) + "." + JoinNames(b)
    decreases |a|
  {
    if |a| > 1 {
      assert (a + b)[1..] == a[1..] + b;
      JoinAppend(a[1..], b);
    } else {
      assert (a + b)[1..] == b;
    }
  }

  /**
   * Compression: labels `head` followed by a pointer to the labels `tail`
   * read as the whole name `head + tail`, the name the packet would carry
   * written out in full.
   */
  lemma {:induction false} CompressedName(buf: seq<int8>, s: int, p: int, depth: nat, head: seq<string>, tail: seq<string>)
    requires depth > 0 && 0 <= p < 0x4000
    requires AsciiLabels(head) && |tail| >= 1 && AsciiLabels(tail)
    requires At(buf, s, EncodeLabels(head) + PointerBytes(p))
    requires At(buf, p, EncodeLabels(tail) + [0])
    ensures NameAt(buf, s, depth) == Got((JoinNames(head + tail), s + |EncodeLabels(head)| + 1))
  {
    EncodeAsciiLabels(head);
    EncodeAsciiLabels(tail);
    var t := s + |LabelBytes(head)|;
    var front := DotAll([], head);
    PointerAfterLabels(buf, s, p, depth, head, tail, t, front, p + |LabelBytes(tail)|);
    NamesJoin(head, tail);
  }

  /** The reads behind CompressedName: the labels, then the pointer, then the labels it points at. */
  lemma {:induction false} PointerAfterLabels(buf: seq<int8>, s: int, p: int, depth: nat, head: seq<string>, tail: seq<string>,
                                               t: int, front: string, e: int)
    requires depth > 0 && 0 <= p < 0x4000
    requires AsciiLabels(head) && |tail| >= 1 && AsciiLabels(tail)
    requires At(buf, s, LabelBytes(head) + PointerBytes(p))
    requires At(buf, p, LabelBytes(tail) + [0])
    requires t == s + |LabelBytes(head)| && front == DotAll([], head) && e == p + |LabelBytes(tail)|
    ensures NameAt(buf, s, depth) == Got((Dot(front, JoinNames(tail)), t + 1))
  {
    var name := JoinNames(tail);
    PlainLabelsRead(buf, p, depth - 1, tail, e);
    HeadThenPointer(buf, s, p, depth, head, t, front, name, e);
  }

  /** Labels `head`, then a pointer to a name that reads as `name`. */
  lemma {:induction false} HeadThenPointer(buf: seq<int8>, s: int, p: int, depth: nat, head: seq<string>, t: int, front: string,
                                            name: string, e: int)
    requires depth > 0 && 0 <= p < 0x4000 && AsciiLabels(head)
    requires At(buf, s, LabelBytes(head) + PointerBytes(p))
    requires t == s + |LabelBytes(head)| && front == DotAll([], head)
    requires NameAt(buf, p, depth - 1) == Got((name, e))
    ensures NameAt(buf, s, depth) == Got((Dot(front, name), t + 1))
  {
    HeadThenMore(buf, s, depth, head, PointerBytes(p), t, front);
    PointerEnds(buf, t, front, depth, p, name, e);
  }

  /** Labels `head` read up to whatever bytes `more` follow them. */
  lemma {:induction false} HeadThenMore(buf: seq<int8>, s: int, depth: nat, head: seq<string>, more: seq<int8>, t: int, front: string)
    requires AsciiLabels(head) && At(buf, s, LabelBytes(head) + more)
    requires t == s + |LabelBytes(head)| && front == DotAll([], head)
    ensures At(buf, t, more)
    ensures NameAt(buf, s, depth) == NameFrom(buf, t, front, depth, POINTER_MASK)
  {
    AtSplit(buf, s, LabelBytes(head), more);
    HeadRead(buf, s, depth, head, t, front);
  }

  /** Labels `head` read from the start of a name. */
  lemma {:induction false} HeadRead(buf: seq<int8>, s: int, depth: nat, head: seq<string>, t: int, front: string)
    requires AsciiLabels(head) && At(buf, s, LabelBytes(head))
    requires t == s + |LabelBytes(head)| && front == DotAll([], head)
    ensures NameAt(buf, s, depth) == NameFrom(buf, t, front, depth, POINTER_MASK)
  {
    LabelsThen(buf, s, [], depth, POINTER_MASK, head, t, front);
  }

  /** A pointer to a name that reads as `name` ends the name read so far with it. */
  lemma {:induction false} PointerEnds(buf: seq<int8>, t: int, front: string, depth: nat, p: int, name: string, e: int)
    requires depth > 0 && 0 <= p < 0x4000 && At(buf, t, PointerBytes(p))
    requires NameAt(buf, p, depth - 1) == Got((name, e))
    ensures NameFrom(buf, t, front, depth, POINTER_MASK) == Got((Dot(front, name), t + 1))
  {
    PointerReadsTarget(buf, t, front, depth, p);
  }

  /** The name the loop builds from `head`, then the name at a pointer to `tail`, is the join of both. */
  lemma {:induction false} NamesJoin(head: seq<string>, tail: seq<string>)
    requires AsciiLabels(head) && |tail| >= 1
    ensures Dot(DotAll([], head), JoinNames(tail)) == JoinNames(head + tail)
  {
    if head == [] {
      assert head + tail == tail;
    } else {
      DotAllJoins([], head);
      JoinAppend(head, tail);
    }
  }

  // ---- The pointer mask ----

  /** The name reader as the source writes it, with the 0x2F mask. */
  function NameAtAsWritten(buf: seq<int8>, start: int, depth: nat): Read<(string, int)>
  {
    NameFrom(buf, start, [], depth, POINTER_MASK_AS_WRITTEN)
  }

  /**
   * A pointer with offset bit 12 set: the source's mask drops that bit and
   * reads the name at offset 0, where the 14-bit offset of section 4.1.4
   * of RFC 1035 lies past the packet.
   */
  lemma PointerMaskAsWritten()
    ensures NameAtAsWritten([1, 97, 0, ToByte(0xD0), 0], 3, 1) == Got(("a", 4))
    ensures NameAt([1, 97, 0, ToByte(0xD0), 0], 3, 1) == Threw
  {
    var buf: seq<int8> := [1, 97, 0, ToByte(0xD0), 0];
    assert Byte2Int(buf[3]) == 0xD0;
    assert Latin1(CopyOfRange(buf, 1, 2)) == "a";
  }

  /** A pointer into the first 4096 bytes has bit 4 of its first byte clear, so both masks give its target. */
  lemma {:induction false} LowTargetsAgree(l: int, low: int)
    requires 0 <= l < TWO_8 && IsPointer(l) && 0 <= low < TWO_8
    requires PointerTarget(l, low, POINTER_MASK) < 0x1000
    ensures PointerTarget(l, low, POINTER_MASK_AS_WRITTEN) == PointerTarget(l, low, POINTER_MASK)
  {
    assert HighOffset(l, POINTER_MASK) < 16;
  }

  /**
   * The corrected mask loses nothing the source reads correctly: in a
   * buffer of at most 4096 bytes, every name the 14-bit offset reads is
   * read the same with the source's mask. The two differ only where the
   * correct read fails.
   */
  lemma {:induction false} MasksAgreeOnGoodNames(buf: seq<int8>, s: int, sb: string, depth: nat)
    requires |buf| <= 0x1000
    requires NameFrom(buf, s, sb, depth, POINTER_MASK).Got?
    ensures NameFrom(buf, s, sb, depth, POINTER_MASK_AS_WRITTEN) == NameFrom(buf, s, sb, depth, POINTER_MASK)
    decreases depth, |buf| - s, 1
  {
    var l := Byte2Int(buf[s]);
    if l != 0 {
      if IsPointer(l) {
        PointerMasksAgree(buf, s, sb, depth);
      } else {
        LabelMasksAgree(buf, s, sb, depth);
      }
    }
  }

  /** MasksAgreeOnGoodNames at a pointer: both masks reach the same target. */
  lemma {:induction false} PointerMasksAgree(buf: seq<int8>, s: int, sb: string, depth: nat)
    requires |buf| <= 0x1000 && 0 <= s < |buf| && IsPointer(Byte2Int(buf[s]))
    requires NameFrom(buf, s, sb, depth, POINTER_MASK).Got?
    ensures NameFrom(buf, s, sb, depth, POINTER_MASK_AS_WRITTEN) == NameFrom(buf, s, sb, depth, POINTER_MASK)
    decreases depth, |buf| - s, 0
  {
    var l, low := Byte2Int(buf[s]), Byte2Int(buf[s + 1]);
    var p := PointerTarget(l, low, POINTER_MASK);
    MasksAgreeOnGoodNames(buf, p, [], depth - 1);
    LowTargetsAgree(l, low);
  }

  /** MasksAgreeOnGoodNames at a label: both masks read it the same and go on from the same place. */
  lemma {:induction false} LabelMasksAgree(buf: seq<int8>, s: int, sb: string, depth: nat)
    requires |buf| <= 0x1000 && 0 <= s < |buf|
    requires Byte2Int(buf[s]) != 0 && !IsPointer(Byte2Int(buf[s]))
    requires NameFrom(buf, s, sb, depth, POINTER_MASK).Got?
    ensures NameFrom(buf, s, sb, depth, POINTER_MASK_AS_WRITTEN) == NameFrom(buf, s, sb, depth, POINTER_MASK)
    decreases depth, |buf| - s, 0
  {
    var l := Byte2Int(buf[s]);
    var t := s + 1 + l;
    var piece := Latin1(CopyOfRange(buf, s + 1, t));
    var name := Dot(sb, piece);
    MdnsDiscoverer.LabelStep(buf, s, sb, depth, POINTER_MASK, l, t, piece, name);
    MdnsDiscoverer.LabelStep(buf, s, sb, depth, POINTER_MASK_AS_WRITTEN, l, t, piece, name);
    MasksAgreeOnGoodNames(buf, t, name, depth);
  }


  // ---- Record layout ----

  /** `((b & 0x7F) << 8) + c` is the 16-bit value with bit 15 dropped. */
  lemma {:induction false} MaskedLength(b: int, c: int)
    requires 0 <= b < TWO_8 && 0 <= c < TWO_8
    ensures (b % 128) * TWO_8 + c == ClassOf(b * TWO_8 + c)
  {
    var q := b / 128;
    assert b == q * 128 + b % 128;
    assert b * TWO_8 + c == q * CACHE_FLUSH_BIT + ((b % 128) * TWO_8 + c);
  }

  /**
   * A question record: type and class follow the name's last byte, there
   * is no data, and the next record starts 5 bytes after that byte.
   */
  lemma {:induction false} QuestionLayout(buf: seq<int8>, start: int, depth: nat)
    requires NameAt(buf, start, depth).Got?
    ensures var nl := NameAt(buf, start, depth).value;
      var r := ReadRecord(buf, start, true, false, depth);
      && (r.Got? <==> nl.1 + 4 < |buf|)
      && (r.Got? ==> && r.value.name == nl.0 && r.value.qtype == Word16(buf, nl.1 + 1)
                     && r.value.qclass == Word16(buf, nl.1 + 3) && r.value.data.None?
                     && NextLocation(r.value) == nl.1 + 5)
  {
  }

  /**
   * An answer record: after type and class come a 32-bit TTL, read as a
   * signed `int`, and a data length without its top bit; the data is that
   * many bytes (zeros past the buffer), and the next record follows it.
   */
  lemma {:induction false} AnswerLayout(buf: seq<int8>, start: int, depth: nat)
    requires NameAt(buf, start, depth).Got?
    ensures var e := NameAt(buf, start, depth).value.1;
      var r := ReadRecord(buf, start, false, false, depth);
      && (r.Got? <==> e + 10 < |buf|)
      && (r.Got? ==>
            var len := ClassOf(Word16(buf, e + 9));
            && r.value.timeToLive == ToInt32(Word32(buf, e + 5))
            && r.value.data.Some? && |r.value.data.value| == len
            && r.value.pointer == e + 11
            && NextLocation(r.value) == e + 11 + len
            && (forall i :: 0 <= i < len ==>
                  r.value.data.value[i] == if e + 11 + i < |buf| then buf[e + 11 + i] else 0))
  {
    var nl := NameAt(buf, start, depth).value;
    var e := nl.1;
    if e + 10 < |buf| {
      MaskedLength(Byte2Int(buf[e + 9]), Byte2Int(buf[e + 10]));
      assert AfterName(buf, nl.0, e, false, false).Got?;
    }
  }

  // ---- Routing ----

  /** How many of the walk's first records are questions: the first count when the walk starts at the question section. */
  function QuestionCount(counts: seq<nat>, question: bool): nat
  {
    if question && counts != [] then counts[0] else 0
  }

  /** The section walk from section `question`: each call carries `id`, and exactly the first section's are question calls. */
  lemma {:induction false} SectionsRouting(read: int -> Read<RecordValue>, s: int, counts: seq<nat>, question: bool, id: int)
    ensures forall i :: 0 <= i < |WalkSections(read, s, counts, question, id).0| ==>
      var d := WalkSections(read, s, counts, question, id).0[i];
      d.packetID == id && (d.QueryRecord? <==> i < QuestionCount(counts, question))
    decreases |counts|
  {
    if counts != [] {
      var w := WalkRecords(read, s, counts[0]);
      var ds := Deliveries(w.records, question, id);
      if w.end == Finished {
        assert |ds| == counts[0];
        var rest := WalkSections(read, w.next, counts[1..], false, id);
        SectionsRouting(read, w.next, counts[1..], false, id);
        assert forall j :: 0 <= j < |rest.0| ==> rest.0[j].packetID == id && !rest.0[j].QueryRecord?;
        assert WalkSections(read, s, counts, question, id).0 == ds + rest.0;
        forall i | 0 <= i < |ds + rest.0|
          ensures (ds + rest.0)[i].packetID == id && ((ds + rest.0)[i].QueryRecord? <==> i < QuestionCount(counts, question))
        {
          if i < |ds| {
            assert (ds + rest.0)[i] == ds[i];
          } else {
            assert (ds + rest.0)[i] == rest.0[i - |ds|];
            assert rest.0[i - |ds|].packetID == id && !rest.0[i - |ds|].QueryRecord?;
          }
        }
      }
    }
  }

  /**
   * `readPacket` on one buffer: a packet is counted only when its header
   * passes; then every delegate call carries the packet's id, and the
   * question calls are the first question-count records.
   */
  lemma {:induction false} PacketRouting(buf: seq<int8>, depth: nat, id: int)
    requires |buf| >= HEADER_LENGTH
    ensures var r := ParsePacket(buf, depth, id);
      && (r.counted <==> HeaderAccepted(buf) && (IsQueryHeader(buf) || IsResponseHeader(buf)))
      && (!r.counted ==> r.deliveries == [] && r.end == Finished)
      && (forall i :: 0 <= i < |r.deliveries| ==>
            r.deliveries[i].packetID == id && (r.deliveries[i].QueryRecord? <==> i < Word16(buf, 4)))
  {
    if HeaderAccepted(buf) && (IsQueryHeader(buf) || IsResponseHeader(buf)) {
      SectionsRouting(RecordReader(buf, IsQueryHeader(buf), depth), HEADER_LENGTH, SectionCounts(buf), true, id);
      assert SectionCounts(buf)[0] == Word16(buf, 4);
    }
  }

  // ---- The query ----

  /** Every label written from `s` fits when the labels and the 5 closing bytes fit. */
  lemma {:induction false} LabelsFitWhenAllFits(labels: seq<string>, s: int)
    requires s + |EncodeLabels(labels)| < SEARCH_BUFFER_LENGTH
    ensures LabelsFit(labels, s)
    decreases |labels|
  {
    if labels != [] {
      LabelsFitWhenAllFits(labels[1..], s + |Utf8(labels[0])| + 1);
    }
  }

  /** The encoded labels are one byte longer than the dotted name. */
  lemma {:induction false} EncodeLabelsLength(labels: seq<string>)
    requires |labels| >= 1 && AsciiLabels(labels)
    ensures |EncodeLabels(labels)| == |JoinNames(labels)| + 1
  {
    EncodeAsciiLabels(labels);
    LabelBytesLength(labels);
  }

  lemma {:induction false} LabelBytesLength(labels: seq<string>)
    requires |labels| >= 1
    ensures |LabelBytes(labels)| == |JoinNames(labels)| + 1
    decreases |labels|
  {
    if |labels| > 1 {
      LabelBytesLength(labels[1..]);
    }
  }

  /** A section walk over zero counts reads nothing and finishes. */
  lemma {:induction false} EmptySections(read: int -> Read<RecordValue>, s: int, counts: seq<nat>, id: int)
    requires forall k :: 0 <= k < |counts| ==> counts[k] == 0
    ensures WalkSections(read, s, counts, false, id) == ([], Finished)
    decreases |counts|
  {
    if counts != [] {
      EmptySections(read, s, counts[1..], id);
    }
  }

  /** Where the labels of a query sit in its bytes, and what surrounds them. */
  lemma {:induction false} QueryLayout(labels: seq<string>, targetType: int, buf: seq<int8>)
    requires At(buf, 0, QueryBytes(labels, targetType))
    ensures var e := EncodeLabels(labels);
      && At(buf, HEADER_LENGTH, e + [0])
      && buf[0] == 0 && buf[1] == 0 && buf[2] == 0 && buf[3] == 0
      && SectionCounts(buf) == [1, 0, 0, 0]
      && buf[HEADER_LENGTH + |e| + 1] == 0 && buf[HEADER_LENGTH + |e| + 2] == ToByte(targetType)
      && buf[HEADER_LENGTH + |e| + 3] == 0 && buf[HEADER_LENGTH + |e| + 4] == ToByte(CLASS_IN)
  {
    var e := EncodeLabels(labels);
    var q := QueryBytes(labels, targetType);
    var h := QueryHeader();
    var last: seq<int8> := [0, ToByte(targetType), 0, ToByte(CLASS_IN)];
    assert q == h + ((e + [0]) + last);
    AtSplit(buf, 0, h, (e + [0]) + last);
    AtSplit(buf, HEADER_LENGTH, e + [0], last);
    var t := HEADER_LENGTH + |e|;
    assert HEADER_LENGTH + |e + [0]| == t + 1;
    forall i | 0 <= i < HEADER_LENGTH
      ensures buf[i] == if i == 5 then 1 else 0
    {
      AtIndex(buf, 0, h, i);
    }
    AtIndex(buf, t + 1, last, 0);
    AtIndex(buf, t + 1, last, 1);
    AtIndex(buf, t + 1, last, 2);
    AtIndex(buf, t + 1, last, 3);
    assert Word16(buf, 4) == 1;
  }

  /** The one question a query asks, as the reader sees it: the name ends at the byte before `next - 5`. */
  lemma {:induction false} QueryQuestion(labels: seq<string>, targetType: int, buf: seq<int8>, depth: nat)
    requires |labels| >= 1 && AsciiLabels(labels)
    requires At(buf, 0, QueryBytes(labels, targetType)) && |buf| > |QueryBytes(labels, targetType)|
    ensures ReadRecord(buf, HEADER_LENGTH, true, false, depth)
      == Got(RecordValue(JoinNames(labels), targetType % TWO_8, CLASS_IN, 0, HEADER_LENGTH + |EncodeLabels(labels)| + 5, None))
  {
    var e := EncodeLabels(labels);
    QueryLayout(labels, targetType, buf);
    PlainNameRead(buf, HEADER_LENGTH, depth, labels);
    var t := HEADER_LENGTH + |e|;
    ByteRoundTrip(buf[t + 2], targetType);
    assert Word16(buf, t + 1) == targetType % TWO_8;
    assert Word16(buf, t + 3) == CLASS_IN;
  }

  /**
   * `sendSearch` then `readPacket`: a name of ASCII labels without dots is
   * sent as a query of 18 bytes more than the name, and a discoverer that
   * receives it hands its delegate one question record with that name, the
   * type asked for (as a byte), class IN and the packet's id.
   */
  lemma {:induction false} SearchReadsBack(labels: seq<string>, targetType: int, oldBuffer: seq<int8>, depth: nat, id: int)
    requires |labels| >= 1 && AsciiLabels(labels)
    requires forall k :: 0 <= k < |labels| ==> '.' !in labels[k]
    requires |JoinNames(labels)| + 18 <= SEARCH_BUFFER_LENGTH
    requires |oldBuffer| == PACKET_BUFFER_LENGTH
    ensures var name := JoinNames(labels);
      var q := QueryBytes(labels, targetType);
      && SearchOutcome(name, targetType) == Sent(q)
      && |q| == |name| + 18
      && ParsePacket(Received(oldBuffer, q), depth, id)
         == PacketResult([QueryRecord(RecordValue(name, targetType % TWO_8, CLASS_IN, 0, |name| + 18, None), id)], true, Finished)
  {
    var name := JoinNames(labels);
    var q := QueryBytes(labels, targetType);
    SearchSent(labels, targetType);
    var buf := Received(oldBuffer, q);
    ReceivedHolds(oldBuffer, q);
    QueryPacketParsed(labels, targetType, buf, depth, id);
  }

  /** A name of ASCII labels without dots that fits is sent as the query for its labels. */
  lemma {:induction false} SearchSent(labels: seq<string>, targetType: int)
    requires |labels| >= 1 && AsciiLabels(labels)
    requires forall k :: 0 <= k < |labels| ==> '.' !in labels[k]
    requires |JoinNames(labels)| + 18 <= SEARCH_BUFFER_LENGTH
    ensures SearchOutcome(JoinNames(labels), targetType) == Sent(QueryBytes(labels, targetType))
    ensures |QueryBytes(labels, targetType)| == |JoinNames(labels)| + 18
  {
    EncodeLabelsLength(labels);
    OscMatchProperties.SplitOfJoin(labels, '.');
    LabelsFitWhenAllFits(labels, HEADER_LENGTH);
  }

  /** The received buffer holds the datagram from its start. */
  lemma {:induction false} ReceivedHolds(oldBuffer: seq<int8>, q: seq<int8>)
    requires |q| <= |oldBuffer|
    ensures At(Received(oldBuffer, q), 0, q)
  {
    var buf := Received(oldBuffer, q);
    forall i | 0 <= i < |q|
      ensures buf[0 + i] == q[i]
    {
    }
  }

  /** A buffer that starts with a query: one question record, with the packet's id, and the walk finishes. */
  lemma {:induction false} QueryPacketParsed(labels: seq<string>, targetType: int, buf: seq<int8>, depth: nat, id: int)
    requires |labels| >= 1 && AsciiLabels(labels)
    requires At(buf, 0, QueryBytes(labels, targetType)) && |buf| > |QueryBytes(labels, targetType)|
    ensures ParsePacket(buf, depth, id)
      == PacketResult([QueryRecord(RecordValue(JoinNames(labels), targetType % TWO_8, CLASS_IN, 0,
                                               HEADER_LENGTH + |EncodeLabels(labels)| + 5, None), id)], true, Finished)
  {
    var next := HEADER_LENGTH + |EncodeLabels(labels)| + 5;
    QueryLayout(labels, targetType, buf);
    QueryQuestion(labels, targetType, buf, depth);
    var read := RecordReader(buf, true, depth);
    var v := RecordValue(JoinNames(labels), targetType % TWO_8, CLASS_IN, 0, next, None);
    assert read(HEADER_LENGTH) == Got(v);
    var counts := SectionCounts(buf);
    assert WalkRecords(read, HEADER_LENGTH, 1) == Walk([v], next, Finished);
    EmptySections(read, next, counts[1..], id);
    assert Deliveries([v], true, id) == [QueryRecord(v, id)];
  }
}
