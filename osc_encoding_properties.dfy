/**
 * The serialiser writes the OSC wire format: whenever `addOSCMessageToBytes`
 * returns a length, the buffer starts with exactly Encode(m) and is
 * otherwise unchanged; with more than 4 spare bytes it always succeeds; it
 * throws only for an empty pattern in a buffer under 4 bytes. Also the two
 * writer defects: the double writer's short room check and the string
 * writer's missing NUL.
 */
module OscEncodingProperties {
  import opened JavaBytes
  import opened Wrappers
  import opened OscArgument
  import opened OscMatch
  import opened OscEncoding

  lemma {:induction false} Pad4Shift(start: int, x: int)
    requires Aligned(start)
    ensures Pad4(start + x) == start + Pad4(x)
  {
    AlignedIsMod(start);
    var q := start / 4;
    assert start == 4 * q;
    assert (start + x) % 4 == x % 4;
  }

  lemma {:induction false} PutPut(buf: seq<int8>, at: int, x: seq<int8>, y: seq<int8>)
    requires 0 <= at && at + |x| + |y| <= |buf|
    ensures Put(Put(buf, at, x), at + |x|, y) == Put(buf, at, x + y)
  {
    var b1 := Put(buf, at, x);
    assert b1[..at + |x|] == buf[..at] + x;
    assert b1[at + |x| + |y|..] == buf[at + |x| + |y|..];
  }

  lemma {:induction false} AsciiBytesAppend(x: string, y: string)
    ensures AsciiBytes(x + y) == AsciiBytes(x) + AsciiBytes(y)
  {
  }

  lemma {:induction false} WritePartsWrites(parts: seq<string>, buf: seq<int8>, ci: int)
    requires 0 <= ci <= |buf|
    ensures var r := WriteParts(parts, buf, ci);
      r.Written? ==> (r.ci == ci + |JoinParts(parts)| && r.buf == Put(buf, ci, AsciiBytes(JoinParts(parts)))
                      && (parts != [] ==> r.ci + 7 <= |buf|))
    ensures ci + |JoinParts(parts)| + 7 <= |buf| ==> WriteParts(parts, buf, ci).Written?
    decreases |parts|
  {
    if parts != [] && ci + |parts[0]| + 8 <= |buf| {
      var x := [CharToByte('/')] + AsciiBytes(parts[0]);
      var b1 := Put(buf, ci, x);
      var j := JoinParts(parts[1..]);
      WritePartsWrites(parts[1..], b1, ci + |x|);
      JoinPartsBytes(parts);
      if ci + |x| + |j| <= |buf| {
        PutPut(buf, ci, x, AsciiBytes(j));
      }
    } else if parts == [] {
      assert buf[..ci] + [] + buf[ci..] == buf;
    }
  }

  /** The bytes of "/p0/p1/...": '/', the first part, then the rest. */
  lemma {:induction false} JoinPartsBytes(parts: seq<string>)
    requires parts != []
    ensures AsciiBytes(JoinParts(parts)) == [CharToByte('/')] + AsciiBytes(parts[0]) + AsciiBytes(JoinParts(parts[1..]))
  {
    var j := JoinParts(parts[1..]);
    assert JoinParts(parts) == ("/" + parts[0]) + j;
    AsciiBytesAppend("/" + parts[0], j);
    AsciiBytesAppend("/", parts[0]);
  }

  lemma {:induction false} WriteAddressFaults(parts: seq<string>, buf: seq<int8>)
    ensures WriteAddress(parts, buf) == Fault <==> parts == [] && |buf| < 4
  {
    WritePartsWrites(parts, buf, 0);
  }

  lemma {:induction false} WriteAddressContent(parts: seq<string>, buf: seq<int8>)
    ensures var r := WriteAddress(parts, buf);
      r.Ok? && r.value.1 < |buf| ==>
        r.value.1 == |EncodeAddress(parts)| && r.value.0 == Put(buf, 0, EncodeAddress(parts))
  {
    WritePartsWrites(parts, buf, 0);
    var j := AsciiBytes(JoinParts(parts));
    var w := WriteParts(parts, buf, 0);
    if w.Written? && Pad4(w.ci + 1) <= |w.buf| {
      assert w.ci == |j| && w.buf == Put(buf, 0, j);
      var z := Zeros(Pad4(|j| + 1) - |j|);
      assert WriteAddress(parts, buf) == Ok((Put(w.buf, |j|, z), Pad4(|j| + 1)));
      PutPut(buf, 0, j, z);
      assert j + z == EncodeAddress(parts);
    }
  }

  lemma {:induction false} WriteAddressRoom(parts: seq<string>, buf: seq<int8>)
    requires |buf| >= |EncodeAddress(parts)| + 6
    ensures WriteAddress(parts, buf).Ok? && WriteAddress(parts, buf).value.1 == |EncodeAddress(parts)|
  {
    WritePartsWrites(parts, buf, 0);
  }

  /**
   * `addAddressPatternToBytes`: when it returns an index inside the buffer,
   * that index is the length of the padded address and the buffer starts
   * with it; it throws exactly for an empty pattern in a buffer under 4 bytes.
   */
  lemma {:induction false} WriteAddressWrites(parts: seq<string>, buf: seq<int8>)
    ensures WriteAddress(parts, buf) == Fault <==> parts == [] && |buf| < 4
    ensures var r := WriteAddress(parts, buf);
      r.Ok? && r.value.1 < |buf| ==>
        r.value.1 == |EncodeAddress(parts)| && r.value.0 == Put(buf, 0, EncodeAddress(parts))
    ensures |buf| >= |EncodeAddress(parts)| + 6 ==>
      WriteAddress(parts, buf) == Ok((Put(buf, 0, EncodeAddress(parts)), |EncodeAddress(parts)|))
  {
    WriteAddressFaults(parts, buf);
    WriteAddressContent(parts, buf);
    if |buf| >= |EncodeAddress(parts)| + 6 {
      WriteAddressRoom(parts, buf);
    }
  }

  /** `addArgumentTypeTagsToBytes` from an aligned index writes the padded tag string. */
  lemma {:induction false} WriteTypeTagsWrites(args: seq<Argument>, buf: seq<int8>, start: int)
    requires 0 <= start <= |buf| && Aligned(start)
    ensures var (b, e) := WriteTypeTags(args, buf, start);
      e < |buf| ==> e == start + |EncodeTypeTags(args)| && b == Put(buf, start, EncodeTypeTags(args))
    ensures start + |EncodeTypeTags(args)| + 4 <= |buf| ==>
      WriteTypeTags(args, buf, start).1 == start + |EncodeTypeTags(args)|
  {
    Pad4Shift(start, |args| + 2);
    var t := [CharToByte(',')] + TagBytes(args);
    assert t + Zeros(Pad4(|args| + 2) - |args| - 1) == EncodeTypeTags(args);
  }

  lemma {:induction false} WriteArgumentWrites(a: Argument, buf: seq<int8>, start: int)
    requires 0 <= start <= |buf| && Aligned(start)
    ensures var (b, c) := WriteArgument(a, buf, start);
      c < |buf| ==> c == start + |EncodeArgument(a)| && b == Put(buf, start, EncodeArgument(a))
    ensures start + |EncodeArgument(a)| + 4 < |buf| ==>
      WriteArgument(a, buf, start).1 == start + |EncodeArgument(a)|
  {
    match a
    case StringArg(s) =>
      WriteStringWrites(s, buf, start);
    case BlobArg(bs) =>
      WriteBlobWrites(bs, buf, start);
    case TrueArg =>
      PutNothing(buf, start);
    case FalseArg =>
      PutNothing(buf, start);
    case ImpulseArg =>
      PutNothing(buf, start);
    case NullArg =>
      PutNothing(buf, start);
    case IntArg(i) =>
      WriteFixedWrites(WriteInt(i, buf, start), BigEndian32(i), buf, start);
    case FloatArg(bits) =>
      WriteFixedWrites(WriteInt(bits, buf, start), BigEndian32(bits), buf, start);
    case DoubleArg(bits) =>
      WriteFixedWrites(WriteDouble(bits, buf, start), BigEndian64(bits), buf, start);
    case TimestampArg(bits) =>
      WriteFixedWrites(WriteDouble(bits, buf, start), BigEndian64(bits), buf, start);
  }

  /** A writer that checks for room for its bytes `e` and writes them. */
  lemma {:induction false} WriteFixedWrites(w: (seq<int8>, int), e: seq<int8>, buf: seq<int8>, start: int)
    requires 0 <= start <= |buf|
    requires w == if start + |e| > |buf| then (buf, |buf|) else (Put(buf, start, e), start + |e|)
    ensures w.1 < |buf| ==> w.1 == start + |e| && w.0 == Put(buf, start, e)
    ensures start + |e| + 4 < |buf| ==> w.1 == start + |e|
  {
  }

  lemma {:induction false} PutNothing(buf: seq<int8>, start: int)
    requires 0 <= start <= |buf|
    ensures Put(buf, start, []) == buf
  {
    assert buf[..start] + [] + buf[start..] == buf;
  }

  lemma {:induction false} WriteStringWrites(s: string, buf: seq<int8>, start: int)
    requires 0 <= start <= |buf| && Aligned(start)
    ensures var (b, c) := WriteString(s, buf, start);
      c < |buf| ==> c == start + |EncodeArgument(StringArg(s))| && b == Put(buf, start, EncodeArgument(StringArg(s)))
    ensures start + |EncodeArgument(StringArg(s))| + 4 < |buf| ==>
      WriteString(s, buf, start).1 == start + |EncodeArgument(StringArg(s))|
  {
    Pad4Shift(start, |s| + 1);
  }

  lemma {:induction false} WriteBlobWrites(bs: seq<int8>, buf: seq<int8>, start: int)
    requires 0 <= start <= |buf| && Aligned(start)
    ensures var (b, c) := WriteBlob(bs, buf, start);
      c < |buf| ==> c == start + |EncodeArgument(BlobArg(bs))| && b == Put(buf, start, EncodeArgument(BlobArg(bs)))
    ensures start + |EncodeArgument(BlobArg(bs))| + 4 < |buf| ==>
      WriteBlob(bs, buf, start).1 == start + |EncodeArgument(BlobArg(bs))|
  {
    Pad4Shift(start + 4, |bs|);
    assert BigEndian32(|bs|) + bs + Zeros(Pad4(|bs|) - |bs|) == EncodeArgument(BlobArg(bs));
  }

  lemma {:induction false} WriteArgumentsWrites(args: seq<Argument>, buf: seq<int8>, ci: int)
    requires 0 <= ci < |buf| && Aligned(ci)
    ensures var (b, r) := WriteArguments(args, buf, ci);
      r != -1 ==> r == ci + |EncodeArguments(args)| && r < |buf| && b == Put(buf, ci, EncodeArguments(args))
    ensures ci + |EncodeArguments(args)| + 4 < |buf| ==>
      WriteArguments(args, buf, ci).1 == ci + |EncodeArguments(args)|
    decreases |args|
  {
    if args == [] {
      assert buf[..ci] + [] + buf[ci..] == buf;
    } else {
      var e0 := EncodeArgument(args[0]);
      ArgumentAligned(args[0]);
      AlignedSum(ci, |e0|);
      WriteArgumentWrites(args[0], buf, ci);
      var (b1, c1) := WriteArgument(args[0], buf, ci);
      if c1 < |b1| {
        WriteArgumentsWrites(args[1..], b1, c1);
        var rest := EncodeArguments(args[1..]);
        var (b, r) := WriteArguments(args[1..], b1, c1);
        if r != -1 {
          PutPut(buf, ci, e0, rest);
        }
      }
    }
  }

  lemma {:induction false} WriteMessageFaults(m: MessageValue, buf: seq<int8>)
    ensures WriteMessage(m, buf) == Fault <==> m.addressPattern == [] && |buf| < 4
  {
    WriteAddressWrites(m.addressPattern, buf);
  }

  /** Address, type tags and arguments written one after another are the message written at once. */
  lemma {:induction false} ThreePuts(buf: seq<int8>, ea: seq<int8>, et: seq<int8>, eg: seq<int8>)
    requires |ea| + |et| + |eg| <= |buf|
    ensures Put(Put(Put(buf, 0, ea), |ea|, et), |ea| + |et|, eg) == Put(buf, 0, ea + et + eg)
  {
    PutPut(buf, 0, ea, et);
    var e2 := ea + et;
    assert |e2| == |ea| + |et|;
    PutPut(buf, 0, e2, eg);
  }

  lemma {:induction false} WriteMessageLength(m: MessageValue, buf: seq<int8>)
    ensures var r := WriteMessage(m, buf);
      r.Ok? && r.value.1 != -1 ==>
        r.value.1 == |Encode(m)| < |buf| && r.value.0 == Put(buf, 0, Encode(m))
  {
    var ea := EncodeAddress(m.addressPattern);
    var et := EncodeTypeTags(m.arguments);
    var eg := EncodeArguments(m.arguments);
    EncodeAligned(m);
    AlignedSum(|ea|, |et|);
    WriteAddressContent(m.addressPattern, buf);
    var r := WriteAddress(m.addressPattern, buf);
    if r.Ok? && r.value.1 < |buf| {
      var b := r.value.0;
      assert r.value.1 == |ea| && b == Put(buf, 0, ea);
      WriteTypeTagsWrites(m.arguments, b, |ea|);
      var t := WriteTypeTags(m.arguments, b, |ea|);
      if t.1 < |buf| {
        assert t.1 == |ea| + |et| && t.0 == Put(b, |ea|, et);
        WriteArgumentsWrites(m.arguments, t.0, t.1);
        var g := WriteArguments(m.arguments, t.0, t.1);
        assert WriteMessage(m, buf) == Ok(g);
        if g.1 != -1 {
          assert g.1 == |ea| + |et| + |eg| && g.0 == Put(t.0, |ea| + |et|, eg);
          ThreePuts(buf, ea, et, eg);
          assert ea + et + eg == Encode(m);
        }
      }
    }
  }

  lemma {:induction false} WriteMessageWithRoom(m: MessageValue, buf: seq<int8>)
    requires |buf| > |Encode(m)| + 4
    ensures WriteMessage(m, buf) == Ok((Put(buf, 0, Encode(m)), |Encode(m)|))
  {
    var ea := EncodeAddress(m.addressPattern);
    var et := EncodeTypeTags(m.arguments);
    var eg := EncodeArguments(m.arguments);
    EncodeAligned(m);
    AlignedSum(|ea|, |et|);
    WriteAddressWrites(m.addressPattern, buf);
    var (b, ci) := WriteAddress(m.addressPattern, buf).value;
    assert ci == |ea|;
    WriteTypeTagsWrites(m.arguments, b, ci);
    var (b2, c2) := WriteTypeTags(m.arguments, b, ci);
    assert c2 == |ea| + |et|;
    WriteArgumentsWrites(m.arguments, b2, c2);
    WriteMessageLength(m, buf);
  }

  /**
   * `addOSCMessageToBytes` writes the OSC wire format: a result other than
   * -1 is the length of Encode(m), smaller than the buffer, and the buffer
   * then starts with Encode(m) and is unchanged after it. With more than 4
   * spare bytes the result is always that length. The only exception is an
   * empty address pattern in a buffer under 4 bytes.
   */
  lemma {:induction false} WriteMessageEncodes(m: MessageValue, buf: seq<int8>)
    ensures WriteMessage(m, buf) == Fault <==> m.addressPattern == [] && |buf| < 4
    ensures var r := WriteMessage(m, buf);
      r.Ok? && r.value.1 != -1 ==>
        r.value.1 == |Encode(m)| < |buf| && r.value.0 == Put(buf, 0, Encode(m))
    ensures |buf| > |Encode(m)| + 4 ==> WriteMessage(m, buf) == Ok((Put(buf, 0, Encode(m)), |Encode(m)|))
  {
    WriteMessageFaults(m, buf);
    WriteMessageLength(m, buf);
    if |buf| > |Encode(m)| + 4 {
      WriteMessageWithRoom(m, buf);
    }
  }

  /**
   * The double writer as written checks room for 4 bytes and writes 8: with
   * 4 to 7 bytes left it throws, where the checked writer reports no room.
   * Elsewhere the two agree.
   */
  lemma {:induction false} DoubleWriterThrowsAsWritten(bits: int, buf: seq<int8>, start: int)
    requires 0 <= start <= |buf|
    ensures start + 4 <= |buf| < start + 8 ==>
      WriteDoubleAsWritten(bits, buf, start) == Fault && WriteDouble(bits, buf, start) == (buf, |buf|)
    ensures (|buf| < start + 4 || start + 8 <= |buf|) ==>
      WriteDoubleAsWritten(bits, buf, start) == Ok(WriteDouble(bits, buf, start))
  {
  }

  /**
   * The string writer as written ends a string whose chars finish on a
   * 4-byte boundary with no NUL at all, while an OSC-string always has one:
   * the corrected writer puts a NUL right after the chars and pads 4 bytes
   * further.
   */
  lemma {:induction false} StringWriterOmitsNulAsWritten(s: string, buf: seq<int8>, start: int)
    requires 0 <= start && start + |s| + 4 <= |buf|
    requires start % 4 == 0 && |s| % 4 == 0
    ensures WriteStringAsWritten(s, buf, start).1 == start + |s|
    ensures WriteStringAsWritten(s, buf, start).0 == Put(buf, start, AsciiBytes(s))
    ensures WriteString(s, buf, start).1 == start + |s| + 4
    ensures WriteString(s, buf, start).0[start + |s|] == 0
  {
    AlignedIsMod(start);
    Pad4Shift(start, |s|);
    Pad4Shift(start, |s| + 1);
    assert AsciiBytes(s) + Zeros(0) == AsciiBytes(s);
    var w := WriteString(s, buf, start).0;
    var x := AsciiBytes(s) + Zeros(4);
    assert w == buf[..start] + x + buf[start + |x|..];
    assert w[start + |s|] == x[|s|];
  }
}
