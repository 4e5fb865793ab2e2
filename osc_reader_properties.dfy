/**
 * What the lx4p packet reader recovers from what the lx4p serialiser
 * writes, and how it rejects what it cannot read.
 */
module OscReaderProperties {
  import opened JavaBytes
  import opened Wrappers
  import opened OscArgument
  import opened OscMatch
  import opened OscEncoding
  import opened OscReaderSpec
  import OscMatchProperties
  import OscEncodingProperties

  lemma {:induction false} MulAtLeast(x: int, m: int)
    requires x >= 1 && m > 0
    ensures x * m >= m
    decreases x
  {
    if x > 1 {
      MulAtLeast(x - 1, m);
      assert x * m == (x - 1) * m + m;
    }
  }

  /** Division with remainder has one answer. */
  lemma {:induction false} ModUnique(v: int, m: int, q: int, r: int)
    requires m > 0 && v == q * m + r && 0 <= r < m
    ensures v % m == r && v / m == q
  {
    var q', r' := v / m, v % m;
    assert v == q' * m + r';
    assert (q - q') * m == q * m - q' * m;
    assert (q - q') * m == r' - r;
    if q > q' {
      MulAtLeast(q - q', m);
    } else if q < q' {
      MulAtLeast(q' - q, m);
    }
  }

  /** One more base-256 digit of `v` below `m`. */
  lemma {:induction false} DigitSplit(v: int, m: int)
    requires m > 0
    ensures (v / m) % TWO_8 * m + v % m == v % (TWO_8 * m)
  {
    var a, b := v / m, v % m;
    var c, d := a / TWO_8, a % TWO_8;
    DigitProduct(a, c, d, m);
    ModUnique(v, TWO_8 * m, c, d * m + b);
  }

  /** The product steps behind `DigitSplit`, kept apart from its division. */
  lemma {:induction false} DigitProduct(a: int, c: int, d: int, m: int)
    requires m > 0 && a == c * TWO_8 + d && 0 <= d < TWO_8
    ensures a * m == c * (TWO_8 * m) + d * m && 0 <= d * m <= (TWO_8 - 1) * m
  {
    MulAdd(c * TWO_8, d, m);
    MulAssoc256(c, m);
    MulAdd(d, TWO_8 - 1 - d, m);
    MulNonneg(TWO_8 - 1 - d, m);
    MulNonneg(d, m);
  }

  lemma {:induction false} MulAdd(x: int, y: int, m: int)
    ensures (x + y) * m == x * m + y * m
  {
  }

  lemma {:induction false} MulAssoc256(c: int, m: int)
    ensures (c * TWO_8) * m == c * (TWO_8 * m)
  {
  }

  lemma {:induction false} MulNonneg(x: int, y: int)
    requires 0 <= x && 0 <= y
    ensures 0 <= x * y
  {
  }

  /** Four big-endian bytes read back give the value modulo 2^32. */
  lemma {:induction false} Unsigned32OfBigEndian(v: int)
    ensures Unsigned32(BigEndian32(v), 0) == v % TWO_32
  {
    var e := BigEndian32(v);
    ByteRoundTrip(e[0], v / 0x100_0000);
    ByteRoundTrip(e[1], v / 0x1_0000);
    ByteRoundTrip(e[2], v / 0x100);
    ByteRoundTrip(e[3], v);
    DigitSplit(v, 1);
    DigitSplit(v, 0x100);
    DigitSplit(v, 0x1_0000);
    DigitSplit(v, 0x100_0000);
    assert v / 1 == v;
  }

  /** Eight big-endian bytes read back give any 64-bit pattern. */
  lemma {:induction false} Unsigned64OfBigEndian(v: int)
    requires 0 <= v < TWO_32 * TWO_32
    ensures Unsigned64(BigEndian64(v), 0) == v
  {
    var hi, lo := BigEndian32(v / TWO_32), BigEndian32(v);
    var e := BigEndian64(v);
    assert e == hi + lo;
    assert e[0] == hi[0] && e[1] == hi[1] && e[2] == hi[2] && e[3] == hi[3];
    assert e[4] == lo[0] && e[5] == lo[1] && e[6] == lo[2] && e[7] == lo[3];
    assert Unsigned32(e, 0) == Unsigned32(hi, 0);
    assert Unsigned32(e, 4) == Unsigned32(lo, 0);
    Unsigned32OfBigEndian(v / TWO_32);
    Unsigned32OfBigEndian(v);
    ModUnique(v / TWO_32, TWO_32, 0, v / TWO_32);
    ModUnique(v, TWO_32, v / TWO_32, v % TWO_32);
  }

  /** Reading depends only on the four bytes read. */
  lemma {:induction false} Unsigned32Slice(d: seq<int8>, s: int)
    requires 0 <= s && s + 4 <= |d|
    ensures Unsigned32(d, s) == Unsigned32(d[s..s + 4], 0)
  {
  }

  /**
   * `decode_bytes_to_int` reads back what `addIntArgumentToBytes` writes,
   * and in the other order reads the bytes reversed.
   */
  lemma {:induction false} DecodeIntRoundTrip(v: int)
    requires -TWO_31 <= v < TWO_31
    ensures DecodeBytesToInt(BigEndian32(v), 0, true) == Ok(v)
    ensures var e := BigEndian32(v); DecodeBytesToInt([e[3], e[2], e[1], e[0]], 0, false) == Ok(v)
  {
    DecodeIntBigEndian(v);
    var e := BigEndian32(v);
    var r := [e[3], e[2], e[1], e[0]];
    assert [r[3], r[2], r[1], r[0]] == e;
  }

  lemma {:induction false} DecodeIntBigEndian(v: int)
    requires -TWO_31 <= v < TWO_31
    ensures DecodeBytesToInt(BigEndian32(v), 0, true) == Ok(v)
  {
    Unsigned32OfBigEndian(v);
    ToInt32OfPattern(v);
  }

  /**
   * Finding: `decode_bytes_to_long` as written reads the double 1.0
   * (bytes 3F F0 00 00 00 00 00 00) as the bit pattern 0x3FF00000, whose
   * double is a denormal near 5.3e-315, where 0x3FF0000000000000 was meant.
   */
  lemma {:induction false} DecodeLongMisreadsAsWritten()
    ensures var d := BigEndian64(0x3FF0_0000_0000_0000);
      DecodeLongAsWritten(d, 0) == 0x3FF0_0000 && Unsigned64(d, 0) == 0x3FF0_0000_0000_0000
  {
    Unsigned64OfBigEndian(0x3FF0_0000_0000_0000);
    OneAsBytes();
    OneMisread();
  }

  /** The bytes of the double 1.0, read by `decode_bytes_to_long` as written. */
  lemma {:induction false} OneMisread()
    ensures DecodeLongAsWritten([0x3F, -16, 0, 0, 0, 0, 0, 0], 0) == 0x3FF0_0000
  {
    var d: seq<int8> := [0x3F, -16, 0, 0, 0, 0, 0, 0];
    assert OrBytes(d[0], d[4]) == 0x3F && OrBytes(d[1], d[5]) == 0xF0;
    assert OrBytes(d[2], d[6]) == 0 && OrBytes(d[3], d[7]) == 0;
  }

  /** The bytes of the double 1.0. */
  lemma {:induction false} OneAsBytes()
    ensures BigEndian64(0x3FF0_0000_0000_0000) == [0x3F, -16, 0, 0, 0, 0, 0, 0]
  {
    assert BigEndian32(0x3FF0_0000) == [0x3F, -16, 0, 0];
    assert BigEndian32(0x3FF0_0000_0000_0000) == [0, 0, 0, 0];
  }

  /**
   * Finding: the payload-free tags, as written, come back as int arguments
   * holding the tag's code (84, 70, 73, 78); the corrected reading gives
   * back the argument that wrote the tag.
   */
  lemma {:induction false} PayloadFreeTagsReadAsInts(a: Argument)
    requires TypeCode(a) >= 6
    ensures var tag := CharToByte(TypeTag(a));
      ArgumentForTagAsWritten(tag) == IntArg(TypeTag(a) as int) && ArgumentForTag(tag) == a
  {
    SmallByte(TypeTag(a) as int);
  }

  /** The padded index of a string is the OSC-string length. */
  lemma {:induction false} NextIndexForStringIsPadded(s: string, start: int)
    ensures NextIndexForString(s, start) == start + Pad4(|s| + 1)
  {
  }

  lemma {:induction false} NextIndexForIndexIsPadded(i: int)
    requires i >= 0
    ensures NextIndexForIndex(i) == Pad4(i + 1)
  {
  }

  /** `(int)` of the unsigned 32-bit pattern of an `int` is that `int`. */
  lemma {:induction false} ToInt32OfPattern(i: int)
    requires -TWO_31 <= i < TWO_31
    ensures ToInt32(i % TWO_32) == i
  {
    if i >= 0 {
      ModUnique(i, TWO_32, 0, i);
      ModUnique(i + TWO_31, TWO_32, 0, i + TWO_31);
    } else {
      ModUnique(i, TWO_32, -1, i + TWO_32);
      ModUnique(i + TWO_32 + TWO_31, TWO_32, 1, i + TWO_31);
    }
  }

  /** `nextLocationOfChar` finds the first occurrence. */
  lemma {:induction false} NextLocationAt(buf: seq<int8>, test: int8, start: int, endindex: int, p: int)
    requires 0 <= start <= p < endindex <= |buf| && buf[p] == test
    requires forall k :: start <= k < p ==> buf[k] != test
    ensures NextLocationOfChar(buf, test, start, endindex) == p
  {
  }

  /** An argument the reader can carry back: a Java payload, string chars in 1..255, a blob size that is an `int`. */
  predicate Readable(a: Argument)
  {
    && WellFormed(a)
    && (a.StringArg? ==> forall i :: 0 <= i < |a.s| ==> 0 < a.s[i] as int < TWO_8)
    && (a.BlobArg? ==> |a.b| < TWO_31)
  }

  /** The arguments that put bytes after the type tags (all but T, F, I and N). */
  predicate HasPayload(a: Argument)
  {
    TypeCode(a) < 6
  }

  predicate NoPayload(args: seq<Argument>)
  {
    forall k :: 0 <= k < |args| ==> !HasPayload(args[k])
  }

  /** What the reader keeps of one argument: an empty blob is skipped. */
  function KeptOne(a: Argument): seq<Argument>
  {
    if a == BlobArg([]) then [] else [a]
  }

  /**
   * The arguments the reader returns: empty blobs drop out, and so do the
   * payload-free arguments after the last argument with a payload.
   */
  function Kept(args: seq<Argument>): (r: seq<Argument>)
    ensures |r| <= |args|
  {
    if NoPayload(args) then []
    else KeptOne(args[0]) + Kept(args[1..])
  }

  /** Every argument survives when none is an empty blob and the last one has a payload. */
  lemma {:induction false} KeptAll(args: seq<Argument>)
    requires forall k :: 0 <= k < |args| ==> args[k] != BlobArg([])
    requires args == [] || HasPayload(args[|args| - 1])
    ensures Kept(args) == args
    decreases |args|
  {
    if args != [] {
      assert !HasPayload(args[|args| - 1]) ==> false;
      var rest := args[1..];
      assert rest == [] || rest[|rest| - 1] == args[|args| - 1];
      KeptAll(rest);
      assert args == [args[0]] + rest;
    }
  }

  /** Payload-free arguments put no bytes on the wire. */
  lemma {:induction false} NoPayloadNoBytes(args: seq<Argument>)
    requires NoPayload(args)
    ensures EncodeArguments(args) == []
    decreases |args|
  {
    if args != [] {
      assert forall k :: 1 <= k < |args| ==> args[1..][k - 1] == args[k];
      NoPayloadNoBytes(args[1..]);
    }
  }

  /** An argument with a payload puts at least 4 bytes on the wire. */
  lemma {:induction false} PayloadSomeBytes(args: seq<Argument>, k: int)
    requires 0 <= k < |args| && HasPayload(args[k])
    ensures |EncodeArguments(args)| >= 4
    decreases |args|
  {
    if k > 0 {
      ArgumentsLength(args);
      assert args[1..][k - 1] == args[k];
      PayloadSomeBytes(args[1..], k - 1);
    } else {
      FirstArgumentLength(args);
    }
  }

  /** The first argument's bytes and the rest's make up the encoding. */
  lemma {:induction false} ArgumentsLength(args: seq<Argument>)
    requires args != []
    ensures |EncodeArguments(args)| == |EncodeArgument(args[0])| + |EncodeArguments(args[1..])|
  {
  }

  /** A first argument with a payload puts at least one word on the wire. */
  lemma {:induction false} FirstArgumentLength(args: seq<Argument>)
    requires args != [] && HasPayload(args[0])
    ensures |EncodeArguments(args)| >= 4
  {
    ArgumentsLength(args);
    PayloadWord(args[0]);
  }

  /** One argument with a payload puts at least one word on the wire. */
  lemma PayloadWord(a: Argument)
    requires HasPayload(a)
    ensures |EncodeArgument(a)| >= 4
  {
    match a
    case StringArg(s) => assert |OscString(AsciiBytes(s))| == Pad4(|s| + 1);
    case BlobArg(b) => assert |BigEndian32(|b|)| == 4;
    case _ =>
  }

  /** `buf` holds the tag of `a` at `typeloc` and its encoding from `dataloc`, within `endindex`. */
  predicate HoldsOne(buf: seq<int8>, endindex: int, typeloc: int, dataloc: int, a: Argument)
  {
    && 0 <= typeloc < |buf| && IsTag(buf[typeloc], TypeTag(a))
    && 0 <= dataloc && Aligned(dataloc) && dataloc + 4 <= endindex <= |buf|
    && dataloc + |EncodeArgument(a)| <= endindex
    && buf[dataloc..dataloc + |EncodeArgument(a)|] == EncodeArgument(a)
  }

  /** The four big-endian bytes of `v` read back as its unsigned 32-bit pattern. */
  lemma {:induction false} WordAt(buf: seq<int8>, dataloc: int, v: int)
    requires 0 <= dataloc && dataloc + 4 <= |buf| && buf[dataloc..dataloc + 4] == BigEndian32(v)
    ensures Unsigned32(buf, dataloc) == v % TWO_32
  {
    Unsigned32Slice(buf, dataloc);
    Unsigned32OfBigEndian(v);
  }

  /** An int argument: the pattern read back, cast to `int`, is `i`. */
  lemma {:induction false} IntWordAt(buf: seq<int8>, dataloc: int, i: int)
    requires 0 <= dataloc && dataloc + 4 <= |buf| && buf[dataloc..dataloc + 4] == BigEndian32(i)
    requires -TWO_31 <= i < TWO_31
    ensures ToInt32(Unsigned32(buf, dataloc)) == i
  {
    WordAt(buf, dataloc, i);
    ToInt32OfPattern(i);
  }

  /** A float argument: the pattern read back is `bits`. */
  lemma {:induction false} FloatWordAt(buf: seq<int8>, dataloc: int, bits: int)
    requires 0 <= dataloc && dataloc + 4 <= |buf| && buf[dataloc..dataloc + 4] == BigEndian32(bits)
    requires 0 <= bits < TWO_32
    ensures Unsigned32(buf, dataloc) == bits
  {
    WordAt(buf, dataloc, bits);
  }

  lemma {:induction false} ReadIntArgument(buf: seq<int8>, endindex: int, typeloc: int, dataloc: int, i: int, acc: seq<Argument>)
    requires 0 <= typeloc < |buf| && IsTag(buf[typeloc], 'i')
    requires 0 <= dataloc && dataloc + 4 <= endindex <= |buf| && buf[dataloc..dataloc + 4] == BigEndian32(i)
    requires -TWO_31 <= i < TWO_31
    ensures ArgsFrom(buf, endindex, typeloc, dataloc, acc) == ArgsFrom(buf, endindex, typeloc + 1, dataloc + 4, acc + [IntArg(i)])
  {
    IntWordAt(buf, dataloc, i);
  }

  lemma {:induction false} ReadFloatArgument(buf: seq<int8>, endindex: int, typeloc: int, dataloc: int, bits: int, acc: seq<Argument>)
    requires 0 <= typeloc < |buf| && IsTag(buf[typeloc], 'f')
    requires 0 <= dataloc && dataloc + 4 <= endindex <= |buf| && buf[dataloc..dataloc + 4] == BigEndian32(bits)
    requires 0 <= bits < TWO_32
    ensures ArgsFrom(buf, endindex, typeloc, dataloc, acc) == ArgsFrom(buf, endindex, typeloc + 1, dataloc + 4, acc + [FloatArg(bits)])
  {
    FloatWordAt(buf, dataloc, bits);
  }

  lemma {:induction false} ReadEightByteArgument(buf: seq<int8>, endindex: int, typeloc: int, dataloc: int, a: Argument, acc: seq<Argument>)
    requires HoldsOne(buf, endindex, typeloc, dataloc, a) && Readable(a) && (a.DoubleArg? || a.TimestampArg?)
    ensures ArgsFrom(buf, endindex, typeloc, dataloc, acc) == ArgsFrom(buf, endindex, typeloc + 1, dataloc + 8, acc + [a])
  {
    var e := buf[dataloc..dataloc + 8];
    assert Unsigned32(buf, dataloc) == Unsigned32(e, 0);
    assert Unsigned32(buf, dataloc + 4) == Unsigned32(e, 4);
    Unsigned64OfBigEndian(a.bits);
  }

  lemma {:induction false} ReadStringArgument(buf: seq<int8>, endindex: int, typeloc: int, dataloc: int, a: Argument, acc: seq<Argument>)
    requires HoldsOne(buf, endindex, typeloc, dataloc, a) && Readable(a) && a.StringArg?
    ensures ArgsFrom(buf, endindex, typeloc, dataloc, acc)
      == ArgsFrom(buf, endindex, typeloc + 1, dataloc + |EncodeArgument(a)|, acc + [a])
  {
    var bs := AsciiBytes(a.s);
    var eos := dataloc + |bs|;
    StringFound(buf, endindex, typeloc, dataloc, a, bs, eos);
    Latin1AsciiRoundTrip(a.s);
    OscEncodingProperties.Pad4Shift(dataloc, |bs| + 1);
    assert |EncodeArgument(a)| == Pad4(|bs| + 1);
  }

  /** The chars of an encoded string argument, and the NUL that ends them at `eos`. */
  lemma {:induction false} StringFound(buf: seq<int8>, endindex: int, typeloc: int, dataloc: int, a: Argument,
                                       bs: seq<int8>, eos: int)
    requires HoldsOne(buf, endindex, typeloc, dataloc, a) && Readable(a) && a.StringArg?
    requires bs == AsciiBytes(a.s) && eos == dataloc + |bs|
    ensures eos < endindex && NextLocationOfChar(buf, 0, dataloc, endindex) == eos && buf[dataloc..eos] == bs
  {
    var e := OscString(bs);
    assert e == EncodeArgument(a);
    forall k | dataloc <= k < eos
      ensures buf[k] != 0
    {
      assert buf[k] == e[k - dataloc] == bs[k - dataloc];
      SmallByte(a.s[k - dataloc] as int);
    }
    assert buf[eos] == e[|bs|] == 0;
    NextLocationAt(buf, 0, dataloc, endindex, eos);
    assert buf[dataloc..eos] == bs;
  }

  /** Where the size and the bytes of an encoded blob sit in the buffer. */
  lemma {:induction false} BlobSlices(buf: seq<int8>, dataloc: int, b: seq<int8>)
    requires var e := EncodeArgument(BlobArg(b));
      0 <= dataloc && dataloc + |e| <= |buf| && buf[dataloc..dataloc + |e|] == e
    ensures |EncodeArgument(BlobArg(b))| == 4 + Pad4(|b|)
    ensures buf[dataloc..dataloc + 4] == BigEndian32(|b|)
    ensures buf[dataloc + 4..dataloc + 4 + |b|] == b
  {
    var n := |b|;
    var e := EncodeArgument(BlobArg(b));
    var pad := Zeros(Pad4(n) - n);
    assert e == BigEndian32(n) + b + pad;
    var w := buf[dataloc..dataloc + |e|];
    assert buf[dataloc..dataloc + 4] == w[..4] == e[..4];
    assert e[4..4 + n] == b;
    forall i | 0 <= i < n
      ensures buf[dataloc + 4 + i] == b[i]
    {
      assert buf[dataloc + 4 + i] == w[4 + i] == e[4 + i];
    }
  }

  lemma {:induction false} ReadBlobArgument(buf: seq<int8>, endindex: int, typeloc: int, dataloc: int, b: seq<int8>, acc: seq<Argument>)
    requires 0 <= typeloc < |buf| && IsTag(buf[typeloc], 'b')
    requires |b| < TWO_31
    requires var e := EncodeArgument(BlobArg(b));
      0 <= dataloc && dataloc + |e| <= endindex <= |buf| && buf[dataloc..dataloc + |e|] == e
    ensures ArgsFrom(buf, endindex, typeloc, dataloc, acc)
      == ArgsFrom(buf, endindex, typeloc + 1, dataloc + |EncodeArgument(BlobArg(b))|, acc + KeptOne(BlobArg(b)))
  {
    var n := |b|;
    BlobSlices(buf, dataloc, b);
    Unsigned32Slice(buf, dataloc);
    Unsigned32OfBigEndian(n);
    ToInt32OfPattern(n);
    if n == 0 {
      assert acc + [] == acc;
    }
  }

  lemma {:induction false} ReadPayloadFreeArgument(buf: seq<int8>, endindex: int, typeloc: int, dataloc: int, a: Argument, acc: seq<Argument>)
    requires HoldsOne(buf, endindex, typeloc, dataloc, a) && !HasPayload(a)
    ensures ArgsFrom(buf, endindex, typeloc, dataloc, acc) == ArgsFrom(buf, endindex, typeloc + 1, dataloc, acc + [a])
  {
    PayloadFreeTagsReadAsInts(a);
  }

  /** One argument read back: its bytes consumed and the argument kept. */
  lemma {:induction false} ReadOne(buf: seq<int8>, endindex: int, typeloc: int, dataloc: int, a: Argument, acc: seq<Argument>)
    requires HoldsOne(buf, endindex, typeloc, dataloc, a) && Readable(a)
    ensures ArgsFrom(buf, endindex, typeloc, dataloc, acc)
      == ArgsFrom(buf, endindex, typeloc + 1, dataloc + |EncodeArgument(a)|, acc + KeptOne(a))
  {
    var d, kept := dataloc + |EncodeArgument(a)|, acc + KeptOne(a);
    match a
    case IntArg(i) =>
      ReadIntArgument(buf, endindex, typeloc, dataloc, i, acc);
      assert d == dataloc + 4 && kept == acc + [IntArg(i)];
    case FloatArg(bits) =>
      ReadFloatArgument(buf, endindex, typeloc, dataloc, bits, acc);
      assert d == dataloc + 4 && kept == acc + [FloatArg(bits)];
    case DoubleArg(_) =>
      ReadEightByteArgument(buf, endindex, typeloc, dataloc, a, acc);
      assert d == dataloc + 8 && kept == acc + [a];
    case TimestampArg(_) =>
      ReadEightByteArgument(buf, endindex, typeloc, dataloc, a, acc);
      assert d == dataloc + 8 && kept == acc + [a];
    case StringArg(_) =>
      ReadStringArgument(buf, endindex, typeloc, dataloc, a, acc);
      assert kept == acc + [a];
    case BlobArg(b) => ReadBlobArgument(buf, endindex, typeloc, dataloc, b, acc);
    case _ =>
      assert d == dataloc && kept == acc + [a];
      ReadPayloadFreeArgument(buf, endindex, typeloc, dataloc, a, acc);
  }

  /** `buf` holds the tags of `todo` from `typeloc` and their encodings from `dataloc` up to `endindex`. */
  predicate Holds(buf: seq<int8>, endindex: int, typeloc: int, dataloc: int, todo: seq<Argument>)
  {
    && 0 <= typeloc && typeloc + |todo| <= |buf|
    && (forall k :: 0 <= k < |todo| ==> IsTag(buf[typeloc + k], TypeTag(todo[k])))
    && 0 <= dataloc && Aligned(dataloc) && dataloc + |EncodeArguments(todo)| == endindex <= |buf|
    && buf[dataloc..endindex] == EncodeArguments(todo)
  }

  /** The bytes of the first argument and those of the rest, which start at `d`. */
  lemma {:induction false} BytesSplit(buf: seq<int8>, endindex: int, dataloc: int, d: int, todo: seq<Argument>, rest: seq<Argument>)
    requires todo != [] && rest == todo[1..] && 0 <= dataloc && d == dataloc + |EncodeArgument(todo[0])|
    requires dataloc + |EncodeArguments(todo)| == endindex <= |buf|
    requires buf[dataloc..endindex] == EncodeArguments(todo)
    ensures d + |EncodeArguments(rest)| == endindex
    ensures buf[dataloc..d] == EncodeArgument(todo[0])
    ensures buf[d..endindex] == EncodeArguments(rest)
  {
    var e, r := EncodeArgument(todo[0]), EncodeArguments(rest);
    assert EncodeArguments(todo) == e + r;
    assert buf[dataloc..d] == buf[dataloc..endindex][..|e|];
    assert buf[d..endindex] == buf[dataloc..endindex][|e|..];
  }

  /** The tags of the arguments after the first, which start at `t`. */
  lemma {:induction false} TagsSplit(buf: seq<int8>, typeloc: int, t: int, todo: seq<Argument>, rest: seq<Argument>)
    requires todo != [] && rest == todo[1..] && 0 <= typeloc && t == typeloc + 1 && typeloc + |todo| <= |buf|
    requires forall k :: 0 <= k < |todo| ==> IsTag(buf[typeloc + k], TypeTag(todo[k]))
    ensures IsTag(buf[typeloc], TypeTag(todo[0]))
    ensures forall k :: 0 <= k < |rest| ==> IsTag(buf[t + k], TypeTag(rest[k]))
  {
    assert IsTag(buf[typeloc + 0], TypeTag(todo[0]));
    forall k | 0 <= k < |rest|
      ensures IsTag(buf[t + k], TypeTag(rest[k]))
    {
      assert IsTag(buf[typeloc + (k + 1)], TypeTag(todo[k + 1]));
    }
  }

  /** The loop stops once fewer than 4 data bytes are left. */
  lemma {:induction false} ReadStopsAtEnd(buf: seq<int8>, endindex: int, typeloc: int, dataloc: int, acc: seq<Argument>)
    requires 0 <= endindex <= |buf| && 0 <= dataloc && dataloc + 4 > endindex
    ensures ArgsFrom(buf, endindex, typeloc, dataloc, acc) == ArgsDone(acc, dataloc, false)
  {
  }

  /** The first argument is held where the arguments start. */
  lemma {:induction false} HoldsFirst(buf: seq<int8>, endindex: int, typeloc: int, dataloc: int, todo: seq<Argument>)
    requires Holds(buf, endindex, typeloc, dataloc, todo) && todo != [] && dataloc + 4 <= endindex
    ensures HoldsOne(buf, endindex, typeloc, dataloc, todo[0])
  {
    var d := dataloc + |EncodeArgument(todo[0])|;
    BytesSplit(buf, endindex, dataloc, d, todo, todo[1..]);
    TagsSplit(buf, typeloc, typeloc + 1, todo, todo[1..]);
  }

  /** Past the first argument, whose data ends at `d`, the data of the rest of the arguments is held. */
  lemma {:induction false} RestBytes(buf: seq<int8>, endindex: int, dataloc: int, d: int, todo: seq<Argument>, rest: seq<Argument>)
    requires todo != [] && rest == todo[1..] && 0 <= dataloc && Aligned(dataloc) && d == dataloc + |EncodeArgument(todo[0])|
    requires dataloc + |EncodeArguments(todo)| == endindex <= |buf|
    requires buf[dataloc..endindex] == EncodeArguments(todo)
    ensures 0 <= d && Aligned(d) && d + |EncodeArguments(rest)| == endindex
    ensures buf[d..endindex] == EncodeArguments(rest)
  {
    BytesSplit(buf, endindex, dataloc, d, todo, rest);
    ArgumentAligned(todo[0]);
    AlignedSum(dataloc, |EncodeArgument(todo[0])|);
  }

  /** Past the first argument, whose tag ends at `t` and whose data ends at `d`, the rest of the arguments are held. */
  lemma {:induction false} HoldsRest(buf: seq<int8>, endindex: int, typeloc: int, dataloc: int, t: int, d: int,
                                     todo: seq<Argument>, rest: seq<Argument>)
    requires Holds(buf, endindex, typeloc, dataloc, todo) && todo != [] && rest == todo[1..]
    requires t == typeloc + 1 && d == dataloc + |EncodeArgument(todo[0])|
    ensures Holds(buf, endindex, t, d, rest)
  {
    RestBytes(buf, endindex, dataloc, d, todo, rest);
    TagsSplit(buf, typeloc, t, todo, rest);
  }

  /** With some payload left, `Kept` keeps or drops the first argument and goes on. */
  lemma {:induction false} KeptFirst(todo: seq<Argument>, k: int)
    requires 0 <= k < |todo| && HasPayload(todo[k])
    ensures Kept(todo) == KeptOne(todo[0]) + Kept(todo[1..])
  {
  }

  lemma {:induction false} FirstHolds(buf: seq<int8>, endindex: int, typeloc: int, dataloc: int, todo: seq<Argument>, k: int)
    requires Holds(buf, endindex, typeloc, dataloc, todo)
    requires forall j :: 0 <= j < |todo| ==> Readable(todo[j])
    requires 0 <= k < |todo| && HasPayload(todo[k])
    ensures HoldsOne(buf, endindex, typeloc, dataloc, todo[0]) && Readable(todo[0])
  {
    PayloadSomeBytes(todo, k);
    HoldsFirst(buf, endindex, typeloc, dataloc, todo);
  }

  /** One step of the argument loop, given what the loop does on the rest. */
  lemma {:induction false} ReadsStep(buf: seq<int8>, endindex: int, typeloc: int, dataloc: int, t: int, d: int,
                                     a: Argument, acc: seq<Argument>, kept: seq<Argument>, tail: seq<Argument>)
    requires HoldsOne(buf, endindex, typeloc, dataloc, a) && Readable(a)
    requires t == typeloc + 1 && d == dataloc + |EncodeArgument(a)| && kept == acc + KeptOne(a)
    requires ArgsFrom(buf, endindex, t, d, kept) == ArgsDone(kept + tail, endindex, false)
    ensures ArgsFrom(buf, endindex, typeloc, dataloc, acc) == ArgsDone(kept + tail, endindex, false)
  {
    ReadOne(buf, endindex, typeloc, dataloc, a, acc);
  }

  /** The rest of the arguments are held and readable. */
  lemma {:induction false} RestHolds(buf: seq<int8>, endindex: int, typeloc: int, dataloc: int, t: int, d: int,
                                     todo: seq<Argument>, rest: seq<Argument>)
    requires Holds(buf, endindex, typeloc, dataloc, todo) && todo != [] && rest == todo[1..]
    requires t == typeloc + 1 && d == dataloc + |EncodeArgument(todo[0])|
    requires forall j :: 0 <= j < |todo| ==> Readable(todo[j])
    ensures Holds(buf, endindex, t, d, rest)
    ensures forall j :: 0 <= j < |rest| ==> Readable(rest[j])
  {
    HoldsRest(buf, endindex, typeloc, dataloc, t, d, todo, rest);
    assert forall j :: 0 <= j < |rest| ==> rest[j] == todo[j + 1];
  }

  /**
   * The argument loop reads back the encoded arguments: it ends at
   * `endindex` with the arguments `Kept` keeps.
   */
  lemma {:induction false} ReadsEncodedArguments(buf: seq<int8>, endindex: int, typeloc: int, dataloc: int, todo: seq<Argument>, acc: seq<Argument>)
    requires Holds(buf, endindex, typeloc, dataloc, todo)
    requires forall k :: 0 <= k < |todo| ==> Readable(todo[k])
    ensures ArgsFrom(buf, endindex, typeloc, dataloc, acc) == ArgsDone(acc + Kept(todo), endindex, false)
    decreases |todo|, 2
  {
    if NoPayload(todo) {
      NoPayloadNoBytes(todo);
      ReadStopsAtEnd(buf, endindex, typeloc, dataloc, acc);
      assert acc + [] == acc;
    } else {
      ReadsEncodedStep(buf, endindex, typeloc, dataloc, todo, acc);
    }
  }

  /** The induction step: the first argument is read, then the rest. */
  lemma {:induction false} ReadsEncodedStep(buf: seq<int8>, endindex: int, typeloc: int, dataloc: int, todo: seq<Argument>, acc: seq<Argument>)
    requires Holds(buf, endindex, typeloc, dataloc, todo)
    requires forall k :: 0 <= k < |todo| ==> Readable(todo[k])
    requires !NoPayload(todo)
    ensures ArgsFrom(buf, endindex, typeloc, dataloc, acc) == ArgsDone(acc + Kept(todo), endindex, false)
    decreases |todo|, 1
  {
    var k :| 0 <= k < |todo| && HasPayload(todo[k]);
    var t, d, rest, kept := typeloc + 1, dataloc + |EncodeArgument(todo[0])|, todo[1..], acc + KeptOne(todo[0]);
    ReadsRest(buf, endindex, typeloc, dataloc, todo, kept, t, d, rest);
    ReadsFirst(buf, endindex, typeloc, dataloc, t, d, todo, rest, k, acc, kept);
    KeptFirst(todo, k);
    KeptAssoc(acc, KeptOne(todo[0]), Kept(rest));
  }

  /** The first argument is read back, given what the loop does on the rest, whose tags start at `t` and data at `d`. */
  lemma {:induction false} ReadsFirst(buf: seq<int8>, endindex: int, typeloc: int, dataloc: int, t: int, d: int,
                                      todo: seq<Argument>, rest: seq<Argument>, k: int, acc: seq<Argument>, kept: seq<Argument>)
    requires Holds(buf, endindex, typeloc, dataloc, todo)
    requires forall j :: 0 <= j < |todo| ==> Readable(todo[j])
    requires 0 <= k < |todo| && HasPayload(todo[k]) && rest == todo[1..] && kept == acc + KeptOne(todo[0])
    requires t == typeloc + 1 && d == dataloc + |EncodeArgument(todo[0])|
    requires ArgsFrom(buf, endindex, t, d, kept) == ArgsDone(kept + Kept(rest), endindex, false)
    ensures ArgsFrom(buf, endindex, typeloc, dataloc, acc) == ArgsDone(kept + Kept(rest), endindex, false)
  {
    FirstHolds(buf, endindex, typeloc, dataloc, todo, k);
    ReadsStep(buf, endindex, typeloc, dataloc, t, d, todo[0], acc, kept, Kept(rest));
  }

  /** The arguments after the first are read back as well. */
  lemma {:induction false} ReadsRest(buf: seq<int8>, endindex: int, typeloc: int, dataloc: int, todo: seq<Argument>, acc: seq<Argument>,
                                     typeloc': int, dataloc': int, rest: seq<Argument>)
    requires Holds(buf, endindex, typeloc, dataloc, todo) && todo != []
    requires forall k :: 0 <= k < |todo| ==> Readable(todo[k])
    requires typeloc' == typeloc + 1 && dataloc' == dataloc + |EncodeArgument(todo[0])| && rest == todo[1..]
    ensures ArgsFrom(buf, endindex, typeloc', dataloc', acc) == ArgsDone(acc + Kept(rest), endindex, false)
    decreases |todo|, 0
  {
    RestHolds(buf, endindex, typeloc, dataloc, typeloc', dataloc', todo, rest);
    ReadsEncodedArguments(buf, endindex, typeloc', dataloc', rest, acc);
  }

  lemma {:induction false} KeptAssoc(a: seq<Argument>, b: seq<Argument>, c: seq<Argument>)
    ensures a + b + c == a + (b + c)
  {
  }
}
