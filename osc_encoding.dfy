/**
 * OSC message serialisation (LXOSCMessage.addOSCMessageToBytes, lx4p).
 *
 * Two descriptions of the same bytes:
 * - the wire format of OpenSound Control 1.0: an OSC-string address
 *   ("/p0/p1" + NUL, padded to 4), an OSC-string of type tags (',' + one
 *   tag per argument), then each argument's bytes (Encode and its parts);
 * - the serialiser as the code runs it, on a buffer value: each step checks
 *   for room with its own margin, returns the buffer length when it has
 *   none, and the message writer turns any index at or past the buffer end
 *   into -1 (WriteMessage and its parts).
 * The double and string writers appear twice: as written (WriteDoubleAsWritten,
 * WriteStringAsWritten) and with the room check and NUL terminator they
 * evidently intend (WriteDouble, WriteString), which the serialiser uses.
 */
module OscEncoding {
  import opened JavaBytes
  import opened Wrappers
  import opened OscArgument
  import opened OscMatch

  /** An OSC message as a value: the address parts and the arguments. */
  datatype MessageValue = MessageValue(addressPattern: seq<string>, arguments: seq<Argument>)

  /** The padding loops: `ci` rounded up to a multiple of 4. */
  function Pad4(ci: int): (r: int)
    ensures r % 4 == 0 && ci <= r < ci + 4
  {
    if ci % 4 != 0 then ci + 4 - ci % 4 else ci
  }

  function Zeros(n: nat): (r: seq<int8>)
    ensures |r| == n && forall k :: 0 <= k < n ==> r[k] == 0
  {
    seq(n, _ => 0)
  }

  /** An OSC-string: the bytes, a NUL, and NULs up to a multiple of 4. */
  function OscString(bs: seq<int8>): (r: seq<int8>)
    ensures |r| == Pad4(|bs| + 1) && |r| > |bs|
    ensures r[..|bs|] == bs && forall k :: |bs| <= k < |r| ==> r[k] == 0
  {
    bs + Zeros(Pad4(|bs| + 1) - |bs|)
  }

  /** `(byte)((v >> 24) & 0xff)` ... `(byte)(v & 0xff)`: four bytes, most significant first. */
  function BigEndian32(v: int): (r: seq<int8>)
    ensures |r| == 4
  {
    [ToByte(v / 0x100_0000), ToByte(v / 0x1_0000), ToByte(v / 0x100), ToByte(v)]
  }

  /** The eight bytes of a 64-bit pattern, most significant first. */
  function BigEndian64(v: int): (r: seq<int8>)
    ensures |r| == 8
  {
    BigEndian32(v / TWO_32) + BigEndian32(v)
  }

  /** The tag `addArgumentTypeTagsToBytes` writes for an argument ('f' is the default). */
  function TypeTag(a: Argument): char
  {
    match a
    case IntArg(_) => 'i'
    case DoubleArg(_) => 'd'
    case TimestampArg(_) => 't'
    case StringArg(_) => 's'
    case BlobArg(_) => 'b'
    case TrueArg => 'T'
    case FalseArg => 'F'
    case ImpulseArg => 'I'
    case NullArg => 'N'
    case FloatArg(_) => 'f'
  }

  function TagBytes(args: seq<Argument>): (r: seq<int8>)
    ensures |r| == |args|
    ensures forall k :: 0 <= k < |args| ==> r[k] == CharToByte(TypeTag(args[k]))
  {
    seq(|args|, k requires 0 <= k < |args| => CharToByte(TypeTag(args[k])))
  }

  /** The address pattern on the wire. */
  function EncodeAddress(parts: seq<string>): seq<int8>
  {
    OscString(AsciiBytes(JoinParts(parts)))
  }

  /** The type-tag string on the wire. */
  function EncodeTypeTags(args: seq<Argument>): seq<int8>
  {
    OscString([CharToByte(',')] + TagBytes(args))
  }

  /** One argument's bytes: 4 for i/f, 8 for d/t, an OSC-string, a sized blob, or none. */
  function EncodeArgument(a: Argument): seq<int8>
  {
    match a
    case IntArg(i) => BigEndian32(i)
    case FloatArg(bits) => BigEndian32(bits)
    case DoubleArg(bits) => BigEndian64(bits)
    case TimestampArg(bits) => BigEndian64(bits)
    case StringArg(s) => OscString(AsciiBytes(s))
    case BlobArg(b) => BigEndian32(|b|) + b + Zeros(Pad4(|b|) - |b|)
    case _ => []
  }

  function EncodeArguments(args: seq<Argument>): seq<int8>
  {
    if args == [] then [] else EncodeArgument(args[0]) + EncodeArguments(args[1..])
  }

  /** A whole message on the wire. */
  function Encode(m: MessageValue): seq<int8>
  {
    EncodeAddress(m.addressPattern) + EncodeTypeTags(m.arguments) + EncodeArguments(m.arguments)
  }

  /*
   * Every part of a message is a whole number of 4-byte words. These facts
   * are lemmas rather than postconditions so that they enter a proof only
   * where it asks for them.
   */

  /**
   * `x` is a non-negative multiple of 4, stated by recursion rather than
   * with `%` so that the fact passes from proof to proof without remainder
   * arithmetic; AlignedIsMod relates the two.
   */
  predicate Aligned(x: int)
    decreases if x < 0 then 0 else x
  {
    if x < 4 then x == 0 else Aligned(x - 4)
  }

  lemma {:induction false} AlignedIsMod(x: int)
    ensures Aligned(x) <==> 0 <= x && x % 4 == 0
    decreases if x < 0 then 0 else x
  {
    if x >= 4 {
      AlignedIsMod(x - 4);
    }
  }

  /** Concatenating two runs of whole 4-byte words gives whole words. */
  lemma {:induction false} AlignedSum(a: int, b: int)
    requires Aligned(a) && Aligned(b)
    ensures Aligned(a + b)
    decreases if a < 0 then 0 else a
  {
    if a >= 4 {
      AlignedSum(a - 4, b);
    }
  }

  lemma {:induction false} Pad4Aligned(ci: int)
    requires 0 <= ci
    ensures Aligned(Pad4(ci))
  {
    AlignedIsMod(Pad4(ci));
  }

  lemma {:induction false} ArgumentAligned(a: Argument)
    ensures Aligned(|EncodeArgument(a)|)
  {
    assert Aligned(4);
    match a
    case DoubleArg(_) => AlignedSum(4, 4);
    case TimestampArg(_) => AlignedSum(4, 4);
    case StringArg(s) => Pad4Aligned(|AsciiBytes(s)| + 1);
    case BlobArg(b) => Pad4Aligned(|b|); AlignedSum(4, Pad4(|b|));
    case _ =>
  }

  lemma {:induction false} ArgumentsAligned(args: seq<Argument>)
    ensures Aligned(|EncodeArguments(args)|)
    decreases |args|
  {
    if args != [] {
      ArgumentAligned(args[0]);
      ArgumentsAligned(args[1..]);
      AlignedSum(|EncodeArgument(args[0])|, |EncodeArguments(args[1..])|);
    }
  }

  lemma {:induction false} AddressAligned(parts: seq<string>)
    ensures Aligned(|EncodeAddress(parts)|)
  {
    Pad4Aligned(|AsciiBytes(JoinParts(parts))| + 1);
  }

  lemma {:induction false} TypeTagsAligned(args: seq<Argument>)
    ensures Aligned(|EncodeTypeTags(args)|)
  {
    Pad4Aligned(|[CharToByte(',')] + TagBytes(args)| + 1);
  }

  /** The address, the type tags and the whole message are whole words. */
  lemma {:induction false} EncodeAligned(m: MessageValue)
    ensures Aligned(|EncodeAddress(m.addressPattern)|)
    ensures Aligned(|EncodeTypeTags(m.arguments)|)
    ensures Aligned(|Encode(m)|)
  {
    var address, tags, data := EncodeAddress(m.addressPattern), EncodeTypeTags(m.arguments), EncodeArguments(m.arguments);
    AddressAligned(m.addressPattern);
    TypeTagsAligned(m.arguments);
    ArgumentsAligned(m.arguments);
    AlignedSum(|address|, |tags|);
    AlignedSum(|address| + |tags|, |data|);
  }

  /** `buf` with `bs` written from index `at`. */
  function Put(buf: seq<int8>, at: int, bs: seq<int8>): (r: seq<int8>)
    requires 0 <= at && at + |bs| <= |buf|
    ensures |r| == |buf|
  {
    buf[..at] + bs + buf[at + |bs|..]
  }

  /** Where the address-part loop stops: after the last part, or on a part with no room. */
  datatype PartsStep = Written(buf: seq<int8>, ci: int) | TooLong(buf: seq<int8>)

  /** The loop over the address parts: "/" and the part's chars, each part checked for 8 bytes of room. */
  function WriteParts(parts: seq<string>, buf: seq<int8>, ci: int): (r: PartsStep)
    requires 0 <= ci <= |buf|
    ensures |r.buf| == |buf|
    ensures r.Written? ==> ci <= r.ci <= |buf|
    decreases |parts|
  {
    if parts == [] then Written(buf, ci)
    else if ci + |parts[0]| + 8 > |buf| then TooLong(buf)
    else WriteParts(parts[1..], Put(buf, ci, [CharToByte('/')] + AsciiBytes(parts[0])), ci + 1 + |parts[0]|)
  }

  /**
   * `addAddressPatternToBytes`: the new buffer and the index returned (the
   * buffer length when a part has no room). The terminator and padding are
   * written unchecked, which throws for an empty pattern in a buffer
   * shorter than 4 bytes.
   */
  function WriteAddress(parts: seq<string>, buf: seq<int8>): (r: Result<(seq<int8>, int)>)
    ensures r.Ok? ==> |r.value.0| == |buf| && 0 <= r.value.1 <= |buf|
  {
    match WriteParts(parts, buf, 0)
    case TooLong(b) => Ok((b, |b|))
    case Written(b, ci) =>
      if Pad4(ci + 1) > |b| then Fault
      else Ok((Put(b, ci, Zeros(Pad4(ci + 1) - ci)), Pad4(ci + 1)))
  }

  /** `addArgumentTypeTagsToBytes`: ',' and the tags, a NUL, padding; checked for `argc + 6` bytes of room. */
  function WriteTypeTags(args: seq<Argument>, buf: seq<int8>, start: int): (r: (seq<int8>, int))
    requires 0 <= start <= |buf|
    ensures |r.0| == |buf| && start <= r.1 <= |buf|
  {
    if start + |args| + 6 > |buf| then (buf, |buf|)
    else
      var e := Pad4(start + |args| + 2);
      (Put(buf, start, [CharToByte(',')] + TagBytes(args) + Zeros(e - start - |args| - 1)), e)
  }

  /** `addIntArgumentToBytes` (and `addFloatArgumentToBytes` on the float's bits). */
  function WriteInt(v: int, buf: seq<int8>, start: int): (r: (seq<int8>, int))
    requires 0 <= start <= |buf|
    ensures |r.0| == |buf| && start <= r.1 <= |buf|
  {
    if start + 4 > |buf| then (buf, |buf|) else (Put(buf, start, BigEndian32(v)), start + 4)
  }

  /** `addDoubleArgumentToBytes` with its room check for the 8 bytes it writes. */
  function WriteDouble(bits: int, buf: seq<int8>, start: int): (r: (seq<int8>, int))
    requires 0 <= start <= |buf|
    ensures |r.0| == |buf| && start <= r.1 <= |buf|
  {
    if start + 8 > |buf| then (buf, |buf|) else (Put(buf, start, BigEndian64(bits)), start + 8)
  }

  /** `addDoubleArgumentToBytes` as written: room is checked for 4 bytes, then 8 are written. */
  function WriteDoubleAsWritten(bits: int, buf: seq<int8>, start: int): (r: Result<(seq<int8>, int)>)
    requires 0 <= start <= |buf|
    ensures r.Ok? ==> |r.value.0| == |buf| && start <= r.value.1 <= |buf|
  {
    if start + 4 > |buf| then Ok((buf, |buf|))
    else if start + 8 > |buf| then Fault
    else Ok((Put(buf, start, BigEndian64(bits)), start + 8))
  }

  /** `addStringArgumentToBytes` writing the NUL an OSC-string ends with, then padding. */
  function WriteString(s: string, buf: seq<int8>, start: int): (r: (seq<int8>, int))
    requires 0 <= start <= |buf|
    ensures |r.0| == |buf| && start <= r.1 <= |buf|
  {
    if start + |s| + 4 > |buf| then (buf, |buf|)
    else
      var e := Pad4(start + |s| + 1);
      (Put(buf, start, AsciiBytes(s) + Zeros(e - start - |s|)), e)
  }

  /** `addStringArgumentToBytes` as written: padding only, so no NUL once the chars end on a 4-byte boundary. */
  function WriteStringAsWritten(s: string, buf: seq<int8>, start: int): (r: (seq<int8>, int))
    requires 0 <= start <= |buf|
    ensures |r.0| == |buf| && start <= r.1 <= |buf|
  {
    if start + |s| + 4 > |buf| then (buf, |buf|)
    else
      var e := Pad4(start + |s|);
      (Put(buf, start, AsciiBytes(s) + Zeros(e - start - |s|)), e)
  }

  /** `addBytesArgumentToBytes`: the size, the bytes, padding; checked for `n + 8` bytes of room. */
  function WriteBlob(b: seq<int8>, buf: seq<int8>, start: int): (r: (seq<int8>, int))
    requires 0 <= start <= |buf|
    ensures |r.0| == |buf| && start <= r.1 <= |buf|
  {
    if start + |b| + 8 > |buf| then (buf, |buf|)
    else
      var e := Pad4(start + 4 + |b|);
      (Put(buf, start, BigEndian32(|b|) + b + Zeros(e - start - 4 - |b|)), e)
  }

  /** The dispatch on the argument's type in `addOSCMessageToBytes`. */
  function WriteArgument(a: Argument, buf: seq<int8>, start: int): (r: (seq<int8>, int))
    requires 0 <= start <= |buf|
    ensures |r.0| == |buf| && start <= r.1 <= |buf|
  {
    match a
    case IntArg(i) => WriteInt(i, buf, start)
    case DoubleArg(bits) => WriteDouble(bits, buf, start)
    case TimestampArg(bits) => WriteDouble(bits, buf, start)
    case StringArg(s) => WriteString(s, buf, start)
    case BlobArg(b) => WriteBlob(b, buf, start)
    case TrueArg => (buf, start)
    case FalseArg => (buf, start)
    case ImpulseArg => (buf, start)
    case NullArg => (buf, start)
    case FloatArg(bits) => WriteInt(bits, buf, start)
  }

  /** The argument loop: -1 as soon as an argument's index reaches the buffer end. */
  function WriteArguments(args: seq<Argument>, buf: seq<int8>, ci: int): (r: (seq<int8>, int))
    requires 0 <= ci <= |buf|
    ensures |r.0| == |buf| && (r.1 == -1 || ci <= r.1 < |buf| || (args == [] && r.1 == ci))
    decreases |args|
  {
    if args == [] then (buf, ci)
    else
      var (b, c) := WriteArgument(args[0], buf, ci);
      if c >= |b| then (b, -1) else WriteArguments(args[1..], b, c)
  }

  /** `addOSCMessageToBytes`: the new buffer and the length written, or -1. */
  function WriteMessage(m: MessageValue, buf: seq<int8>): (r: Result<(seq<int8>, int)>)
    ensures r.Ok? ==> |r.value.0| == |buf| && (r.value.1 == -1 || 0 <= r.value.1 < |buf|)
  {
    match WriteAddress(m.addressPattern, buf)
    case Fault => Fault
    case Ok((b, ci)) =>
      if ci >= |b| then Ok((b, -1))
      else
        var (b2, c2) := WriteTypeTags(m.arguments, b, ci);
        if c2 >= |b2| then Ok((b2, -1))
        else Ok(WriteArguments(m.arguments, b2, c2))
  }
}
