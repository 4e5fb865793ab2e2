/**
 * The serialiser of the older LXOSCMessage (lx_for_processing), as written.
 *
 * It differs from the lx4p serialiser in three writers: the type-tag string
 * gets no NUL of its own (only the padding, none when ',' and the tags
 * already fill a multiple of 4 bytes), the double writer checks room for 4
 * bytes and writes 8, and the string writer pads without a NUL.
 */
module OscLegacyEncoding {
  import opened JavaBytes
  import opened Wrappers
  import opened OscArgument
  import opened OscEncoding
  import OscEncodingProperties

  /** `addArgumentTypeTagsToBytes`: ',' and the tags, then padding only. */
  function WriteTypeTagsLegacy(args: seq<Argument>, buf: seq<int8>, start: int): (r: (seq<int8>, int))
    requires 0 <= start <= |buf|
    ensures |r.0| == |buf| && start <= r.1 <= |buf|
  {
    if start + |args| + 6 > |buf| then (buf, |buf|)
    else
      var e := Pad4(start + |args| + 1);
      (Put(buf, start, [CharToByte(',')] + TagBytes(args) + Zeros(e - start - |args| - 1)), e)
  }

  /** The argument dispatch, with the double and string writers as written. */
  function WriteArgumentLegacy(a: Argument, buf: seq<int8>, start: int): (r: Result<(seq<int8>, int)>)
    requires 0 <= start <= |buf|
    ensures r.Ok? ==> |r.value.0| == |buf| && start <= r.value.1 <= |buf|
  {
    match a
    case DoubleArg(bits) => WriteDoubleAsWritten(bits, buf, start)
    case TimestampArg(bits) => WriteDoubleAsWritten(bits, buf, start)
    case StringArg(s) => Ok(WriteStringAsWritten(s, buf, start))
    case _ => Ok(WriteArgument(a, buf, start))
  }

  /** The argument loop: -1 once an index reaches the buffer end. */
  function WriteArgumentsLegacy(args: seq<Argument>, buf: seq<int8>, ci: int): (r: Result<(seq<int8>, int)>)
    requires 0 <= ci <= |buf|
    ensures r.Ok? ==> |r.value.0| == |buf| && (r.value.1 == -1 || ci <= r.value.1 <= |buf|)
    decreases |args|
  {
    if args == [] then Ok((buf, ci))
    else
      match WriteArgumentLegacy(args[0], buf, ci)
      case Fault => Fault
      case Ok((b, c)) => if c >= |b| then Ok((b, -1)) else WriteArgumentsLegacy(args[1..], b, c)
  }

  /** `addOSCMessageToBytes` of the older class. */
  function WriteMessageLegacy(m: MessageValue, buf: seq<int8>): (r: Result<(seq<int8>, int)>)
    ensures r.Ok? ==> |r.value.0| == |buf|
  {
    match WriteAddress(m.addressPattern, buf)
    case Fault => Fault
    case Ok((b, ci)) =>
      if ci >= |b| then Ok((b, -1))
      else
        var (b2, c2) := WriteTypeTagsLegacy(m.arguments, b, ci);
        if c2 >= |b2| then Ok((b2, -1))
        else WriteArgumentsLegacy(m.arguments, b2, c2)
  }

  /** No type tag narrows to a zero byte. */
  lemma {:induction false} TagByteNonZero(a: Argument)
    ensures CharToByte(TypeTag(a)) != 0
  {
    var c := TypeTag(a);
    assert 0 < c as int < TWO_8;
    SmallByte(c as int);
  }

  /**
   * When ',' and the tags end on a 4-byte boundary, the older writer stops
   * right there: the type-tag string it writes has no zero byte at all, so a
   * reader looking for its NUL runs into the arguments.
   */
  lemma {:induction false} TagsUnterminatedLegacy(args: seq<Argument>, buf: seq<int8>, start: int)
    requires 0 <= start && start + |args| + 6 <= |buf|
    requires (start + 1 + |args|) % 4 == 0
    ensures WriteTypeTagsLegacy(args, buf, start).1 == start + 1 + |args|
    ensures forall j :: start <= j < start + 1 + |args| ==> WriteTypeTagsLegacy(args, buf, start).0[j] != 0
  {
    var t := [CharToByte(',')] + TagBytes(args);
    var w := WriteTypeTagsLegacy(args, buf, start).0;
    assert t + Zeros(0) == t;
    assert w == buf[..start] + t + buf[start + |t|..];
    SmallByte(',' as int);
    forall j | start <= j < start + 1 + |args|
      ensures w[j] != 0
    {
      assert w[j] == t[j - start];
      if j > start {
        TagByteNonZero(args[j - start - 1]);
      }
    }
  }

  /** Otherwise the padding supplies the NUL, and both writers write the same bytes. */
  lemma {:induction false} TagsAgreeLegacy(args: seq<Argument>, buf: seq<int8>, start: int)
    requires 0 <= start <= |buf|
    requires (start + 1 + |args|) % 4 != 0
    ensures WriteTypeTagsLegacy(args, buf, start) == WriteTypeTags(args, buf, start)
  {
    var x := start + 1 + |args|;
    assert Pad4(x) == Pad4(x + 1);
  }

  /** Arguments with no double, timestamp or string are written identically. */
  predicate WriterSafe(a: Argument)
  {
    !(a.DoubleArg? || a.TimestampArg? || a.StringArg?)
  }

  lemma {:induction false} ArgumentsAgreeLegacy(args: seq<Argument>, buf: seq<int8>, ci: int)
    requires 0 <= ci <= |buf|
    requires forall k :: 0 <= k < |args| ==> WriterSafe(args[k])
    ensures WriteArgumentsLegacy(args, buf, ci) == Ok(WriteArguments(args, buf, ci))
    decreases |args|
  {
    if args != [] {
      var (b, c) := WriteArgument(args[0], buf, ci);
      assert WriteArgumentLegacy(args[0], buf, ci) == Ok((b, c));
      if c < |b| {
        ArgumentsAgreeLegacy(args[1..], b, c);
      }
    }
  }

  /**
   * The two serialisers agree on every message with no double, timestamp or
   * string argument whose argument count is not 3 mod 4.
   */
  lemma {:induction false} MessageAgreesLegacy(m: MessageValue, buf: seq<int8>)
    requires forall k :: 0 <= k < |m.arguments| ==> WriterSafe(m.arguments[k])
    requires |m.arguments| % 4 != 3
    ensures WriteMessageLegacy(m, buf) == WriteMessage(m, buf)
  {
    OscEncodingProperties.WriteAddressContent(m.addressPattern, buf);
    var r := WriteAddress(m.addressPattern, buf);
    if r.Ok? && r.value.1 < |r.value.0| {
      var (b, ci) := r.value;
      assert ci % 4 == 0;
      TagsAgreeLegacy(m.arguments, b, ci);
      var (b2, c2) := WriteTypeTags(m.arguments, b, ci);
      if c2 < |b2| {
        ArgumentsAgreeLegacy(m.arguments, b2, c2);
      }
    }
  }
}
