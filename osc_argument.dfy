/**
 * An OSC 1.1 argument (LXOSCArgument): its type code and its payload.
 *
 * The Java object keeps a type code next to a double, a string and a byte
 * array; here each type code is one constructor carrying the payload the
 * codec reads and writes. Float, double and timestamp payloads are their
 * raw IEEE-754 bit patterns (the serialiser writes exactly those bits).
 */
module OscArgument {
  import opened JavaBytes
  import opened Wrappers

  datatype Argument =
    | IntArg(i: int)              // type 0, `LXOSCArgument(int)`
    | FloatArg(bits: int)         // type 1, the float's 32-bit pattern
    | DoubleArg(bits: int)        // type 2, the double's 64-bit pattern
    | TimestampArg(bits: int)     // type 3, a double flagged as a timestamp
    | StringArg(s: string)        // type 4, the string kept verbatim
    | BlobArg(b: seq<int8>)       // type 5, `byte[]`
    | TrueArg                     // type 6, tag 'T'
    | FalseArg                    // type 7, tag 'F'
    | ImpulseArg                  // type 8, tag 'I'
    | NullArg                     // type 9, tag 'N'

  /** The `type` field each constructor assigns. */
  function TypeCode(a: Argument): (k: int)
    ensures 0 <= k <= 9
  {
    match a
    case IntArg(_) => 0
    case FloatArg(_) => 1
    case DoubleArg(_) => 2
    case TimestampArg(_) => 3
    case StringArg(_) => 4
    case BlobArg(_) => 5
    case TrueArg => 6
    case FalseArg => 7
    case ImpulseArg => 8
    case NullArg => 9
  }

  predicate IsIntType(a: Argument) { TypeCode(a) == 0 }
  predicate IsFloatType(a: Argument) { TypeCode(a) == 1 }
  predicate IsDoubleType(a: Argument) { TypeCode(a) == 2 }
  predicate IsTimestampType(a: Argument) { TypeCode(a) == 3 }
  predicate IsNumberType(a: Argument) { TypeCode(a) < 4 }
  predicate IsStringType(a: Argument) { TypeCode(a) == 4 }
  predicate IsBytesType(a: Argument) { TypeCode(a) == 5 }
  predicate IsTrueType(a: Argument) { TypeCode(a) == 6 }
  predicate IsFalseType(a: Argument) { TypeCode(a) == 7 }
  predicate IsImpulseType(a: Argument) { TypeCode(a) == 8 }
  predicate IsNullType(a: Argument) { TypeCode(a) == 9 }

  /** Payloads a Java argument can hold: a 32-bit int and 32/64-bit patterns. */
  predicate WellFormed(a: Argument)
  {
    match a
    case IntArg(i) => -TWO_31 <= i < TWO_31
    case FloatArg(bits) => 0 <= bits < TWO_32
    case DoubleArg(bits) => 0 <= bits < TWO_32 * TWO_32
    case TimestampArg(bits) => 0 <= bits < TWO_32 * TWO_32
    case _ => true
  }

  /** `LXOSCArgument(double d, boolean timestamp)`: type 3 when flagged, else 2. */
  function FromDouble(bits: int, timestamp: bool): (r: Argument)
    ensures IsNumberType(r)
    ensures IsTimestampType(r) <==> timestamp
    ensures IsDoubleType(r) <==> !timestamp
  {
    if timestamp then TimestampArg(bits) else DoubleArg(bits)
  }

  /**
   * `LXOSCArgument(char typetag)`: 'T', 'F', 'I' and 'N' give the four
   * payload-free types; any other char gives an int argument of value 0.
   */
  function FromTypeTag(c: char): (r: Argument)
    ensures TypeCode(r) >= 6 <==> c in "TFIN"
    ensures c !in "TFIN" ==> r == IntArg(0)
  {
    if c == 'T' then TrueArg
    else if c == 'F' then FalseArg
    else if c == 'I' then ImpulseArg
    else if c == 'N' then NullArg
    else IntArg(0)
  }

  /** `getBytes()`: the stored array for a blob, an empty array for every other type. */
  function GetBytes(a: Argument): (r: seq<int8>)
    ensures !IsBytesType(a) ==> r == []
  {
    if a.BlobArg? then a.b else []
  }

  /**
   * `getInt()`, `(int) dv`, where the model carries `dv`: the int itself, 1
   * for True and Impulse, 0 for False, Null and blobs. None where `dv` comes
   * from a float conversion or from `Double.parseDouble`, which the model
   * does not carry.
   */
  function GetInt(a: Argument): (r: Option<int>)
    ensures a.IntArg? ==> r == Some(a.i)
    ensures r.Some? <==> !(IsFloatType(a) || IsDoubleType(a) || IsTimestampType(a) || IsStringType(a))
  {
    match a
    case IntArg(i) => Some(i)
    case TrueArg => Some(1)
    case ImpulseArg => Some(1)
    case FalseArg => Some(0)
    case NullArg => Some(0)
    case BlobArg(_) => Some(0)
    case _ => None
  }

  /**
   * `getString()`, the `sv` field: the string itself, and the fixed texts of
   * the four payload-free types. None where `sv` is a number formatted by
   * `Integer/Float/Double.toString` or depends on the blob constructor used
   * ("" or null), which the model does not carry.
   */
  function GetString(a: Argument): (r: Option<string>)
    ensures a.StringArg? ==> r == Some(a.s)
    ensures r.Some? <==> !(IsNumberType(a) || IsBytesType(a))
  {
    match a
    case StringArg(s) => Some(s)
    case TrueArg => Some("true")
    case FalseArg => Some("false")
    case ImpulseArg => Some("")
    case NullArg => Some("null")
    case _ => None
  }

  /**
   * `LXOSCArgument(bsrc, start, length)`: a blob of `bsrc[start..start+length)`.
   * A negative length fails (`new byte[length]`), and so does a non-empty
   * range that leaves `bsrc`.
   */
  function SliceArgument(bsrc: seq<int8>, start: int, length: int): (r: Result<Argument>)
    ensures r.Ok? <==> 0 <= length && (length == 0 || (0 <= start && start + length <= |bsrc|))
    ensures r.Ok? ==> IsBytesType(r.value) && |GetBytes(r.value)| == length
    ensures r.Ok? ==> forall k :: 0 <= k < length ==> GetBytes(r.value)[k] == bsrc[start + k]
  {
    if length < 0 then Fault
    else if length == 0 then Ok(BlobArg([]))
    else if 0 <= start && start + length <= |bsrc| then Ok(BlobArg(bsrc[start..start + length]))
    else Fault
  }

  /** The slice constructor's copy loop, proved against SliceArgument. */
  method NewSliceArgument(bsrc: array<int8>, start: int, length: int) returns (r: Result<Argument>)
    ensures r == SliceArgument(bsrc[..], start, length)
  {
    if length < 0 {
      return Fault;
    }
    var bv := new int8[length];
    var i := 0;
    while i < length
      invariant 0 <= i <= length
      invariant i > 0 ==> 0 <= start && start + i <= bsrc.Length
      invariant forall k :: 0 <= k < i ==> bv[k] == bsrc[start + k]
    {
      if start + i < 0 || start + i >= bsrc.Length {
        return Fault;
      }
      bv[i] := bsrc[start + i];
      i := i + 1;
    }
    if length > 0 {
      assert bv[..] == bsrc[start..start + length];
    } else {
      assert bv[..] == [];
    }
    return Ok(BlobArg(bv[..]));
  }

  /** Every argument has exactly one type, and the number types are the codes below 4. */
  lemma {:induction false} TypesPartition(a: Argument)
    ensures IsNumberType(a) <==> IsIntType(a) || IsFloatType(a) || IsDoubleType(a) || IsTimestampType(a)
    ensures !IsNumberType(a) <==> IsStringType(a) || IsBytesType(a) || IsTrueType(a) || IsFalseType(a) || IsImpulseType(a) || IsNullType(a)
    ensures TypeCode(a) == 0 <==> a.IntArg?
    ensures TypeCode(a) == 5 <==> a.BlobArg?
  {
  }
}
