/**
 * The older LXOSCMessage (lx_for_processing): address elements matched
 * exactly, the same accessors, and its serialiser.
 *
 * Its LXOSCArgument is not part of this model; the arguments are those of
 * module OscArgument.
 */
module OscMessageLegacy {
  import opened JavaBytes
  import opened Wrappers
  import opened OscArgument
  import opened OscMatch
  import opened OscEncoding
  import opened OscLegacyEncoding
  import OscEncodingProperties
  import OscMessage

  /** `addDoubleArgumentToBytes` as written: 4 bytes of room checked, 8 written. */
  method AddDoubleArgumentToBytesLegacy(buffer: array<int8>, start: int, bits: int) returns (r: Result<int>)
    requires 0 <= start <= buffer.Length
    modifies buffer
    ensures var s := WriteDoubleAsWritten(bits, old(buffer[..]), start);
      r.Fault? == s.Fault? && (r.Ok? ==> buffer[..] == s.value.0 && r.value == s.value.1)
  {
    if start + 4 > buffer.Length {
      return Ok(buffer.Length);
    }
    if start + 8 > buffer.Length {
      return Fault;
    }
    OscMessage.WriteBytes(buffer, start, BigEndian64(bits));
    return Ok(start + 8);
  }

  /** `addStringArgumentToBytes` as written: the chars, then padding only. */
  method AddStringArgumentToBytesLegacy(buffer: array<int8>, start: int, s: string) returns (r: int)
    requires 0 <= start <= buffer.Length
    modifies buffer
    ensures (buffer[..], r) == WriteStringAsWritten(s, old(buffer[..]), start)
  {
    if start + |s| + 4 > buffer.Length {
      return buffer.Length;
    }
    ghost var b0 := buffer[..];
    var c := start + |s|;
    OscMessage.WriteChars(buffer, start, s);
    r := OscMessage.PadToFour(buffer, c);
    ghost var pad := Zeros(r - c);
    OscEncodingProperties.PutPut(b0, start, AsciiBytes(s), pad);
  }

  /** The type dispatch inside the argument loop. */
  method AddArgumentToBytesLegacy(buffer: array<int8>, start: int, a: Argument) returns (r: Result<int>)
    requires 0 <= start <= buffer.Length
    modifies buffer
    ensures var s := WriteArgumentLegacy(a, old(buffer[..]), start);
      r.Fault? == s.Fault? && (r.Ok? ==> buffer[..] == s.value.0 && r.value == s.value.1)
  {
    match a
    case DoubleArg(bits) => r := AddDoubleArgumentToBytesLegacy(buffer, start, bits);
    case TimestampArg(bits) => r := AddDoubleArgumentToBytesLegacy(buffer, start, bits);
    case StringArg(s) =>
      var c := AddStringArgumentToBytesLegacy(buffer, start, s);
      r := Ok(c);
    case _ =>
      var c := OscMessage.AddArgumentToBytes(buffer, start, a);
      r := Ok(c);
  }

  /** The argument loop: -1 once an index reaches the buffer end. */
  method AddArgumentsToBytesLegacy(buffer: array<int8>, start: int, args: seq<Argument>) returns (r: Result<int>)
    requires 0 <= start <= buffer.Length
    modifies buffer
    ensures var s := WriteArgumentsLegacy(args, old(buffer[..]), start);
      r.Fault? == s.Fault? && (r.Ok? ==> buffer[..] == s.value.0 && r.value == s.value.1)
  {
    ghost var b0 := buffer[..];
    var ci := start;
    var k := 0;
    while k < |args|
      invariant 0 <= k <= |args| && 0 <= ci <= buffer.Length
      invariant WriteArgumentsLegacy(args, b0, start) == WriteArgumentsLegacy(args[k..], buffer[..], ci)
    {
      assert args[k..][1..] == args[k + 1..];
      var c := AddArgumentToBytesLegacy(buffer, ci, args[k]);
      if c.Fault? {
        return Fault;
      }
      ci := c.value;
      if ci >= buffer.Length {
        return Ok(-1);
      }
      k := k + 1;
    }
    return Ok(ci);
  }

  /** An OSC message of the older class. */
  class Message {
    var addressPattern: seq<string>
    var arguments: seq<Argument>

    function Model(): MessageValue
      reads this
    {
      MessageValue(addressPattern, arguments)
    }

    constructor ()
      ensures Model() == MessageValue([], [])
    {
      addressPattern := [];
      arguments := [];
    }

    constructor WithElements(elements: seq<string>)
      ensures Model() == MessageValue(elements, [])
    {
      addressPattern := elements;
      arguments := [];
    }

    /** `LXOSCMessage(String)`: the elements of the address string (`addressPatternStringToElements`). */
    constructor FromString(pstr: string)
      ensures Model() == MessageValue(AddressPatternStringToParts(pstr), [])
    {
      addressPattern := AddressPatternStringToParts(pstr);
      arguments := [];
    }

    method SetAddressPattern(elements: seq<string>)
      modifies this
      ensures Model() == MessageValue(elements, old(arguments))
    {
      addressPattern := elements;
    }

    method SetAddressPatternString(pstr: string)
      modifies this
      ensures Model() == MessageValue(AddressPatternStringToParts(pstr), old(arguments))
    {
      addressPattern := AddressPatternStringToParts(pstr);
    }

    method AddAddressElement(astr: string)
      modifies this
      ensures Model() == MessageValue(old(addressPattern) + [astr], old(arguments))
    {
      addressPattern := addressPattern + [astr];
    }

    /** `addressElementAt(n)`: "" past the end; a negative index throws in `elementAt`. */
    function AddressElementAt(n: int): (r: Result<string>)
      reads this
      ensures r.Fault? <==> n < 0
      ensures 0 <= n < |addressPattern| ==> r == Ok(addressPattern[n])
      ensures n >= |addressPattern| ==> r == Ok("")
    {
      if n < |addressPattern| then
        if n < 0 then Fault else Ok(addressPattern[n])
      else Ok("")
    }

    /** `matchesAddressPattern(Vector)`: exact, element by element, no wildcards. */
    method MatchesAddressPattern(testPattern: seq<string>) returns (r: bool)
      ensures r <==> addressPattern == testPattern
    {
      if |addressPattern| != |testPattern| {
        return false;
      }
      var i := 0;
      while i < |addressPattern|
        invariant 0 <= i <= |addressPattern|
        invariant addressPattern[..i] == testPattern[..i]
      {
        if addressPattern[i] != testPattern[i] {
          return false;
        }
        i := i + 1;
      }
      assert addressPattern == addressPattern[..i];
      assert testPattern == testPattern[..i];
      return true;
    }

    /** `matchesAddressPattern(String)`. */
    method MatchesAddressPatternString(testString: string) returns (r: bool)
      ensures r <==> addressPattern == AddressPatternStringToParts(testString)
    {
      r := MatchesAddressPattern(AddressPatternStringToParts(testString));
    }

    method AddArgument(arg: Argument)
      modifies this
      ensures Model() == MessageValue(old(addressPattern), old(arguments) + [arg])
    {
      arguments := arguments + [arg];
    }

    predicate ArgumentExistsAt(index: int)
      reads this
    {
      0 <= index < |arguments|
    }

    /** `argumentAt`: null (None) outside the list. */
    function ArgumentAt(index: int): (r: Option<Argument>)
      reads this
      ensures r.Some? <==> ArgumentExistsAt(index)
      ensures r.Some? ==> r.value == arguments[index]
    {
      if ArgumentExistsAt(index) then Some(arguments[index]) else None
    }

    /** `intAt`: 0 outside the list. */
    function IntAt(index: int): (r: Option<int>)
      reads this
      ensures !ArgumentExistsAt(index) ==> r == Some(0)
      ensures ArgumentExistsAt(index) && arguments[index].IntArg? ==> r == Some(arguments[index].i)
    {
      if ArgumentExistsAt(index) then GetInt(arguments[index]) else Some(0)
    }

    /** `stringAt`: "" outside the list. */
    function StringAt(index: int): (r: Option<string>)
      reads this
      ensures !ArgumentExistsAt(index) ==> r == Some("")
      ensures ArgumentExistsAt(index) && arguments[index].StringArg? ==> r == Some(arguments[index].s)
    {
      if ArgumentExistsAt(index) then GetString(arguments[index]) else Some("")
    }

    /** `byteArrayAt`: an empty array outside the list or for other types. */
    function ByteArrayAt(index: int): (r: seq<int8>)
      reads this
      ensures !(ArgumentExistsAt(index) && arguments[index].BlobArg?) ==> r == []
      ensures ArgumentExistsAt(index) && arguments[index].BlobArg? ==> r == arguments[index].b
    {
      if ArgumentExistsAt(index) then GetBytes(arguments[index]) else []
    }

    /** `addArgumentTypeTagsToBytes`: ',' and the tags, padding but no NUL of its own. */
    method AddArgumentTypeTagsToBytes(buffer: array<int8>, start: int) returns (r: int)
      requires 0 <= start <= buffer.Length
      modifies buffer
      ensures (buffer[..], r) == WriteTypeTagsLegacy(arguments, old(buffer[..]), start)
    {
      var argc := |arguments|;
      if start + argc + 6 > buffer.Length {
        return buffer.Length;
      }
      ghost var b0 := buffer[..];
      OscMessage.WriteTagList(buffer, start, arguments);
      r := OscMessage.PadToFour(buffer, start + 1 + argc);
      OscEncodingProperties.PutPut(b0, start, [CharToByte(',')] + TagBytes(arguments), Zeros(r - start - argc - 1));
    }

    /** `addOSCMessageToBytes`: the length written, or -1. */
    method AddOscMessageToBytes(buffer: array<int8>) returns (r: Result<int>)
      modifies buffer
      ensures var s := WriteMessageLegacy(Model(), old(buffer[..]));
        r.Fault? == s.Fault? && (r.Ok? ==> buffer[..] == s.value.0 && r.value == s.value.1)
    {
      var a := OscMessage.WriteAddressPattern(buffer, addressPattern);
      if a.Fault? {
        return Fault;
      }
      var ci := a.value;
      if ci >= buffer.Length {
        return Ok(-1);
      }
      ci := AddArgumentTypeTagsToBytes(buffer, ci);
      if ci >= buffer.Length {
        return Ok(-1);
      }
      r := AddArgumentsToBytesLegacy(buffer, ci, arguments);
    }
  }
}
