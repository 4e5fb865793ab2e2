/**
 * LXOSCMessage (lx4p): the matcher loops, the message object with its
 * address parts and arguments, and the serialiser writing into a caller's
 * byte array.
 *
 * Each loop is proved equal to its specification in OscMatch or
 * OscEncoding, where the properties of the matcher and of the wire format
 * are proved.
 */
module OscMessage {
  import opened JavaBytes
  import opened Wrappers
  import opened OscArgument
  import opened OscMatch
  import opened OscEncoding
  import OscEncodingProperties

  /** `addressPartMatchesPatternPart`: the cursor loop over address and pattern. */
  method AddressPartMatchesPatternPart(a: string, p: string) returns (r: bool)
    ensures r == PartMatches(a, p)
    decreases |p|, 3
  {
    if a == p {
      return true;
    }
    var ai := 0;
    var pj := 0;
    while ai < |a| && pj < |p|
      invariant 0 <= ai <= |a| && 0 <= pj <= |p|
      invariant Matched(a, p, ai, pj) == PartMatches(a, p)
      decreases |p| - pj
    {
      MatchStep(a, p, ai, pj);
      if p[pj] == '*' {
        if pj + 1 == |p| {
          return true;
        }
        var next := p[pj + 1];
        ghost var from := ai;
        while a[ai] != next
          invariant from <= ai < |a|
          invariant IndexOfFrom(a, next, ai) == IndexOfFrom(a, next, from)
          decreases |a| - ai
        {
          ai := ai + 1;
          if ai >= |a| {
            return false;
          }
        }
        ai := ai + 1;
        pj := pj + 2;
      } else if p[pj] == a[ai] || p[pj] == '?' {
        ai := ai + 1;
        pj := pj + 1;
      } else if p[pj] == '[' {
        var close := IndexOfFrom(p, ']', pj + 1);
        if close < 0 {
          return false;
        }
        var inSet := AddressCharMatchesBracketPattern(a[ai], p[pj + 1..close]);
        if !inSet {
          return false;
        }
        ai := ai + 1;
        pj := close + 1;
      } else if p[pj] == '{' {
        r := AddressPartMatchesBracePatternPart(a[ai..], p[pj + 1..]);
        return;
      } else {
        return false;
      }
    }
    return ai == |a|;
  }

  /**
   * A non-recursive name for `MatchFrom`: the loop above sees one step of
   * the matcher at a time, from `MatchStep`.
   */
  ghost function Matched(a: string, p: string, ai: int, pj: int): bool
    requires 0 <= ai <= |a| && 0 <= pj <= |p|
  {
    MatchFrom(a, p, ai, pj)
  }

  /** One step of the matcher's loop. */
  lemma {:induction false} MatchStep(a: string, p: string, ai: int, pj: int)
    requires 0 <= ai < |a| && 0 <= pj < |p|
    ensures Matched(a, p, ai, pj) ==
      if p[pj] == '*' then
        if pj + 1 == |p| then true
        else
          var k := IndexOfFrom(a, p[pj + 1], ai);
          if k < 0 then false else Matched(a, p, k + 1, pj + 2)
      else if p[pj] == a[ai] || p[pj] == '?' then Matched(a, p, ai + 1, pj + 1)
      else if p[pj] == '[' then
        var close := IndexOfFrom(p, ']', pj + 1);
        if close < 0 then false
        else if !BracketMatches(a[ai], p[pj + 1..close]) then false
        else Matched(a, p, ai + 1, close + 1)
      else if p[pj] == '{' then BraceMatches(a[ai..], p[pj + 1..])
      else false
  {
  }

  /** `addressCharMatchesBracketPattern`, with the range loop's end-of-list guard on the dash found. */
  method AddressCharMatchesBracketPattern(c: char, blist: string) returns (r: bool)
    ensures r == BracketMatches(c, blist)
  {
    var m := blist;
    var negate := false;
    if |blist| > 0 && blist[0] == '!' {
      negate := true;
      m := blist[1..];
    }
    var cindex := IndexOfFrom(m, c, 0);
    if cindex >= 0 {
      return !negate;
    }
    var dashIndex := 1;
    var done := |m| < 3;
    while !done
      invariant 1 <= dashIndex
      invariant done ==> BracketMatches(c, blist) == negate
      invariant !done ==> |m| >= 3 && BracketMatches(c, blist) == RangeScan(c, m, dashIndex, negate)
      decreases !done, |m| - dashIndex
    {
      var nDashIndex := IndexOfFrom(m, '-', dashIndex);
      if nDashIndex > 0 {
        if |m| == nDashIndex + 1 {
          return false;
        }
        if m[nDashIndex - 1] < c && c < m[nDashIndex + 1] {
          return !negate;
        }
        dashIndex := nDashIndex + 1;
        if dashIndex + 1 >= |m| {
          done := true;
        }
      } else {
        done := true;
      }
    }
    return negate;
  }

  /** `addressPartMatchesBracePatternPart`: the first alternative that starts the address decides. */
  method AddressPartMatchesBracePatternPart(a: string, q: string) returns (r: bool)
    ensures r == BraceMatches(a, q)
    decreases |q|, 1
  {
    var close := IndexOfFrom(q, '}', 0);
    if close < 0 {
      return false;
    }
    var sa := JavaSplit(q[..close], ',');
    var i := 0;
    while i < |sa|
      invariant 0 <= i <= |sa|
      invariant BraceAlternatives(a, q, close, sa, i) == BraceMatches(a, q)
    {
      if sa[i] <= a {
        if |a| == |sa[i]| {
          return true;
        } else if |q| > close + 1 {
          r := AddressPartMatchesPatternPart(a[|sa[i]|..], q[close + 1..]);
          return;
        }
      }
      i := i + 1;
    }
    return false;
  }

  /** `buf` after writing `bs` from `at`, known byte by byte, is Put(buf, at, bs). */
  lemma {:induction false} PutBytewise(buf: seq<int8>, at: int, bs: seq<int8>, r: seq<int8>)
    requires 0 <= at && at + |bs| <= |buf| == |r|
    requires forall j :: 0 <= j < |r| ==> r[j] == (if at <= j < at + |bs| then bs[j - at] else buf[j])
    ensures r == Put(buf, at, bs)
  {
    var w := Put(buf, at, bs);
    assert forall j :: 0 <= j < |r| ==> r[j] == w[j];
  }

  /** The writers' char loops: `(byte) s.charAt(k)` from `at`. */
  method WriteChars(buffer: array<int8>, at: int, s: string)
    requires 0 <= at && at + |s| <= buffer.Length
    modifies buffer
    ensures buffer[..] == Put(old(buffer[..]), at, AsciiBytes(s))
  {
    ghost var b0 := buffer[..];
    var k := 0;
    while k < |s|
      invariant 0 <= k <= |s|
      invariant forall j :: 0 <= j < buffer.Length ==>
        buffer[j] == (if at <= j < at + k then CharToByte(s[j - at]) else b0[j])
    {
      buffer[at + k] := CharToByte(s[k]);
      k := k + 1;
    }
    PutBytewise(b0, at, AsciiBytes(s), buffer[..]);
  }

  /** The blob writer's copy loop. */
  method WriteBytes(buffer: array<int8>, at: int, bs: seq<int8>)
    requires 0 <= at && at + |bs| <= buffer.Length
    modifies buffer
    ensures buffer[..] == Put(old(buffer[..]), at, bs)
  {
    ghost var b0 := buffer[..];
    var k := 0;
    while k < |bs|
      invariant 0 <= k <= |bs|
      invariant forall j :: 0 <= j < buffer.Length ==>
        buffer[j] == (if at <= j < at + k then bs[j - at] else b0[j])
    {
      buffer[at + k] := bs[k];
      k := k + 1;
    }
    PutBytewise(b0, at, bs, buffer[..]);
  }

  /** The padding idiom: zeros from `ci` up to the next multiple of 4. */
  method PadToFour(buffer: array<int8>, ci: int) returns (e: int)
    requires 0 <= ci && Pad4(ci) <= buffer.Length
    modifies buffer
    ensures e == Pad4(ci) && buffer[..] == Put(old(buffer[..]), ci, Zeros(e - ci))
  {
    ghost var b0 := buffer[..];
    e := ci;
    var pad := ci % 4;
    if pad != 0 {
      pad := 4 - pad;
      pad := ci + pad;
      while e < pad
        invariant ci <= e <= pad
        invariant forall j :: 0 <= j < buffer.Length ==> buffer[j] == (if ci <= j < e then 0 else b0[j])
      {
        buffer[e] := 0;
        e := e + 1;
      }
    }
    PutBytewise(b0, ci, Zeros(e - ci), buffer[..]);
  }

  /** A NUL at `ci`, then padding: the end of every OSC-string. */
  method Terminate(buffer: array<int8>, ci: int) returns (e: int)
    requires 0 <= ci && Pad4(ci + 1) <= buffer.Length
    modifies buffer
    ensures e == Pad4(ci + 1) && buffer[..] == Put(old(buffer[..]), ci, Zeros(e - ci))
  {
    ghost var b0 := buffer[..];
    buffer[ci] := 0;
    assert buffer[..] == Put(b0, ci, [0]);
    e := PadToFour(buffer, ci + 1);
    OscEncodingProperties.PutPut(b0, ci, [0], Zeros(e - ci - 1));
    assert [0] + Zeros(e - ci - 1) == Zeros(e - ci);
  }

  /** One address part: '/' and its chars. */
  method WriteSlashPart(buffer: array<int8>, ci: int, estr: string)
    requires 0 <= ci && ci + 1 + |estr| <= buffer.Length
    modifies buffer
    ensures buffer[..] == Put(old(buffer[..]), ci, [CharToByte('/')] + AsciiBytes(estr))
  {
    ghost var b1 := buffer[..];
    buffer[ci] := CharToByte('/');
    assert buffer[..] == Put(b1, ci, [CharToByte('/')]);
    WriteChars(buffer, ci + 1, estr);
    OscEncodingProperties.PutPut(b1, ci, [CharToByte('/')], AsciiBytes(estr));
  }

  /** The address loop of `addAddressPatternToBytes`, then its NUL and padding. */
  method WriteAddressPattern(buffer: array<int8>, parts: seq<string>) returns (r: Result<int>)
    modifies buffer
    ensures var s := WriteAddress(parts, old(buffer[..]));
      r.Fault? == s.Fault? && (r.Ok? ==> buffer[..] == s.value.0 && r.value == s.value.1)
  {
    ghost var b0 := buffer[..];
    var ci, full := WriteAddressParts(buffer, parts);
    ghost var b1 := buffer[..];
    if full {
      assert WriteAddress(parts, b0) == Ok((b1, |b1|));
      return Ok(buffer.Length);
    }
    if Pad4(ci + 1) > buffer.Length {
      return Fault;
    }
    var e := Terminate(buffer, ci);
    assert WriteAddress(parts, b0) == Ok((Put(b1, ci, Zeros(e - ci)), e));
    return Ok(e);
  }

  /** The loop over the parts: stops with `full` at the first part without room. */
  method WriteAddressParts(buffer: array<int8>, parts: seq<string>) returns (ci: int, full: bool)
    modifies buffer
    ensures 0 <= ci <= buffer.Length
    ensures WriteParts(parts, old(buffer[..]), 0) == if full then TooLong(buffer[..]) else Written(buffer[..], ci)
  {
    ghost var b0 := buffer[..];
    ci := 0;
    var i := 0;
    while i < |parts|
      invariant 0 <= i <= |parts| && 0 <= ci <= buffer.Length
      invariant WriteParts(parts, b0, 0) == WriteParts(parts[i..], buffer[..], ci)
    {
      var estr := parts[i];
      assert parts[i..][1..] == parts[i + 1..];
      if ci + |estr| + 8 > buffer.Length {
        return ci, true;
      }
      WriteSlashPart(buffer, ci, estr);
      ci := ci + 1 + |estr|;
      i := i + 1;
    }
    return ci, false;
  }

  /** The type-tag loop: ',' then one tag per argument ('f' when no other type applies). */
  method WriteTagList(buffer: array<int8>, start: int, args: seq<Argument>)
    requires 0 <= start && start + 1 + |args| <= buffer.Length
    modifies buffer
    ensures buffer[..] == Put(old(buffer[..]), start, [CharToByte(',')] + TagBytes(args))
  {
    ghost var b0 := buffer[..];
    ghost var tags := [CharToByte(',')] + TagBytes(args);
    buffer[start] := CharToByte(',');
    var k := 0;
    while k < |args|
      invariant 0 <= k <= |args|
      invariant forall j :: 0 <= j < buffer.Length ==>
        buffer[j] == (if start <= j < start + 1 + k then tags[j - start] else b0[j])
    {
      buffer[start + 1 + k] := CharToByte(TypeTag(args[k]));
      k := k + 1;
    }
    PutBytewise(b0, start, tags, buffer[..]);
  }

  /** ',' and the tags, then the NUL and padding, written one after another are the type-tag string. */
  lemma {:induction false} TagsWritten(b0: seq<int8>, start: int, args: seq<Argument>, after: seq<int8>, r: int)
    requires 0 <= start && start + |args| + 6 <= |b0| && r == Pad4(start + |args| + 2)
    requires after == Put(Put(b0, start, [CharToByte(',')] + TagBytes(args)), start + 1 + |args|, Zeros(r - (start + 1 + |args|)))
    ensures (after, r) == WriteTypeTags(args, b0, start)
  {
    var tags := [CharToByte(',')] + TagBytes(args);
    assert |tags| == 1 + |args|;
    OscEncodingProperties.PutPut(b0, start, tags, Zeros(r - (start + 1 + |args|)));
  }

  /** `addIntArgumentToBytes` (also `addFloatArgumentToBytes` on the float's bits). */
  method AddIntArgumentToBytes(buffer: array<int8>, start: int, v: int) returns (r: int)
    requires 0 <= start <= buffer.Length
    modifies buffer
    ensures (buffer[..], r) == WriteInt(v, old(buffer[..]), start)
  {
    if start + 4 > buffer.Length {
      return buffer.Length;
    }
    WriteBytes(buffer, start, BigEndian32(v));
    return start + 4;
  }

  /** `addDoubleArgumentToBytes` with room checked for the 8 bytes written. */
  method AddDoubleArgumentToBytes(buffer: array<int8>, start: int, bits: int) returns (r: int)
    requires 0 <= start <= buffer.Length
    modifies buffer
    ensures (buffer[..], r) == WriteDouble(bits, old(buffer[..]), start)
  {
    if start + 8 > buffer.Length {
      return buffer.Length;
    }
    WriteBytes(buffer, start, BigEndian64(bits));
    return start + 8;
  }

  /** `addStringArgumentToBytes` with the NUL that ends an OSC-string. */
  method AddStringArgumentToBytes(buffer: array<int8>, start: int, s: string) returns (r: int)
    requires 0 <= start <= buffer.Length
    modifies buffer
    ensures (buffer[..], r) == WriteString(s, old(buffer[..]), start)
  {
    if start + |s| + 4 > buffer.Length {
      return buffer.Length;
    }
    ghost var b0 := buffer[..];
    var c := start + |s|;
    WriteChars(buffer, start, s);
    r := Terminate(buffer, c);
    StringWritten(b0, start, s, buffer[..], r);
  }

  /** The chars and the NUL-and-padding written one after another are the encoded string. */
  lemma {:induction false} StringWritten(b0: seq<int8>, start: int, s: string, after: seq<int8>, r: int)
    requires 0 <= start && start + |s| + 4 <= |b0| && r == Pad4(start + |s| + 1)
    requires after == Put(Put(b0, start, AsciiBytes(s)), start + |s|, Zeros(r - (start + |s|)))
    ensures (after, r) == WriteString(s, b0, start)
  {
    var pad := Zeros(r - (start + |s|));
    OscEncodingProperties.PutPut(b0, start, AsciiBytes(s), pad);
  }

  /** `addBytesArgumentToBytes`: the size, the bytes, padding. */
  method AddBytesArgumentToBytes(buffer: array<int8>, start: int, b: seq<int8>) returns (r: int)
    requires 0 <= start <= buffer.Length
    modifies buffer
    ensures (buffer[..], r) == WriteBlob(b, old(buffer[..]), start)
  {
    if start + |b| + 8 > buffer.Length {
      return buffer.Length;
    }
    r := WriteBlobAt(buffer, start, b);
  }

  /** The writes of `addBytesArgumentToBytes` once the room is checked. */
  method WriteBlobAt(buffer: array<int8>, start: int, b: seq<int8>) returns (r: int)
    requires 0 <= start && start + |b| + 8 <= buffer.Length
    modifies buffer
    ensures (buffer[..], r) == WriteBlob(b, old(buffer[..]), start)
  {
    ghost var b0 := buffer[..];
    var at, c := start + 4, start + 4 + |b|;
    WriteBytes(buffer, start, BigEndian32(|b|));
    ghost var b1 := buffer[..];
    WriteBytes(buffer, at, b);
    ghost var b2 := buffer[..];
    r := PadToFour(buffer, c);
    BlobWritten(b0, start, b, b1, b2, buffer[..], r);
  }

  /** The size, the bytes and the padding written one after another are the encoded blob. */
  lemma {:induction false} BlobWritten(b0: seq<int8>, start: int, b: seq<int8>, b1: seq<int8>, b2: seq<int8>, after: seq<int8>, r: int)
    requires 0 <= start && start + |b| + 8 <= |b0| && r == Pad4(start + 4 + |b|)
    requires b1 == Put(b0, start, BigEndian32(|b|)) && b2 == Put(b1, start + 4, b)
    requires after == Put(b2, start + 4 + |b|, Zeros(r - (start + 4 + |b|)))
    ensures (after, r) == WriteBlob(b, b0, start)
  {
    var size := BigEndian32(|b|);
    var pad := Zeros(r - (start + 4 + |b|));
    OscEncodingProperties.PutPut(b0, start, size, b);
    var head := size + b;
    assert |head| == 4 + |b|;
    OscEncodingProperties.PutPut(b0, start, head, pad);
  }

  /** The type dispatch inside the argument loop of `addOSCMessageToBytes`. */
  method AddArgumentToBytes(buffer: array<int8>, start: int, a: Argument) returns (r: int)
    requires 0 <= start <= buffer.Length
    modifies buffer
    ensures (buffer[..], r) == WriteArgument(a, old(buffer[..]), start)
  {
    match a
    case IntArg(i) => r := AddIntArgumentToBytes(buffer, start, i);
    case DoubleArg(bits) => r := AddDoubleArgumentToBytes(buffer, start, bits);
    case TimestampArg(bits) => r := AddDoubleArgumentToBytes(buffer, start, bits);
    case StringArg(s) => r := AddStringArgumentToBytes(buffer, start, s);
    case BlobArg(b) => r := AddBytesArgumentToBytes(buffer, start, b);
    case TrueArg => r := start;
    case FalseArg => r := start;
    case ImpulseArg => r := start;
    case NullArg => r := start;
    case FloatArg(bits) => r := AddIntArgumentToBytes(buffer, start, bits);
  }

  /** The argument loop of `addOSCMessageToBytes`: -1 once an index reaches the buffer end. */
  method AddArgumentsToBytes(buffer: array<int8>, start: int, args: seq<Argument>) returns (r: int)
    requires 0 <= start <= buffer.Length
    modifies buffer
    ensures (buffer[..], r) == WriteArguments(args, old(buffer[..]), start)
  {
    ghost var b0 := buffer[..];
    var ci := start;
    var k := 0;
    while k < |args|
      invariant 0 <= k <= |args| && 0 <= ci <= buffer.Length
      invariant WriteArguments(args, b0, start) == WriteArguments(args[k..], buffer[..], ci)
    {
      assert args[k..][1..] == args[k + 1..];
      ci := AddArgumentToBytes(buffer, ci, args[k]);
      if ci >= buffer.Length {
        return -1;
      }
      k := k + 1;
    }
    return ci;
  }

  /** An OSC message: its address pattern parts and its arguments. */
  class Message {
    var addressPattern: seq<string>
    var arguments: seq<Argument>

    function Model(): MessageValue
      reads this
    {
      MessageValue(addressPattern, arguments)
    }

    /** `LXOSCMessage()`: no parts, no arguments. */
    constructor ()
      ensures Model() == MessageValue([], [])
    {
      addressPattern := [];
      arguments := [];
    }

    /** `LXOSCMessage(Vector<String>)`: the given parts, no arguments. */
    constructor WithParts(parts: seq<string>)
      ensures Model() == MessageValue(parts, [])
    {
      addressPattern := parts;
      arguments := [];
    }

    /** `LXOSCMessage(String)`: the parts of the address string, no arguments. */
    constructor FromString(pstr: string)
      ensures Model() == MessageValue(AddressPatternStringToParts(pstr), [])
    {
      addressPattern := AddressPatternStringToParts(pstr);
      arguments := [];
    }

    method SetAddressPattern(parts: seq<string>)
      modifies this
      ensures Model() == MessageValue(parts, old(arguments))
    {
      addressPattern := parts;
    }

    /** `setAddressPattern(String)`: the parts of "/a/b/c". */
    method SetAddressPatternString(pstr: string)
      modifies this
      ensures Model() == MessageValue(AddressPatternStringToParts(pstr), old(arguments))
    {
      addressPattern := AddressPatternStringToParts(pstr);
    }

    method AddAddressPart(astr: string)
      modifies this
      ensures Model() == MessageValue(old(addressPattern) + [astr], old(arguments))
    {
      addressPattern := addressPattern + [astr];
    }

    /**
     * `addressPartAt(n)`: the part, "" past the end; a negative index
     * reaches `elementAt` and throws.
     */
    function AddressPartAt(n: int): (r: Result<string>)
      reads this
      ensures r.Fault? <==> n < 0
      ensures 0 <= n < |addressPattern| ==> r == Ok(addressPattern[n])
      ensures n >= |addressPattern| ==> r == Ok("")
    {
      if n < |addressPattern| then
        if n < 0 then Fault else Ok(addressPattern[n])
      else Ok("")
    }

    /** `matchesAddressPattern(Vector)`: the prefix filter over the parts. */
    method MatchesAddressPattern(testPattern: seq<string>) returns (r: bool)
      ensures r == MatchesAsPattern(addressPattern, testPattern)
    {
      if |addressPattern| < |testPattern| {
        return false;
      }
      var i := 0;
      while i < |testPattern|
        invariant 0 <= i <= |testPattern|
        invariant forall k :: 0 <= k < i ==> PartMatches(addressPattern[k], testPattern[k])
      {
        var ok := AddressPartMatchesPatternPart(addressPattern[i], testPattern[i]);
        if !ok {
          return false;
        }
        i := i + 1;
      }
      return true;
    }

    /** `matchesOSCAddress(Vector)`: as many parts, each address part matched by the pattern part. */
    method MatchesOscAddress(testAddress: seq<string>) returns (r: bool)
      ensures r == MatchesAsAddress(addressPattern, testAddress)
    {
      if |addressPattern| != |testAddress| {
        return false;
      }
      var i := 0;
      while i < |testAddress|
        invariant 0 <= i <= |testAddress|
        invariant forall k :: 0 <= k < i ==> PartMatches(testAddress[k], addressPattern[k])
      {
        var ok := AddressPartMatchesPatternPart(testAddress[i], addressPattern[i]);
        if !ok {
          return false;
        }
        i := i + 1;
      }
      return true;
    }

    /** `matchesAddressPattern(String)`. */
    method MatchesAddressPatternString(testString: string) returns (r: bool)
      ensures r == MatchesAsPattern(addressPattern, AddressPatternStringToParts(testString))
    {
      r := MatchesAddressPattern(AddressPatternStringToParts(testString));
    }

    /** `matchesOSCAddress(String)`. */
    method MatchesOscAddressString(testString: string) returns (r: bool)
      ensures r == MatchesAsAddress(addressPattern, AddressPatternStringToParts(testString))
    {
      r := MatchesOscAddress(AddressPatternStringToParts(testString));
    }

    /** `partOfPatternMatchesAddressString(p, s)`: `elementAt(p)` throws outside the parts. */
    method PartOfPatternMatchesAddressString(p: int, s: string) returns (r: Result<bool>)
      ensures r.Fault? <==> !(0 <= p < |addressPattern|)
      ensures r.Ok? ==> r.value == PartMatches(s, addressPattern[p])
    {
      if p < 0 || p >= |addressPattern| {
        return Fault;
      }
      var m := AddressPartMatchesPatternPart(s, addressPattern[p]);
      return Ok(m);
    }

    /** `addArgument(...)`: each overload appends one argument built by an LXOSCArgument constructor. */
    method AddArgument(arg: Argument)
      modifies this
      ensures Model() == MessageValue(old(addressPattern), old(arguments) + [arg])
    {
      arguments := arguments + [arg];
    }

    /** `addArgument(char)`: a payload-free argument ('T', 'F', 'I', 'N'). */
    method AddTypeTagArgument(typetag: char)
      modifies this
      ensures Model() == MessageValue(old(addressPattern), old(arguments) + [FromTypeTag(typetag)])
    {
      arguments := arguments + [FromTypeTag(typetag)];
    }

    /** `addArgument(byte[], start, length)`: the slice constructor throws before anything is added. */
    method AddSliceArgument(bsrc: array<int8>, start: int, length: int) returns (r: Result<int>)
      modifies this
      ensures var s := SliceArgument(old(bsrc[..]), start, length);
        r.Fault? == s.Fault? &&
        Model() == (if s.Ok? then MessageValue(old(addressPattern), old(arguments) + [s.value]) else old(Model()))
    {
      var a := NewSliceArgument(bsrc, start, length);
      if a.Fault? {
        return Fault;
      }
      arguments := arguments + [a.value];
      return Ok(|arguments|);
    }

    predicate ArgumentExistsAt(index: int)
      reads this
    {
      0 <= index < |arguments|
    }

    /** `argumentAt`: the argument, or null (None) outside the list. */
    function ArgumentAt(index: int): (r: Option<Argument>)
      reads this
      ensures r.Some? <==> ArgumentExistsAt(index)
      ensures r.Some? ==> r.value == arguments[index]
    {
      if ArgumentExistsAt(index) then Some(arguments[index]) else None
    }

    function ArgumentCount(): (r: int)
      reads this
      ensures r == |arguments|
    {
      |arguments|
    }

    /** `intAt`: 0 outside the list, else `getInt()` (None where it converts a float). */
    function IntAt(index: int): (r: Option<int>)
      reads this
      ensures !ArgumentExistsAt(index) ==> r == Some(0)
      ensures ArgumentExistsAt(index) && arguments[index].IntArg? ==> r == Some(arguments[index].i)
    {
      if ArgumentExistsAt(index) then GetInt(arguments[index]) else Some(0)
    }

    /** `stringAt`: "" outside the list, else `getString()`. */
    function StringAt(index: int): (r: Option<string>)
      reads this
      ensures !ArgumentExistsAt(index) ==> r == Some("")
      ensures ArgumentExistsAt(index) && arguments[index].StringArg? ==> r == Some(arguments[index].s)
    {
      if ArgumentExistsAt(index) then GetString(arguments[index]) else Some("")
    }

    /** `byteArrayAt`: the blob's bytes; an empty array outside the list or for other types. */
    function ByteArrayAt(index: int): (r: seq<int8>)
      reads this
      ensures !(ArgumentExistsAt(index) && arguments[index].BlobArg?) ==> r == []
      ensures ArgumentExistsAt(index) && arguments[index].BlobArg? ==> r == arguments[index].b
    {
      if ArgumentExistsAt(index) then GetBytes(arguments[index]) else []
    }

    /** `addAddressPatternToBytes`. */
    method AddAddressPatternToBytes(buffer: array<int8>) returns (r: Result<int>)
      modifies buffer
      ensures var s := WriteAddress(addressPattern, old(buffer[..]));
        r.Fault? == s.Fault? && (r.Ok? ==> buffer[..] == s.value.0 && r.value == s.value.1)
    {
      r := WriteAddressPattern(buffer, addressPattern);
    }

    /** `addArgumentTypeTagsToBytes`: ',' and one tag per argument, a NUL, padding. */
    method AddArgumentTypeTagsToBytes(buffer: array<int8>, start: int) returns (r: int)
      requires 0 <= start <= buffer.Length
      modifies buffer
      ensures (buffer[..], r) == WriteTypeTags(arguments, old(buffer[..]), start)
    {
      var argc := |arguments|;
      if start + argc + 6 > buffer.Length {
        return buffer.Length;
      }
      ghost var b0 := buffer[..];
      WriteTagList(buffer, start, arguments);
      r := Terminate(buffer, start + 1 + argc);
      TagsWritten(b0, start, arguments, buffer[..], r);
    }

    /** `addOSCMessageToBytes`: the length written, or -1 once a step reaches the buffer end. */
    method AddOscMessageToBytes(buffer: array<int8>) returns (r: Result<int>)
      modifies buffer
      ensures var s := WriteMessage(Model(), old(buffer[..]));
        r.Fault? == s.Fault? && (r.Ok? ==> buffer[..] == s.value.0 && r.value == s.value.1)
    {
      var a := AddAddressPatternToBytes(buffer);
      if a.Fault? {
        return Fault;
      }
      var ci := a.value;
      if ci >= buffer.Length {
        return Ok(-1);
      }
      ci := AddArgumentTypeTagsToBytes(buffer, ci);
      if ci >= buffer.Length {
        return Ok(-1);
      }
      ci := AddArgumentsToBytes(buffer, ci, arguments);
      return Ok(ci);
    }
  }
}
