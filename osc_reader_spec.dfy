/**
 * LXOSCPacketReader (lx4p) as functions: what `processMessageAt` returns
 * and which messages it appends, for a byte buffer, a begin index and a
 * length, with `#bundle` envelopes read recursively, and what `parseBuffer`
 * collects. A Java exception (an index past the buffer) is the `threw` flag
 * of the outcome, with the messages appended before it.
 *
 * Two readings are corrected here and kept as written beside the
 * correction: the payload-free tags T/F/I/N are added through the `int`
 * overload of `addArgument` (ArgumentForTagAsWritten), and
 * `decode_bytes_to_long` shifts `int` values, which Java reduces modulo 32
 * (DecodeLongAsWritten).
 */
module OscReaderSpec {
  import opened JavaBytes
  import opened Wrappers
  import opened OscArgument
  import opened OscMatch
  import opened OscEncoding

  /** Four bytes from `s`, most significant first, as an unsigned value. */
  function Unsigned32(d: seq<int8>, s: int): (r: int)
    requires 0 <= s && s + 4 <= |d|
    ensures 0 <= r < TWO_32
  {
    Byte2Int(d[s]) * 0x100_0000 + Byte2Int(d[s + 1]) * 0x1_0000 + Byte2Int(d[s + 2]) * 0x100 + Byte2Int(d[s + 3])
  }

  /**
   * `decode_bytes_to_int(data, start, natural_order)`: four bytes,
   * big-endian in natural order and little-endian otherwise, as a signed
   * `int`; an index past the array throws.
   */
  function DecodeBytesToInt(d: seq<int8>, s: int, naturalOrder: bool): (r: Result<int>)
    ensures r.Ok? <==> 0 <= s && s + 4 <= |d|
    ensures r.Ok? ==> -TWO_31 <= r.value < TWO_31
  {
    if 0 <= s && s + 4 <= |d| then
      if naturalOrder then Ok(ToInt32(Unsigned32(d, s)))
      else Ok(ToInt32(Unsigned32([d[s + 3], d[s + 2], d[s + 1], d[s]], 0)))
    else Fault
  }

  /** The 64-bit pattern of eight bytes, most significant first (what `decode_bytes_to_long` means to read). */
  function Unsigned64(d: seq<int8>, s: int): (r: int)
    requires 0 <= s && s + 8 <= |d|
    ensures 0 <= r < TWO_32 * TWO_32
  {
    Unsigned32(d, s) * TWO_32 + Unsigned32(d, s + 4)
  }

  /**
   * `decode_bytes_to_long` in natural order as written: each `(b & 0xff) << n`
   * is an `int` shift, so 56, 48, 40 and 32 act as 24, 16, 8 and 0, the two
   * halves are OR-ed together, and the `int` result is sign-extended to `long`.
   */
  function DecodeLongAsWritten(d: seq<int8>, s: int): (r: int)
    requires 0 <= s && s + 8 <= |d|
    ensures -TWO_31 <= r < TWO_31
  {
    var hi := OrBytes(d[s], d[s + 4]) * 0x100_0000 + OrBytes(d[s + 1], d[s + 5]) * 0x1_0000;
    var lo := OrBytes(d[s + 2], d[s + 6]) * 0x100 + OrBytes(d[s + 3], d[s + 7]);
    ToInt32(hi + lo)
  }

  /** `(x & 0xff) | (y & 0xff)`. */
  function OrBytes(x: int8, y: int8): (r: int)
    ensures 0 <= r < TWO_8
  {
    ((Byte2Int(x) as bv8) | (Byte2Int(y) as bv8)) as int
  }

  /** `nextLocationOfChar`: the first index in [start, endindex) holding `test`, else endindex + 10. */
  function NextLocationOfChar(buf: seq<int8>, test: int8, start: int, endindex: int): (r: int)
    requires 0 <= start && endindex <= |buf|
    ensures r == endindex + 10 || (start <= r < endindex && buf[r] == test)
    ensures forall k :: start <= k < endindex && k < r ==> buf[k] != test
    decreases endindex - start
  {
    if start >= endindex then endindex + 10
    else if buf[start] == test then start
    else NextLocationOfChar(buf, test, start + 1, endindex)
  }

  /** Java's `i / 4` on an `int`, rounding toward zero. */
  function Quarter(i: int): int
  {
    if i >= 0 then i / 4 else -((-i) / 4)
  }

  /** `nextIndexForIndex`: the next multiple of 4 strictly after `i`. */
  function NextIndexForIndex(i: int): (r: int)
    ensures r % 4 == 0 && i < r
    ensures i >= 0 ==> r <= i + 4
  {
    (Quarter(i) + 1) * 4
  }

  /** `nextIndexForString`: the index after a string of `|s|` chars from `start`, NUL and padding included. */
  function NextIndexForString(s: string, start: int): (r: int)
    ensures start + |s| < r <= start + |s| + 4
    ensures (r - start) % 4 == 0
  {
    start + (|s| / 4 + 1) * 4
  }

  /** The argument a payload-free tag adds, through `addArgument(char)`: 'T', 'F', 'I' or 'N'. */
  function ArgumentForTag(tag: int8): (r: Argument)
    ensures TypeCode(r) >= 6 <==> ByteToChar(tag) in "TFIN"
  {
    FromTypeTag(ByteToChar(tag))
  }

  /**
   * As written: `addArgument(buffer[typeloc])` passes a `byte`, which Java
   * widens to `int`, so the `int` overload adds an int argument holding the
   * tag's code.
   */
  function ArgumentForTagAsWritten(tag: int8): (r: Argument)
    ensures r.IntArg? && r.i == tag as int
  {
    IntArg(tag as int)
  }

  function IsTag(tag: int8, c: char): bool
  {
    tag as int == c as int
  }

  /** How the argument loop ends. */
  datatype ArgsEnd =
    | ArgsDone(args: seq<Argument>, dataloc: int, failed: bool) // `failed`: outindex set to -1, message still added
    | UnknownTag                                               // `return -1`, message not added
    | ArgsThrew                                                // an index past the buffer

  /**
   * The argument loop of `processMessageAt`, from tag index `typeloc` and
   * data index `dataloc`, with the arguments read so far: it runs only while
   * 4 bytes of data are left before `endindex`, and stops at a NUL tag.
   */
  function ReadArguments(buf: seq<int8>, endindex: int, typeloc: int, dataloc: int, args: seq<Argument>): (r: ArgsEnd)
    requires 0 <= endindex <= |buf| && 0 <= dataloc
    ensures r.ArgsDone? ==> dataloc <= r.dataloc && |args| <= |r.args| && r.args[..|args|] == args
    decreases |buf| - typeloc
  {
    if dataloc + 4 > endindex then ArgsDone(args, dataloc, false)
    else if typeloc < 0 || typeloc >= |buf| then ArgsThrew
    else
      var tag := buf[typeloc];
      if tag == 0 then ArgsDone(args, dataloc, false)
      else if IsTag(tag, 'f') then
        ReadArguments(buf, endindex, typeloc + 1, dataloc + 4, args + [FloatArg(Unsigned32(buf, dataloc))])
      else if IsTag(tag, 'i') then
        ReadArguments(buf, endindex, typeloc + 1, dataloc + 4, args + [IntArg(ToInt32(Unsigned32(buf, dataloc)))])
      else if IsTag(tag, 'd') || IsTag(tag, 't') then
        if dataloc + 8 > |buf| then ArgsThrew
        else
          var a := FromDouble(Unsigned64(buf, dataloc), IsTag(tag, 't'));
          ReadArguments(buf, endindex, typeloc + 1, dataloc + 8, args + [a])
      else if IsTag(tag, 's') then
        var eos := NextLocationOfChar(buf, 0, dataloc, endindex);
        if eos <= endindex then
          ReadArguments(buf, endindex, typeloc + 1, NextIndexForIndex(eos), args + [StringArg(Latin1(buf[dataloc..eos]))])
        else ArgsDone(args, dataloc, true)
      else if IsTag(tag, 'b') then
        var dlen := ToInt32(Unsigned32(buf, dataloc));
        var d := dataloc + 4;
        if dlen > 0 then
          if dlen <= endindex - d then
            var pad := if dlen % 4 == 0 then 0 else 4 - dlen % 4;
            ReadArguments(buf, endindex, typeloc + 1, d + dlen + pad, args + [BlobArg(buf[d..d + dlen])])
          else ArgsDone(args, d, true)
        else ReadArguments(buf, endindex, typeloc + 1, d, args)
      else if IsTag(tag, 'T') || IsTag(tag, 'F') || IsTag(tag, 'I') || IsTag(tag, 'N') then
        ReadArguments(buf, endindex, typeloc + 1, dataloc, args + [ArgumentForTag(tag)])
      else UnknownTag
  }

  /** What `processMessageAt` returns and appends; `threw` when it raised an exception. */
  datatype Outcome = Outcome(next: int, found: seq<MessageValue>, threw: bool)

  /** The message branch: an address starting with '/' that ends (NUL) at `zeroloc`. */
  function ReadMessage(buf: seq<int8>, begin: int, endindex: int, zeroloc: int): (r: Outcome)
    requires 0 <= begin <= zeroloc && zeroloc + 4 < endindex <= |buf|
    ensures !r.threw && r.next != -1 ==> r.next > begin
  {
    var addr := Latin1(buf[begin..zeroloc]);
    var parts := AddressPatternStringToParts(addr);
    var typeloc := NextIndexForString(addr, begin);
    var dataloc := NextIndexForIndex(NextLocationOfChar(buf, 0, typeloc, endindex));
    if dataloc + 4 <= endindex then
      var t := if IsTag(buf[typeloc], ',') then typeloc + 1 else typeloc;
      match ReadArguments(buf, endindex, t, dataloc, [])
      case UnknownTag => Outcome(-1, [], false)
      case ArgsThrew => Outcome(-1, [], true)
      case ArgsDone(args, d, failed) => Outcome(if failed then -1 else d, [MessageValue(parts, args)], false)
    else Outcome(-1, if dataloc == endindex then [MessageValue(parts, [])] else [], false)
  }

  /**
   * `processMessageAt(buffer, begin, len)`: -1 when the message overruns the
   * buffer, when its address has no NUL with 4 bytes to spare, or when the
   * address neither starts with '/' nor is "#bundle"; otherwise the message
   * branch or the bundle loop.
   */
  function ProcessMessageAt(buf: seq<int8>, begin: int, len: int): (r: Outcome)
    requires 0 <= begin
    ensures !r.threw && r.next != -1 ==> r.next > begin
    decreases |buf| - begin, 1
  {
    var endindex := begin + len;
    if endindex > |buf| then Outcome(-1, [], false)
    else
      var zeroloc := NextLocationOfChar(buf, 0, begin, endindex);
      if zeroloc + 4 < endindex then
        var addr := Latin1(buf[begin..zeroloc]);
        if |addr| > 0 && addr[0] == '/' then ReadMessage(buf, begin, endindex, zeroloc)
        else if addr == "#bundle" then ReadBundle(buf, endindex, NextIndexForString(addr, begin) + 8, [])
        else Outcome(-1, [], false)
      else Outcome(-1, [], false)
  }

  /**
   * The bundle loop from `loc`: a 4-byte big-endian size, then the message
   * of that size read recursively; it stops on -1 or at or past `endindex`.
   */
  function ReadBundle(buf: seq<int8>, endindex: int, loc: int, found: seq<MessageValue>): (r: Outcome)
    requires 0 <= loc && endindex <= |buf|
    ensures !r.threw && r.next != -1 ==> r.next > loc
    ensures |found| <= |r.found| && r.found[..|found|] == found
    decreases |buf| - loc, 0
  {
    if loc + 4 > |buf| then Outcome(-1, found, true)
    else
      var size := ToInt32(Unsigned32(buf, loc));
      var o := ProcessMessageAt(buf, loc + 4, size);
      if o.threw then Outcome(-1, found + o.found, true)
      else if o.next == -1 || o.next >= endindex then Outcome(o.next, found + o.found, false)
      else ReadBundle(buf, endindex, o.next, found + o.found)
  }

  /** `parseBuffer(buffer, msglength)` from index `idx`: the messages collected, and whether it threw. */
  function ParseBufferFrom(buf: seq<int8>, msglength: int, idx: int, found: seq<MessageValue>): (r: (seq<MessageValue>, bool))
    decreases msglength - idx
  {
    if idx < 0 || idx >= msglength then (found, false)
    else
      var o := ProcessMessageAt(buf, idx, msglength);
      if o.threw then (found + o.found, true)
      else if o.next == -1 then (found + o.found, false)
      else ParseBufferFrom(buf, msglength, o.next, found + o.found)
  }

  function ParseBuffer(buf: seq<int8>, msglength: int): (seq<MessageValue>, bool)
  {
    ParseBufferFrom(buf, msglength, 0, [])
  }

  /*
   * Non-recursive names for the recursive functions above. Loops and
   * lemmas stated with them see one level of the recursion at a time and
   * take every further level from a step lemma, which keeps their proofs
   * small.
   */

  /** What `processMessageAt(s, begin, len)` returns and adds. */
  ghost function Processed(s: seq<int8>, begin: int, len: int): Outcome
    requires 0 <= begin
  {
    ProcessMessageAt(s, begin, len)
  }

  /** What the bundle loop from `loc` returns and adds, after `found`. */
  ghost function BundleFrom(s: seq<int8>, endindex: int, loc: int, found: seq<MessageValue>): Outcome
    requires 0 <= loc && endindex <= |s|
  {
    ReadBundle(s, endindex, loc, found)
  }

  /** How the argument loop from tag `typeloc` and data `dataloc` ends. */
  ghost function ArgsFrom(s: seq<int8>, endindex: int, typeloc: int, dataloc: int, args: seq<Argument>): ArgsEnd
    requires 0 <= endindex <= |s| && 0 <= dataloc
  {
    ReadArguments(s, endindex, typeloc, dataloc, args)
  }

  /** What the `parseBuffer` loop from `idx` adds after `found`, and whether it throws. */
  ghost function ParsedFrom(s: seq<int8>, msglength: int, idx: int, found: seq<MessageValue>): (seq<MessageValue>, bool)
  {
    ParseBufferFrom(s, msglength, idx, found)
  }
}
