/** Unfolding steps of the reader functions, stated once for the loops of OscReader. */
module OscReaderSteps {
  import opened JavaBytes
  import opened OscArgument
  import opened OscMatch
  import opened OscEncoding
  import opened OscReaderSpec

  lemma {:induction false} AppendAssoc<X>(a: seq<X>, b: seq<X>, c: seq<X>)
    ensures (a + b) + c == a + (b + c)
  {
  }

  /** What the message branch returns and adds once its argument loop has ended with `stop`. */
  function ArgsOutcome(parts: seq<string>, stop: ArgsEnd): Outcome
  {
    match stop
    case UnknownTag => Outcome(-1, [], false)
    case ArgsThrew => Outcome(-1, [], true)
    case ArgsDone(args, d, failed) => Outcome(if failed then -1 else d, [MessageValue(parts, args)], false)
  }

  /** The message branch, with its address, tag index and data index named. */
  lemma {:induction false} ReadMessageSteps(s: seq<int8>, begin: int, endindex: int, zeroloc: int, parts: seq<string>, typeloc: int, dataloc: int)
    requires 0 <= begin <= zeroloc && zeroloc + 4 < endindex <= |s|
    requires parts == AddressPatternStringToParts(Latin1(s[begin..zeroloc]))
    requires typeloc == NextIndexForString(Latin1(s[begin..zeroloc]), begin)
    requires dataloc == NextIndexForIndex(NextLocationOfChar(s, 0, typeloc, endindex))
    ensures ReadMessage(s, begin, endindex, zeroloc) ==
      if dataloc + 4 <= endindex then
        ArgsOutcome(parts, ArgsFrom(s, endindex, if IsTag(s[typeloc], ',') then typeloc + 1 else typeloc, dataloc, []))
      else Outcome(-1, if dataloc == endindex then [MessageValue(parts, [])] else [], false)
  {
  }

  /** `processMessageAt` on an address that starts with '/'. */
  lemma {:induction false} MessageBranch(s: seq<int8>, begin: int, len: int, zeroloc: int)
    requires 0 <= begin && begin + len <= |s|
    requires zeroloc == NextLocationOfChar(s, 0, begin, begin + len) && zeroloc + 4 < begin + len
    requires var addr := Latin1(s[begin..zeroloc]); |addr| > 0 && addr[0] == '/'
    ensures Processed(s, begin, len) == ReadMessage(s, begin, begin + len, zeroloc)
  {
  }

  /** `processMessageAt` on "#bundle": the bundle loop from the first size, 16 bytes on. */
  lemma {:induction false} BundleBranch(s: seq<int8>, begin: int, len: int, zeroloc: int, bundleloc: int)
    requires 0 <= begin && begin + len <= |s|
    requires zeroloc == NextLocationOfChar(s, 0, begin, begin + len) && zeroloc + 4 < begin + len
    requires Latin1(s[begin..zeroloc]) == "#bundle"
    requires bundleloc == NextIndexForString(Latin1(s[begin..zeroloc]), begin) + 8
    ensures bundleloc == begin + 16
    ensures Processed(s, begin, len) == BundleFrom(s, begin + len, bundleloc, [])
  {
    var addr := Latin1(s[begin..zeroloc]);
    assert |addr| == 7 && addr[0] == '#';
    assert NextIndexForString(addr, begin) + 8 == begin + 16;
  }

  /** `processMessageAt` returns -1 and adds nothing without a NUL 4 bytes before the end or with another address. */
  lemma {:induction false} RejectBranch(s: seq<int8>, begin: int, len: int, zeroloc: int)
    requires 0 <= begin && begin + len <= |s|
    requires zeroloc == NextLocationOfChar(s, 0, begin, begin + len)
    requires zeroloc + 4 < begin + len ==>
      var addr := Latin1(s[begin..zeroloc]); !(|addr| > 0 && addr[0] == '/') && addr != "#bundle"
    ensures Processed(s, begin, len) == Outcome(-1, [], false)
  {
  }

  /** `processMessageAt` on a buffer too short for `len` bytes returns -1 and adds nothing. */
  lemma {:induction false} OverrunBranch(s: seq<int8>, begin: int, len: int)
    requires 0 <= begin && begin + len > |s|
    ensures Processed(s, begin, len) == Outcome(-1, [], false)
  {
  }

  /** `next` and `threw` are what `o` returns, and `after` is `before` with what `o` found appended. */
  predicate Applied(o: Outcome, next: int, threw: bool, before: seq<MessageValue>, after: seq<MessageValue>)
  {
    next == o.next && threw == o.threw && after == before + o.found
  }

  /**
   * One turn of the bundle loop: the sub-message at `loc + 4` returned `next`
   * and `threw` and took `rpre` to `rpost`; what the loop then does.
   */
  lemma {:induction false} BundleAdvance(s: seq<int8>, endindex: int, loc: int, size: int, found: seq<MessageValue>, found': seq<MessageValue>,
                      r0: seq<MessageValue>, rpre: seq<MessageValue>, rpost: seq<MessageValue>, next: int, threw: bool)
    requires 0 <= loc && loc + 4 <= |s| && endindex <= |s|
    requires size == ToInt32(Unsigned32(s, loc))
    requires rpre == r0 + found
    requires Applied(Processed(s, loc + 4, size), next, threw, rpre, rpost)
    requires found' == found + Processed(s, loc + 4, size).found
    ensures rpost == r0 + found'
    ensures threw ==> BundleFrom(s, endindex, loc, found) == Outcome(-1, found', true)
    ensures !threw && (next == -1 || next >= endindex) ==> BundleFrom(s, endindex, loc, found) == Outcome(next, found', false)
    ensures !threw && !(next == -1 || next >= endindex) ==> next > loc && BundleFrom(s, endindex, loc, found) == BundleFrom(s, endindex, next, found')
  {
    ReadBundleStep(s, endindex, loc, found);
    AppendAssoc(r0, found, ProcessMessageAt(s, loc + 4, size).found);
  }

  /** One turn of the `parseBuffer` loop: the message at `idx` returned `next` and `threw` and took `rpre` to `rpost`. */
  lemma {:induction false} ParseAdvance(s: seq<int8>, msglength: int, idx: int, found: seq<MessageValue>, found': seq<MessageValue>,
                     r0: seq<MessageValue>, rpre: seq<MessageValue>, rpost: seq<MessageValue>, next: int, threw: bool)
    requires 0 <= idx < msglength
    requires rpre == r0 + found
    requires Applied(Processed(s, idx, msglength), next, threw, rpre, rpost)
    requires found' == found + Processed(s, idx, msglength).found
    ensures rpost == r0 + found'
    ensures threw ==> ParsedFrom(s, msglength, idx, found) == (found', true)
    ensures !threw ==> ParsedFrom(s, msglength, idx, found) == ParsedFrom(s, msglength, next, found')
  {
    ParseBufferStep(s, msglength, idx, found);
    AppendAssoc(r0, found, ProcessMessageAt(s, idx, msglength).found);
  }

  /** One turn of the `parseBuffer` loop. */
  lemma {:induction false} ParseBufferStep(s: seq<int8>, msglength: int, idx: int, found: seq<MessageValue>)
    requires 0 <= idx < msglength
    ensures var o := ProcessMessageAt(s, idx, msglength);
      ParseBufferFrom(s, msglength, idx, found)
        == if o.threw then (found + o.found, true)
           else if o.next == -1 then (found + o.found, false)
           else ParseBufferFrom(s, msglength, o.next, found + o.found)
  {
  }

  /** One turn of the bundle loop. */
  lemma {:induction false} ReadBundleStep(s: seq<int8>, endindex: int, loc: int, found: seq<MessageValue>)
    requires 0 <= loc && loc + 4 <= |s| && endindex <= |s|
    ensures var o := ProcessMessageAt(s, loc + 4, ToInt32(Unsigned32(s, loc)));
      ReadBundle(s, endindex, loc, found)
        == if o.threw then Outcome(-1, found + o.found, true)
           else if o.next == -1 || o.next >= endindex then Outcome(o.next, found + o.found, false)
           else ReadBundle(s, endindex, o.next, found + o.found)
  {
  }
}

/**
 * LXOSCPacketReader (lx4p) as the object it is: a list of results that
 * `parseBuffer` and `processMessageAt` append to while they walk a byte
 * array. Each method is proved against the function of OscReaderSpec that
 * says what it returns and appends; a Java exception is the `threw`
 * out-parameter, with the messages appended before it kept.
 */
module OscReader {
  import opened JavaBytes
  import opened OscArgument
  import opened OscMatch
  import opened OscEncoding
  import opened OscReaderSpec
  import opened OscReaderSteps

  /** How one turn of the argument loop ends: the loop goes on, or stops. */
  datatype Step = Next(dataloc: int, args: seq<Argument>) | Ended(end: ArgsEnd)

  class PacketReader {
    /** `_results`: the messages read so far, in order. */
    var results: seq<MessageValue>

    /** LXOSCPacketReader(): no messages. */
    constructor ()
      ensures results == []
    {
      results := [];
    }

    /** `nextLocationOfChar`: the first index in [start, endindex) holding `test`, else endindex + 10. */
    method NextLocationOfChar(buffer: seq<int8>, test: int8, start: int, endindex: int) returns (zeroloc: int)
      requires 0 <= start && endindex <= |buffer|
      ensures zeroloc == OscReaderSpec.NextLocationOfChar(buffer, test, start, endindex)
    {
      zeroloc := endindex + 10;
      var nn := start;
      while nn < endindex
        invariant start <= nn
        invariant start < endindex ==> nn <= endindex
        invariant OscReaderSpec.NextLocationOfChar(buffer, test, nn, endindex)
               == OscReaderSpec.NextLocationOfChar(buffer, test, start, endindex)
        decreases endindex - nn
      {
        if buffer[nn] == test {
          zeroloc := nn;
          return;
        }
        nn := nn + 1;
      }
    }

    /**
     * `parseBuffer(buffer, msglength)`: reads messages from index 0 while the
     * next index is in [0, msglength), each with `msglength` as its length.
     */
    method ParseBuffer(buffer: seq<int8>, msglength: int) returns (threw: bool)
      modifies this
      ensures results == old(results) + OscReaderSpec.ParseBuffer(buffer, msglength).0
      ensures threw == OscReaderSpec.ParseBuffer(buffer, msglength).1
    {
      var dataindex := 0;
      ghost var found: seq<MessageValue> := [];
      threw := false;
      while dataindex >= 0 && dataindex < msglength && !threw
        invariant results == old(results) + found
        invariant !threw ==> ParsedFrom(buffer, msglength, dataindex, found) == OscReaderSpec.ParseBuffer(buffer, msglength)
        invariant threw ==> (found, true) == OscReaderSpec.ParseBuffer(buffer, msglength)
        decreases if threw || dataindex < 0 || dataindex >= msglength then 0 else msglength - dataindex
      {
        ghost var pre := results;
        ghost var found' := found + Processed(buffer, dataindex, msglength).found;
        var next;
        next, threw := ProcessMessageAt(buffer, dataindex, msglength);
        ParseAdvance(buffer, msglength, dataindex, found, found', old(results), pre, results, next, threw);
        found := found';
        dataindex := next;
      }
    }

    /**
     * `processMessageAt(buffer, beginindex, bytelength)`: the index after
     * the message, or -1; appends the message, or every message of a bundle.
     */
    method ProcessMessageAt(buffer: seq<int8>, beginindex: int, bytelength: int) returns (outindex: int, threw: bool)
      requires 0 <= beginindex
      modifies this
      ensures Applied(Processed(buffer, beginindex, bytelength), outindex, threw, old(results), results)
      decreases |buffer| - beginindex, 3
    {
      var endindex := beginindex + bytelength;
      if endindex > |buffer| {
        OverrunBranch(buffer, beginindex, bytelength);
        return -1, false;
      }
      var zeroloc := NextLocationOfChar(buffer, 0, beginindex, endindex);
      if zeroloc + 4 < endindex {
        var addressPattern := Latin1(buffer[beginindex..zeroloc]);
        if |addressPattern| > 0 && addressPattern[0] == '/' {
          MessageBranch(buffer, beginindex, bytelength, zeroloc);
          outindex, threw := ProcessMessage(buffer, beginindex, bytelength, zeroloc);
        } else if addressPattern == "#bundle" {
          outindex, threw := ProcessBundle(buffer, beginindex, bytelength, zeroloc, addressPattern);
        } else {
          RejectBranch(buffer, beginindex, bytelength, zeroloc);
          outindex, threw := -1, false;
        }
      } else {
        RejectBranch(buffer, beginindex, bytelength, zeroloc);
        outindex, threw := -1, false;
      }
    }

    /** The message branch of `processMessageAt` (an address that starts with '/'): reads the message and adds it, if there is one. */
    method ProcessMessage(buffer: seq<int8>, beginindex: int, bytelength: int, zeroloc: int)
      returns (outindex: int, threw: bool)
      requires 0 <= beginindex && beginindex + bytelength <= |buffer|
      requires zeroloc == OscReaderSpec.NextLocationOfChar(buffer, 0, beginindex, beginindex + bytelength)
      requires zeroloc + 4 < beginindex + bytelength
      modifies this
      ensures Applied(OscReaderSpec.ReadMessage(buffer, beginindex, beginindex + bytelength, zeroloc), outindex, threw, old(results), results)
    {
      var message;
      outindex, threw, message := ReadMessage(buffer, beginindex, beginindex + bytelength, zeroloc);
      results := results + message;
    }

    /** The bundle branch of `processMessageAt`: the bundle loop from past "#bundle\0" and the time tag. */
    method ProcessBundle(buffer: seq<int8>, beginindex: int, bytelength: int, zeroloc: int, addressPattern: string)
      returns (outindex: int, threw: bool)
      requires 0 <= beginindex && beginindex + bytelength <= |buffer|
      requires zeroloc == OscReaderSpec.NextLocationOfChar(buffer, 0, beginindex, beginindex + bytelength)
      requires zeroloc + 4 < beginindex + bytelength
      requires addressPattern == Latin1(buffer[beginindex..zeroloc]) == "#bundle"
      modifies this
      ensures Applied(Processed(buffer, beginindex, bytelength), outindex, threw, old(results), results)
      decreases |buffer| - beginindex, 2
    {
      var bundleloc := NextIndexForString(addressPattern, beginindex) + 8;
      BundleBranch(buffer, beginindex, bytelength, zeroloc, bundleloc);
      outindex, threw := ReadBundle(buffer, beginindex + bytelength, bundleloc);
    }

    /**
     * The message branch of `processMessageAt`, with its argument loop: the
     * index it returns, whether it threw, and the message it adds (none or one).
     */
    method ReadMessage(buffer: seq<int8>, beginindex: int, endindex: int, zeroloc: int)
      returns (outindex: int, threw: bool, message: seq<MessageValue>)
      requires 0 <= beginindex <= zeroloc && zeroloc + 4 < endindex <= |buffer|
      ensures Outcome(outindex, message, threw) == OscReaderSpec.ReadMessage(buffer, beginindex, endindex, zeroloc)
      ensures |message| <= 1
    {
      var addressPattern := Latin1(buffer[beginindex..zeroloc]);
      var parts := AddressPatternStringToParts(addressPattern);
      var typeloc := NextIndexForString(addressPattern, beginindex);
      var eot := NextLocationOfChar(buffer, 0, typeloc, endindex);
      var dataloc := NextIndexForIndex(eot);
      ReadMessageSteps(buffer, beginindex, endindex, zeroloc, parts, typeloc, dataloc);
      outindex, threw, message := ReadMessageData(buffer, endindex, parts, typeloc, dataloc);
    }

    /**
     * The message branch once the address parts, the type tag index and the
     * data index are known: the arguments when 4 data bytes remain, else -1
     * and a message without arguments when the data index is the end.
     */
    method ReadMessageData(buffer: seq<int8>, endindex: int, parts: seq<string>, typeloc0: int, dataloc: int)
      returns (outindex: int, threw: bool, message: seq<MessageValue>)
      requires 0 <= typeloc0 < endindex <= |buffer| && 0 <= dataloc
      ensures Outcome(outindex, message, threw) ==
        if dataloc + 4 <= endindex then
          ArgsOutcome(parts, ArgsFrom(buffer, endindex, if IsTag(buffer[typeloc0], ',') then typeloc0 + 1 else typeloc0, dataloc, []))
        else Outcome(-1, if dataloc == endindex then [MessageValue(parts, [])] else [], false)
      ensures |message| <= 1
    {
      var typeloc := typeloc0;
      message := [];
      outindex, threw := 0, false;
      if dataloc + 4 <= endindex {
        if IsTag(buffer[typeloc], ',') {
          typeloc := typeloc + 1;
        }
        var stop := ReadArgumentsFrom(buffer, endindex, typeloc, dataloc);
        outindex, threw, message := EndMessage(parts, stop);
      } else {
        outindex := -1;
        if dataloc == endindex {
          message := [MessageValue(parts, [])];
        }
      }
    }

    /**
     * After the argument loop: an unknown tag returns -1 and adds nothing,
     * an exception adds nothing, otherwise the message is added and the
     * index is the data index reached, or -1 when a string or blob was cut off.
     */
    method EndMessage(parts: seq<string>, stop: ArgsEnd) returns (outindex: int, threw: bool, message: seq<MessageValue>)
      ensures Outcome(outindex, message, threw) == ArgsOutcome(parts, stop)
    {
      outindex, threw, message := 0, false, [];
      match stop
      case ArgsThrew =>
        outindex, threw := -1, true;
      case UnknownTag =>
        outindex := -1;
      case ArgsDone(args, last, failed) =>
        message := [MessageValue(parts, args)];
        outindex := if failed then -1 else last;
    }

    /**
     * The argument loop: reads tags from `typeloc0` and data from `dataloc0`
     * while 4 data bytes remain before `endindex` and no tag ended it.
     */
    method ReadArgumentsFrom(buffer: seq<int8>, endindex: int, typeloc0: int, dataloc0: int) returns (stop: ArgsEnd)
      requires 0 <= endindex <= |buffer| && 0 <= dataloc0
      ensures stop == ArgsFrom(buffer, endindex, typeloc0, dataloc0, [])
    {
      var args: seq<Argument> := [];
      var typeloc, dataloc := typeloc0, dataloc0;
      while dataloc + 4 <= endindex
        invariant 0 <= dataloc
        invariant ArgsFrom(buffer, endindex, typeloc, dataloc, args) == ArgsFrom(buffer, endindex, typeloc0, dataloc0, [])
        decreases |buffer| - typeloc
      {
        var step := ReadArgument(buffer, endindex, typeloc, dataloc, args);
        if step.Ended? {
          return step.end;
        }
        typeloc, dataloc, args := typeloc + 1, step.dataloc, step.args;
      }
      stop := ArgsDone(args, dataloc, false);
    }

    /**
     * One turn of the argument loop, at tag `typeloc` and data `dataloc`
     * with 4 data bytes left: the next data index and arguments, or how the
     * loop ends (a NUL tag or a truncated string or blob ends it with the
     * arguments read, an unknown tag returns -1, an index past the array
     * throws).
     */
    method ReadArgument(buffer: seq<int8>, endindex: int, typeloc: int, dataloc: int, args: seq<Argument>) returns (step: Step)
      requires 0 <= dataloc && dataloc + 4 <= endindex <= |buffer|
      ensures step.Next? ==> 0 <= typeloc < |buffer| && 0 <= step.dataloc
      ensures step.Next? ==>
        ArgsFrom(buffer, endindex, typeloc, dataloc, args) == ArgsFrom(buffer, endindex, typeloc + 1, step.dataloc, step.args)
      ensures step.Ended? ==> ArgsFrom(buffer, endindex, typeloc, dataloc, args) == step.end
    {
      if typeloc < 0 || typeloc >= |buffer| {
        return Ended(ArgsThrew);
      }
      var tag := buffer[typeloc];
      if tag == 0 {
        step := Ended(ArgsDone(args, dataloc, false));
      } else if IsTag(tag, 'f') {
        step := Next(dataloc + 4, args + [FloatArg(Unsigned32(buffer, dataloc))]);
      } else if IsTag(tag, 'i') {
        step := Next(dataloc + 4, args + [IntArg(ToInt32(Unsigned32(buffer, dataloc)))]);
      } else if IsTag(tag, 'd') || IsTag(tag, 't') {
        if dataloc + 8 > |buffer| {
          return Ended(ArgsThrew);
        }
        step := Next(dataloc + 8, args + [FromDouble(Unsigned64(buffer, dataloc), IsTag(tag, 't'))]);
      } else if IsTag(tag, 's') {
        var endofstr := NextLocationOfChar(buffer, 0, dataloc, endindex);
        if endofstr <= endindex {
          step := Next(NextIndexForIndex(endofstr), args + [StringArg(Latin1(buffer[dataloc..endofstr]))]);
        } else {
          step := Ended(ArgsDone(args, dataloc, true));
        }
      } else if IsTag(tag, 'b') {
        var dlen := ToInt32(Unsigned32(buffer, dataloc));
        var d := dataloc + 4;
        if dlen > 0 {
          if dlen <= endindex - d {
            var rlen := dlen % 4;
            rlen := if rlen == 0 then 0 else 4 - rlen;
            step := Next(d + dlen + rlen, args + [BlobArg(buffer[d..d + dlen])]);
          } else {
            step := Ended(ArgsDone(args, d, true));
          }
        } else {
          step := Next(d, args);
        }
      } else if IsTag(tag, 'T') || IsTag(tag, 'F') || IsTag(tag, 'I') || IsTag(tag, 'N') {
        step := Next(dataloc, args + [ArgumentForTag(tag)]);
      } else {
        step := Ended(UnknownTag);
      }
    }

    /**
     * The bundle loop of `processMessageAt` from `bundleloc`: a 4-byte
     * big-endian size, then the message of that size read recursively,
     * until -1 or an index at or past `endindex`.
     */
    method ReadBundle(buffer: seq<int8>, endindex: int, bundleloc0: int) returns (outindex: int, threw: bool)
      requires 0 <= bundleloc0 && endindex <= |buffer|
      modifies this
      ensures Applied(BundleFrom(buffer, endindex, bundleloc0, []), outindex, threw, old(results), results)
      decreases |buffer| - bundleloc0, 1
    {
      var bundleloc := bundleloc0;
      ghost var found: seq<MessageValue> := [];
      var bundleDone := false;
      outindex, threw := -1, false;
      while !bundleDone
        invariant bundleloc0 <= bundleloc
        invariant results == old(results) + found
        invariant !bundleDone ==> BundleFrom(buffer, endindex, bundleloc, found) == BundleFrom(buffer, endindex, bundleloc0, [])
        invariant bundleDone ==> Outcome(outindex, found, threw) == BundleFrom(buffer, endindex, bundleloc0, [])
        decreases if bundleDone then 0 else 1, |buffer| - bundleloc
      {
        if bundleloc + 4 > |buffer| {
          // the size read runs off the end of the buffer
          outindex, threw, bundleDone := -1, true, true;
        } else {
          var next;
          ghost var found';
          next, threw, found' := ReadBundleElement(buffer, endindex, bundleloc, found, old(results));
          found := found';
          if threw {
            outindex, bundleDone := -1, true;
          } else if next == -1 || next >= endindex {
            outindex, bundleDone := next, true;
          } else {
            bundleloc := next;
          }
        }
      }
    }

    /**
     * One turn of the bundle loop at `bundleloc`: reads the size and the
     * message of that size after it, and says how the loop goes on.
     */
    method ReadBundleElement(buffer: seq<int8>, endindex: int, bundleloc: int, ghost found: seq<MessageValue>, ghost r0: seq<MessageValue>)
      returns (next: int, threw: bool, ghost found': seq<MessageValue>)
      requires 0 <= bundleloc && bundleloc + 4 <= |buffer| && endindex <= |buffer|
      requires results == r0 + found
      modifies this
      ensures results == r0 + found'
      ensures threw ==> BundleFrom(buffer, endindex, bundleloc, found) == Outcome(-1, found', true)
      ensures !threw && (next == -1 || next >= endindex) ==> BundleFrom(buffer, endindex, bundleloc, found) == Outcome(next, found', false)
      ensures !threw && !(next == -1 || next >= endindex) ==>
        next > bundleloc && BundleFrom(buffer, endindex, bundleloc, found) == BundleFrom(buffer, endindex, next, found')
      decreases |buffer| - bundleloc, 0
    {
      var bundleMessageSize := ToInt32(Unsigned32(buffer, bundleloc));
      ghost var pre := results;
      found' := found + Processed(buffer, bundleloc + 4, bundleMessageSize).found;
      next, threw := ProcessMessageAt(buffer, bundleloc + 4, bundleMessageSize);
      BundleAdvance(buffer, endindex, bundleloc, bundleMessageSize, found, found', r0, pre, results, next, threw);
    }
  }
}
