/**
 * A message the lx4p serialiser writes, read back by the lx4p packet
 * reader: the address parts come back, and so do the arguments, less the
 * ones `Kept` drops.
 */
module OscReaderRoundTrip {
  import opened JavaBytes
  import opened OscArgument
  import opened OscMatch
  import opened OscEncoding
  import opened OscReaderSpec
  import opened OscReaderProperties
  import OscMatchProperties
  import OscEncodingProperties
  import OscReaderSteps

  /** Address parts the reader can split back: non-empty, no '/', chars in 1..255. */
  predicate PartsReadable(parts: seq<string>)
  {
    && parts != []
    && (forall i :: 0 <= i < |parts| ==> parts[i] != [] && '/' !in parts[i])
    && (forall i, j :: 0 <= i < |parts| && 0 <= j < |parts[i]| ==> 0 < parts[i][j] as int < TWO_8)
  }

  /** A message the reader can carry back whole. */
  predicate MessageReadable(m: MessageValue)
  {
    && PartsReadable(m.addressPattern)
    && forall k :: 0 <= k < |m.arguments| ==> Readable(m.arguments[k])
  }

  /** Every char of a joined address is in 1..255. */
  lemma {:induction false} JoinedChars(parts: seq<string>)
    requires forall i, j :: 0 <= i < |parts| && 0 <= j < |parts[i]| ==> 0 < parts[i][j] as int < TWO_8
    ensures forall k :: 0 <= k < |JoinParts(parts)| ==> 0 < JoinParts(parts)[k] as int < TWO_8
    decreases |parts|
  {
    if parts != [] {
      var rest := parts[1..];
      assert forall i, j :: 0 <= i < |rest| && 0 <= j < |rest[i]| ==> rest[i][j] == parts[i + 1][j];
      JoinedChars(rest);
      var p, r := parts[0], JoinParts(rest);
      assert JoinParts(parts) == "/" + p + r;
      forall k | 0 <= k < |JoinParts(parts)|
        ensures 0 < JoinParts(parts)[k] as int < TWO_8
      {
        if k == 0 {
        } else if k <= |p| {
          assert JoinParts(parts)[k] == parts[0][k - 1];
        } else {
          assert JoinParts(parts)[k] == r[k - 1 - |p|];
        }
      }
    }
  }

  /** A char in 1..255 narrows to a non-zero byte. */
  lemma {:induction false} NonZeroByte(c: char)
    requires 0 < c as int < TWO_8
    ensures CharToByte(c) != 0
  {
    SmallByte(c as int);
  }

  /** The bytes of the address: its chars, none of them zero, then a NUL. */
  lemma {:induction false} AddressBytes(buf: seq<int8>, begin: int, parts: seq<string>)
    requires forall i, j :: 0 <= i < |parts| && 0 <= j < |parts[i]| ==> 0 < parts[i][j] as int < TWO_8
    requires var e := EncodeAddress(parts);
      0 <= begin && begin + |e| <= |buf| && buf[begin..begin + |e|] == e
    ensures var bs := AsciiBytes(JoinParts(parts));
      && begin + |bs| < |buf| && buf[begin + |bs|] == 0
      && buf[begin..begin + |bs|] == bs
      && forall k :: begin <= k < begin + |bs| ==> buf[k] != 0
  {
    var a := JoinParts(parts);
    var bs := AsciiBytes(a);
    var e := EncodeAddress(parts);
    JoinedChars(parts);
    forall k | begin <= k < begin + |bs|
      ensures buf[k] != 0
    {
      assert buf[k] == e[k - begin] == bs[k - begin];
      NonZeroByte(a[k - begin]);
    }
    assert buf[begin + |bs|] == e[|bs|] == 0;
    assert buf[begin..begin + |bs|] == bs;
  }

  /**
   * The address is read back: its NUL is the first from `begin`, its chars
   * come back, and splitting them gives the parts.
   */
  lemma {:induction false} ReadsAddress(buf: seq<int8>, begin: int, zeroloc: int, typeloc: int, endindex: int, parts: seq<string>)
    requires PartsReadable(parts) && 0 <= begin && zeroloc == begin + |JoinParts(parts)|
    requires typeloc == begin + |EncodeAddress(parts)| && typeloc < endindex <= |buf|
    requires buf[begin..typeloc] == EncodeAddress(parts)
    ensures zeroloc == NextLocationOfChar(buf, 0, begin, endindex)
    ensures Latin1(buf[begin..zeroloc]) == JoinParts(parts)
    ensures AddressPatternStringToParts(JoinParts(parts)) == parts
  {
    var a := JoinParts(parts);
    AddressBytes(buf, begin, parts);
    NextLocationAt(buf, 0, begin, endindex, zeroloc);
    JoinedChars(parts);
    Latin1AsciiRoundTrip(a);
    OscMatchProperties.PartsOfJoinedAddress(parts);
  }

  /** Every type tag is an ASCII char that narrows to itself. */
  lemma {:induction false} TagNarrows(a: Argument)
    ensures IsTag(CharToByte(TypeTag(a)), TypeTag(a)) && CharToByte(TypeTag(a)) != 0
  {
    SmallByte(TypeTag(a) as int);
  }

  /** The bytes of the type-tag string: ',' and the tags, none of them zero, then a NUL. */
  lemma {:induction false} TypeTagBytes(buf: seq<int8>, typeloc: int, dataloc: int, args: seq<Argument>)
    requires 0 <= typeloc && dataloc == typeloc + |EncodeTypeTags(args)| && dataloc <= |buf|
    requires buf[typeloc..dataloc] == EncodeTypeTags(args)
    ensures |EncodeTypeTags(args)| == Pad4(|args| + 2)
    ensures typeloc + |args| + 1 < |buf| && buf[typeloc + |args| + 1] == 0
    ensures IsTag(buf[typeloc], ',') && buf[typeloc] != 0
    ensures forall k :: 0 <= k < |args| ==> IsTag(buf[typeloc + 1 + k], TypeTag(args[k]))
    ensures forall k :: typeloc < k <= typeloc + |args| ==> buf[k] != 0
  {
    var t := [CharToByte(',')] + TagBytes(args);
    var e := EncodeTypeTags(args);
    SmallByte(',' as int);
    assert buf[typeloc] == e[0] == t[0];
    forall k | 0 <= k < |args|
      ensures IsTag(buf[typeloc + 1 + k], TypeTag(args[k])) && buf[typeloc + 1 + k] != 0
    {
      assert buf[typeloc + 1 + k] == e[1 + k] == t[1 + k];
      TagNarrows(args[k]);
    }
    forall k | typeloc < k <= typeloc + |args|
      ensures buf[k] != 0
    {
      assert buf[k] == e[k - typeloc] == t[k - typeloc];
      TagNarrows(args[k - typeloc - 1]);
    }
    assert buf[typeloc + |t|] == e[|t|] == 0;
  }

  /**
   * The type-tag string is read back: its NUL is the first from `typeloc`,
   * and the data start right after its padding.
   */
  lemma {:induction false} ReadsTypeTags(buf: seq<int8>, typeloc: int, dataloc: int, endindex: int, args: seq<Argument>)
    requires 0 <= typeloc && Aligned(typeloc) && dataloc == typeloc + Pad4(|args| + 2) && dataloc <= endindex <= |buf|
    requires typeloc + |args| + 1 < |buf| && buf[typeloc + |args| + 1] == 0 && buf[typeloc] != 0
    requires forall k :: typeloc < k <= typeloc + |args| ==> buf[k] != 0
    ensures NextIndexForIndex(NextLocationOfChar(buf, 0, typeloc, endindex)) == dataloc
  {
    var z := typeloc + |args| + 1;
    NextLocationAt(buf, 0, typeloc, endindex, z);
    NextIndexForIndexIsPadded(z);
    OscEncodingProperties.Pad4Shift(typeloc, |args| + 2);
  }

  /** Three pieces written one after another can be sliced back out. */
  lemma {:induction false} SliceThree(buf: seq<int8>, begin: int, t: int, d: int, e: int, x: seq<int8>, y: seq<int8>, z: seq<int8>)
    requires 0 <= begin && t == begin + |x| && d == t + |y| && e == d + |z| <= |buf|
    requires buf[begin..e] == x + y + z
    ensures buf[begin..t] == x && buf[t..d] == y && buf[d..e] == z
  {
    var w := buf[begin..e];
    assert buf[begin..t] == w[..|x|];
    forall k | 0 <= k < |y|
      ensures buf[t..d][k] == y[k]
    {
      assert buf[t..d][k] == w[|x| + k] == (x + y + z)[|x| + k];
    }
    assert buf[d..e] == w[|x| + |y|..];
  }

  /** The three pieces of an encoded message in the buffer. */
  lemma {:induction false} MessageSlices(buf: seq<int8>, begin: int, m: MessageValue, typeloc: int, dataloc: int, endindex: int)
    requires 0 <= begin && endindex == begin + |Encode(m)| <= |buf| && buf[begin..endindex] == Encode(m)
    requires typeloc == begin + |EncodeAddress(m.addressPattern)| && dataloc == typeloc + |EncodeTypeTags(m.arguments)|
    ensures endindex == dataloc + |EncodeArguments(m.arguments)|
    ensures buf[begin..typeloc] == EncodeAddress(m.addressPattern)
    ensures buf[typeloc..dataloc] == EncodeTypeTags(m.arguments)
    ensures buf[dataloc..endindex] == EncodeArguments(m.arguments)
  {
    SliceThree(buf, begin, typeloc, dataloc, endindex,
      EncodeAddress(m.addressPattern), EncodeTypeTags(m.arguments), EncodeArguments(m.arguments));
  }

  /** The tags after the ',' and the data after the type-tag string hold the arguments. */
  lemma {:induction false} HoldsAfterTags(buf: seq<int8>, typeloc: int, dataloc: int, endindex: int, args: seq<Argument>)
    requires 0 <= typeloc && typeloc + |args| < dataloc && Aligned(dataloc)
    requires dataloc + |EncodeArguments(args)| == endindex <= |buf|
    requires forall k :: 0 <= k < |args| ==> IsTag(buf[typeloc + 1 + k], TypeTag(args[k]))
    requires buf[dataloc..endindex] == EncodeArguments(args)
    ensures Holds(buf, endindex, typeloc + 1, dataloc, args)
  {
  }

  /** With some payload, the argument loop runs over the data and ends at the message end. */
  lemma {:induction false} ReadsPayload(buf: seq<int8>, typeloc: int, dataloc: int, endindex: int, args: seq<Argument>)
    requires Holds(buf, endindex, typeloc + 1, dataloc, args)
    requires forall k :: 0 <= k < |args| ==> Readable(args[k])
    requires !NoPayload(args)
    ensures dataloc + 4 <= endindex
    ensures ReadArguments(buf, endindex, typeloc + 1, dataloc, []) == ArgsDone(Kept(args), endindex, false)
  {
    var k :| 0 <= k < |args| && HasPayload(args[k]);
    PayloadSomeBytes(args, k);
    ReadsEncodedArguments(buf, endindex, typeloc + 1, dataloc, args, []);
    assert [] + Kept(args) == Kept(args);
  }

  /**
   * What the message branch finds of the address: its NUL at `zeroloc`, the
   * first from `begin`; a leading '/'; the parts; and the type-tag string
   * at `typeloc`, after the address padding.
   */
  predicate AddressLaidOut(buf: seq<int8>, begin: int, zeroloc: int, typeloc: int, endindex: int, parts: seq<string>)
  {
    && 0 <= begin <= zeroloc < typeloc && typeloc + 4 <= endindex <= |buf|
    && zeroloc == NextLocationOfChar(buf, 0, begin, endindex)
    && |Latin1(buf[begin..zeroloc])| > 0 && Latin1(buf[begin..zeroloc])[0] == '/'
    && AddressPatternStringToParts(Latin1(buf[begin..zeroloc])) == parts
    && NextIndexForString(Latin1(buf[begin..zeroloc]), begin) == typeloc
  }

  /**
   * What the message branch finds of the type tags: ',' at `typeloc`, the
   * data at `dataloc`, after the type-tag padding, and the arguments held
   * from there to the message end.
   */
  predicate TagsLaidOut(buf: seq<int8>, typeloc: int, dataloc: int, endindex: int, args: seq<Argument>)
  {
    && 0 <= typeloc && typeloc + 4 <= dataloc <= endindex <= |buf|
    && IsTag(buf[typeloc], ',')
    && NextIndexForIndex(NextLocationOfChar(buf, 0, typeloc, endindex)) == dataloc
    && Holds(buf, endindex, typeloc + 1, dataloc, args)
  }

  /** A joined address starts with '/', and its string is padded past its NUL. */
  lemma {:induction false} AddressLength(parts: seq<string>)
    requires parts != []
    ensures |JoinParts(parts)| > 0 && JoinParts(parts)[0] == '/'
    ensures |EncodeAddress(parts)| == Pad4(|JoinParts(parts)| + 1)
  {
    assert JoinParts(parts) == "/" + parts[0] + JoinParts(parts[1..]);
  }

  /** The address read back, and where the type-tag string starts after it. */
  lemma {:induction false} AddressStage(buf: seq<int8>, begin: int, zeroloc: int, typeloc: int, endindex: int, parts: seq<string>)
    requires parts != [] && 0 <= begin && zeroloc == begin + |JoinParts(parts)|
    requires typeloc == begin + |EncodeAddress(parts)| && typeloc + 4 <= endindex <= |buf|
    requires zeroloc == NextLocationOfChar(buf, 0, begin, endindex)
    requires Latin1(buf[begin..zeroloc]) == JoinParts(parts)
    requires AddressPatternStringToParts(JoinParts(parts)) == parts
    ensures AddressLaidOut(buf, begin, zeroloc, typeloc, endindex, parts)
  {
    NextIndexForStringIsPadded(JoinParts(parts), begin);
    AddressLength(parts);
  }

  /** Where the reader's indices land in an encoded message. */
  lemma {:induction false} MessageLayout(buf: seq<int8>, begin: int, zeroloc: int, typeloc: int, dataloc: int, endindex: int,
                                         parts: seq<string>, args: seq<Argument>)
    requires PartsReadable(parts)
    requires 0 <= begin && Aligned(begin) && zeroloc == begin + |JoinParts(parts)|
    requires typeloc == begin + |EncodeAddress(parts)| && dataloc == typeloc + |EncodeTypeTags(args)|
    requires endindex == dataloc + |EncodeArguments(args)| <= |buf|
    requires buf[begin..typeloc] == EncodeAddress(parts)
    requires buf[typeloc..dataloc] == EncodeTypeTags(args)
    requires buf[dataloc..endindex] == EncodeArguments(args)
    ensures AddressLaidOut(buf, begin, zeroloc, typeloc, endindex, parts)
    ensures TagsLaidOut(buf, typeloc, dataloc, endindex, args)
  {
    AddressAligned(parts);
    AlignedSum(begin, |EncodeAddress(parts)|);
    TagsStage(buf, typeloc, dataloc, endindex, args);
    ReadsAddress(buf, begin, zeroloc, typeloc, endindex, parts);
    AddressStage(buf, begin, zeroloc, typeloc, endindex, parts);
  }

  /** The type-tag string and the data read back. */
  lemma {:induction false} TagsStage(buf: seq<int8>, typeloc: int, dataloc: int, endindex: int, args: seq<Argument>)
    requires 0 <= typeloc && Aligned(typeloc) && dataloc == typeloc + |EncodeTypeTags(args)|
    requires dataloc + |EncodeArguments(args)| == endindex <= |buf|
    requires buf[typeloc..dataloc] == EncodeTypeTags(args)
    requires buf[dataloc..endindex] == EncodeArguments(args)
    ensures TagsLaidOut(buf, typeloc, dataloc, endindex, args)
  {
    TypeTagBytes(buf, typeloc, dataloc, args);
    ReadsTypeTags(buf, typeloc, dataloc, endindex, args);
    TypeTagsAligned(args);
    AlignedSum(typeloc, |EncodeTypeTags(args)|);
    HoldsAfterTags(buf, typeloc, dataloc, endindex, args);
  }

  /** The message branch when the argument loop reads the arguments up to the end. */
  lemma {:induction false} ReadMessageWithArguments(buf: seq<int8>, begin: int, endindex: int, zeroloc: int, typeloc: int, dataloc: int,
                                 parts: seq<string>, args: seq<Argument>)
    requires 0 <= begin <= zeroloc && zeroloc + 4 < endindex <= |buf|
    requires AddressPatternStringToParts(Latin1(buf[begin..zeroloc])) == parts
    requires NextIndexForString(Latin1(buf[begin..zeroloc]), begin) == typeloc
    requires 0 <= typeloc < |buf| && IsTag(buf[typeloc], ',')
    requires NextIndexForIndex(NextLocationOfChar(buf, 0, typeloc, endindex)) == dataloc
    requires 0 <= dataloc && dataloc + 4 <= endindex
    requires ReadArguments(buf, endindex, typeloc + 1, dataloc, []) == ArgsDone(args, endindex, false)
    ensures ReadMessage(buf, begin, endindex, zeroloc) == Outcome(endindex, [MessageValue(parts, args)], false)
  {
  }

  /** The message branch when the type-tag string ends the message. */
  lemma {:induction false} ReadMessageWithoutArguments(buf: seq<int8>, begin: int, endindex: int, zeroloc: int, typeloc: int,
                                    parts: seq<string>)
    requires 0 <= begin <= zeroloc && zeroloc + 4 < endindex <= |buf|
    requires AddressPatternStringToParts(Latin1(buf[begin..zeroloc])) == parts
    requires NextIndexForString(Latin1(buf[begin..zeroloc]), begin) == typeloc
    requires NextIndexForIndex(NextLocationOfChar(buf, 0, typeloc, endindex)) == endindex
    ensures ReadMessage(buf, begin, endindex, zeroloc) == Outcome(-1, [MessageValue(parts, [])], false)
  {
  }

  /** The message branch, given where its indices land. */
  lemma {:induction false} ReadMessageOfLayout(buf: seq<int8>, begin: int, endindex: int, zeroloc: int, typeloc: int, dataloc: int,
                            parts: seq<string>, args: seq<Argument>)
    requires AddressLaidOut(buf, begin, zeroloc, typeloc, endindex, parts)
    requires TagsLaidOut(buf, typeloc, dataloc, endindex, args)
    requires forall k :: 0 <= k < |args| ==> Readable(args[k])
    ensures ReadMessage(buf, begin, endindex, zeroloc)
      == Outcome(if NoPayload(args) then -1 else endindex, [MessageValue(parts, Kept(args))], false)
  {
    if NoPayload(args) {
      NoPayloadNoBytes(args);
      ReadMessageWithoutArguments(buf, begin, endindex, zeroloc, typeloc, parts);
    } else {
      ReadsPayload(buf, typeloc, dataloc, endindex, args);
      ReadMessageWithArguments(buf, begin, endindex, zeroloc, typeloc, dataloc, parts, Kept(args));
    }
  }

  /** `processMessageAt` returns what the message branch returns, for an address that starts with '/'. */
  lemma {:induction false} MessageBranchReads(buf: seq<int8>, begin: int, len: int, zeroloc: int, typeloc: int,
                                              parts: seq<string>, o: Outcome)
    requires AddressLaidOut(buf, begin, zeroloc, typeloc, begin + len, parts)
    requires ReadMessage(buf, begin, begin + len, zeroloc) == o
    ensures Processed(buf, begin, len) == o
  {
    OscReaderSteps.MessageBranch(buf, begin, len, zeroloc);
  }

  /** `processMessageAt` over a message whose address and type tags are laid out. */
  lemma {:induction false} ProcessLaidOut(buf: seq<int8>, begin: int, len: int, endindex: int, zeroloc: int, typeloc: int,
                                          dataloc: int, parts: seq<string>, args: seq<Argument>)
    requires endindex == begin + len
    requires AddressLaidOut(buf, begin, zeroloc, typeloc, endindex, parts)
    requires TagsLaidOut(buf, typeloc, dataloc, endindex, args)
    requires forall k :: 0 <= k < |args| ==> Readable(args[k])
    ensures Processed(buf, begin, len)
      == Outcome(if NoPayload(args) then -1 else endindex, [MessageValue(parts, Kept(args))], false)
  {
    ReadMessageOfLayout(buf, begin, endindex, zeroloc, typeloc, dataloc, parts, args);
    MessageBranchReads(buf, begin, len, zeroloc, typeloc, parts,
      Outcome(if NoPayload(args) then -1 else endindex, [MessageValue(parts, Kept(args))], false));
  }

  /** `processMessageAt` over an address, type tags and data written one after another. */
  lemma {:induction false} ProcessPieces(buf: seq<int8>, begin: int, len: int, endindex: int, zeroloc: int, typeloc: int,
                                         dataloc: int, parts: seq<string>, args: seq<Argument>)
    requires PartsReadable(parts) && forall k :: 0 <= k < |args| ==> Readable(args[k])
    requires 0 <= begin && Aligned(begin) && zeroloc == begin + |JoinParts(parts)|
    requires typeloc == begin + |EncodeAddress(parts)| && dataloc == typeloc + |EncodeTypeTags(args)|
    requires endindex == begin + len == dataloc + |EncodeArguments(args)| <= |buf|
    requires buf[begin..typeloc] == EncodeAddress(parts)
    requires buf[typeloc..dataloc] == EncodeTypeTags(args)
    requires buf[dataloc..endindex] == EncodeArguments(args)
    ensures Processed(buf, begin, len)
      == Outcome(if NoPayload(args) then -1 else endindex, [MessageValue(parts, Kept(args))], false)
  {
    MessageLayout(buf, begin, zeroloc, typeloc, dataloc, endindex, parts, args);
    ProcessLaidOut(buf, begin, len, endindex, zeroloc, typeloc, dataloc, parts, args);
  }

  /**
   * `processMessageAt` on an encoded message: the parts and the kept
   * arguments are recorded; the index returned is the message end, or -1
   * when no argument has a payload.
   */
  lemma {:induction false} ProcessEncodedMessage(buf: seq<int8>, begin: int, m: MessageValue)
    requires MessageReadable(m)
    requires 0 <= begin && Aligned(begin)
    requires begin + |Encode(m)| <= |buf| && buf[begin..begin + |Encode(m)|] == Encode(m)
    ensures Processed(buf, begin, |Encode(m)|)
      == Outcome(if NoPayload(m.arguments) then -1 else begin + |Encode(m)|,
                 [MessageValue(m.addressPattern, Kept(m.arguments))], false)
  {
    var typeloc := begin + |EncodeAddress(m.addressPattern)|;
    var dataloc := typeloc + |EncodeTypeTags(m.arguments)|;
    MessageSlices(buf, begin, m, typeloc, dataloc, begin + |Encode(m)|);
    ProcessPieces(buf, begin, |Encode(m)|, begin + |Encode(m)|, begin + |JoinParts(m.addressPattern)|, typeloc, dataloc,
      m.addressPattern, m.arguments);
  }

  /** `parseBuffer` stops after a first message that ends the packet or returns -1. */
  lemma {:induction false} ParseSingleMessage(buf: seq<int8>, msglength: int, found: seq<MessageValue>)
    requires msglength > 0
    requires Processed(buf, 0, msglength) == Outcome(-1, found, false)
          || Processed(buf, 0, msglength) == Outcome(msglength, found, false)
    ensures ParseBuffer(buf, msglength) == (found, false)
  {
    assert [] + found == found;
    assert ParseBufferFrom(buf, msglength, msglength, found) == (found, false);
  }

  /**
   * `parseBuffer` over exactly one encoded message finds that message,
   * with the arguments `Kept` keeps, and nothing else.
   */
  lemma {:induction false} ParseEncodedMessage(buf: seq<int8>, m: MessageValue)
    requires MessageReadable(m)
    requires |Encode(m)| <= |buf| && buf[..|Encode(m)|] == Encode(m)
    ensures ParseBuffer(buf, |Encode(m)|) == ([MessageValue(m.addressPattern, Kept(m.arguments))], false)
  {
    assert buf[0..|Encode(m)|] == buf[..|Encode(m)|];
    ProcessEncodedMessage(buf, 0, m);
    ParseSingleMessage(buf, |Encode(m)|, [MessageValue(m.addressPattern, Kept(m.arguments))]);
  }

  /** Every argument comes back when none is an empty blob and the last one has a payload. */
  lemma {:induction false} ParseEncodedMessageWhole(buf: seq<int8>, m: MessageValue)
    requires MessageReadable(m)
    requires forall k :: 0 <= k < |m.arguments| ==> m.arguments[k] != BlobArg([])
    requires m.arguments == [] || HasPayload(m.arguments[|m.arguments| - 1])
    requires |Encode(m)| <= |buf| && buf[..|Encode(m)|] == Encode(m)
    ensures ParseBuffer(buf, |Encode(m)|) == ([m], false)
  {
    ParseEncodedMessage(buf, m);
    KeptAll(m.arguments);
  }

  /**
   * What `addOSCMessageToBytes` writes into a buffer with room to spare,
   * `parseBuffer` reads back over the length it returns.
   */
  lemma {:induction false} WrittenMessageReadsBack(m: MessageValue, buf: seq<int8>)
    requires MessageReadable(m)
    requires |buf| > |Encode(m)| + 4
    ensures WriteMessage(m, buf).Ok?
    ensures var (written, len) := WriteMessage(m, buf).value;
      ParseBuffer(written, len) == ([MessageValue(m.addressPattern, Kept(m.arguments))], false)
  {
    OscEncodingProperties.WriteMessageWithRoom(m, buf);
    var written := Put(buf, 0, Encode(m));
    assert written[..|Encode(m)|] == Encode(m);
    ParseEncodedMessage(written, m);
  }
}
