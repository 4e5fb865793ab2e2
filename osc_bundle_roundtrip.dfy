/**
 * A bundle written by `LXOSCBundleMessage` and read by `LXOSCPacketReader`:
 * `parseBuffer` over the length the writer returns gives back the
 * sub-messages, in order.
 */
module OscBundleRoundTrip {
  import opened JavaBytes
  import opened OscArgument
  import opened OscEncoding
  import opened OscReaderSpec
  import opened OscReaderProperties
  import opened OscBundle
  import opened Wrappers
  import OscReaderSteps
  import OscReaderRoundTrip

  /** The bytes of each message, as its writer puts them down. */
  function Encodings(msgs: seq<MessageValue>): (r: seq<seq<int8>>)
    ensures |r| == |msgs|
    decreases |msgs|
  {
    if msgs == [] then [] else [Encode(msgs[0])] + Encodings(msgs[1..])
  }

  /** What the reader gives back for each message: its address and the arguments it keeps. */
  function ReadBack(msgs: seq<MessageValue>): (r: seq<MessageValue>)
    ensures |r| == |msgs|
    decreases |msgs|
  {
    if msgs == [] then [] else [ReadBackOf(msgs[0])] + ReadBack(msgs[1..])
  }

  function ReadBackOf(m: MessageValue): MessageValue
  {
    MessageValue(m.addressPattern, Kept(m.arguments))
  }

  /**
   * A message the bundle loop carries back and then goes on past: readable,
   * with an argument that has a payload (the reader returns -1 after a
   * message without one), and a size that is a positive `int`.
   */
  predicate BundleReadable(m: MessageValue)
  {
    && OscReaderRoundTrip.MessageReadable(m)
    && !NoPayload(m.arguments)
    && |Encode(m)| < TWO_31
  }

  lemma {:induction false} EncodeNonEmpty(m: MessageValue)
    ensures |Encode(m)| > 0
  {
    assert |EncodeAddress(m.addressPattern)| > 0;
  }

  lemma {:induction false} SliceOfSlice(buf: seq<int8>, a: int, b: int, i: int, j: int)
    requires 0 <= a <= b <= |buf| && 0 <= i <= j <= b - a
    ensures buf[a..b][i..j] == buf[a + i..a + j]
  {
    forall k | 0 <= k < j - i
      ensures buf[a..b][i..j][k] == buf[a + i..a + j][k]
    {
      assert buf[a..b][i..j][k] == buf[a..b][i + k] == buf[a + i + k];
    }
  }

  /** The first frame and the frames after it, as slices of the buffer. */
  lemma {:induction false} FrameSlices(buf: seq<int8>, loc: int, endindex: int, e: seq<int8>, encs: seq<seq<int8>>,
                                       d: int, next: int)
    requires 0 <= loc && endindex == loc + |Frames([e] + encs)| <= |buf|
    requires buf[loc..endindex] == Frames([e] + encs)
    requires d == loc + 4 && next == d + |e|
    ensures buf[loc..d] == BigEndian32(|e|) && buf[d..next] == e
    ensures next + |Frames(encs)| == endindex && buf[next..endindex] == Frames(encs)
  {
    assert ([e] + encs)[0] == e && ([e] + encs)[1..] == encs;
    var w := buf[loc..endindex];
    var h := BigEndian32(|e|);
    assert w == h + e + Frames(encs);
    assert w[..4] == h;
    assert w[4..4 + |e|] == e;
    assert w[4 + |e|..|w|] == Frames(encs);
    SliceOfSlice(buf, loc, endindex, 0, 4);
    SliceOfSlice(buf, loc, endindex, 4, 4 + |e|);
    SliceOfSlice(buf, loc, endindex, 4 + |e|, |w|);
  }

  /**
   * One turn of the bundle loop over a framed message at `loc`: the message
   * is read back, and the loop stops at the end of the frames or goes on at
   * the next frame.
   */
  lemma {:induction false} OneFrame(buf: seq<int8>, endindex: int, loc: int, m: MessageValue, found: seq<MessageValue>,
                                    d: int, next: int)
    requires BundleReadable(m) && 0 <= loc && Aligned(loc) && endindex <= |buf|
    requires d == loc + 4 && next == d + |Encode(m)| && next <= endindex
    requires buf[loc..d] == BigEndian32(|Encode(m)|) && buf[d..next] == Encode(m)
    ensures BundleFrom(buf, endindex, loc, found)
      == if next >= endindex then Outcome(next, found + [ReadBackOf(m)], false)
         else BundleFrom(buf, endindex, next, found + [ReadBackOf(m)])
  {
    IntWordAt(buf, loc, |Encode(m)|);
    AlignedSum(loc, 4);
    OscReaderRoundTrip.ProcessEncodedMessage(buf, d, m);
    OscReaderSteps.ReadBundleStep(buf, endindex, loc, found);
  }

  /**
   * The bundle loop over framed messages from an aligned `loc` up to the
   * end of the frames: every message read back, in order, ending at the end.
   */
  lemma {:induction false} ReadsFrames(buf: seq<int8>, endindex: int, loc: int, msgs: seq<MessageValue>, found: seq<MessageValue>)
    requires msgs != [] && forall k :: 0 <= k < |msgs| ==> BundleReadable(msgs[k])
    requires 0 <= loc && Aligned(loc)
    requires endindex == loc + |Frames(Encodings(msgs))| <= |buf|
    requires buf[loc..endindex] == Frames(Encodings(msgs))
    ensures BundleFrom(buf, endindex, loc, found) == Outcome(endindex, found + ReadBack(msgs), false)
    decreases |msgs|
  {
    var m := msgs[0];
    var rest := msgs[1..];
    var e := Encode(m);
    var d := loc + 4;
    var next := d + |e|;
    assert Encodings(msgs) == [e] + Encodings(rest);
    assert ReadBack(msgs) == [ReadBackOf(m)] + ReadBack(rest);
    FrameSlices(buf, loc, endindex, e, Encodings(rest), d, next);
    OneFrame(buf, endindex, loc, m, found, d, next);
    if rest != [] {
      assert forall k :: 0 <= k < |rest| ==> BundleReadable(rest[k]) by {
        forall k | 0 <= k < |rest| ensures BundleReadable(rest[k]) {
          assert rest[k] == msgs[k + 1];
        }
      }
      EncodeNonEmpty(rest[0]);
      assert Encodings(rest) == [Encode(rest[0])] + Encodings(rest[1..]);
      NextAligned(loc, m, d, next);
      ReadsFrames(buf, endindex, next, rest, found + [ReadBackOf(m)]);
      AppendFront(found, ReadBackOf(m), ReadBack(rest), ReadBack(msgs));
    }
  }

  lemma {:induction false} NextAligned(loc: int, m: MessageValue, d: int, next: int)
    requires Aligned(loc) && d == loc + 4 && next == d + |Encode(m)|
    ensures Aligned(next)
  {
    EncodeAligned(m);
    AlignedSum(loc, 4);
    AlignedSum(d, |Encode(m)|);
  }

  lemma {:induction false} AppendFront(found: seq<MessageValue>, x: MessageValue, rest: seq<MessageValue>, all: seq<MessageValue>)
    requires all == [x] + rest
    ensures found + [x] + rest == found + all
  {
  }

  /** The tag's chars are not zero, and its NUL is the first zero byte. */
  lemma {:induction false} TagReads(buf: seq<int8>, endindex: int)
    requires 8 <= endindex <= |buf| && buf[..8] == BundleTag()
    ensures NextLocationOfChar(buf, 0, 0, endindex) == 7
    ensures Latin1(buf[0..7]) == "#bundle"
  {
    var tag := "#bundle";
    forall k | 0 <= k < 7
      ensures buf[k] != 0
    {
      assert buf[k] == AsciiBytes(tag)[k];
      OscReaderRoundTrip.NonZeroByte(tag[k]);
    }
    assert buf[7] == 0;
    NextLocationAt(buf, 0, 0, endindex, 7);
    assert buf[0..7] == AsciiBytes(tag);
    Latin1AsciiRoundTrip(tag);
  }

  /** Aligned positions the reader and writer share. */
  lemma {:induction false} SixteenAligned()
    ensures Aligned(16)
  {
    assert Aligned(4) by {
      assert Aligned(0);
    }
    AlignedSum(4, 4);
    AlignedSum(8, 8);
  }

  /**
   * A bundle of messages at the start of a buffer: `parseBuffer` over its
   * length gives back every message, in order, without throwing.
   */
  lemma {:induction false} BundleReadsBack(buf: seq<int8>, time: int, msgs: seq<MessageValue>)
    requires msgs != [] && forall k :: 0 <= k < |msgs| ==> BundleReadable(msgs[k])
    requires |BundleBytes(time, Encodings(msgs))| <= |buf|
    requires buf[..|BundleBytes(time, Encodings(msgs))|] == BundleBytes(time, Encodings(msgs))
    ensures ParseBuffer(buf, |BundleBytes(time, Encodings(msgs))|) == (ReadBack(msgs), false)
  {
    var encs := Encodings(msgs);
    var b := BundleBytes(time, encs);
    var len := |b|;
    EncodeNonEmpty(msgs[0]);
    assert encs == [Encode(msgs[0])] + Encodings(msgs[1..]);
    assert |Frames(encs)| > 4;
    assert buf[..8] == b[..8] == BundleTag();
    assert buf[16..len] == b[16..] == Frames(encs);
    TagReads(buf, len);
    OscReaderSteps.BundleBranch(buf, 0, len, 7, 16);
    SixteenAligned();
    ReadsFrames(buf, len, 16, msgs, []);
    OscReaderSteps.ParseBufferStep(buf, len, 0, []);
    assert [] + ReadBack(msgs) == ReadBack(msgs);
  }

  /** The `k`-th encoding is the `k`-th message's bytes. */
  lemma {:induction false} EncodingsAt(msgs: seq<MessageValue>, k: int)
    requires 0 <= k < |msgs|
    ensures Encodings(msgs)[k] == Encode(msgs[k])
    decreases k
  {
    if k > 0 {
      EncodingsAt(msgs[1..], k - 1);
    }
  }

  /** Every message's bytes are non-empty. */
  lemma {:induction false} EncodingsNonEmpty(msgs: seq<MessageValue>)
    ensures forall k :: 0 <= k < |msgs| ==> |Encodings(msgs)[k]| > 0
  {
    forall k | 0 <= k < |msgs|
      ensures |Encodings(msgs)[k]| > 0
    {
      EncodingsAt(msgs, k);
      EncodeNonEmpty(msgs[k]);
    }
  }

  /**
   * What `addOSCMessageToBytes(buffer, 0)` writes for a bundle with room to
   * spare, `parseBuffer` reads back over the length it returns.
   */
  lemma {:induction false} WrittenBundleReadsBack(b0: seq<int8>, time: int, msgs: seq<MessageValue>)
    requires msgs != [] && forall k :: 0 <= k < |msgs| ==> BundleReadable(msgs[k])
    requires |BundleBytes(time, Encodings(msgs))| < |b0|
    ensures var encs := Encodings(msgs);
      && BundleResult(|b0|, 0, encs) == Ok(|BundleBytes(time, encs)|)
      && WrittenBundle(|b0|, 0, time, encs) == BundleBytes(time, encs)
      && ParseBuffer(Put(b0, 0, WrittenBundle(|b0|, 0, time, encs)), BundleResult(|b0|, 0, encs).value) == (ReadBack(msgs), false)
  {
    var encs := Encodings(msgs);
    var b := BundleBytes(time, encs);
    EncodingsNonEmpty(msgs);
    WholeWritten(|b0|, time, encs);
    PutWhole(b0, b);
    BundleReadsBack(Put(b0, 0, b), time, msgs);
  }

  /** A bundle with room to spare is written whole, and its length returned. */
  lemma {:induction false} WholeWritten(len: int, time: int, encs: seq<seq<int8>>)
    requires encs != [] && forall k :: 0 <= k < |encs| ==> |encs[k]| > 0
    requires |BundleBytes(time, encs)| < len
    ensures BundleResult(len, 0, encs) == Ok(|BundleBytes(time, encs)|)
    ensures WrittenBundle(len, 0, time, encs) == BundleBytes(time, encs)
  {
    BundleWrittenWhole(len, 0, time, encs);
    assert encs[..|encs|] == encs;
  }

  lemma {:induction false} PutWhole(b0: seq<int8>, b: seq<int8>)
    requires |b| <= |b0|
    ensures Put(b0, 0, b)[..|b|] == b
  {
  }
}
