/**
 * `LXOSCBundleMessage.addOSCMessageToBytes(buffer, si)`: the `#bundle`
 * envelope written into the caller's buffer. The header is "#bundle", a
 * NUL and the 64-bit timetag; each sub-message follows as a 4-byte
 * big-endian size and its bytes. The clock reading becomes the `time`
 * parameter, and each sub-message is given by the bytes its own writer
 * puts down.
 */
module OscBundle {
  import opened JavaBytes
  import opened Wrappers
  import opened OscEncoding
  import OscEncodingProperties
  import OscMessage

  /** "#bundle" and its NUL. */
  function BundleTag(): (r: seq<int8>)
    ensures |r| == 8
  {
    AsciiBytes("#bundle") + [0]
  }

  /** The sub-messages as framed in a bundle: each one's size, big-endian, then its bytes. */
  function Frames(encs: seq<seq<int8>>): seq<int8>
    decreases |encs|
  {
    if encs == [] then [] else BigEndian32(|encs[0]|) + encs[0] + Frames(encs[1..])
  }

  /** The whole bundle: tag, timetag, framed sub-messages. */
  function BundleBytes(time: int, encs: seq<seq<int8>>): seq<int8>
  {
    BundleTag() + BigEndian64(time) + Frames(encs)
  }

  /**
   * Whether a sub-message whose frame starts at `at` is written: its writer
   * fails (-1) once the message would reach the buffer end, and an empty
   * message has the non-positive size 0.
   */
  predicate Fits(len: int, at: int, e: seq<int8>)
  {
    0 < |e| && at + 4 + |e| < len
  }

  /** How many leading sub-messages are written, framing from `at`. */
  function Written(len: int, at: int, encs: seq<seq<int8>>): (n: nat)
    ensures n <= |encs|
    decreases |encs|
  {
    if encs == [] || !Fits(len, at, encs[0]) then 0
    else 1 + Written(len, at + 4 + |encs[0]|, encs[1..])
  }

  /**
   * What the loop returns, framing from `at` with `last` the value of `t`:
   * the end of the last message, or the non-positive `t - s` of the first
   * one that is not written.
   */
  function Returned(len: int, at: int, last: int, encs: seq<seq<int8>>): int
    decreases |encs|
  {
    if encs == [] then last
    else if Fits(len, at, encs[0]) then Returned(len, at + 4 + |encs[0]|, at + 4 + |encs[0]|, encs[1..])
    else if at + 4 + |encs[0]| >= len then -1 - (at + 4)
    else 0
  }

  /**
   * What `addOSCMessageToBytes(buffer, si)` returns: a fault when the
   * 16 header bytes do not fit, otherwise the loop's value.
   */
  function BundleResult(len: int, si: int, encs: seq<seq<int8>>): Result<int>
  {
    if si < 0 || si + 16 > len then Fault else Ok(Returned(len, si + 16, si + 20, encs))
  }

  /** The bundle of the sub-messages that are written. */
  function WrittenBundle(len: int, si: int, time: int, encs: seq<seq<int8>>): seq<int8>
  {
    BundleBytes(time, encs[..Written(len, si + 16, encs)])
  }

  // ---- Framing facts ----

  lemma {:induction false} FramesAppend(xs: seq<seq<int8>>, e: seq<int8>)
    ensures Frames(xs + [e]) == Frames(xs) + BigEndian32(|e|) + e
    decreases |xs|
  {
    if xs == [] {
      assert [e][1..] == [];
    } else {
      assert (xs + [e])[1..] == xs[1..] + [e];
      FramesAppend(xs[1..], e);
    }
  }

  /** Writing `y` just before `x` gives the two written together. */
  lemma {:induction false} PutBefore(buf: seq<int8>, at: int, y: seq<int8>, x: seq<int8>)
    requires 0 <= at && at + |y| + |x| <= |buf|
    ensures Put(Put(buf, at + |y|, x), at, y) == Put(buf, at, y + x)
  {
    var w := Put(Put(buf, at + |y|, x), at, y);
    var v := Put(buf, at, y + x);
    assert forall j :: 0 <= j < |buf| ==> w[j] == v[j];
  }

  /** Once the header fits, each written sub-message takes its size slot and its bytes. */
  lemma {:induction false} FramesLength(encs: seq<seq<int8>>)
    ensures |Frames(encs)| == 4 * |encs| + Sum(encs)
    decreases |encs|
  {
    if encs != [] {
      FramesLength(encs[1..]);
    }
  }

  /** The total length of the sub-messages. */
  function Sum(encs: seq<seq<int8>>): nat
    decreases |encs|
  {
    if encs == [] then 0 else |encs[0]| + Sum(encs[1..])
  }

  // ---- The writer ----

  /**
   * One sub-message's `addOSCMessageToBytes(buffer, s)`: its bytes at `s`
   * and the index after them, or -1 and nothing written once it would reach
   * the buffer end.
   */
  method WriteSubMessage(buffer: array<int8>, s: int, e: seq<int8>) returns (t: int)
    requires 0 <= s
    modifies buffer
    ensures s + |e| < buffer.Length ==> t == s + |e| && buffer[..] == Put(old(buffer[..]), s, e)
    ensures s + |e| >= buffer.Length ==> t == -1 && buffer[..] == old(buffer[..])
  {
    if s + |e| >= buffer.Length {
      return -1;
    }
    OscMessage.WriteBytes(buffer, s, e);
    t := s + |e|;
  }

  /** Four bytes of `v`, most significant first, ending just before `s`: the size slots and the timetag halves. */
  method WriteBigEndian32(buffer: array<int8>, s: int, v: int)
    requires 4 <= s <= buffer.Length
    modifies buffer
    ensures buffer[..] == Put(old(buffer[..]), s - 4, BigEndian32(v))
  {
    ghost var b0 := buffer[..];
    buffer[s - 4] := ToByte(v / 0x100_0000);
    buffer[s - 3] := ToByte(v / 0x1_0000);
    buffer[s - 2] := ToByte(v / 0x100);
    buffer[s - 1] := ToByte(v);
    OscMessage.PutBytewise(b0, s - 4, BigEndian32(v), buffer[..]);
  }

  /** "#bundle" and its NUL from `si`. */
  method WriteTag(buffer: array<int8>, si: int)
    requires 0 <= si && si + 8 <= buffer.Length
    modifies buffer
    ensures buffer[..] == Put(old(buffer[..]), si, BundleTag())
  {
    ghost var b0 := buffer[..];
    OscMessage.WriteChars(buffer, si, "#bundle");
    ghost var b1 := buffer[..];
    buffer[si + 7] := 0;
    assert buffer[..] == Put(b1, si + 7, [0]);
    OscEncodingProperties.PutPut(b0, si, AsciiBytes("#bundle"), [0]);
  }

  /** The tag and the timetag, 16 bytes from `si`. */
  method WriteHeader(buffer: array<int8>, si: int, time: int)
    requires 0 <= si && si + 16 <= buffer.Length
    modifies buffer
    ensures buffer[..] == Put(old(buffer[..]), si, BundleTag() + BigEndian64(time))
  {
    ghost var b0 := buffer[..];
    WriteTag(buffer, si);
    ghost var b1 := buffer[..];
    WriteBigEndian32(buffer, si + 12, time / TWO_32);
    ghost var b2 := buffer[..];
    WriteBigEndian32(buffer, si + 16, time);
    OscEncodingProperties.PutPut(b1, si + 8, BigEndian32(time / TWO_32), BigEndian32(time));
    OscEncodingProperties.PutPut(b0, si, BundleTag(), BigEndian64(time));
  }

  /** The framing state after one more sub-message: where the next frame starts, and the buffer so far. */
  lemma {:induction false} FrameStep(b0: seq<int8>, si: int, time: int, written: seq<seq<int8>>, e: seq<int8>,
                                     at: int, s: int, size: int, b1: seq<int8>, b2: seq<int8>, b3: seq<int8>)
    requires 0 <= si && at == si + 16 + |Frames(written)| && s == at + 4 && size == |e| && s + size <= |b0|
    requires b1 == Put(b0, si, BundleBytes(time, written))
    requires b2 == Put(b1, s, e) && b3 == Put(b2, at, BigEndian32(size))
    ensures s + size == si + 16 + |Frames(written + [e])|
    ensures b3 == Put(b0, si, BundleBytes(time, written + [e]))
  {
    FramesAppend(written, e);
    var f := BigEndian32(|e|) + e;
    PutBefore(b1, at, BigEndian32(|e|), e);
    assert |BundleBytes(time, written)| == at - si;
    OscEncodingProperties.PutPut(b0, si, BundleBytes(time, written), f);
    assert BundleBytes(time, written) + f == BundleBytes(time, written + [e]);
  }

  /** The loop's state one sub-message further on: the value and count still to come. */
  lemma {:induction false} LoopStep(len: int, si: int, encs: seq<seq<int8>>, done: seq<seq<int8>>, pending: seq<seq<int8>>,
                                    e: seq<int8>, at: int, last: int, t: int, done': seq<seq<int8>>, pending': seq<seq<int8>>)
    requires done + pending == encs && pending != [] && e == pending[0]
    requires done' == done + [e] && pending' == pending[1..]
    requires Fits(len, at, e) && t == at + 4 + |e|
    requires Returned(len, si + 16, si + 20, encs) == Returned(len, at, last, pending)
    requires Written(len, si + 16, encs) == |done| + Written(len, at, pending)
    ensures done' + pending' == encs
    ensures Returned(len, si + 16, si + 20, encs) == Returned(len, t, t, pending')
    ensures Written(len, si + 16, encs) == |done'| + Written(len, t, pending')
  {
    assert done' + pending' == done + pending;
  }

  /** Where the loop leaves off, the value returned and the sub-messages framed so far. */
  lemma {:induction false} LoopExit(len: int, si: int, time: int, encs: seq<seq<int8>>, done: seq<seq<int8>>, pending: seq<seq<int8>>,
                                    at: int, last: int, value: int)
    requires 0 <= si && si + 16 <= len
    requires done + pending == encs
    requires Returned(len, si + 16, si + 20, encs) == Returned(len, at, last, pending)
    requires Written(len, si + 16, encs) == |done| + Written(len, at, pending)
    requires pending == [] ==> value == last
    requires pending != [] ==> !Fits(len, at, pending[0]) && value == if at + 4 + |pending[0]| >= len then -1 - (at + 4) else 0
    ensures BundleResult(len, si, encs) == Ok(value)
    ensures WrittenBundle(len, si, time, encs) == BundleBytes(time, done)
  {
    assert encs[..|done|] == done;
  }

  /**
   * One turn of the loop: the sub-message written at `s` and its size in
   * the slot before it. When it is written, the buffer holds the bundle
   * one sub-message longer.
   */
  method FrameNext(buffer: array<int8>, ghost b0: seq<int8>, si: int, ghost time: int, ghost done: seq<seq<int8>>,
                   e: seq<int8>, s: int) returns (t: int)
    requires 0 <= si && s == si + 20 + |Frames(done)| && s - 4 <= buffer.Length == |b0|
    requires buffer[..] == Put(b0, si, BundleBytes(time, done))
    modifies buffer
    ensures Fits(buffer.Length, s - 4, e) ==> && t == s + |e| && t + 4 == si + 20 + |Frames(done + [e])|
                                              && buffer[..] == Put(b0, si, BundleBytes(time, done + [e]))
    ensures !Fits(buffer.Length, s - 4, e) ==> && buffer[..] == old(buffer[..])
                                               && t - s == if s + |e| >= buffer.Length then -1 - s else 0
  {
    ghost var b1 := buffer[..];
    t := WriteSubMessage(buffer, s, e);
    var msgsize := t - s;
    if msgsize <= 0 {
      if t != -1 {
        OscEncodingProperties.PutNothing(b1, s);
      }
      return;
    }
    ghost var b2 := buffer[..];
    WriteBigEndian32(buffer, s, msgsize);
    FrameStep(b0, si, time, done, e, s - 4, s, msgsize, b1, b2, buffer[..]);
  }

  /**
   * `addOSCMessageToBytes(buffer, si)`. Its value is BundleResult; the
   * buffer holds, from `si`, the bundle of the sub-messages written (all of
   * them unless one fails) and nothing else changes.
   */
  method AddBundleToBytes(buffer: array<int8>, si: int, time: int, encs: seq<seq<int8>>) returns (r: Result<int>)
    modifies buffer
    ensures r == BundleResult(buffer.Length, si, encs)
    ensures r.Ok? ==> && si + |WrittenBundle(buffer.Length, si, time, encs)| <= buffer.Length
                      && buffer[..] == Put(old(buffer[..]), si, WrittenBundle(buffer.Length, si, time, encs))
  {
    if si < 0 || si + 16 > buffer.Length {
      return Fault;
    }
    ghost var b0 := buffer[..];
    ghost var len := buffer.Length;
    WriteHeader(buffer, si, time);
    ghost var done: seq<seq<int8>> := [];
    var pending := encs;
    var s := si + 20;
    var t := s;
    while pending != []
      invariant done + pending == encs
      invariant s == si + 20 + |Frames(done)| && s - 4 <= len
      invariant t == (if done == [] then si + 20 else s - 4)
      invariant buffer[..] == Put(b0, si, BundleBytes(time, done))
      invariant Returned(len, si + 16, si + 20, encs) == Returned(len, s - 4, t, pending)
      invariant Written(len, si + 16, encs) == |done| + Written(len, s - 4, pending)
      decreases |pending|
    {
      ghost var at := s - 4;
      ghost var last := t;
      var e := pending[0];
      t := FrameNext(buffer, b0, si, time, done, e, s);
      var msgsize := t - s;
      if msgsize <= 0 {
        LoopExit(len, si, time, encs, done, pending, at, last, msgsize);
        return Ok(msgsize);
      }
      ghost var done' := done + [e];
      var pending' := pending[1..];
      LoopStep(len, si, encs, done, pending, e, at, last, t, done', pending');
      done, pending := done', pending';
      s := t + 4;
    }
    LoopExit(len, si, time, encs, done, pending, s - 4, t, t);
    return Ok(t);
  }

  // ---- Properties ----

  /**
   * With room for every sub-message (none empty), all of them are written
   * and the value returned is the index just past the bundle; an empty list
   * still returns `si + 20`, four bytes past the header.
   */
  lemma {:induction false} AllWritten(len: int, at: int, last: int, encs: seq<seq<int8>>)
    requires 0 <= at
    requires forall k :: 0 <= k < |encs| ==> |encs[k]| > 0
    requires at + |Frames(encs)| < len
    ensures Written(len, at, encs) == |encs|
    ensures Returned(len, at, last, encs) == if encs == [] then last else at + |Frames(encs)|
    decreases |encs|
  {
    if encs != [] {
      var e := encs[0];
      var rest := encs[1..];
      assert Frames(encs) == BigEndian32(|e|) + e + Frames(rest);
      assert forall k :: 0 <= k < |rest| ==> |rest[k]| > 0 by {
        forall k | 0 <= k < |rest| ensures |rest[k]| > 0 {
          assert rest[k] == encs[k + 1];
        }
      }
      AllWritten(len, at + 4 + |e|, at + 4 + |e|, rest);
    }
  }

  /**
   * The bundle with room to spare: written whole from `si`, and the value
   * returned is `si` plus its length.
   */
  lemma {:induction false} BundleWrittenWhole(len: int, si: int, time: int, encs: seq<seq<int8>>)
    requires 0 <= si && encs != []
    requires forall k :: 0 <= k < |encs| ==> |encs[k]| > 0
    requires si + |BundleBytes(time, encs)| < len
    ensures Written(len, si + 16, encs) == |encs|
    ensures BundleResult(len, si, encs) == Ok(si + |BundleBytes(time, encs)|)
  {
    AllWritten(len, si + 16, si + 20, encs);
  }

  /** A sub-message that reaches the buffer end stops the loop with `-1 - s`, a negative value. */
  lemma {:induction false} OverflowIsNegative(len: int, si: int, encs: seq<seq<int8>>)
    requires 0 <= si && si + 16 <= len
    requires Written(len, si + 16, encs) < |encs|
    ensures BundleResult(len, si, encs).value <= 0
  {
    RestNonPositive(len, si + 16, si + 20, encs);
  }

  lemma {:induction false} RestNonPositive(len: int, at: int, last: int, encs: seq<seq<int8>>)
    requires 0 <= at && Written(len, at, encs) < |encs|
    ensures Returned(len, at, last, encs) <= 0
    decreases |encs|
  {
    if Fits(len, at, encs[0]) {
      RestNonPositive(len, at + 4 + |encs[0]|, at + 4 + |encs[0]|, encs[1..]);
    }
  }
}
