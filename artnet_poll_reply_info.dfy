/**
 * LXArtNetPollReplyInfo: the fields a controller reads out of an ArtPollReply
 * packet (node names, sender address, port count, port 1 universe and its
 * output flag). The getters of the Java class are the fields of `Info`.
 */
module ArtNetPollReplyInfo {
  import opened Wrappers
  import opened JavaBytes
  import opened DmxInterface

  /** Offset of the NUL-terminated short name in an ArtPollReply. */
  const SHORT_NAME_OFFSET: int := 26
  /** Offset of the NUL-terminated long name in an ArtPollReply. */
  const LONG_NAME_OFFSET: int := 44
  /** The offset the constructor actually copies both names from. */
  const COPY_OFFSET_AS_WRITTEN: int := 33
  /** Offsets of the port count, the port 1 output flags and the port 1 universe. */
  const PORTS_OFFSET: int := 173
  const PORT1_FLAGS_OFFSET: int := 174
  const PORT1_UNIVERSE_OFFSET: int := 190

  datatype Info = Info(
    nodeNameShort: string,
    nodeNameLong: string,
    nodeAddress: InetAddress,
    ports: int,
    port1Universe: int,
    port1CanOutput: bool)

  /** Where a name starting at `start` ends: the first zero byte at or after `start`, or the buffer end. */
  function NameEnd(buf: seq<int8>, start: nat): (z: int)
    requires start <= |buf|
    ensures start <= z <= |buf|
    ensures z == |buf| || buf[z] == 0
    ensures forall k :: start <= k < z ==> buf[k] != 0
    decreases |buf| - start
  {
    if start == |buf| || buf[start] == 0 then start else NameEnd(buf, start + 1)
  }

  /** A name whose terminator is at `z` ends there. */
  lemma {:induction false} NameEndAt(buf: seq<int8>, start: nat, z: nat)
    requires start <= z < |buf| && buf[z] == 0
    requires forall k :: start <= k < z ==> buf[k] != 0
    ensures NameEnd(buf, start) == z
  {
  }

  /** `(b & 0x80) == 0x80 && (b & 0x3f) == 0`: only the bytes 0x80 and 0xC0 pass. */
  function CanOutput(b: int8): (r: bool)
    ensures r <==> (b == -128 || b == -64)
  {
    var u := Byte2Int(b);
    (u / 0x80) % 2 == 1 && u % 0x40 == 0
  }

  /** The fields read from a poll reply, with each name copied from its own offset. */
  function ParseInfo(buf: seq<int8>, sender: InetAddress): Info
    requires |buf| > PORT1_UNIVERSE_OFFSET
  {
    var zs := NameEnd(buf, SHORT_NAME_OFFSET);
    var zl := NameEnd(buf, LONG_NAME_OFFSET);
    Info(Latin1(buf[SHORT_NAME_OFFSET..zs]), Latin1(buf[LONG_NAME_OFFSET..zl]), sender,
         buf[PORTS_OFFSET] as int, buf[PORT1_UNIVERSE_OFFSET] as int, CanOutput(buf[PORT1_FLAGS_OFFSET]))
  }

  /**
   * The fields as the constructor reads them: both names are copied from
   * offset 33 up to their terminator, and a short name ending before 33 makes
   * `Arrays.copyOfRange` throw.
   */
  function ParseInfoAsWritten(buf: seq<int8>, sender: InetAddress): (r: Result<Info>)
    requires |buf| > PORT1_UNIVERSE_OFFSET
    ensures r.Fault? <==> NameEnd(buf, SHORT_NAME_OFFSET) < COPY_OFFSET_AS_WRITTEN
  {
    var zs := NameEnd(buf, SHORT_NAME_OFFSET);
    var zl := NameEnd(buf, LONG_NAME_OFFSET);
    if zs < COPY_OFFSET_AS_WRITTEN then Fault
    else Ok(Info(Latin1(buf[COPY_OFFSET_AS_WRITTEN..zs]), Latin1(buf[COPY_OFFSET_AS_WRITTEN..zl]), sender,
                 buf[PORTS_OFFSET] as int, buf[PORT1_UNIVERSE_OFFSET] as int, CanOutput(buf[PORT1_FLAGS_OFFSET])))
  }

  /** The `while` scan for a name terminator. */
  method ScanNameEnd(buf: seq<int8>, start: nat) returns (z: int)
    requires start <= |buf|
    ensures start <= z <= |buf|
    ensures z == |buf| || buf[z] == 0
    ensures forall k :: start <= k < z ==> buf[k] != 0
    ensures z == NameEnd(buf, start)
  {
    z := start;
    while z < |buf| && buf[z] != 0
      invariant start <= z <= |buf|
      invariant NameEnd(buf, z) == NameEnd(buf, start)
      invariant forall k :: start <= k < z ==> buf[k] != 0
    {
      z := z + 1;
    }
  }

  /** The constructor with each name read from its own offset. */
  method Decode(buf: seq<int8>, sender: InetAddress) returns (info: Info)
    requires |buf| > PORT1_UNIVERSE_OFFSET
    ensures info == ParseInfo(buf, sender)
  {
    var z := ScanNameEnd(buf, SHORT_NAME_OFFSET);
    var shortName := Latin1(buf[SHORT_NAME_OFFSET..z]);
    z := ScanNameEnd(buf, LONG_NAME_OFFSET);
    var longName := Latin1(buf[LONG_NAME_OFFSET..z]);
    info := Info(shortName, longName, sender, buf[PORTS_OFFSET] as int, buf[PORT1_UNIVERSE_OFFSET] as int,
                 CanOutput(buf[PORT1_FLAGS_OFFSET]));
  }

  /** The constructor as written: both copies start at offset 33. */
  method DecodeAsWritten(buf: seq<int8>, sender: InetAddress) returns (r: Result<Info>)
    requires |buf| > PORT1_UNIVERSE_OFFSET
    ensures r == ParseInfoAsWritten(buf, sender)
  {
    var z := ScanNameEnd(buf, SHORT_NAME_OFFSET);
    if z < COPY_OFFSET_AS_WRITTEN {
      return Fault;
    }
    var shortName := Latin1(buf[COPY_OFFSET_AS_WRITTEN..z]);
    z := ScanNameEnd(buf, LONG_NAME_OFFSET);
    var longName := Latin1(buf[COPY_OFFSET_AS_WRITTEN..z]);
    r := Ok(Info(shortName, longName, sender, buf[PORTS_OFFSET] as int, buf[PORT1_UNIVERSE_OFFSET] as int,
                 CanOutput(buf[PORT1_FLAGS_OFFSET])));
  }

  /**
   * Both names are NUL-free, lie within the buffer, and the port fields are
   * the signed bytes at 173 and 190.
   */
  lemma {:induction false} ParseInfoFields(buf: seq<int8>, sender: InetAddress)
    requires |buf| > PORT1_UNIVERSE_OFFSET
    ensures var info := ParseInfo(buf, sender);
      && info.nodeAddress == sender
      && |info.nodeNameShort| <= |buf| - SHORT_NAME_OFFSET
      && |info.nodeNameLong| <= |buf| - LONG_NAME_OFFSET
      && (forall i :: 0 <= i < |info.nodeNameShort| ==> info.nodeNameShort[i] != 0 as char)
      && (forall i :: 0 <= i < |info.nodeNameLong| ==> info.nodeNameLong[i] != 0 as char)
      && -128 <= info.ports < 128 && -128 <= info.port1Universe < 128
  {
    var info := ParseInfo(buf, sender);
    var zs := NameEnd(buf, SHORT_NAME_OFFSET);
    var zl := NameEnd(buf, LONG_NAME_OFFSET);
    forall i | 0 <= i < |info.nodeNameShort|
      ensures info.nodeNameShort[i] != 0 as char
    {
      assert buf[SHORT_NAME_OFFSET + i] != 0;
    }
    forall i | 0 <= i < |info.nodeNameLong|
      ensures info.nodeNameLong[i] != 0 as char
    {
      assert buf[LONG_NAME_OFFSET + i] != 0;
    }
  }

  /**
   * What the as-written constructor gets wrong: it throws exactly when the
   * short name has fewer than 7 chars, and otherwise returns the short name
   * without its first 7 chars and a long name that starts inside the short
   * name's field: when the short name ends before offset 44, the long name
   * is the rest of the short name, the bytes from its NUL up to 44, and then
   * the real long name.
   */
  lemma {:induction false} AsWrittenDropsShortNamePrefix(buf: seq<int8>, sender: InetAddress)
    requires |buf| > PORT1_UNIVERSE_OFFSET
    ensures var good := ParseInfo(buf, sender);
      && (ParseInfoAsWritten(buf, sender).Fault? <==> |good.nodeNameShort| < 7)
      && (ParseInfoAsWritten(buf, sender).Ok? ==>
            ParseInfoAsWritten(buf, sender).value.nodeNameShort == good.nodeNameShort[7..])
      && (ParseInfoAsWritten(buf, sender).Ok? && NameEnd(buf, SHORT_NAME_OFFSET) <= LONG_NAME_OFFSET ==>
            ParseInfoAsWritten(buf, sender).value.nodeNameLong
              == good.nodeNameShort[7..] + Latin1(buf[NameEnd(buf, SHORT_NAME_OFFSET)..LONG_NAME_OFFSET]) + good.nodeNameLong)
  {
    var zs := NameEnd(buf, SHORT_NAME_OFFSET);
    var zl := NameEnd(buf, LONG_NAME_OFFSET);
    if zs >= COPY_OFFSET_AS_WRITTEN {
      var good := ParseInfo(buf, sender);
      assert buf[COPY_OFFSET_AS_WRITTEN..zs] == buf[SHORT_NAME_OFFSET..zs][7..];
      assert Latin1(buf[SHORT_NAME_OFFSET..zs])[7..] == Latin1(buf[SHORT_NAME_OFFSET..zs][7..]);
      if zs <= LONG_NAME_OFFSET {
        assert buf[COPY_OFFSET_AS_WRITTEN..zl] == buf[COPY_OFFSET_AS_WRITTEN..zs] + buf[zs..LONG_NAME_OFFSET] + buf[LONG_NAME_OFFSET..zl];
        assert Latin1(buf[COPY_OFFSET_AS_WRITTEN..zl])
          == Latin1(buf[COPY_OFFSET_AS_WRITTEN..zs]) + Latin1(buf[zs..LONG_NAME_OFFSET]) + Latin1(buf[LONG_NAME_OFFSET..zl]);
      }
    }
  }
}
