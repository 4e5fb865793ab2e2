# LXforProcessing in Dafny

A verified model of the protocol core of LXforProcessing, a Java library for
lighting control. It covers the parts of the library that turn bytes on the
wire into state and back:

- **Art-Net** (`LXArtNet`, `LXArtNetPollReplyInfo`): a node that receives
  ArtDmx from up to two sources and merges them highest-takes-precedence. It
  answers ArtPoll and ArtAddress, and it builds ArtDmx and ArtPollReply
  packets in its buffers.
- **sACN / E1.31** (`LXSACN`): the root, framing and DMP layer checks, the
  two-source merge keyed by the 16-byte CID, and the packet it sends.
- **ENTTEC DMX USB Pro** (`LXENTTEC`): the serial message reader, which
  reads one start delimiter, takes the bytes up to the first end delimiter
  in one `readBytesUntil` block and parses that block, and the label-6
  message it sends.
- **OSC** (`LXOSCMessage`, `LXOSCArgument`, `LXOSCBundleMessage`,
  `LXOSCPacketReader`, `LXOSC`): address patterns and their matching, argument
  encoding with 4-byte alignment, bundles, the packet reader, and NTP
  timestamps. Both copies of `LXOSCMessage` are modelled: the one in `lx4p`
  and the older one in `lx_for_processing`.
- **mDNS / DNS** (`LXmDNSDiscoverer`, `LXDNSReplyRecord`): the query it sends,
  the reader for names (labels and compression pointers), resource records
  and whole packets.
- **JSON** (`LXJSONParser`, `LXJSONElement`): the one-character-at-a-time
  parser that builds a tree of elements.
- **Java primitives** (`JavaBytes`): signed bytes, the `(byte)` cast,
  `b & 0xFF`, 32-bit wrap-around and the one-byte-per-char string conversion
  the codecs rely on.

Objects whose fields the Java code updates in place are Dafny classes with
those fields. Buffers are `array`s, and the collections the objects append
to are `seq` fields. Each method is proved against a function of the old
state, in a `*Spec` module or beside the class, and the protocol properties
are lemmas about those functions. The properties are round trips (a packet a
node sends reads back as what was sent), invariants each packet keeps, what
the readers reject, and what the merges compute. Pure code (the OSC
pattern matcher, the byte codecs) is modelled as functions.

Sockets, serial ports and timers become parameters. A datagram received is a
`seq<int8>` argument, a datagram sent is a returned `Datagram` value, and
the serial port is the sequence of bytes waiting to be read. Callbacks to
listeners and delegates become either a boolean parameter (the listener's
answer) or a returned value (what would be handed over).

Where a method's row says its new state or result is a `*Spec` function
(`ArtNetSpec.ProcessDatagram`, `SacnSpec.ReadPacket`, `EnttecSpec.ParsePacket`,
`MdnsSpec.ParsePacket`, `OscEncoding.Encode` and the like), that row stands
for the function too: the function is the method's specification, and the
properties it has are the lemmas in the rows that follow it.

## Model

| member | source | states |
|---|---|---|
| ArtNet.ArtNetNode.constructor | src/lx4p/LXArtNet.java:106-110 | A new node has the minimum slot count, no broadcast address, no bound sources and zeroed buffers. |
| ArtNet.ArtNetNode.WithBroadcast | src/lx4p/LXArtNet.java:119-124 | The same initial state, with the broadcast address set. |
| ArtNet.ArtNetNode.GetSlot | src/lx4p/LXArtNet.java:139-149 | The level is 0..255. With one source it is buffer 1's byte read unsigned. With two sources it is the larger of the two buffers' bytes (highest takes precedence). |
| ArtNet.ArtNetNode.SetSlot | src/lx4p/LXArtNet.java:157-159 | Only entry `slot - 1` of buffer 1 changes, and it becomes the given byte. |
| ArtNet.ArtNetNode.SetSlotLevel | src/lx_for_processing/LXDMXInterface.java:48-50 | `setSlot(int, int)` stores `(byte) value`, so the level read back is `value mod 256`. Nothing else changes. |
| ArtNet.ArtNetNode.ClearSlots | src/lx4p/LXArtNet.java:164-170 | Both level buffers and the 512 level bytes of the packet buffer (from offset 18) become zero. The node is otherwise unchanged. |
| ArtNet.ArtNetNode.SetNumberOfSlots | src/lx4p/LXArtNet.java:184-186 | The slot count becomes `max(slots, DMX_MIN_SLOTS)`, with no upper bound. |
| ArtNet.ArtNetNode.GetUniverse | src/lx4p/LXArtNet.java:194-196 | The universe byte read unsigned: 0..255, narrowing back to the stored byte. |
| ArtNet.ArtNetNode.SetUniverse | src/lx4p/LXArtNet.java:204-206 | Stores `(byte) u`, so `getUniverse` then returns `u mod 256`. |
| ArtNet.ArtNetNode.SetSubnetUniverse | src/lx4p/LXArtNet.java:214-216 | The universe byte becomes the subnet (masked to 3 bits) in the high nibble OR-ed with `u`. |
| ArtNet.ArtNetNode.SetUniverseAddress | src/lx4p/LXArtNet.java:224-230 | The universe byte becomes `UniverseAddress(old, u)`. Nothing else changes. |
| ArtNet.ArtNetNode.SetSubnetAddress | src/lx4p/LXArtNet.java:237-243 | The universe byte becomes `SubnetAddress(old, s)`. Nothing else changes. |
| ArtNet.ArtNetNode.SetNetAddress | src/lx4p/LXArtNet.java:249-253 | The net byte becomes `NetAddress(old, s)`. Nothing else changes. |
| ArtNet.ArtNetNode.ReceiveDatagram | src/lx4p/LXArtNet.java:307-316 | The packet buffer is zeroed and then takes the datagram, cut to the 530-byte buffer. The length returned is the datagram's, capped at 530. |
| ArtNet.ArtNetNode.CopyLevels | src/lx4p/LXArtNet.java:369-375 | The copy loop. Slots below the slot count take the packet's level while below `dmxlen`, and zero after it. The loop faults exactly when the slot count passes 512. |
| ArtNet.ArtNetNode.ReceiveArtDmx | src/lx4p/LXArtNet.java:356-400 | The ArtDmx branch computes the state and the result given by `ArtNetSpec.ReceiveDmx`. |
| ArtNet.ArtNetNode.SendArtPollReply | src/lx4p/LXArtNet.java:528-573 | The datagram sent is `PollReply(node, to)`, and the node does not change. |
| ArtNet.ArtNetNode.ParseArtAddressPacket | src/lx4p/LXArtNet.java:605-633 | The state and the opcode are those of `ArtNetSpec.ParseArtAddress`. |
| ArtNet.ArtNetNode.ProcessDatagramPacket | src/lx4p/LXArtNet.java:349-424 | The new state, the result, the reply sent and the poll reply handed to the listener are exactly `ArtNetSpec.ProcessDatagram`. A poll reply is decoded with the corrected `ParseInfo` (see Findings and Left out). |
| ArtNet.ArtNetNode.SendDmx | src/lx4p/LXArtNet.java:432-464 | The sequence advances, the packet buffer is filled, and the bytes sent are those of `ArtNetSpec.SendDmx`. It faults when the slot count exceeds 512. |
| ArtNet.ArtNetNode.CopyLevelsOut | src/lx4p/LXArtNet.java:453-455 | The header bytes are untouched. Level byte `k` becomes buffer 1's level while below the slot count, and is otherwise kept. The loop faults exactly when the slot count passes 512. |
| ArtNetSpec.Zeros | src/lx4p/LXArtNet.java:620-622 | `k` zero bytes. |
| ArtNetSpec.CString | src/lx4p/LXArtNet.java:433 | The bytes of "Art-Net", each narrowed, followed by a NUL. |
| ArtNetSpec.ParseHeader | src/lx4p/LXArtNet.java:640-646 | A packet not starting with "Art-Net" gives NOP. Otherwise the opcode is byte 9 × 256 + byte 8, read unsigned (low byte first). |
| ArtNetSpec.UniverseAddress | src/lx4p/LXArtNet.java:224-230 | Bit 7 clear leaves the byte unchanged. With bit 7 set and the byte not 0x7F, the low nibble becomes `u & 7` and the high nibble is kept. |
| ArtNetSpec.SubnetAddress | src/lx4p/LXArtNet.java:237-243 | Bit 7 clear leaves the byte unchanged. With bit 7 set and the byte not 0x7F, the high nibble becomes `s & 7` and the low nibble is kept. |
| ArtNetSpec.NetAddress | src/lx4p/LXArtNet.java:249-253 | With bit 7 set the net becomes `s & 7` (0..7). Otherwise it is unchanged. |
| ArtNetSpec.DmxLength | src/lx4p/LXArtNet.java:360 | The big-endian slot count at offsets 16-17, 0..65535. |
| ArtNetSpec.CopiedLevels | src/lx4p/LXArtNet.java:366-375 | The buffer after the copy loop keeps its 512 entries. |
| ArtNetSpec.PollReply | src/lx4p/LXArtNet.java:528-567 | Always 239 bytes. |
| ArtNetSpec.NextSequence | src/lx4p/LXArtNet.java:439-444 | From 0 the sequence goes to 1. From anything else it goes to `(s + 1) mod 256`. |
| ArtNetSpec.DmxDestination | src/lx4p/LXArtNet.java:473-479 | There is a destination exactly when an output node is known, or when broadcasting is enabled and a broadcast address is set. |
| ArtNetSpec.Received | src/lx4p/LXArtNet.java:307-316 | The packet buffer after a receive is always 530 bytes. |
| ArtNetProperties.ProcessKeepsValid | src/lx4p/LXArtNet.java:349-424 | Every packet keeps the node's invariant. The buffer sizes are fixed, and a second source is only bound beside a different first source. |
| ArtNetProperties.ReceiveDmxKeepsValid | src/lx4p/LXArtNet.java:356-400 | ArtDmx keeps the invariant. |
| ArtNetProperties.ArtAddressKeepsValid | src/lx4p/LXArtNet.java:605-633 | ArtAddress keeps the invariant. |
| ArtNetProperties.DmxDroppedUnlessAddressed | src/lx4p/LXArtNet.java:359-361 | An ArtDmx that fails any one check changes nothing and yields NOP. The checks are: this universe, this net, protocol version at least 14, and a datagram long enough for its levels. |
| ArtNetProperties.ThirdSenderIgnored | src/lx4p/LXArtNet.java:365-398 | With both sources bound, a third sender changes nothing and yields NOP. |
| ArtNetProperties.DmxFirstSourceCopy | src/lx4p/LXArtNet.java:362-376 | An accepted ArtDmx from the first source, or from anyone while none is bound, binds the sender and raises the slot count to the packet's. It copies the levels and zero-fills up to the slot count. Buffer 2 and source 2 are untouched. The result is ArtDmx exactly when the slot count fits in 512. |
| ArtNetProperties.DmxSecondSourceCopy | src/lx4p/LXArtNet.java:377-393 | The same for a second, different sender, which binds source 2 and fills only buffer 2. |
| ArtNetProperties.ArtAddressCommands | src/lx4p/LXArtNet.java:615-632 | Command 0x01 unbinds both sources and zeroes buffer 2 and the slot count. Command 0x90 unbinds both sources, zeroes both buffers and returns ArtDmx. Any other command keeps sources, levels and slot count and returns ArtAddress. |
| ArtNetProperties.NoChangeSwitches | src/lx4p/LXArtNet.java:224-253 | The switch byte 0x7F, or any byte with bit 7 clear, leaves universe, subnet and net unchanged. |
| ArtNetProperties.SequenceZeroOnlyAfter255 | src/lx4p/LXArtNet.java:439-444 | The sequence sent is 0 exactly after 255. Otherwise it is `s mod 255 + 1`. |
| ArtNetProperties.DmxHeaderReadsBack | src/lx4p/LXArtNet.java:432-449 | The ArtDmx header that sendDMX writes parses as opcode ArtDmx. It carries protocol version 14, the slot count, the next sequence byte, the universe and the net. |
| ArtNetProperties.DmxRoundTrip | src/lx4p/LXArtNet.java:349-464 | The ArtDmx one node sends is accepted by a node on the same universe and net, provided that node has not bound another first source. The receiver binds the sender, its first buffer holds the sent levels, and it is zero beyond them up to its slot count. |
| ArtNetProperties.PollReplyNameBytes | src/lx4p/LXArtNet.java:555-556 | The reply holds "LXforProcessing" at 26 and at 44, each NUL-terminated with no NUL inside. |
| ArtNetProperties.PollReplyRoundTrip | src/lx4p/LXArtNetPollReplyInfo.java:57-76 | Decoding the reply (with each name read at its own offset) gives back what the node sent. That is the ArtPollReply opcode, its name as short and long name, one port, its universe and an output-capable port 1. |
| ArtNetProperties.PollReplyMisreadAsWritten | src/lx4p/LXArtNetPollReplyInfo.java:65-72 | The constructor as written, reading this node's own reply, returns the short name "ocessing", not the node name. Its long name is "ocessing", then the bytes from the short name's NUL up to offset 44, then the node name. |
| ArtNetPollReplyInfo.NameEnd | src/lx4p/LXArtNetPollReplyInfo.java:61-64 | The first zero byte at or after `start`, or the buffer end, with no zero before it. |
| ArtNetPollReplyInfo.NameEndAt | src/lx4p/LXArtNetPollReplyInfo.java:61-64 | A name whose first NUL is at `z` ends at `z`. |
| ArtNetPollReplyInfo.CanOutput | src/lx4p/LXArtNetPollReplyInfo.java:75 | `(b & 0x80) == 0x80 && (b & 0x3f) == 0` holds exactly for the bytes 0x80 and 0xC0. |
| ArtNetPollReplyInfo.ParseInfoAsWritten | src/lx4p/LXArtNetPollReplyInfo.java:57-76 | The as-written decoding fails (`copyOfRange` throws) exactly when the short name ends before offset 33. |
| ArtNetPollReplyInfo.ScanNameEnd | src/lx4p/LXArtNetPollReplyInfo.java:61-64 | The `while` scan stops at the first NUL at or after `start`, or at the buffer end. |
| ArtNetPollReplyInfo.Decode | src/lx4p/LXArtNetPollReplyInfo.java:57-76 | The corrected constructor returns `ParseInfo`, with each name read from its own offset. |
| ArtNetPollReplyInfo.DecodeAsWritten | src/lx4p/LXArtNetPollReplyInfo.java:57-76 | The constructor as written returns `ParseInfoAsWritten`. |
| ArtNetPollReplyInfo.ParseInfoFields | src/lx4p/LXArtNetPollReplyInfo.java:57-76 | Both names are NUL-free, within the buffer, and start at 26 and 44. The port count and port-1 universe are the signed bytes at 173 and 190. |
| ArtNetPollReplyInfo.AsWrittenDropsShortNamePrefix | src/lx4p/LXArtNetPollReplyInfo.java:65-72 | The as-written constructor throws exactly when the short name has fewer than 7 chars. Otherwise it returns the short name without its first 7 chars. When the short name ends before offset 44, the long name is that rest of the short name, then the bytes from its NUL up to 44, then the real long name. |
| DmxInterface.SlotByte | src/lx_for_processing/LXDMXInterface.java:48-50 | `(byte) value` keeps `value mod 256` as a level. A value 0..255 is kept as it is. |
| DmxInterface.AtLeastMinSlots | src/lx4p/LXArtNet.java:185 | `Math.max(slots, DMX_MIN_SLOTS)` is at least both arguments and equal to one of them. |
| JavaBytes.ToByte | src/lx_for_processing/LXDMXInterface.java:49 | `(byte) v` is congruent to `v` modulo 256. |
| JavaBytes.Byte2Int | src/lx_for_processing/LXDMXInterface.java:104-106 | `b & 0xFF` is 0..255: `b` itself when non-negative, `b + 256` otherwise. |
| JavaBytes.ByteRoundTrip | src/lx_for_processing/LXDMXInterface.java:104-106 | `(byte)(b & 0xFF) == b`, and `((byte) v) & 0xFF == v mod 256`. |
| JavaBytes.SmallByte | src/lx_for_processing/LXDMXInterface.java:104-106 | A value 0..255 survives the cast and the unsigned view. |
| JavaBytes.ToInt32 | src/lx4p/LXmDNSDiscoverer.java:183 | `(int) v` is the signed 32-bit value congruent to `v` modulo 2^32. |
| JavaBytes.Latin1 | src/lx4p/LXArtNetPollReplyInfo.java:65 | `new String(bytes)` under a one-byte charset has one char per byte. |
| JavaBytes.AsciiBytes | src/lx4p/LXArtNet.java:555-556 | One byte per char, each the char's low 8 bits. |
| JavaBytes.Latin1AsciiRoundTrip | src/lx4p/LXArtNetPollReplyInfo.java:65 | Chars below 256 read back from their bytes unchanged. |
| ArtNet.ArtNetNode.SetStringInByteArray | src/lx4p/LXArtNet.java:433 | The string's chars, narrowed, then a NUL, at `start`. The rest of the buffer is unchanged. |
| ArtNet.ArtNetNode.WritePollReplyHeader | src/lx4p/LXArtNet.java:529-553 | The first 26 bytes of the reply are those of `PollReplyByte`, and the rest are zero. |
| ArtNet.ArtNetNode.WritePollReplyNames | src/lx4p/LXArtNet.java:555-556 | After the two names, the first 173 bytes are those of `PollReplyByte`, and the rest are still zero. |
| ArtNet.ArtNetNode.WriteDmxHeader | src/lx4p/LXArtNet.java:433-449 | The 18 header bytes are those of `DmxHeaderByte`, and the levels are untouched. |
| Sacn.SacnNode.constructor | src/lx4p/LXSACN.java:85-95 | A new node has 512 slots, universe 1 and priority 100. No source is bound and there is no multicast address. |
| Sacn.SacnNode.WithMulticast | src/lx4p/LXSACN.java:103-114 | The same initial state, with the multicast address set. |
| Sacn.SacnNode.GetSlot | src/lx4p/LXSACN.java:129-145 | The level is `SacnSpec.Level` of the node. |
| Sacn.SacnNode.SetSlot | src/lx4p/LXSACN.java:153-155 | Only entry `slot` of buffer 1 changes (slot 0 is the start code). |
| Sacn.SacnNode.ClearSlots | src/lx4p/LXSACN.java:160-165 | All 513 entries of both buffers become zero. Nothing else changes. |
| Sacn.SacnNode.SetNumberOfSlots | src/lx4p/LXSACN.java:171-181 | The stored count is `max(slots, DMX_MIN_SLOTS) + 1`, and `getNumberOfSlots` reads back `max(slots, DMX_MIN_SLOTS)`. |
| Sacn.SacnNode.GetUniverse | src/lx4p/LXSACN.java:189-191 | The universe byte read unsigned, 0..255. |
| Sacn.SacnNode.SetUniverse | src/lx4p/LXSACN.java:199-201 | Stores `(byte) u`, and `getUniverse` reads back `u mod 256`. |
| Sacn.SacnNode.GetStartCode | src/lx4p/LXSACN.java:207-209 | The merged level of slot 0. |
| Sacn.SacnNode.SetStartCode | src/lx4p/LXSACN.java:215-217 | Slot 0 of buffer 1 becomes `(byte) c`, which reads back as `c mod 256`. |
| Sacn.SacnNode.PacketPriority | src/lx4p/LXSACN.java:223-225 | The first source's priority byte read signed, -128..127. |
| Sacn.SacnNode.SetPacketPriority | src/lx4p/LXSACN.java:231-233 | Stores `(byte) p`, and `packetPriorty` reads back a value congruent to `p` modulo 256. |
| Sacn.SacnNode.SetCidWithMacAddress | src/lx4p/LXSACN.java:239-256 | The CID becomes `CidWithMac(old CID, mac)`. It faults exactly when the MAC is shorter than 6 bytes. |
| Sacn.SacnNode.SetMulticastAddress | src/lx4p/LXSACN.java:263-265 | Only the multicast address changes. |
| Sacn.SacnNode.IsEmptyUuidBytes | src/lx4p/LXSACN.java:520-527 | True exactly when every CID byte is zero. |
| Sacn.SacnNode.IsEqualUuidBytes | src/lx4p/LXSACN.java:536-543 | True exactly when the CID equals the 16 packet bytes from `ci`. |
| Sacn.SacnNode.CopyCid | src/lx4p/LXSACN.java:446-448 | The source takes the packet's CID from offset 22. |
| Sacn.SacnNode.CopyLevels | src/lx4p/LXSACN.java:455-461 | The buffer becomes `CopiedLevels`. The loop faults exactly when the slot count passes 513. |
| Sacn.SacnNode.BindSource | src/lx4p/LXSACN.java:445-449 | An all-zero source takes the packet's CID. A bound one is kept. |
| Sacn.SacnNode.TakeLevels | src/lx4p/LXSACN.java:450-481 | The slot count, priority and the chosen source's buffer become those of `SacnSpec.TakeLevels`. |
| Sacn.SacnNode.ParseDmpLayer | src/lx4p/LXSACN.java:436-488 | The new state and result are `SacnSpec.ParseDmp`. |
| Sacn.SacnNode.ParseFramingLayer | src/lx4p/LXSACN.java:417-427 | The new state and result are `SacnSpec.ParseFraming`. |
| Sacn.SacnNode.ParseRootLayer | src/lx4p/LXSACN.java:395-408 | The new state and result are `SacnSpec.ParseRoot`. |
| Sacn.SacnNode.ProcessDatagramPacket | src/lx4p/LXSACN.java:294-303 | The new state and result are `SacnSpec.ProcessDatagram`: an empty datagram is ignored, and any other is parsed from the root layer. |
| Sacn.SacnNode.ReceiveDatagram | src/lx4p/LXSACN.java:275-277 | The datagram's bytes (at most 638) overwrite the front of the packet buffer. The rest is not cleared. |
| Sacn.SacnNode.ReadPacket | src/lx4p/LXSACN.java:272-286 | The state and answer are `SacnSpec.ReadPacket`. The answer is true exactly when the packet was accepted and the merged start code is 0. A fault while parsing answers false. |
| Sacn.SacnNode.SendDmx | src/lx4p/LXSACN.java:311-376 | The sequence advances, the buffer is filled, and the datagram is `SacnSpec.SendDmx`. It faults when the slot count passes 513. |
| Sacn.SacnNode.ZeroHeaders | src/lx4p/LXSACN.java:312-314 | The first 126 bytes become zero, and the rest are kept. |
| Sacn.SacnNode.WriteRootLayer | src/lx4p/LXSACN.java:316-332 | Bytes 0..37 are the root layer of `HeaderByte`, and the rest are kept. |
| Sacn.SacnNode.WriteFramingLayer | src/lx4p/LXSACN.java:334-352 | Bytes 38..114 are the framing layer of `HeaderByte`, and the rest are kept. |
| Sacn.SacnNode.WriteDmpLayer | src/lx4p/LXSACN.java:354-362 | Bytes 115..125 are the DMP layer of `HeaderByte`, and the rest are kept. |
| Sacn.SacnNode.CopyLevelsOut | src/lx4p/LXSACN.java:366-368 | The headers are kept, and buffer 1's levels follow from 125 up to the slot count. The loop faults exactly when the count passes 513. |
| Sacn.SacnNode.FillDmxPacket | src/lx4p/LXSACN.java:312-368 | The packet buffer is `DmxPacketByte` at every index. It faults exactly when the slot count passes 513. |
| Sacn.SacnNode.SendDmxMulticast | src/lx4p/LXSACN.java:384-388 | Nothing at all happens while no multicast address is set. Otherwise it behaves as `sendDMX(socket, multicast)`. |
| SacnSpec.Zeros | src/lx4p/LXSACN.java:160-165 | `k` zero bytes. |
| SacnSpec.InitialValid | src/lx4p/LXSACN.java:85-95 | A fresh node satisfies the invariant. |
| SacnSpec.PduLength | src/lx4p/LXSACN.java:506-507 | The low 12 bits of the flags-and-length field. |
| SacnSpec.DmpSlots | src/lx4p/LXSACN.java:442-443 | The big-endian slot count at 123-124, 0..65535. |
| SacnSpec.CopiedLevels | src/lx4p/LXSACN.java:455-461 | The buffer keeps its 513 entries. |
| SacnSpec.Received | src/lx4p/LXSACN.java:275-277 | The packet buffer stays 638 bytes. |
| SacnSpec.Level | src/lx4p/LXSACN.java:129-145 | The level is 0..255. A second priority of zero, or one below the first, gives buffer 1. A higher one gives buffer 2. An equal one gives the larger of the two (highest takes precedence). |
| SacnSpec.CidWithMac | src/lx4p/LXSACN.java:239-256 | A MAC of 6 or more bytes gives its first 6 bytes then "processing". A shorter MAC faults after copying its bytes over the front of the old CID. |
| SacnSpec.NextSequence | src/lx4p/LXSACN.java:345-349 | From 0 the sequence goes to 1. From anything else it goes to `(s + 1) mod 256`. |
| SacnProperties.FlagsAndLengthBytes | src/lx4p/LXSACN.java:326-328 | The two bytes written for a PDU length below 0x1000 are `0x70 + len / 256` and `len mod 256`. |
| SacnProperties.FlagsAndLengthReadsBack | src/lx4p/LXSACN.java:504-513 | A field written for a non-zero length reads back as that length. The check accepts it exactly when the remaining size covers it. |
| SacnProperties.CheckedFieldIsWritten | src/lx4p/LXSACN.java:504-513 | Every field the check accepts has a length of 1..size and is the one sendDMX writes for that length. |
| SacnProperties.ProcessKeepsValid | src/lx4p/LXSACN.java:294-303 | Every datagram keeps the invariant: a bound second source sits beside a different bound first source. |
| SacnProperties.UniverseAbove127NeverMatches | src/lx4p/LXSACN.java:421 | With the universe set above 127, the signed stored byte never equals the unsigned packet byte, so every packet is dropped unchanged. |
| SacnProperties.ThirdCidIgnored | src/lx4p/LXSACN.java:463-483 | With both sources bound to other CIDs, a packet from a third CID changes nothing. |
| SacnProperties.AcceptedPacketBindsItsCid | src/lx4p/LXSACN.java:445-483 | Suppose the DMP layer accepts a packet. Then its CID is bound as the first source, or as the second beside a different first source. That source takes the packet's priority, and the other buffer is unchanged. |
| SacnProperties.AcnIdReadsBack | src/lx4p/LXSACN.java:317-325 | The bytes of "ASC-E1.17" read back as the identifier. |
| SacnProperties.ReceivedHeader | src/lx4p/LXSACN.java:311-370 | The header bytes of a sent packet are found unchanged in the receiver's packet buffer. |
| SacnProperties.SentHeaderPassesChecks | src/lx4p/LXSACN.java:395-443 | A sent header passes every check of the three layers: preamble, identifier, the three flags-and-length fields, the vectors and the address type. Its slot count, CID, universe and priority are the sender's. |
| SacnProperties.SendReceiveRoundTrip | src/lx4p/LXSACN.java:272-488 | The receiver here is on the sender's universe (0..127), with its first source free or equal to the sender's CID. It accepts the packet as its first source at the sender's priority. Its first buffer holds the sent start code and levels, then zeros up to its slot count. |
| SacnProperties.LevelsCopied | src/lx4p/LXSACN.java:455-461 | The packet's levels land at the front of the buffer, with zeros after them up to the slot count. |
| Enttec.EnttecWidget.constructor | src/lx4p/LXENTTEC.java:57-59 | A new interface without a serial port has the minimum slot count. |
| Enttec.EnttecWidget.WithSerialPort | src/lx4p/LXENTTEC.java:61-64 | The same, with a serial port. |
| Enttec.EnttecWidget.GetSlot | src/lx4p/LXENTTEC.java:71-73 | The byte at `slot` read unsigned: 0..255, narrowing back to the stored byte. |
| Enttec.EnttecWidget.SetSlot | src/lx4p/LXENTTEC.java:80-82 | Only entry `slot` changes. |
| Enttec.EnttecWidget.SetSlotLevel | src/lx4p/LXENTTEC.java:89-91 | Stores `(byte) value`, and `getSlot` then reads `value mod 256`. |
| Enttec.EnttecWidget.ClearSlots | src/lx4p/LXENTTEC.java:96-100 | All 513 entries become zero, and nothing else changes. |
| Enttec.EnttecWidget.SetNumberOfSlots | src/lx4p/LXENTTEC.java:106-116 | The count becomes `max(slots, DMX_MIN_SLOTS)`, and `getNumberOfSlots` reads it back. |
| Enttec.EnttecWidget.GetStartCode | src/lx4p/LXENTTEC.java:122-124 | The level of slot 0. |
| Enttec.EnttecWidget.SetStartCode | src/lx4p/LXENTTEC.java:130-132 | Slot 0 becomes `(byte) c`, and it reads back as `c mod 256`. |
| Enttec.EnttecWidget.ReceiveBytes | src/lx4p/LXENTTEC.java:144 | `readBytesUntil` stores the bytes read at the front of the packet buffer and keeps the rest. |
| Enttec.EnttecWidget.CopyReceivedLevels | src/lx4p/LXENTTEC.java:153-155 | The first `count` entries take the packet's bytes from offset 4. The loop faults exactly when `count` passes 513. |
| Enttec.EnttecWidget.ParseSerialPacket | src/lx4p/LXENTTEC.java:145-161 | The state and label are `EnttecSpec.ParsePacket`. |
| Enttec.EnttecWidget.ReadSerialPacket | src/lx4p/LXENTTEC.java:139-162 | The state and label are `EnttecSpec.ReadSerialPacket`. Only a start delimiter leads to a read, which takes the bytes up to the first end delimiter, and a parse of that many bytes. |
| Enttec.EnttecWidget.ReadPacket | src/lx4p/LXENTTEC.java:189-194 | The state and answer are `EnttecSpec.ReadPacket`: false without a serial port, and otherwise whether the label read is 5. |
| Enttec.EnttecWidget.SendDmx | src/lx4p/LXENTTEC.java:201-213 | The bytes written are `EnttecSpec.SendDmx`, and the widget does not change. |
| Enttec.EnttecWidget.SendDmxIfConnected | src/lx4p/LXENTTEC.java:215-219 | Nothing is written without a serial port. |
| EnttecSpec.DelimitedLength | src/lx4p/LXENTTEC.java:144 | One past the first end delimiter of the waiting bytes, or 0 when none has arrived: no end delimiter comes before it. |
| EnttecSpec.ReadBytesUntilEnd | src/lx4p/LXENTTEC.java:144 | What `readBytesUntil` copies is a prefix of the waiting bytes that fits the packet buffer and ends at the first end delimiter; its count is its length, or -1 with nothing copied. |
| EnttecSpec.ReceivedLevels | src/lx4p/LXENTTEC.java:153-155 | The level buffer keeps its 513 entries. |
| EnttecSpec.MessageLength | src/lx4p/LXENTTEC.java:150-151 | The 16-bit length, low byte first, 0..65535. |
| EnttecSpec.DecodeMessage | src/lx4p/LXENTTEC.java:201-213 | A decoded message is 5 bytes longer than its data and has a label 0..255. |
| EnttecProperties.SendFrameDecodes | src/lx4p/LXENTTEC.java:201-213 | When the levels fit, the message written is `slots + 6` bytes. It decodes as label 6 carrying the start code and the first `slots` levels. |
| EnttecProperties.SendFaultsPastBuffer | src/lx4p/LXENTTEC.java:202-210 | Sending faults exactly when the slot count exceeds 512, so that the start code and the slots no longer fit the 513-entry buffer. |
| EnttecProperties.ReceivedDmxCopies | src/lx4p/LXENTTEC.java:148-156 | A label-5 message with status 0 sets the slot count to its length less one and copies `length` bytes from offset 4. The rest of the buffer is unchanged. |
| EnttecProperties.OtherMessagesChangeNothing | src/lx4p/LXENTTEC.java:145-161 | Any other label, a bad status, or a read of at most one byte changes nothing. The label returned is the byte read (signed), or none for a short read. |
| EnttecProperties.ReadPacketTrueIffReceivedDmx | src/lx4p/LXENTTEC.java:139-194 | readPacket is true exactly when the widget is connected, the first byte is the start delimiter, `readBytesUntil` delivers more than one byte, and the label is 5. It must also not fault copying past the buffer. |
| EnttecProperties.ReadKeepsValid | src/lx4p/LXENTTEC.java:139-194 | Every read keeps the interface's invariant. |
| EnttecProperties.ReadStopsAtFirstEnd | src/lx4p/LXENTTEC.java:144 | `readBytesUntil` delivers the bytes up to and including the first end delimiter, wherever it stands, and refuses with -1 a message longer than the packet buffer. |
| EnttecProperties.WholeFrameRead | src/lx4p/LXENTTEC.java:144-151 | A received-DMX message with no end delimiter among its levels and length bytes is delivered whole, and its length field reads back. |
| EnttecProperties.ReceivedMessageLevels | src/lx4p/LXENTTEC.java:139-162 | A received-DMX message as the widget frames it, with no end delimiter among its levels and length bytes, leaves the start code and slots in the buffer. The slot count becomes their number. The entry after them takes the end delimiter, because the copy counts the status byte. |
| EnttecProperties.FullUniverseFaultsAsWritten | src/lx4p/LXENTTEC.java:148-156 | As written, a received-DMX message carrying the start code and all 512 slots faults, because the copy counts the status byte. |
| EnttecProperties.IntendedReceiveLevels | src/lx4p/LXENTTEC.java:148-156 | With the status byte left out of the copy, every received-DMX message up to a full universe lands whole: its levels fill the front of the buffer, the rest is unchanged, and the slot count is their number. |
| OscArgument.TypeCode | src/lx4p/LXOSCArgument.java:54-158 | Each constructor assigns one type code, 0..9. |
| OscArgument.FromDouble | src/lx4p/LXOSCArgument.java:110-118 | A number argument, of timestamp type exactly when flagged and of double type otherwise. |
| OscArgument.FromTypeTag | src/lx4p/LXOSCArgument.java:124-144 | The types 6..9 come exactly from 'T', 'F', 'I' and 'N'. Any other char gives the int argument 0. |
| OscArgument.GetBytes | src/lx4p/LXOSCArgument.java:204-209 | Any type other than blob gives an empty array. |
| OscArgument.GetInt | src/lx4p/LXOSCArgument.java:188-190 | An int argument gives its int. The result is known exactly for the types whose `dv` is not a floating-point conversion. |
| OscArgument.GetString | src/lx4p/LXOSCArgument.java:196-198 | A string argument gives its string. The result is known exactly for the types whose `sv` is not a number's formatting or a blob's. |
| OscArgument.SliceArgument | src/lx4p/LXOSCArgument.java:152-158 | The slice succeeds exactly when the length is non-negative and either zero or within `bsrc`. A success is a blob of that length holding `bsrc[start + k]` at `k`. |
| OscArgument.NewSliceArgument | src/lx4p/LXOSCArgument.java:152-158 | The copy loop computes `SliceArgument`. |
| OscArgument.TypesPartition | src/lx4p/LXOSCArgument.java:215-297 | The number types are exactly int, float, double and timestamp. Every other argument has one of the other six types. Type 0 means int and type 5 means blob. |
| OscMatch.IndexOfFrom | src/lx4p/LXOSCMessage.java:186 | `indexOf(c, from)` gives the first index at or after `from` holding `c`, or -1 when there is none. |
| OscMatch.Pieces | src/lx4p/LXOSCMessage.java:83 | The pieces hold no separator. There is one piece exactly when the separator does not occur. |
| OscMatch.StripTrailingEmpty | src/lx4p/LXOSCMessage.java:83 | A prefix of the pieces, ending in a non-empty piece, with only empty pieces dropped. |
| OscMatch.JavaSplit | src/lx4p/LXOSCMessage.java:83 | `split` yields pieces without the separator. |
| OscMatch.NonEmpty | src/lx4p/LXOSCMessage.java:85-90 | The non-empty pieces, each one of the input's. |
| OscMatch.AddressPatternStringToParts | src/lx4p/LXOSCMessage.java:81-92 | Every part is non-empty and holds no '/'. |
| OscMatchProperties.PiecesWithout | src/lx4p/LXOSCMessage.java:83 | A string without the separator is one piece. |
| OscMatchProperties.PiecesAppend | src/lx4p/LXOSCMessage.java:83 | Splitting at one separator concatenates the pieces of both sides. |
| OscMatchProperties.PiecesOfJoin | src/lx4p/LXOSCMessage.java:274 | Splitting a join gives back the joined pieces. |
| OscMatchProperties.SplitOfJoin | src/lx4p/LXOSCMessage.java:274 | Java's `split` undoes a join whose pieces hold no separator and whose last piece is not empty. |
| OscMatchProperties.NonEmptyKeeps | src/lx4p/LXOSCMessage.java:85-90 | Non-empty parts are all kept. |
| OscMatchProperties.JoinPartsIsJoinWith | src/lx4p/LXOSCMessage.java:535-570 | "/p0/p1/..." is '/' followed by the parts joined with '/'. |
| OscMatchProperties.PiecesOfParts | src/lx4p/LXOSCMessage.java:83 | Splitting "/p0/p1/..." gives an empty piece and then the parts. |
| OscMatchProperties.PartsOfJoinedAddress | src/lx4p/LXOSCMessage.java:81-92 | Parts that are non-empty and free of '/' come back from `addressPatternStringToParts` of "/p0/p1/...". |
| OscMatchProperties.RangeScanReads | src/lx4p/LXOSCMessage.java:232-254 | The range scan from a dash finds a range that strictly holds the char, or a final dash, or neither. |
| OscMatchProperties.BracketMatchesReads | src/lx4p/LXOSCMessage.java:216-260 | A bracket list read as a set. A char listed, or strictly inside a range, matches; the reverse holds under '!'. A final dash the scan reaches makes the list match nothing. |
| OscMatchProperties.BracketNegation | src/lx4p/LXOSCMessage.java:219-258 | A leading '!' inverts the list's answer, unless the list ends in a dash the scan reaches. |
| OscMatchProperties.BracketTrailingDashThrowsAsWritten | src/lx4p/LXOSCMessage.java:236-241 | As written, "[ab-]" against 'z' reads past the list and throws. The guard meant for this case answers false. |
| OscMatchProperties.NegatedTrailingDashAsWritten | src/lx4p/LXOSCMessage.java:235-258 | As written, "[!ab-]" against 'A' ends the range loop without reading past the list and answers true; the corrected matcher answers false for a list whose scan reaches a final dash. |
| OscMatchProperties.RangeScanAgrees | src/lx4p/LXOSCMessage.java:232-254 | Away from a final dash, the scan as written agrees with the corrected one. |
| OscMatchProperties.BracketAsWrittenAgrees | src/lx4p/LXOSCMessage.java:216-260 | Away from a final dash the scan reaches, the bracket code as written gives the corrected answer. |
| OscMatchProperties.LiteralWalk | src/lx4p/LXOSCMessage.java:162-207 | On a literal pattern, the walk from index `i` succeeds exactly when the rest of the address is a prefix of the rest of the pattern. |
| OscMatchProperties.LiteralPatternMatchesPrefixes | src/lx4p/LXOSCMessage.java:156-208 | A pattern part without `*`, `?`, `[` or `{` matches exactly the address parts that are prefixes of it. Pattern chars left over once the address is used up are ignored. |
| OscMatchProperties.PartMatchesItself | src/lx4p/LXOSCMessage.java:157-159 | Every part matches itself. |
| OscMatchProperties.LiteralThenStar | src/lx4p/LXOSCMessage.java:162-176 | A literal prefix then '*' walks to the star and matches. |
| OscMatchProperties.TrailingStarMatchesRest | src/lx4p/LXOSCMessage.java:163-167 | A trailing '*' matches whatever follows a literal prefix. |
| OscMatchProperties.LiteralTail | src/lx4p/LXOSCMessage.java:162-207 | Equal literal tails finish the walk with a match. |
| OscMatchProperties.QuestionMarkTakesOneChar | src/lx4p/LXOSCMessage.java:181-183 | '?' takes any one char between literal text. |
| OscMatchProperties.QuestionMarkWalk | src/lx4p/LXOSCMessage.java:162-207 | The walk over a literal prefix reaches the '?' and matches. |
| OscMatchProperties.StarSkipsToFirst | src/lx4p/LXOSCMessage.java:163-176 | `*c` skips the address up to the first `c` and goes on after it. |
| OscMatchProperties.StarFailsWithoutNextChar | src/lx4p/LXOSCMessage.java:169-173 | `*c` fails on an address without `c`. |
| OscMatchProperties.MissingCloseBraceFails | src/lx4p/LXOSCMessage.java:269-272 | A '{' without a '}' after it matches nothing. |
| OscMatchProperties.BraceSelectsAlternative | src/lx4p/LXOSCMessage.java:195-196 | `{alt0,alt1,...}` matches the alternative the address equals, provided no earlier alternative is a prefix of it. |
| OscMatchProperties.AfterOpenBrace | src/lx4p/LXOSCMessage.java:196 | The text after '{' is the list and its '}'. |
| OscMatchProperties.BraceMatchesJoin | src/lx4p/LXOSCMessage.java:268-285 | The text after '{' selects alternative `k`. |
| OscMatchProperties.CloseBraceAt | src/lx4p/LXOSCMessage.java:269 | The close brace is found at the end of a list without one. |
| OscMatchProperties.JoinHolds | src/lx4p/LXOSCMessage.java:274 | A char in no alternative and not the separator is not in their join. |
| OscMatchProperties.BraceWalk | src/lx4p/LXOSCMessage.java:275-283 | The loop over the alternatives reaches alternative `k` and accepts it. |
| OscEncoding.Pad4 | src/lx4p/LXOSCMessage.java:561-568 | The padding loops round `ci` up to the next multiple of 4, adding at most 3. |
| OscEncoding.Zeros | src/lx4p/LXOSCMessage.java:565-567 | `n` zero bytes. |
| OscEncoding.OscString | src/lx4p/LXOSCMessage.java:549-569 | An OSC-string: the bytes, then at least one NUL, padded to a multiple of 4. |
| OscEncoding.BigEndian32 | src/lx4p/LXOSCMessage.java:644-651 | The four bytes of a 32-bit value. |
| OscEncoding.BigEndian64 | src/lx4p/LXOSCMessage.java:696-711 | The eight bytes of a 64-bit pattern. |
| OscEncoding.TagBytes | src/lx4p/LXOSCMessage.java:589-613 | One tag byte per argument: i, d, t, s, b, T, F, I, N by type, and 'f' otherwise. |
| OscEncoding.AlignedIsMod | src/lx4p/LXOSCMessage.java:561-568 | A length is whole words exactly when it is a non-negative multiple of 4. |
| OscEncoding.AlignedSum | src/lx4p/LXOSCMessage.java:481-528 | Runs of whole words concatenate to whole words. |
| OscEncoding.Pad4Aligned | src/lx4p/LXOSCMessage.java:561-568 | A padded index is whole words. |
| OscEncoding.ArgumentAligned | src/lx4p/LXOSCMessage.java:637-786 | Every argument encodes to whole words. |
| OscEncoding.ArgumentsAligned | src/lx4p/LXOSCMessage.java:493-520 | So does every argument list. |
| OscEncoding.AddressAligned | src/lx4p/LXOSCMessage.java:535-570 | The padded address is whole words. |
| OscEncoding.TypeTagsAligned | src/lx4p/LXOSCMessage.java:578-628 | The padded type-tag string is whole words. |
| OscEncoding.EncodeAligned | src/lx4p/LXOSCMessage.java:481-528 | The address, the tags and the whole message are whole words, as OSC requires. |
| OscEncoding.Put | src/lx4p/LXOSCMessage.java:549-556 | Writing into the buffer keeps its length. |
| OscEncoding.WriteParts | src/lx4p/LXOSCMessage.java:541-557 | The part loop keeps the buffer length, and the index only grows. |
| OscEncoding.WriteAddress | src/lx4p/LXOSCMessage.java:535-570 | A returned index is within the buffer. |
| OscEncoding.WriteTypeTags | src/lx4p/LXOSCMessage.java:578-628 | The index returned is within the buffer and not before `start`. |
| OscEncoding.WriteInt | src/lx4p/LXOSCMessage.java:637-680 | The index returned is within the buffer and not before `start`. |
| OscEncoding.WriteDouble | src/lx4p/LXOSCMessage.java:689-714 | The corrected double writer returns an index within the buffer. |
| OscEncoding.WriteDoubleAsWritten | src/lx4p/LXOSCMessage.java:689-714 | The as-written double writer, when it does not throw, returns an index within the buffer. |
| OscEncoding.WriteString | src/lx4p/LXOSCMessage.java:723-745 | The corrected string writer returns an index within the buffer. |
| OscEncoding.WriteStringAsWritten | src/lx4p/LXOSCMessage.java:723-745 | The as-written string writer returns an index within the buffer. |
| OscEncoding.WriteBlob | src/lx4p/LXOSCMessage.java:754-786 | The blob writer returns an index within the buffer. |
| OscEncoding.WriteArgument | src/lx4p/LXOSCMessage.java:494-515 | The dispatch returns an index within the buffer. Uses the corrected double and string writers (see Findings and Left out). |
| OscEncoding.WriteArguments | src/lx4p/LXOSCMessage.java:493-520 | The loop returns -1, an index inside the buffer, or (with no arguments) its start. Uses the corrected double and string writers (see Findings and Left out). |
| OscEncoding.WriteMessage | src/lx4p/LXOSCMessage.java:481-528 | The result is -1 or an index inside the buffer. Uses the corrected double and string writers (see Findings and Left out). |
| OscEncodingProperties.Pad4Shift | src/lx4p/LXOSCMessage.java:561-568 | Padding from a word boundary pads the offset. |
| OscEncodingProperties.PutPut | src/lx4p/LXOSCMessage.java:549-556 | Two writes one after the other are one write of both. |
| OscEncodingProperties.AsciiBytesAppend | src/lx4p/LXOSCMessage.java:553 | Narrowing chars distributes over concatenation. |
| OscEncodingProperties.WritePartsWrites | src/lx4p/LXOSCMessage.java:541-557 | The part loop writes "/p0/p1/..." at `ci` and leaves 7 bytes of room, or stops on a part with no room. With enough room it always finishes. |
| OscEncodingProperties.JoinPartsBytes | src/lx4p/LXOSCMessage.java:549-556 | The bytes of "/p0/p1/..." are '/', the first part, then the rest. |
| OscEncodingProperties.WriteAddressFaults | src/lx4p/LXOSCMessage.java:558-568 | The address writer throws exactly for an empty pattern in a buffer of fewer than 4 bytes. |
| OscEncodingProperties.WriteAddressContent | src/lx4p/LXOSCMessage.java:535-570 | An index returned inside the buffer is the padded address's length, and the buffer starts with the address. |
| OscEncodingProperties.WriteAddressRoom | src/lx4p/LXOSCMessage.java:545-547 | With 6 bytes beyond the encoded address, the writer succeeds and returns its length. |
| OscEncodingProperties.WriteAddressWrites | src/lx4p/LXOSCMessage.java:535-570 | `addAddressPatternToBytes` throws exactly for an empty pattern in a buffer below 4 bytes. An index inside the buffer means the buffer starts with the padded address. With room, it returns the address length. |
| OscEncodingProperties.WriteTypeTagsWrites | src/lx4p/LXOSCMessage.java:578-628 | From a word boundary, an index inside the buffer means the padded tag string was written there. With 4 bytes to spare beyond it, the writer always writes it. |
| OscEncodingProperties.WriteArgumentWrites | src/lx4p/LXOSCMessage.java:494-515 | An index inside the buffer means the argument's encoding was written at `start`. With room to spare it always is. Uses the corrected double and string writers (see Findings and Left out). |
| OscEncodingProperties.WriteFixedWrites | src/lx4p/LXOSCMessage.java:637-654 | A writer that checks room for its bytes either writes them or reports no room. |
| OscEncodingProperties.PutNothing | src/lx4p/LXOSCMessage.java:505-512 | Writing no bytes changes nothing. |
| OscEncodingProperties.WriteStringWrites | src/lx4p/LXOSCMessage.java:723-745 | The corrected string writer, given room, writes the OSC-string at `start`. |
| OscEncodingProperties.WriteBlobWrites | src/lx4p/LXOSCMessage.java:754-786 | The blob writer, given room, writes the size, the bytes and the padding at `start`. |
| OscEncodingProperties.WriteArgumentsWrites | src/lx4p/LXOSCMessage.java:493-520 | The argument loop writes the encodings one after another, or returns -1. With room to spare it never returns -1. Uses the corrected double and string writers (see Findings and Left out). |
| OscEncodingProperties.WriteMessageFaults | src/lx4p/LXOSCMessage.java:481-528 | The message writer throws exactly for an empty pattern in a buffer of fewer than 4 bytes. Uses the corrected double and string writers (see Findings and Left out). |
| OscEncodingProperties.ThreePuts | src/lx4p/LXOSCMessage.java:481-528 | Address, tags and arguments written one after another are the message written at once. |
| OscEncodingProperties.WriteMessageLength | src/lx4p/LXOSCMessage.java:481-528 | A result other than -1 is the length of `Encode(m)`, and the buffer starts with `Encode(m)`. Uses the corrected double and string writers (see Findings and Left out). |
| OscEncodingProperties.WriteMessageWithRoom | src/lx4p/LXOSCMessage.java:481-528 | A buffer more than 4 bytes longer than the encoding always receives it. Uses the corrected double and string writers (see Findings and Left out). |
| OscEncodingProperties.WriteMessageEncodes | src/lx4p/LXOSCMessage.java:481-528 | `addOSCMessageToBytes` writes the OSC wire format. It throws only for an empty pattern in a tiny buffer. A length it returns is the length of `Encode(m)`, with the buffer starting with `Encode(m)` and unchanged after it. With room it always succeeds. Uses the corrected double and string writers (see Findings and Left out). |
| OscEncodingProperties.DoubleWriterThrowsAsWritten | src/lx4p/LXOSCMessage.java:689-714 | With 4 to 7 bytes left, the double writer as written throws where the corrected one reports no room. Elsewhere the two agree. |
| OscEncodingProperties.StringWriterOmitsNulAsWritten | src/lx4p/LXOSCMessage.java:723-745 | A string whose chars end on a word boundary is written with no NUL at all. The corrected writer adds a NUL and a word of padding. |
| OscLegacyEncoding.WriteTypeTagsLegacy | src/lx_for_processing/LXOSCMessage.java:405-452 | The older tag writer returns an index within the buffer. |
| OscLegacyEncoding.WriteArgumentLegacy | src/lx_for_processing/LXOSCMessage.java:320-343 | The older dispatch, when it does not throw, returns an index within the buffer. |
| OscLegacyEncoding.WriteArgumentsLegacy | src/lx_for_processing/LXOSCMessage.java:318-348 | The older loop returns -1 or an index within the buffer. |
| OscLegacyEncoding.WriteMessageLegacy | src/lx_for_processing/LXOSCMessage.java:308-355 | The older message writer keeps the buffer length. |
| OscLegacyEncoding.TagByteNonZero | src/lx_for_processing/LXOSCMessage.java:416-439 | No type tag narrows to a zero byte. |
| OscLegacyEncoding.TagsUnterminatedLegacy | src/lx_for_processing/LXOSCMessage.java:405-452 | When ',' and the tags end on a word boundary, the older writer stops there. Its tag string then has no zero byte at all. |
| OscLegacyEncoding.TagsAgreeLegacy | src/lx_for_processing/LXOSCMessage.java:405-452 | Otherwise the padding supplies the NUL, and both writers write the same bytes. |
| OscLegacyEncoding.ArgumentsAgreeLegacy | src/lx_for_processing/LXOSCMessage.java:318-348 | For arguments with no double, timestamp or string, the two argument loops agree. |
| OscLegacyEncoding.MessageAgreesLegacy | src/lx_for_processing/LXOSCMessage.java:308-355 | The two serialisers agree on every message with no double, timestamp or string argument, provided its argument count is not 3 mod 4. |
| OscMessage.AddressPartMatchesPatternPart | src/lx4p/LXOSCMessage.java:156-208 | the cursor loop over address and pattern part (`*`, `?`, `[..]`, `{..}`, literal chars, the final `ai == length` test) returns exactly `PartMatches(a, p)`, the recursive matcher whose properties `OscMatchProperties` proves. Uses the corrected bracket matcher (see Findings and Left out). |
| OscMessage.MatchStep | src/lx4p/LXOSCMessage.java:162-200 | one pass of the matcher's loop: the answer from cursors `(ai, pj)` is the answer after the step the loop takes for the pattern char at `pj` |
| OscMessage.AddressCharMatchesBracketPattern | src/lx4p/LXOSCMessage.java:216-260 | the bracket-list method (negation with `!`, direct membership, the dash-range loop) returns exactly `BracketMatches(c, blist)`. Uses the corrected bracket matcher (see Findings and Left out). |
| OscMessage.AddressPartMatchesBracePatternPart | src/lx4p/LXOSCMessage.java:268-285 | the brace method returns exactly `BraceMatches(a, q)`: the first comma-separated alternative that starts the address decides, completing the match or continuing on the rest of the pattern. Uses the corrected bracket matcher (see Findings and Left out). |
| OscMessage.WriteChars | src/lx4p/LXOSCMessage.java:730-733 | the char loop writes `(byte) s.charAt(k)` from `at` and changes nothing else |
| OscMessage.WriteBytes | src/lx4p/LXOSCMessage.java:771-774 | the blob copy loop writes the bytes from `at` and changes nothing else |
| OscMessage.PadToFour | src/lx4p/LXOSCMessage.java:561-568 | the padding idiom writes zeros from `ci` up to the next multiple of four and returns that index |
| OscMessage.Terminate | src/lx4p/LXOSCMessage.java:558-568 | a NUL at `ci`, then zero padding, ending at the multiple of four after `ci + 1` |
| OscMessage.WriteSlashPart | src/lx4p/LXOSCMessage.java:549-556 | one address part is written as '/' followed by its chars |
| OscMessage.WriteAddressPattern | src/lx4p/LXOSCMessage.java:535-570 | the address writer's buffer and index are those of `WriteAddress(parts, buffer)`, or a fault exactly when it runs out of room |
| OscMessage.WriteAddressParts | src/lx4p/LXOSCMessage.java:541-557 | the loop over the parts stops at the first part without room; otherwise the buffer and end index are those `WriteParts` gives |
| OscMessage.WriteTagList | src/lx4p/LXOSCMessage.java:585-613 | ',' then one tag per argument, as `TagBytes(args)` gives, from `start` |
| OscMessage.AddIntArgumentToBytes | src/lx4p/LXOSCMessage.java:637-654 | the new buffer and index are `WriteInt(v, buffer, start)`: four big-endian bytes, or -1 without room |
| OscMessage.AddDoubleArgumentToBytes | src/lx4p/LXOSCMessage.java:689-714 | the new buffer and index are `WriteDouble(bits, buffer, start)`: eight big-endian bytes, with room checked for all eight (the corrected writer; see Findings) |
| OscMessage.AddStringArgumentToBytes | src/lx4p/LXOSCMessage.java:723-745 | the new buffer and index are `WriteString(s, buffer, start)`: the chars, a NUL and padding (the corrected writer; see Findings) |
| OscMessage.AddBytesArgumentToBytes | src/lx4p/LXOSCMessage.java:754-786 | the new buffer and index are `WriteBlob(b, buffer, start)`: the size, the bytes, padding |
| OscMessage.BlobWritten | src/lx4p/LXOSCMessage.java:760-785 | the size, the bytes and the padding written one after another are the encoded blob |
| OscMessage.AddArgumentToBytes | src/lx4p/LXOSCMessage.java:494-515 | the type dispatch writes what `WriteArgument` gives for the argument's type. Uses the corrected double and string writers (see Findings and Left out). |
| OscMessage.AddArgumentsToBytes | src/lx4p/LXOSCMessage.java:493-520 | the argument loop writes what `WriteArguments` gives, and -1 once an index reaches the buffer end. Uses the corrected double and string writers (see Findings and Left out). |
| OscMessage.Message.constructor | src/lx4p/LXOSCMessage.java:31-34 | a new message has no parts and no arguments |
| OscMessage.Message.WithParts | src/lx4p/LXOSCMessage.java:39-42 | the given parts, no arguments |
| OscMessage.Message.FromString | src/lx4p/LXOSCMessage.java:47-50 | the parts of the address string, no arguments |
| OscMessage.Message.SetAddressPattern | src/lx4p/LXOSCMessage.java:64-66 | the parts are replaced; the arguments are unchanged |
| OscMessage.Message.SetAddressPatternString | src/lx4p/LXOSCMessage.java:72-74 | the parts become those of the string; the arguments are unchanged |
| OscMessage.Message.AddAddressPart | src/lx4p/LXOSCMessage.java:98-100 | one part appended at the end; nothing else changes |
| OscMessage.Message.AddressPartAt | src/lx4p/LXOSCMessage.java:107-112 | the part at `n`, "" past the end, and a fault exactly for a negative index |
| OscMessage.Message.MatchesAddressPattern | src/lx4p/LXOSCMessage.java:119-130 | the loop decides `MatchesAsPattern`: every part of the test pattern matches the message's part at the same index, and the test pattern is no longer. Uses the corrected bracket matcher (see Findings and Left out). |
| OscMessage.Message.MatchesOscAddress | src/lx4p/LXOSCMessage.java:137-148 | the loop decides `MatchesAsAddress`: as many parts, each address part matched by the message's pattern part. Uses the corrected bracket matcher (see Findings and Left out). |
| OscMessage.Message.MatchesAddressPatternString | src/lx4p/LXOSCMessage.java:291-293 | the same test on the parts of the string. Uses the corrected bracket matcher (see Findings and Left out). |
| OscMessage.Message.MatchesOscAddressString | src/lx4p/LXOSCMessage.java:310-312 | the same test on the parts of the string. Uses the corrected bracket matcher (see Findings and Left out). |
| OscMessage.Message.PartOfPatternMatchesAddressString | src/lx4p/LXOSCMessage.java:301-303 | a fault exactly outside the parts; otherwise whether the string matches pattern part `p`. Uses the corrected bracket matcher (see Findings and Left out). |
| OscMessage.Message.AddArgument | src/lx4p/LXOSCMessage.java:318-379 | one argument appended; the parts unchanged |
| OscMessage.Message.AddTypeTagArgument | src/lx4p/LXOSCMessage.java:377-379 | a payload-free argument with the given tag appended |
| OscMessage.Message.AddSliceArgument | src/lx4p/LXOSCMessage.java:369-371 | a fault and no change exactly when the slice constructor throws; otherwise the slice appended |
| OscMessage.Message.ArgumentAt | src/lx4p/LXOSCMessage.java:386-391 | an argument exactly when the index is inside the list, and then the one stored there |
| OscMessage.Message.ArgumentCount | src/lx4p/LXOSCMessage.java:405-407 | the number of arguments |
| OscMessage.Message.IntAt | src/lx4p/LXOSCMessage.java:414-420 | 0 outside the list; the stored value for an int argument |
| OscMessage.Message.StringAt | src/lx4p/LXOSCMessage.java:453-459 | "" outside the list; the stored text for a string argument |
| OscMessage.Message.ByteArrayAt | src/lx4p/LXOSCMessage.java:466-474 | the blob's bytes for a blob argument, and an empty array in every other case |
| OscMessage.Message.AddAddressPatternToBytes | src/lx4p/LXOSCMessage.java:535-570 | the buffer and index are those `WriteAddress` gives for the message's parts, or a fault exactly when it does |
| OscMessage.Message.AddArgumentTypeTagsToBytes | src/lx4p/LXOSCMessage.java:578-628 | the buffer and index are `WriteTypeTags(arguments, buffer, start)`: ',' and the tags, a NUL, padding, or -1 without room |
| OscMessage.Message.AddOscMessageToBytes | src/lx4p/LXOSCMessage.java:481-528 | the buffer and length are those `WriteMessage` gives for the message, or a fault exactly when it does; `OscEncodingProperties` proves the reader decodes this encoding. Uses the corrected double and string writers (see Findings and Left out). |
| OscMessageLegacy.AddDoubleArgumentToBytesLegacy | src/lx_for_processing/LXOSCMessage.java:513-538 | the buffer and result follow `WriteDoubleAsWritten`: room is checked for 4 bytes while 8 are written |
| OscMessageLegacy.AddStringArgumentToBytesLegacy | src/lx_for_processing/LXOSCMessage.java:547-569 | the buffer and index follow `WriteStringAsWritten`: the chars, then padding, with no NUL when the length is a multiple of four |
| OscMessageLegacy.AddArgumentToBytesLegacy | src/lx_for_processing/LXOSCMessage.java:320-343 | the type dispatch writes what `WriteArgumentLegacy` gives |
| OscMessageLegacy.AddArgumentsToBytesLegacy | src/lx_for_processing/LXOSCMessage.java:318-348 | the argument loop writes what `WriteArgumentsLegacy` gives, -1 once an index reaches the buffer end |
| OscMessageLegacy.Message.constructor | src/lx_for_processing/LXOSCMessage.java:31-34 | no elements, no arguments |
| OscMessageLegacy.Message.WithElements | src/lx_for_processing/LXOSCMessage.java:39-42 | the given elements, no arguments |
| OscMessageLegacy.Message.FromString | src/lx_for_processing/LXOSCMessage.java:47-50 | the elements of the address string, no arguments |
| OscMessageLegacy.Message.SetAddressPattern | src/lx_for_processing/LXOSCMessage.java:64-66 | the elements replaced; the arguments unchanged |
| OscMessageLegacy.Message.SetAddressPatternString | src/lx_for_processing/LXOSCMessage.java:72-74 | the elements of the string; the arguments unchanged |
| OscMessageLegacy.Message.AddAddressElement | src/lx_for_processing/LXOSCMessage.java:98-100 | one element appended |
| OscMessageLegacy.Message.AddressElementAt | src/lx_for_processing/LXOSCMessage.java:107-112 | the element, "" past the end, a fault exactly for a negative index |
| OscMessageLegacy.Message.MatchesAddressPattern | src/lx_for_processing/LXOSCMessage.java:119-130 | true exactly when the test list equals the message's elements: no wildcards in the older class |
| OscMessageLegacy.Message.MatchesAddressPatternString | src/lx_for_processing/LXOSCMessage.java:137-139 | true exactly when the string's elements equal the message's |
| OscMessageLegacy.Message.AddArgument | src/lx_for_processing/LXOSCMessage.java:145-206 | one argument appended; the elements unchanged |
| OscMessageLegacy.Message.ArgumentAt | src/lx_for_processing/LXOSCMessage.java:213-218 | an argument exactly inside the list, the one stored there |
| OscMessageLegacy.Message.IntAt | src/lx_for_processing/LXOSCMessage.java:241-247 | 0 outside the list; the stored value for an int argument |
| OscMessageLegacy.Message.StringAt | src/lx_for_processing/LXOSCMessage.java:280-286 | "" outside the list; the stored text for a string argument |
| OscMessageLegacy.Message.ByteArrayAt | src/lx_for_processing/LXOSCMessage.java:293-301 | the blob's bytes, an empty array otherwise |
| OscMessageLegacy.Message.AddArgumentTypeTagsToBytes | src/lx_for_processing/LXOSCMessage.java:405-452 | ',' and the tags, then padding without a NUL of its own, as `WriteTypeTagsLegacy` gives |
| OscMessageLegacy.Message.AddOscMessageToBytes | src/lx_for_processing/LXOSCMessage.java:308-355 | the buffer and length `WriteMessageLegacy` gives, or a fault exactly when it does |
| OscMessageProperties.LiteralPatternAsAddress | src/lx4p/LXOSCMessage.java:137-148 | against a pattern without wildcards, `matchesOSCAddress` accepts exactly the addresses with as many parts, each a prefix of its pattern part |
| OscMessageProperties.PatternStringOfParts | src/lx4p/LXOSCMessage.java:291-293 | matching a pattern written out as "/a/b" decides the same as matching its list of parts |
| OscMessageProperties.PatternIgnoresExtraParts | src/lx4p/LXOSCMessage.java:119-130 | a pattern that matches an address also matches every longer address with the same leading parts |
| OscBundle.BundleTag | src/lx4p/LXOSCBundleMessage.java:31-38 | the tag is eight bytes: "#bundle" and its NUL |
| OscBundle.Written | src/lx4p/LXOSCBundleMessage.java:58-70 | the number of leading sub-messages the loop writes is at most the number of sub-messages |
| OscBundle.FramesAppend | src/lx4p/LXOSCBundleMessage.java:58-70 | framing one more sub-message appends its big-endian size and its bytes |
| OscBundle.FramesLength | src/lx4p/LXOSCBundleMessage.java:65-69 | the framed sub-messages take four bytes each plus their lengths |
| OscBundle.WriteSubMessage | src/lx4p/LXOSCBundleMessage.java:60 | the assumed sub-message writer (the two-argument form called here is not declared; see Left out) puts its bytes at `s` and returns the index after them, or returns -1 and writes nothing once it would reach the buffer end |
| OscBundle.WriteBigEndian32 | src/lx4p/LXOSCBundleMessage.java:65-68 | the four bytes of the size, most significant first, just before `s` |
| OscBundle.WriteTag | src/lx4p/LXOSCBundleMessage.java:31-38 | "#bundle" and its NUL from `si`, nothing else changed |
| OscBundle.WriteHeader | src/lx4p/LXOSCBundleMessage.java:31-51 | the tag and the eight bytes of the timetag, most significant first, sixteen bytes from `si` |
| OscBundle.FrameStep | src/lx4p/LXOSCBundleMessage.java:60-69 | after one more sub-message the next frame starts past it and the buffer holds the bundle one message longer |
| OscBundle.LoopStep | src/lx4p/LXOSCBundleMessage.java:58-70 | the value the loop will return and the number it writes are unchanged by one turn that writes a sub-message |
| OscBundle.LoopExit | src/lx4p/LXOSCBundleMessage.java:62-72 | where the loop leaves off, its value is `BundleResult` and the buffer holds the bundle of the sub-messages written |
| OscBundle.FrameNext | src/lx4p/LXOSCBundleMessage.java:59-69 | one turn of the loop: a written sub-message extends the bundle in the buffer; one that is not written leaves the buffer as it was and the loop returns `t - s`, which is -1 - s on overflow and 0 for an empty message |
| OscBundle.AddBundleToBytes | src/lx4p/LXOSCBundleMessage.java:30-73 | the value returned is `BundleResult` (a fault when the 16 header bytes do not fit); the buffer holds, from `si`, the bundle of the sub-messages written and is unchanged elsewhere, given the assumed `WriteSubMessage` |
| OscBundle.AllWritten | src/lx4p/LXOSCBundleMessage.java:58-72 | with room for every non-empty sub-message, all are written and the index past the last is returned; an empty list returns `si + 20` |
| OscBundle.BundleWrittenWhole | src/lx4p/LXOSCBundleMessage.java:30-73 | a bundle with room to spare is written whole and its end index returned |
| OscBundle.OverflowIsNegative | src/lx4p/LXOSCBundleMessage.java:62-63 | when some sub-message is not written, the value returned is not positive |
| OscBundle.RestNonPositive | src/lx4p/LXOSCBundleMessage.java:62-63 | the loop's value from any point on is not positive once a later sub-message is not written |
| OscBundleRoundTrip.Encodings | src/lx4p/LXOSCBundleMessage.java:60 | one encoding per sub-message |
| OscBundleRoundTrip.ReadBack | src/lx4p/LXOSCPacketReader.java:58-187 | one message read back per message written |
| OscBundleRoundTrip.EncodeNonEmpty | src/lx4p/LXOSCMessage.java:481-528 | a message's encoding is never empty |
| OscBundleRoundTrip.FrameSlices | src/lx4p/LXOSCPacketReader.java:58-187 | the first frame's size and bytes, and the frames after it, as slices of the buffer |
| OscBundleRoundTrip.OneFrame | src/lx4p/LXOSCPacketReader.java:58-187 | one turn of the reader's bundle loop over a framed message reads it back and goes on at the next frame or stops at the end. Uses the corrected argument reader (see Findings and Left out). |
| OscBundleRoundTrip.ReadsFrames | src/lx4p/LXOSCPacketReader.java:58-187 | the reader's bundle loop over framed messages returns every message read back, in order, ending at the end of the frames. Uses the corrected argument reader (see Findings and Left out). |
| OscBundleRoundTrip.NextAligned | src/lx4p/LXOSCPacketReader.java:304-307 | the next frame starts at a multiple of four |
| OscBundleRoundTrip.TagReads | src/lx4p/LXOSCPacketReader.java:275-297 | the reader finds the tag's NUL at index 7 and reads "#bundle" |
| OscBundleRoundTrip.BundleReadsBack | src/lx4p/LXOSCPacketReader.java:44-49 | `parseBuffer` over a bundle of readable messages gives back every message, in order, without throwing. Uses the corrected argument reader (see Findings and Left out). |
| OscBundleRoundTrip.EncodingsNonEmpty | src/lx4p/LXOSCBundleMessage.java:60-63 | no encoding is empty, so the writer never stops at a zero size |
| OscBundleRoundTrip.WrittenBundleReadsBack | src/lx4p/LXOSCBundleMessage.java:30-73 | what the bundle writer puts in a buffer with room to spare, `parseBuffer` reads back over the length it returns: the round trip of bundle writer and reader. Uses the corrected writers and reader (see Findings and Left out). |
| OscBundleRoundTrip.WholeWritten | src/lx4p/LXOSCBundleMessage.java:30-73 | a bundle with room to spare is written whole from 0 and its length returned |
| Ntp.ToNtpTime | src/lx4p/LXOSC.java:189-208 | `toNtpTime` of a long is a long |
| Ntp.FractionFits | src/lx4p/LXOSC.java:200 | the fraction fits in 32 bits and stands for the milliseconds below a second |
| Ntp.Base1Seconds | src/lx4p/LXOSC.java:190-204 | before Feb-2036 the seconds fit in 32 bits and the era bit is set on them |
| Ntp.Assemble | src/lx4p/LXOSC.java:206 | shifting the seconds up 32 bits and OR-ing the fraction in puts the two halves side by side |
| Ntp.NtpFields | src/lx4p/LXOSC.java:189-208 | for any time from 1900 on, the low half of the timestamp is the fraction and the high half the seconds, with the era bit set before Feb-2036 |
| Ntp.FractionRounds | src/lx4p/LXOSC.java:200 | rounding the fraction back recovers the milliseconds |
| Ntp.NtpRoundTrip | src/lx4p/LXOSC.java:189-208 | from 1968 to 2104 a reference decoder of the 64-bit timestamp gives back the Java time encoded |
| OscReaderSpec.Unsigned32 | src/lx4p/LXOSCPacketReader.java:162 | four bytes, most significant first, read as a value in [0, 2^32) |
| OscReaderSpec.DecodeBytesToInt | src/lx4p/LXOSCPacketReader.java:220-234 | a value exactly when four bytes from `start` lie inside the array (Java throws otherwise), and then a signed 32-bit `int` |
| OscReaderSpec.Unsigned64 | src/lx4p/LXOSCPacketReader.java:243-265 | eight bytes read as a 64-bit pattern, what the long decoder is meant to give |
| OscReaderSpec.DecodeLongAsWritten | src/lx4p/LXOSCPacketReader.java:243-253 | the long decoder as written: each shift is an `int` shift, so the result is only a 32-bit value (see Findings) |
| OscReaderSpec.OrBytes | src/lx4p/LXOSCPacketReader.java:246-253 | the OR of two masked bytes is an unsigned byte value |
| OscReaderSpec.NextLocationOfChar | src/lx4p/LXOSCPacketReader.java:275-285 | either the first index in [start, endindex) holding the char (no earlier index holds it) or `endindex + 10` when none does |
| OscReaderSpec.NextIndexForIndex | src/lx4p/LXOSCPacketReader.java:304-307 | the next multiple of four strictly after the index, at most four further on for a non-negative index |
| OscReaderSpec.NextIndexForString | src/lx4p/LXOSCPacketReader.java:293-297 | past the string's chars and its NUL, padded to a multiple of four from `start` |
| OscReaderSpec.ArgumentForTag | src/lx4p/LXOSCPacketReader.java:131-138 | the corrected reading of a payload-free tag: the argument is payload-free exactly when the tag is one of T, F, I, N |
| OscReaderSpec.ArgumentForTagAsWritten | src/lx4p/LXOSCPacketReader.java:131-138 | as written, `addArgument(buffer[typeloc])` widens the byte to `int` and adds an int argument holding the tag's code (see Findings) |
| OscReaderSpec.ReadArguments | src/lx4p/LXOSCPacketReader.java:85-144 | the argument loop, when it ends normally, has only appended arguments and only moved the data index forward. Uses the corrected argument reader (see Findings and Left out). |
| OscReaderSpec.ReadMessage | src/lx4p/LXOSCPacketReader.java:70-154 | the message branch returns an index past `begin` unless it returns -1 or throws. Uses the corrected argument reader (see Findings and Left out). |
| OscReaderSpec.ProcessMessageAt | src/lx4p/LXOSCPacketReader.java:58-187 | `processMessageAt` returns an index past `begin` unless it returns -1 or throws, so `parseBuffer` always moves on. Uses the corrected argument reader (see Findings and Left out). |
| OscReaderSpec.ReadBundle | src/lx4p/LXOSCPacketReader.java:156-171 | the bundle loop moves forward and only appends to the messages found. Uses the corrected argument reader (see Findings and Left out). |
| OscReaderSteps.ReadMessageSteps | src/lx4p/LXOSCPacketReader.java:71-145 | the message branch is the argument loop started after the address, past a ',' when there is one |
| OscReaderSteps.MessageBranch | src/lx4p/LXOSCPacketReader.java:70-74 | an address starting with '/' takes the message branch |
| OscReaderSteps.BundleBranch | src/lx4p/LXOSCPacketReader.java:156-171 | "#bundle" takes the bundle loop, whose first size is 16 bytes on |
| OscReaderSteps.RejectBranch | src/lx4p/LXOSCPacketReader.java:172-180 | -1 and nothing added without a NUL four bytes before the end, or with an address that is neither '/…' nor "#bundle" |
| OscReaderSteps.OverrunBranch | src/lx4p/LXOSCPacketReader.java:59-62 | -1 and nothing added when the message overruns the buffer |
| OscReaderSteps.BundleAdvance | src/lx4p/LXOSCPacketReader.java:161-170 | one turn of the bundle loop appends what the sub-message read appended |
| OscReaderSteps.ParseAdvance | src/lx4p/LXOSCPacketReader.java:46-48 | one turn of the `parseBuffer` loop appends what the message read appended |
| OscReaderSteps.ParseBufferStep | src/lx4p/LXOSCPacketReader.java:46-48 | `parseBuffer` stops on an exception or -1 and otherwise goes on from the index returned |
| OscReaderSteps.ReadBundleStep | src/lx4p/LXOSCPacketReader.java:161-170 | the bundle loop stops on an exception, -1 or an index at or past the end, and otherwise goes on |
| OscReader.PacketReader.constructor | src/lx4p/LXOSCPacketReader.java:35-37 | a new reader holds no results |
| OscReader.PacketReader.NextLocationOfChar | src/lx4p/LXOSCPacketReader.java:275-285 | the search loop returns exactly the specification's index |
| OscReader.PacketReader.ParseBuffer | src/lx4p/LXOSCPacketReader.java:44-49 | the results grow by exactly the messages `ParseBuffer` gives, and the method throws exactly when it does. Uses the corrected argument reader (see Findings and Left out). |
| OscReader.PacketReader.ProcessMessageAt | src/lx4p/LXOSCPacketReader.java:58-187 | the index returned, the exception and the messages appended are exactly those of `ProcessMessageAt`. Uses the corrected argument reader (see Findings and Left out). |
| OscReader.PacketReader.ProcessMessage | src/lx4p/LXOSCPacketReader.java:72-154 | the message branch appends and returns what `ReadMessage` gives. Uses the corrected argument reader (see Findings and Left out). |
| OscReader.PacketReader.ProcessBundle | src/lx4p/LXOSCPacketReader.java:156-171 | the bundle branch appends and returns what `ProcessMessageAt` gives. Uses the corrected argument reader (see Findings and Left out). |
| OscReader.PacketReader.ReadMessage | src/lx4p/LXOSCPacketReader.java:71-154 | the index, exception and message (at most one) are those of `ReadMessage`. Uses the corrected argument reader (see Findings and Left out). |
| OscReader.PacketReader.ReadMessageData | src/lx4p/LXOSCPacketReader.java:78-154 | with four data bytes the argument loop decides; otherwise -1, and a message without arguments exactly when the data index is the end. Uses the corrected argument reader (see Findings and Left out). |
| OscReader.PacketReader.EndMessage | src/lx4p/LXOSCPacketReader.java:139-145 | an unknown tag returns -1 and adds nothing; an exception adds nothing; otherwise the message is added |
| OscReader.PacketReader.ReadArgumentsFrom | src/lx4p/LXOSCPacketReader.java:85-144 | the argument loop ends as the specification's loop does. Uses the corrected argument reader (see Findings and Left out). |
| OscReader.PacketReader.ReadArgument | src/lx4p/LXOSCPacketReader.java:86-143 | one turn of the argument loop: the loop goes on from the next tag with the new data index, or ends as the specification's loop ends. Uses the corrected argument reader (see Findings and Left out). |
| OscReader.PacketReader.ReadBundle | src/lx4p/LXOSCPacketReader.java:158-171 | the bundle loop appends and returns what `ReadBundle` gives. Uses the corrected argument reader (see Findings and Left out). |
| OscReader.PacketReader.ReadBundleElement | src/lx4p/LXOSCPacketReader.java:162-169 | one turn of the bundle loop: it stops as the specification stops, or goes on at a later index with the messages found appended. Uses the corrected argument reader (see Findings and Left out). |
| OscReaderProperties.Unsigned32OfBigEndian | src/lx4p/LXOSCPacketReader.java:220-226 | four big-endian bytes read back give the value modulo 2^32 |
| OscReaderProperties.Unsigned64OfBigEndian | src/lx4p/LXOSCPacketReader.java:243-253 | eight big-endian bytes read back give any 64-bit pattern (the corrected long decoder) |
| OscReaderProperties.DecodeIntRoundTrip | src/lx4p/LXOSCPacketReader.java:220-234 | `decode_bytes_to_int` reads back what `addIntArgumentToBytes` writes, and in the other byte order reads the reversed bytes |
| OscReaderProperties.DecodeLongMisreadsAsWritten | src/lx4p/LXOSCPacketReader.java:243-253 | the long decoder as written reads the bytes of the double 1.0 as 0x3FF00000, not 0x3FF0000000000000 |
| OscReaderProperties.PayloadFreeTagsReadAsInts | src/lx4p/LXOSCPacketReader.java:131-138 | as written a T, F, I or N tag comes back as an int argument holding its code; the corrected reading gives back the argument written |
| OscReaderProperties.NextIndexForStringIsPadded | src/lx4p/LXOSCPacketReader.java:293-297 | the reader's string index is the writer's padded OSC-string length |
| OscReaderProperties.NextIndexForIndexIsPadded | src/lx4p/LXOSCPacketReader.java:304-307 | the reader's index after a NUL is the writer's padding |
| OscReaderProperties.NextLocationAt | src/lx4p/LXOSCPacketReader.java:275-285 | the search finds the first occurrence |
| OscReaderProperties.Kept | src/lx4p/LXOSCPacketReader.java:85-144 | the arguments the reader returns are no more than those written |
| OscReaderProperties.KeptAll | src/lx4p/LXOSCPacketReader.java:85-144 | every argument comes back when none is an empty blob and the last has a payload |
| OscReaderProperties.NoPayloadNoBytes | src/lx4p/LXOSCMessage.java:505-512 | T, F, I and N put no bytes after the type tags |
| OscReaderProperties.ReadOne | src/lx4p/LXOSCPacketReader.java:86-143 | one encoded argument is read back: its bytes consumed and the argument kept. Uses the corrected argument reader (see Findings and Left out). |
| OscReaderProperties.ReadIntArgument | src/lx4p/LXOSCPacketReader.java:92-95 | an 'i' tag over four big-endian bytes of `i` adds the int `i` and moves the data cursor on by 4 |
| OscReaderProperties.ReadFloatArgument | src/lx4p/LXOSCPacketReader.java:88-91 | an 'f' tag over four bytes of a 32-bit pattern adds the float with that pattern and moves on by 4 |
| OscReaderProperties.ReadEightByteArgument | src/lx4p/LXOSCPacketReader.java:96-103 | a 'd' or 't' tag over its eight encoded bytes adds that argument back and moves on by 8 (with the corrected 64-bit read) |
| OscReaderProperties.ReadStringArgument | src/lx4p/LXOSCPacketReader.java:104-114 | an 's' tag over an encoded OSC-string adds the string and moves on past its NUL and padding |
| OscReaderProperties.ReadBlobArgument | src/lx4p/LXOSCPacketReader.java:115-130 | a 'b' tag over a size word and padded data adds the blob (nothing for an empty one) and moves on past the padding |
| OscReaderProperties.ReadPayloadFreeArgument | src/lx4p/LXOSCPacketReader.java:131-138 | a T, F, I or N tag adds its argument (corrected reading) and consumes no data bytes |
| OscReaderRoundTrip.ReadMessageWithoutArguments | src/lx4p/LXOSCPacketReader.java:146-154 | when the type-tag string ends the message, the message is recorded with no arguments and the result is -1 |
| OscReaderProperties.ReadsEncodedArguments | src/lx4p/LXOSCPacketReader.java:85-144 | the argument loop over encoded arguments ends at the message end with the arguments `Kept` keeps. Uses the corrected argument reader (see Findings and Left out). |
| OscReaderRoundTrip.ReadsAddress | src/lx4p/LXOSCPacketReader.java:68-74 | the address written is read back: its NUL is the first, its chars come back, and splitting gives the parts |
| OscReaderRoundTrip.ReadsTypeTags | src/lx4p/LXOSCPacketReader.java:74-75 | the type-tag string is read back and the data start right after its padding |
| OscReaderRoundTrip.ProcessEncodedMessage | src/lx4p/LXOSCPacketReader.java:58-187 | `processMessageAt` on an encoded message records its parts and kept arguments and returns the message end, or -1 when no argument has a payload. Uses the corrected argument reader (see Findings and Left out). |
| OscReaderRoundTrip.ParseSingleMessage | src/lx4p/LXOSCPacketReader.java:44-49 | `parseBuffer` stops after a first message that ends the packet or returns -1 |
| OscReaderRoundTrip.ParseEncodedMessage | src/lx4p/LXOSCPacketReader.java:44-49 | `parseBuffer` over one encoded message finds that message, with the arguments `Kept` keeps, and nothing else. Uses the corrected argument reader (see Findings and Left out). |
| OscReaderRoundTrip.ParseEncodedMessageWhole | src/lx4p/LXOSCPacketReader.java:44-49 | every argument comes back when none is an empty blob and the last has a payload: the exact round trip. Uses the corrected argument reader (see Findings and Left out). |
| OscReaderRoundTrip.WrittenMessageReadsBack | src/lx4p/LXOSCMessage.java:481-528 | what `addOSCMessageToBytes` writes into a buffer with room to spare, `parseBuffer` reads back over the length it returns. Uses the corrected writers and reader (see Findings and Left out). |
| MdnsSpec.BitAnd8 | src/lx4p/LXmDNSDiscoverer.java:152-154 | the AND of two byte values is a byte value |
| MdnsSpec.Word16 | src/lx4p/LXmDNSDiscoverer.java:176-177 | two bytes, most significant first, as an unsigned 16-bit value |
| MdnsSpec.Word32 | src/lx4p/LXmDNSDiscoverer.java:183 | four bytes, most significant first, as an unsigned 32-bit value |
| MdnsSpec.CopyOfRange | src/lx4p/LXmDNSDiscoverer.java:165 | `Arrays.copyOfRange`: `to - from` bytes, those of the buffer from `from` and zeros past its end |
| MdnsSpec.Dot | src/lx4p/LXmDNSDiscoverer.java:156-166 | a piece is appended to the name, with a '.' before it unless the name is still empty |
| MdnsSpec.HighOffset | src/lx4p/LXmDNSDiscoverer.java:154 | the high part of a pointer's offset is below 64 for either mask |
| MdnsSpec.MasksAreArithmetic | src/lx4p/LXmDNSDiscoverer.java:152-154 | the arithmetic pointer test and offset are the source's `& 0xC0` test and `& 0x3F` / `& 0x2F` masks |
| MdnsSpec.NameFrom | src/lx4p/LXmDNSDiscoverer.java:145-171 | the label loop: when it reads a name, its end index lies inside the buffer at or after the cursor |
| MdnsSpec.AfterName | src/lx4p/LXmDNSDiscoverer.java:172-187 | the fields after a name never overflow the stack, and a record read keeps the name |
| MdnsSpec.WalkRecords | src/lx4p/LXmDNSDiscoverer.java:221-229 | a section loop reads at most `count` records, and exactly `count` when it finishes |
| MdnsSpec.Deliveries | src/lx4p/LXmDNSDiscoverer.java:221-256 | one delegate call per record, in order, each with the packet id, a query-record call exactly for question records |
| MdnsSpec.WalkSections | src/lx4p/LXmDNSDiscoverer.java:221-256 | the four section loops make one call per record of every section when they finish |
| MdnsSpec.SectionCounts | src/lx4p/LXmDNSDiscoverer.java:211-214 | four counts, each the big-endian 16-bit value at bytes 4, 6, 8 and 10 |
| MdnsSpec.Received | src/lx4p/LXmDNSDiscoverer.java:196-202 | the packet buffer after a receive: the datagram's bytes at the front, the old contents after them |
| MdnsSpec.Utf8Char | src/lx4p/LXmDNSDiscoverer.java:284 | the UTF-8 bytes of one char: one to four bytes, one exactly for ASCII |
| MdnsSpec.Utf8 | src/lx4p/LXmDNSDiscoverer.java:284 | at least one byte per char |
| MdnsSpec.QueryHeader | src/lx4p/LXmDNSDiscoverer.java:277-281 | twelve bytes of header |
| MdnsDiscoverer.ReadReplyRecordFromPacket | src/lx4p/LXmDNSDiscoverer.java:144-188 | the method throws, overflows or returns a fresh record exactly as `ReadRecord` says, with the record's fields those of `ReadRecord` and its packet id 0. Uses the corrected pointer mask 0x3F (see Findings and Left out). |
| MdnsDiscoverer.ReadLabels | src/lx4p/LXmDNSDiscoverer.java:145-171 | the label loop returns exactly `NameAt`. Uses the corrected pointer mask 0x3F (see Findings and Left out). |
| MdnsDiscoverer.LabelTurn | src/lx4p/LXmDNSDiscoverer.java:149-170 | one turn of the label loop: it ends as `NameFrom` ends, or moves the cursor forward without changing what `NameFrom` reads. Uses the corrected pointer mask 0x3F (see Findings and Left out). |
| MdnsDiscoverer.LabelStep | src/lx4p/LXmDNSDiscoverer.java:162-167 | a label's bytes join the name and the loop goes on after them |
| MdnsDiscoverer.PointerStep | src/lx4p/LXmDNSDiscoverer.java:152-160 | a pointer ends the name with the name read at its target, and a failure there fails the whole read. Uses the corrected pointer mask 0x3F (see Findings and Left out). |
| MdnsDiscoverer.LabelsOnlyName | src/lx4p/LXmDNSDiscoverer.java:172-174 | a labels-only read succeeds and fails with the name read, and holds only the name |
| MdnsDiscoverer.ReadFields | src/lx4p/LXmDNSDiscoverer.java:176-187 | the fields after a name, and the fresh record holding them, are those of `AfterName` |
| MdnsDiscoverer.Delegated | src/lx4p/LXmDNSDiscoverer.java:225-227 | every call is made when a delegate is set, and none otherwise |
| MdnsDiscoverer.CallsAppend | src/lx4p/LXmDNSDiscoverer.java:221-256 | the calls made after earlier calls are the calls for both, in order |
| MdnsDiscoverer.WalkOn | src/lx4p/LXmDNSDiscoverer.java:222-228 | a record read joins the records read, and the walk goes on at its next location |
| MdnsDiscoverer.WalkEnds | src/lx4p/LXmDNSDiscoverer.java:259-264 | a read that throws or overflows ends the walk with the records read so far |
| MdnsDiscoverer.WalkDone | src/lx4p/LXmDNSDiscoverer.java:221-229 | after `count` records the walk finishes |
| MdnsDiscoverer.DeliveriesAppend | src/lx4p/LXmDNSDiscoverer.java:225-227 | one more record at the end gives one more call at the end |
| MdnsDiscoverer.Discoverer.constructor | src/lx4p/LXmDNSDiscoverer.java:73-91 | a zeroed 1024-byte packet buffer, packet id 0, no delegate calls yet, and a delegate exactly when one is set |
| MdnsDiscoverer.Discoverer.Receive | src/lx4p/LXmDNSDiscoverer.java:196-202 | the packet buffer becomes `Received(old buffer, datagram)` |
| MdnsDiscoverer.Discoverer.TakeRecord | src/lx4p/LXmDNSDiscoverer.java:222-228 | one turn of a section loop: the record is `ReadRecord`'s, and a read record adds exactly its one call (when there is a delegate). Uses the corrected pointer mask 0x3F (see Findings and Left out). |
| MdnsDiscoverer.Discoverer.WalkSection | src/lx4p/LXmDNSDiscoverer.java:221-229 | a section loop ends where `WalkRecords` ends and adds exactly the calls for the records read. Uses the corrected pointer mask 0x3F (see Findings and Left out). |
| MdnsDiscoverer.Discoverer.ReadPacket | src/lx4p/LXmDNSDiscoverer.java:193-267 | a timeout changes nothing and returns 0; otherwise the buffer is the received one, the packet id is incremented (wrapping as an `int`) exactly when the packet counts, the calls are those of `ParsePacket`, and the status is 1 for a packet read to the end. Uses the corrected pointer mask 0x3F (see Findings and Left out). |
| MdnsDiscoverer.Discoverer.ParseBuffer | src/lx4p/LXmDNSDiscoverer.java:203-258 | the packet id, calls and status after reading the buffer are those `ParsePacket` gives. Uses the corrected pointer mask 0x3F (see Findings and Left out). |
| MdnsDiscoverer.Discoverer.WalkPacket | src/lx4p/LXmDNSDiscoverer.java:221-256 | the four section loops end as `WalkSections` ends and add exactly its calls. Uses the corrected pointer mask 0x3F (see Findings and Left out). |
| MdnsDiscoverer.Discoverer.StepSection | src/lx4p/LXmDNSDiscoverer.java:221-256 | section `k` adds its records' calls; the walk ends there or goes on after it. Uses the corrected pointer mask 0x3F (see Findings and Left out). |
| MdnsDiscoverer.PacketRejected | src/lx4p/LXmDNSDiscoverer.java:203-209 | a packet whose first two bytes do not sum to zero, or whose flags are neither a plain query nor a response, is not counted and makes no call |
| MdnsDiscoverer.PacketAccepted | src/lx4p/LXmDNSDiscoverer.java:209-257 | an accepted packet walks its four sections from byte 12 |
| MdnsDiscoverer.SectionsOn | src/lx4p/LXmDNSDiscoverer.java:221-256 | a walked section ends the walk or adds its calls and goes on after it |
| MdnsDiscoverer.SectionsDone | src/lx4p/LXmDNSDiscoverer.java:221-257 | after four sections the walk finishes with the calls made |
| MdnsDiscoverer.SendSearch | src/lx4p/LXmDNSDiscoverer.java:273-314 | the packet `sendSearch` builds (or its abandoning or crashing) is `SearchOutcome`, the query of `MdnsSpec` |
| MdnsDiscoverer.WriteQuestionTail | src/lx4p/LXmDNSDiscoverer.java:295-304 | the terminator, type `0, targetType` and class `0, 1` after the labels, the bytes before unchanged |
| MdnsDiscoverer.WriteLabel | src/lx4p/LXmDNSDiscoverer.java:284-290 | one label: its length byte, then its bytes, the bytes before unchanged |
| MdnsDiscoverer.LabelWritten | src/lx4p/LXmDNSDiscoverer.java:282-294 | one more label written keeps the header and the earlier labels in place |
| MdnsDiscoverer.EncodeLabelsAppend | src/lx4p/LXmDNSDiscoverer.java:282-294 | labels written one after another |
| MdnsProperties.EncodeAsciiLabels | src/lx4p/LXmDNSDiscoverer.java:284 | for ASCII labels the UTF-8 encoding is one byte per char |
| MdnsProperties.LabelChars | src/lx4p/LXmDNSDiscoverer.java:165 | the chars of an ASCII label read back one byte each |
| MdnsProperties.OneLabel | src/lx4p/LXmDNSDiscoverer.java:162-167 | one encoded label is joined to the name and the loop goes on after it |
| MdnsProperties.LabelsThen | src/lx4p/LXmDNSDiscoverer.java:148-171 | the label loop passes over encoded labels, joining each to the name |
| MdnsProperties.DotAllJoins | src/lx4p/LXmDNSDiscoverer.java:162-166 | joining labels one by one puts their dotted join after the name so far |
| MdnsProperties.PlainNameRead | src/lx4p/LXmDNSDiscoverer.java:145-171 | labels and a zero byte read back as their dotted join, ending at the zero byte |
| MdnsProperties.PointerReadsTarget | src/lx4p/LXmDNSDiscoverer.java:152-160 | a pointer ends the name with the name at its target; a failure there is the failure of the whole read. Uses the corrected pointer mask 0x3F (see Findings and Left out). |
| MdnsProperties.PointerDecodes | src/lx4p/LXmDNSDiscoverer.java:152-154 | the two bytes of a pointer to `p` are read as a pointer to `p` (with the corrected mask) |
| MdnsProperties.JoinAppend | src/lx4p/LXmDNSDiscoverer.java:156-158 | two dotted names joined with a '.' between them |
| MdnsProperties.CompressedName | src/lx4p/LXmDNSDiscoverer.java:145-171 | labels followed by a pointer to more labels read as the whole name, as section 4.1.4 of RFC 1035 describes, ending after the pointer |
| MdnsProperties.NamesJoin | src/lx4p/LXmDNSDiscoverer.java:156-159 | the name built from the labels and then the pointed-to name is the join of both |
| MdnsProperties.PointerMaskAsWritten | src/lx4p/LXmDNSDiscoverer.java:154 | as written, a pointer with offset bit 12 set reads the name at the wrong offset; the 14-bit offset reads past the packet |
| MdnsProperties.MasksAgreeOnGoodNames | src/lx4p/LXmDNSDiscoverer.java:154 | in a buffer of at most 4096 bytes every name the corrected mask reads, the source's mask reads the same |
| MdnsProperties.MaskedLength | src/lx4p/LXmDNSDiscoverer.java:185 | the data length drops bit 15, as the class getter does |
| MdnsProperties.QuestionLayout | src/lx4p/LXmDNSDiscoverer.java:176-181 | a question record: type and class after the name's zero byte, no data, the next record 5 bytes after the zero byte |
| MdnsProperties.AnswerLayout | src/lx4p/LXmDNSDiscoverer.java:176-187 | an answer record: the TTL read as a signed `int`, a data length without its top bit, the data copied (zero-padded past the buffer), the next record after the data |
| MdnsProperties.SectionsRouting | src/lx4p/LXmDNSDiscoverer.java:221-256 | each call carries the packet id, and exactly the first question-count calls are query-record calls |
| MdnsProperties.PacketRouting | src/lx4p/LXmDNSDiscoverer.java:203-257 | a packet counts only when its header passes; every call then carries its id, and exactly the first `questionRecords` calls go to `receivedMDNSQueryRecord` |
| MdnsProperties.LabelsFitWhenAllFits | src/lx4p/LXmDNSDiscoverer.java:282-294 | every label fits when the labels and the 5 closing bytes fit |
| MdnsProperties.EncodeLabelsLength | src/lx4p/LXmDNSDiscoverer.java:282-290 | the encoded labels are one byte longer than the dotted name |
| MdnsProperties.EmptySections | src/lx4p/LXmDNSDiscoverer.java:221-256 | zero counts read nothing and finish |
| MdnsProperties.QueryQuestion | src/lx4p/LXmDNSDiscoverer.java:144-188 | the one question of a query, read back: the name, the type, class IN, no data |
| MdnsProperties.SearchReadsBack | src/lx4p/LXmDNSDiscoverer.java:273-314 | `sendSearch` then `readPacket`: a dotted ASCII name is sent and received as exactly one question record with that name, the target type and class IN |
| MdnsProperties.SearchSent | src/lx4p/LXmDNSDiscoverer.java:273-314 | a name of ASCII labels that fits is sent as the query for its labels, 18 bytes longer than the name |
| MdnsProperties.ReceivedHolds | src/lx4p/LXmDNSDiscoverer.java:196-202 | the received buffer holds the datagram from its start |
| MdnsProperties.QueryPacketParsed | src/lx4p/LXmDNSDiscoverer.java:193-267 | a buffer that starts with a query gives one question record, with the packet's id, and the walk finishes |
| DnsRecord.ClassOf | src/lx4p/LXDNSReplyRecord.java:56-58 | the class without the cache-flush bit: below 0x8000 and equal to the field modulo 0x8000 |
| DnsRecord.ClassSplit | src/lx4p/LXDNSReplyRecord.java:56-62 | a 16-bit class field is the flag bit plus the class: the two getters split it without loss |
| DnsRecord.NextLocation | src/lx4p/LXDNSReplyRecord.java:68-73 | the data start when there is no data, else the index just past the data |
| DnsRecord.ReplyRecord.constructor | src/lx4p/LXDNSReplyRecord.java:31-38 | every field stored as given; the packet id starts at 0 |
| DnsRecord.ReplyRecord.SetPacketID | src/lx4p/LXDNSReplyRecord.java:48-50 | the packet id reads back as set; the other fields unchanged |
| JsonTree.Element.constructor | src/lx4p/LXJSONElement.java:39-41 | empty tag and value, not an array, no sub-elements, no parent |
| JsonTree.Element.WithParent | src/lx4p/LXJSONElement.java:47-49 | an empty element whose parent is the one given |
| JsonTree.Element.WithArrayFlag | src/lx4p/LXJSONElement.java:56-59 | the array flag as given, and the parent left null, because the constructor chains with `null` and never stores its parent argument |
| JsonTree.Element.WithFields | src/lx4p/LXJSONElement.java:67-72 | tag, value and parent as given, no sub-elements, not an array |
| JsonTree.Element.AddSubElement | src/lx4p/LXJSONElement.java:78-82 | exactly one new, blank sub-element is appended, its parent this element; the element's own fields are unchanged |
| JsonTree.Element.FindSubElement | src/lx4p/LXJSONElement.java:89-99 | the sub-element at the first index whose tag is the one searched for, or null when there is none |
| JsonTree.TagsOf | src/lx4p/LXJSONElement.java:89-99 | the tags of the sub-elements, one per sub-element, in order |
| JsonTree.FirstIndexFrom | src/lx4p/LXJSONElement.java:91-97 | an index the search from `i` finds lies at or after `i` and holds the tag |
| JsonTree.FirstIndex | src/lx4p/LXJSONElement.java:89-99 | an index the search finds holds the tag |
| JsonTree.FirstFromIsFirst | src/lx4p/LXJSONElement.java:91-97 | the search from `i` finds `k` exactly when `k` is the first match at or after `i` |
| JsonTree.FirstFromNone | src/lx4p/LXJSONElement.java:91-98 | the search from `i` finds nothing exactly when no tag at or after `i` matches |
| JsonTree.FirstIndexIsFirst | src/lx4p/LXJSONElement.java:89-99 | `findSubElement` returns the first sub-element with the tag, and null exactly when none has it |
| JsonTree.AddedKeepsFirst | src/lx4p/LXJSONElement.java:78-99 | after `addSubElement` a search finds what it found before, or the new element when searching for "" and no earlier element has the empty tag |
| JsonLex.LexStep | src/lx_for_processing/LXJSONParser.java:49-113 | a non-structural character keeps the escape and quote flags from both being set, and either leaves the gathered text alone or appends that character |
| JsonLex.WithoutSpaces | src/lx_for_processing/LXJSONParser.java:107-108 | the text with its spaces dropped is no longer and has no space |
| JsonLex.LexRunAppend | src/lx_for_processing/LXJSONParser.java:36-41 | characters read in two pieces are read as the whole |
| JsonLex.QuotedRun | src/lx_for_processing/LXJSONParser.java:53-58 | inside quotes every character up to the closing '"' is kept, structural ones included, and the quote closes |
| JsonLex.BareRun | src/lx_for_processing/LXJSONParser.java:107-111 | plain text outside quotes is kept without its spaces |
| JsonLex.EscapedChar | src/lx_for_processing/LXJSONParser.java:50-61 | a backslash outside quotes keeps the next character whatever it is, structural or not |
| JsonParser.Parser.constructor | src/lx_for_processing/LXJSONParser.java:17-26 | the field initialisers: every flag off, depth 0, no root, no element, no text |
| JsonParser.Parser.ParseString | src/lx_for_processing/LXJSONParser.java:28-47 | the state and depth are reset and the valid flag set before the first character; every character after the first is read while the parser is valid and incomplete, and characters are read until the input ends, the parser is invalid or it is complete; the result is null when invalid and the root otherwise; an empty input resets only the state and depth and leaves `valid` and the root as they were, and a parser already complete reads one character and stops |
| JsonParser.Parser.ProcessCharacter | src/lx_for_processing/LXJSONParser.java:49-113 | a non-structural character moves the escape/quote/text layer as `LexStep` says and changes nothing else; a structural one leaves both flags clear; no character makes the parser valid or incomplete again |
| JsonParser.Parser.ProcessColon | src/lx_for_processing/LXJSONParser.java:68-75 | in state 0 the gathered text becomes the element's tag and state 1 begins (a null element throws after the state change); otherwise the input becomes invalid |
| JsonParser.Parser.ProcessComma | src/lx_for_processing/LXJSONParser.java:76-91 | in state 1 the text becomes the value and state 0 begins; in state 0 the text becomes the tag inside an array; then a sibling is added and filled next; a missing element or parent throws |
| JsonParser.Parser.ProcessLeftBracket | src/lx_for_processing/LXJSONParser.java:92-98 | in state 1 the element becomes an array and a new first item is filled next; otherwise nothing changes |
| JsonParser.Parser.ProcessRightBracket | src/lx_for_processing/LXJSONParser.java:99-106 | inside an array the text becomes the item's tag and the array is filled next; outside one the input becomes invalid; a missing parent throws |
| JsonParser.Parser.ProcessLeftBrace | src/lx_for_processing/LXJSONParser.java:115-128 | at depth 0 a new root with one blank child, filled next; in state 1 one level down into a new first child; otherwise the input becomes invalid |
| JsonParser.Parser.ProcessRightBrace | src/lx_for_processing/LXJSONParser.java:130-142 | the depth drops by one; reaching 0 completes the parse; otherwise a value being read is stored, state 0 begins and the parent is filled next |

## Left out

- Sockets, datagram sending and receiving, the serial port, threads and the discovery loops: a received datagram is a parameter and a sent one is a returned value. `LXDMXEthernet`, the `lx_for_processing` `LXOSC` socket wrapper, `LXUPnPDiscoverer`, `LXHueInterface` and the Processing UI widgets are not part of this model.
- Printing and logging (`printError`, `printMessage`, `LXJSONElement.print`): they only write text.
- Listener and delegate calls: the Art-Net poll-reply listener's answer is a boolean parameter; the mDNS delegate calls are the returned sequence of records with their section.
- The wall clock: `System.currentTimeMillis()` in the bundle writer is the timestamp parameter.
- ArtNet.ArtNetNode.GetSlot: its `requires` keeps the slot in the documented range 1..512. In the source any other slot indexes `slot - 1` outside the 512-entry buffers and throws `ArrayIndexOutOfBoundsException`; the model does not state that throw.
- ArtNet.ArtNetNode.SetSlot: the same range 1..512 and the same throw outside it.
- ArtNet.ArtNetNode.SetSlotLevel: the same range 1..512 and the same throw outside it.
- Sacn.SacnNode.GetSlot: its `requires` keeps the slot in 0..512, the start code and the 512 levels. In the source any other slot indexes outside the 513-entry buffers and throws `ArrayIndexOutOfBoundsException`; the model does not state that throw.
- Sacn.SacnNode.SetSlot: the same range 0..512 and the same throw outside it.
- Enttec.EnttecWidget.GetSlot: its `requires` keeps the slot in 0..512. In the source any other slot indexes outside the 513-entry buffer and throws `ArrayIndexOutOfBoundsException`; the model does not state that throw.
- Enttec.EnttecWidget.SetSlot: the same range 0..512 and the same throw outside it.
- Enttec.EnttecWidget.SetSlotLevel: the same range 0..512 and the same throw outside it.
- ENTTEC `getUniverse` and `setUniverse`: they are stubs that do nothing for a serial widget.
- Floating point: float and double arguments are their raw 32-bit and 64-bit patterns. `Float.floatToIntBits`, `Double.doubleToLongBits` (with its NaN canonicalisation), `decode_ieee_single` and `decode_ieee_double` are not modelled, and no round trip of double values through IEEE decoding is claimed; 'd' and 't' arguments round-trip as 64-bit patterns (`OscReaderProperties.ReadEightByteArgument`, `OscReaderRoundTrip.WrittenMessageReadsBack`).
- OscMessage.Message.IntAt: where `getInt()` converts a float, a double or a parsed string to `int`, the model gives `None`. Its contract states only the out-of-range and int cases. The same holds for `OscMessageLegacy.Message.IntAt`.
- OscMessage.Message.StringAt: where `getString()` returns a number formatted by `toString`, or a blob's text ("" or null by constructor), the model gives `None`. The same holds for `OscMessageLegacy.Message.StringAt`.
- `DMX_MIN_SLOTS` and `setStringInByteArray` are declared in a base class that is not part of this model. The constant is 24, as the doc comments say. The string writer is taken to write the chars and then a NUL.
- Strings read from packets (`new String(bytes)`) and strings written (`getBytes()`) use one byte per char (Latin-1). A platform default charset other than that is not modelled. The mDNS search name is encoded as UTF-8, as the source asks.
- The mDNS name reader has no depth bound in the source, so a pointer loop overflows the Java stack. The model reads at most `depth` nested pointers and reports `TooDeep` past that, standing for the stack overflow.
- The JSON parser's `state == 3` branch on ',' is never reached, because no code sets state 3; it is left out.
- JsonParser.Parser.ParseString: its contract states the reset (the first character is read with state 0, depth 0 and the valid flag set), that every character after the first is read while the parser is valid and incomplete, the stopping rule and the result. The shape of the tree built from a whole document is stated per character (`ProcessCharacter` and its branches), not for the whole string.
- Ntp.NtpRoundTrip: stated for times from 1968 to 2104 only, where the era bit tells the two bases apart.
- OscReaderRoundTrip.WrittenMessageReadsBack: stated for readable messages only (string chars in 1..255, blob sizes that fit an `int`), since a string holding a NUL or a char above 255 does not read back. It composes the corrected writer and the corrected reader (see Findings): in the source, "abcd" is written without its NUL, a 'T' tag reads back as the int 84, and an 8-byte argument reads back as a 32-bit value, so the round trip is the intended one, not the source's.
- OscBundleRoundTrip.WrittenBundleReadsBack: stated for bundles whose messages each carry an argument with a payload, since the reader returns -1 after a message without one and stops the bundle there. Like the single-message round trip it composes the corrected writer and reader.
- EnttecProperties.ReceivedMessageLevels: stated for messages of fewer than 513 levels with no 0xE7 among their levels and length bytes. `readBytesUntil` cuts any other message at its first 0xE7 (`EnttecProperties.ReadStopsAtFirstEnd`), and a full universe faults (`EnttecProperties.FullUniverseFaultsAsWritten`, see Findings).
- Enttec.EnttecWidget.ReadSerialPacket: the serial library is not part of this model. Its `readBytesUntil(0xE7, buffer)` is taken to copy the waiting bytes up to and including the first 0xE7, to give 0 and copy nothing when no 0xE7 has arrived, and to give -1 and copy nothing when those bytes do not fit the buffer (`EnttecSpec.ReadBytesUntilEnd`). The same holds for `Enttec.EnttecWidget.ReadPacket`.
- OscBundle.WriteSubMessage: the bundle writer calls `msg.addOSCMessageToBytes(buffer, s)`, a two-argument form that `LXOSCMessage` does not declare; it declares only the one-argument form, which writes from offset 0. The model takes the evidently intended behaviour: the message's encoding is written at `s` and the index after it is returned, or -1 is returned with the buffer unchanged once it would reach the buffer end. The source promises neither half. In particular the one-argument form leaves partial bytes behind when it fails.
- OscBundle.AddBundleToBytes: its buffer contents, on success and after a failed sub-message, rest on that assumed `WriteSubMessage` behaviour. The same holds for `OscBundle.FrameNext`.

The members below use the corrected definitions of the "## Findings" rows, so on the inputs those rows name they do what the library evidently intends, not what it does. The as-written behaviour is stated by the as-written member of each row.

- ArtNet.ArtNetNode.ProcessDatagramPacket: decodes an ArtPollReply with the corrected `ParseInfo`, reading each name from its own offset. In the source, a short name under 7 chars makes the constructor throw; `readArtNetPacket` catches that, the listener is not called and the output node address is kept. The model hands the decoded reply to the listener. This library's own name arrives whole, where the source reads "ocessing".
- OscMessage.AddressCharMatchesBracketPattern: uses the corrected bracket matcher, which answers false for every list whose range scan reaches a final '-'. The source differs in two ways. When the char is above the one before the dash ("[ab-]" against 'z'), it reads past the list and throws. When the list is negated and the char is not above the one before the dash ("[!ab-]" against 'A'), it ends the loop without reading past the list and answers true (`OscMatchProperties.NegatedTrailingDashAsWritten`).
- OscMessage.AddressPartMatchesPatternPart: its bracket branch is the corrected matcher, with the same difference.
- OscMessage.Message.MatchesAddressPattern: matches through the corrected bracket matcher, with the same difference.
- OscMessage.Message.MatchesOscAddress: matches through the corrected bracket matcher, with the same difference.
- OscMessage.Message.MatchesAddressPatternString: matches through the corrected bracket matcher, with the same difference.
- OscMessage.Message.MatchesOscAddressString: matches through the corrected bracket matcher, with the same difference.
- OscMessage.Message.PartOfPatternMatchesAddressString: matches through the corrected bracket matcher, with the same difference.
- OscMessage.AddressPartMatchesBracePatternPart: after the chosen alternative it goes on with the corrected part matcher on the rest of the pattern. For "az" against "{a}[ab-]" the source goes from the brace method back to the bracket method, reads past the list and throws; the model answers false. For "aA" against "{a}[!ab-]" the source answers true and the model false.
- OscEncoding.WriteArgument: dispatches to the corrected double writer and the corrected string writer. A double with 4 to 7 bytes left returns the buffer length (which the loop turns into -1) where the source throws. A string whose chars end on a 4-byte boundary ("abcd") gets a NUL word the source leaves out.
- OscEncoding.WriteArguments: built on the corrected writers, with the same differences.
- OscEncoding.WriteMessage: built on the corrected writers, with the same differences.
- OscMessage.AddArgumentToBytes: dispatches to the corrected double and string writers, with the same differences.
- OscMessage.AddArgumentsToBytes: built on the corrected dispatch, with the same differences.
- OscMessage.Message.AddOscMessageToBytes: writes what the corrected `WriteMessage` gives, with the same differences.
- OscEncodingProperties.WriteArgumentWrites: states the corrected encoding. The source writes "abcd" without its NUL and throws for a double with 4 to 7 bytes left.
- OscEncodingProperties.WriteArgumentsWrites: states the corrected encodings, with the same differences.
- OscEncodingProperties.WriteMessageFaults: "throws exactly for an empty pattern in a tiny buffer" holds of the corrected writer. The source also throws for a double with 4 to 7 bytes left.
- OscEncodingProperties.WriteMessageLength: gives the length of the corrected `Encode(m)`. The source's string writer writes a word less for each string whose chars end on a 4-byte boundary.
- OscEncodingProperties.WriteMessageWithRoom: holds of the corrected writer. The source's string writer writes a different encoding.
- OscEncodingProperties.WriteMessageEncodes: proves the corrected wire format, not the source's writer.
- OscReaderSpec.ReadArguments: reads with the corrected `ArgumentForTag` and `Unsigned64`. In the source, 'T', 'F', 'I' and 'N' read back as the int arguments 84, 70, 73 and 78, and an 8-byte argument ('h', 'd', 't') reads back as a 32-bit value, its two halves OR-ed byte by byte.
- OscReader.PacketReader.ParseBuffer: appends the messages of the corrected reader, with the same differences.
- OscReader.PacketReader.ReadArgumentsFrom: ends as the corrected loop does, with the same differences.
- OscReader.PacketReader.ReadArgument: one turn of the corrected loop; 'T' gives the True argument, where the source gives the int 84.
- OscReaderSpec.ReadMessage: the message branch reads its arguments with the corrected `ReadArguments`. For the tag string ",T" the source adds the int argument 84; the model adds True. An 8-byte argument reads back whole, where the source reads a 32-bit value.
- OscReaderSpec.ProcessMessageAt: built on the corrected `ReadMessage`, with the same differences.
- OscReaderSpec.ReadBundle: reads each framed message with the corrected `ProcessMessageAt`, with the same differences.
- OscReader.PacketReader.ProcessMessageAt: equals the corrected `OscReaderSpec.ProcessMessageAt`, with the same differences.
- OscReader.PacketReader.ProcessMessage: returns what the corrected `ReadMessage` gives, with the same differences.
- OscReader.PacketReader.ProcessBundle: returns what the corrected `ProcessMessageAt` gives for the bundle, with the same differences.
- OscReader.PacketReader.ReadMessage: equals the corrected `ReadMessage`, with the same differences.
- OscReader.PacketReader.ReadMessageData: calls the corrected argument loop `ReadArgumentsFrom`, with the same differences.
- OscReader.PacketReader.ReadBundle: equals the corrected `ReadBundle`, with the same differences.
- OscReader.PacketReader.ReadBundleElement: one turn of the corrected bundle loop, with the same differences.
- OscReaderProperties.ReadOne: the argument read back is the corrected reader's; in the source a 'T' tag gives the int 84 and an 8-byte argument a 32-bit value.
- OscReaderProperties.ReadsEncodedArguments: the argument loop read back is the corrected one, with the same differences.
- OscReaderRoundTrip.ProcessEncodedMessage: the arguments it records are the corrected reader's, with the same differences.
- OscReaderRoundTrip.ParseEncodedMessage: reads with the corrected reader, with the same differences.
- OscReaderRoundTrip.ParseEncodedMessageWhole: the exact round trip holds of the corrected writer and reader, not of the source's.
- OscBundleRoundTrip.BundleReadsBack: reads with the corrected reader, with the same differences.
- OscBundleRoundTrip.OneFrame: reads the frame back with the corrected argument reader, with the same differences.
- OscBundleRoundTrip.ReadsFrames: reads the frames back with the corrected argument reader, with the same differences.
- OscMessage.AddDoubleArgumentToBytes: is the corrected double writer, the intended half of its Findings row. With 4 to 7 bytes left the source throws.
- OscMessage.AddStringArgumentToBytes: is the corrected string writer, the intended half of its Findings row. The source writes "abcd" without its NUL.
- OscReaderProperties.ReadEightByteArgument: reads with the corrected `Unsigned64`. In the source an 8-byte argument reads back as a 32-bit value.
- OscReaderProperties.ReadPayloadFreeArgument: reads with the corrected `ArgumentForTag`. In the source 'T', 'F', 'I' and 'N' read back as the int arguments 84, 70, 73 and 78.
- OscReaderProperties.Unsigned64OfBigEndian: is the round trip of the corrected `Unsigned64`, the intended half of its Findings row; `OscReaderProperties.DecodeLongMisreadsAsWritten` states the source's reading.
- MdnsProperties.PointerDecodes: decodes the pointer under the corrected mask 0x3F. For the pointer bytes 0xD0 0x00 the source reads offset 0.
- MdnsDiscoverer.ReadLabels: follows compression pointers with the corrected mask 0x3F. For a pointer byte 0xD0 the source masks with 0x2F and reads the name at offset 0; the model goes to offset 0x1000 and, past the packet, throws.
- MdnsDiscoverer.ReadReplyRecordFromPacket: reads names with the corrected mask, with the same difference.
- MdnsDiscoverer.Discoverer.ReadPacket: parses with the corrected mask, so its records differ from the source's on a pointer with bit 12 set.
- MdnsDiscoverer.LabelTurn: one turn of `NameFrom` under the corrected mask 0x3F. For the pointer bytes 0xD0 0x00 the source reads the name at offset 0; the model goes to offset 0x1000 and, past the packet, throws.
- MdnsDiscoverer.PointerStep: follows the pointer target under the corrected mask, with the same difference.
- MdnsDiscoverer.Discoverer.TakeRecord: the record is the one the corrected `ReadRecord` reads, with the same difference.
- MdnsDiscoverer.Discoverer.WalkSection: walks records read with the corrected mask, with the same difference.
- MdnsDiscoverer.Discoverer.ParseBuffer: equals `ParsePacket` over the corrected `ReadRecord`, with the same difference.
- MdnsDiscoverer.Discoverer.WalkPacket: walks the four sections with records read under the corrected mask, with the same difference.
- MdnsDiscoverer.Discoverer.StepSection: one section read under the corrected mask, with the same difference.
- MdnsProperties.PointerReadsTarget: states `NameFrom` under the corrected mask 0x3F as the meaning of a pointer; `PointerMaskAsWritten` states the source's 0x2F reading.

## Findings

| source | as written | input that shows it | evidently intended | confidence | as-written member | corrected member |
|---|---|---|---|---|---|---|
| src/lx4p/LXArtNetPollReplyInfo.java:61-72 | both names are copied from offset 33, the short name up to the first NUL after 26 and the long name up to the first NUL after 44 | the ArtPollReply this library sends, with short name "LXforProcessing": the short name comes out as "ocessing"; a short name under 7 chars makes `copyOfRange` throw | the short name copied from 26 and the long name from 44, the offsets the sender writes them at | high, not executed | ArtNetProperties.PollReplyMisreadAsWritten | ArtNetProperties.PollReplyRoundTrip |
| src/lx4p/LXOSCMessage.java:236-241 | in a bracket list that ends in '-', the range scan reads the char after the dash, past the end of the list | 'z' against the list "ab-" throws | a dash at the end of the list is answered false, as the guard on line 238 intends | high, not executed | OscMatchProperties.BracketTrailingDashThrowsAsWritten | OscMatchProperties.BracketMatchesReads |
| src/lx4p/LXOSCMessage.java:235-258 | the same guard lets a negated list whose scan reaches a final '-' fall out of the loop, so `negate` answers true | 'A' against the list "!ab-" gives true | a dash at the end of the list is answered false "despite negate", as the comment on line 239 says | medium, not executed | OscMatchProperties.NegatedTrailingDashAsWritten | OscMatchProperties.BracketMatchesReads |
| src/lx4p/LXOSCMessage.java:689-714 | the double writer checks room for 4 bytes and then writes 8 | a double argument with 4 to 7 bytes left in the buffer throws instead of returning -1 | room checked for the 8 bytes written | high, not executed | OscEncodingProperties.DoubleWriterThrowsAsWritten | OscMessage.AddDoubleArgumentToBytes |
| src/lx4p/LXOSCMessage.java:723-745 | the string writer pads only when the index is not on a 4-byte boundary, so no NUL follows a string whose chars end on one | the string "abcd" at offset 0 is written as 4 bytes with no terminator | an OSC-string always ends in a NUL and is padded to 4 bytes | high, not executed | OscEncodingProperties.StringWriterOmitsNulAsWritten | OscEncodingProperties.WriteStringWrites |
| src/lx_for_processing/LXOSCMessage.java:405-452 | the older type-tag writer pads only when the index is not on a 4-byte boundary, so there is no NUL after the tags | three arguments written at offset 0: ",iii" fills one word and no zero byte follows | the type-tag string ends in a NUL, as the `lx4p` copy writes it | high, not executed | OscLegacyEncoding.TagsUnterminatedLegacy | OscMessage.Message.AddArgumentTypeTagsToBytes |
| src/lx4p/LXOSCPacketReader.java:243-253 | `decode_bytes_to_long` shifts `int` values by 56, 48, 40 and 32, which Java takes modulo 32 | the double 1.0 (bytes 3F F0 00 00 00 00 00 00) is read as the pattern 0x3FF00000 | the eight bytes read big-endian as a 64-bit pattern | high, not executed | OscReaderProperties.DecodeLongMisreadsAsWritten | OscReaderProperties.Unsigned64OfBigEndian |
| src/lx4p/LXOSCPacketReader.java:131-138 | the tags T, F, I and N are passed as `byte` to `addArgument`, which picks the `int` overload | a message with tag 'T' reads back as the int argument 84 | the `char` constructor, giving the True, False, Impulse and Null arguments | medium, not executed | OscReaderProperties.PayloadFreeTagsReadAsInts | OscReaderSpec.ArgumentForTag |
| src/lx4p/LXmDNSDiscoverer.java:152-156 | a compression pointer's offset is masked with 0x2F, dropping bit 12 of the 14-bit offset | the buffer 01 61 00 D0 00 with a name at 3: read as "a" from offset 0, where the 14-bit offset 0x1000 lies past the packet | the mask 0x3F of section 4.1.4 of RFC 1035 | high, not executed | MdnsProperties.PointerMaskAsWritten | MdnsProperties.MasksAgreeOnGoodNames |
| src/lx4p/LXENTTEC.java:150-155 | the label-5 copy takes as many bytes as the message length, which counts the status byte as well as the start code and the slots | a message with the start code and all 512 slots: length 514, so 514 bytes go into the 513-entry level buffer and the copy throws | the copy leaves out the status byte, as the slot count set on line 152 does | high, not executed | EnttecProperties.FullUniverseFaultsAsWritten | EnttecProperties.IntendedReceiveLevels |
