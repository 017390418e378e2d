# UDT packet header with frame metadata

This project models the packet-header layer of a UDT transport that has been
extended for VR frame streaming. Everything is taken from `udt4/src/packet.h`
and the frame-metadata test program `udt4/test/test_frame_metadata.cpp`.

- **`CPacket`** holds a 160-bit header of five 32-bit words and a two-entry
  scatter/gather vector (header segment, payload segment).
  - Word 0 carries the control flag, the packet type and the extended type.
  - Word 1 carries the message boundary, the in-order flag and the message
    sequence number.
  - Words 0–3 are also reachable through the aliases `m_iSeqNo`, `m_iMsgNo`,
    `m_iTimeStamp` and `m_iID`.
  - Word 4 is new. It packs a 16-bit frame id, an 8-bit chunk id and an 8-bit
    total-chunk count.
  - The frame deadline reuses word 2, the timestamp word.
- **`CHandShake`** is the connection handshake record: eight 32-bit fields and
  a four-word peer address, serialized in declaration order.

The Dafny modules follow that structure:

- `HeaderLayout` (header_layout.dfy): the header's shape and the decoders for
  words 0 and 1, as pure functions over `bv32`.
- `FrameMetadata` (frame_metadata.dfy): the word-4 fields and the deadline,
  with their readers, their writers and the lemmas saying each writer touches
  only its own bits.
- `FrameWrites` (frame_metadata.dfy): setter calls as values, and a reference
  definition of "what each field reads after any sequence of setter calls":
  the last value written to it, truncated to its width. This is proved for
  every sequence by induction.
- `Packets` (packet.dfy): the `Packet` class. It has the header as an
  `array<bv32>` of five words, the payload buffer and its length. Its setters
  update the array in place. Each setter's contract ties the new words to
  `FrameWrites.Apply` on the old ones and states what every other field keeps.
- `Handshake` (handshake.dfy): the record as a value, its codec, and the
  `HandShake` class.
  - `Serialize` writes into a caller buffer.
  - `Deserialize` overwrites the fields from a buffer.
  - `Exchange` proves that a record survives the round trip.
- `FrameMetadataTests` (frame_metadata_tests.dfy): the four scenarios of the
  test program, as methods.
  - Each method's contract says its verdict is "passed".
  - The constructor does not fix the initial header, so the scenarios are
    proved for every initial header.

Bit positions in the Dafny text count from the least significant bit (bit 31
is the top bit). The comments in `packet.h` count from the most significant
bit, so their "bit 0~1" of word 1 is bits 31–30 here.

The `.cpp` bodies of `CPacket` and `CHandShake` are not part of this model.
Where their behaviour is not fixed by the declarations, the comments and the
test program, the model makes these choices:

- Word 0 layout: flag bit 31, type bits 30–28, extended type bits 27–16.
- Word 4 layout: frame id bits 31–16, chunk id bits 15–8, total chunks bits
  7–0.
- `m_iPktHdrSize` is 20 bytes (five words).
- `m_iContentSize` is 48 bytes (twelve words).
- The handshake status codes are 0 for success and -1 for failure.
- The handshake record is serialized field by field in declaration order,
  the peer address last.
- `getFrameDeadline` reads the 32 bits of word 2 as unsigned and never
  sign-extends them into its 64-bit result.
- A new packet has length 0 and an empty, borrowed payload; its header words
  are left unspecified.
- `pack` with a second parameter attaches it, with its size, as the borrowed
  payload, without copying.

C integers are modelled by their bit patterns (`bv32` for `int32_t`, `bv64`
for `int64_t`). Truncation to a field's width is therefore a mask, and the
lemmas `Low16IsRemainder`, `Low8IsRemainder` and `Low32IsRemainder` show that
the mask is the remainder modulo 2^16, 2^8 and 2^32.

## Model

| member | source | states |
|---|---|---|
| HeaderLayout.Flag | udt4/src/packet.h:115-122 | the flag is 0 or 1, and it is 1 exactly when the top bit of word 0 is set |
| HeaderLayout.Type | udt4/src/packet.h:124-131 | the packet type lies in 0..7 |
| HeaderLayout.ExtendedType | udt4/src/packet.h:133-140 | the extended type lies in 0..0xFFF |
| HeaderLayout.ControlWordFields | udt4/src/packet.h:115-140 | flag, type and extended type put back in place give exactly the top 16 bits of word 0, so the three fields are disjoint and taken from word 0 alone |
| HeaderLayout.MsgBoundary | udt4/src/packet.h:151-158 | the message boundary lies in 0..3 |
| HeaderLayout.MsgOrderFlag | udt4/src/packet.h:160-167 | the in-order flag holds exactly when bit 29 of word 1 is set |
| HeaderLayout.MsgSeq | udt4/src/packet.h:169-176 | the message sequence number is below 2^29 |
| HeaderLayout.MsgWordFields | udt4/src/packet.h:151-176 | boundary << 30, flag << 29 and sequence number ORed together rebuild word 1 exactly |
| FrameMetadata.FrameID | udt4/src/packet.h:178-185 | the frame id read from word 4 lies in 0..65535 |
| FrameMetadata.ChunkID | udt4/src/packet.h:196-203 | the chunk id read from word 4 lies in 0..255 |
| FrameMetadata.TotalChunks | udt4/src/packet.h:214-221 | the total-chunk count read from word 4 lies in 0..255 |
| FrameMetadata.WithFrameID | udt4/src/packet.h:187-194 | after writing v, the frame id reads back the low 16 bits of v |
| FrameMetadata.WithChunkID | udt4/src/packet.h:205-212 | after writing v, the chunk id reads back the low 8 bits of v |
| FrameMetadata.WithTotalChunks | udt4/src/packet.h:223-230 | after writing v, the total-chunk count reads back the low 8 bits of v |
| FrameMetadata.WithFrameIDKeepsOtherBits | udt4/src/packet.h:187-194 | writing the frame id leaves every bit of word 4 outside bits 31-16 unchanged |
| FrameMetadata.WithChunkIDKeepsOtherBits | udt4/src/packet.h:205-212 | writing the chunk id leaves every bit of word 4 outside bits 15-8 unchanged |
| FrameMetadata.WithTotalChunksKeepsOtherBits | udt4/src/packet.h:223-230 | writing the total-chunk count leaves every bit of word 4 outside bits 7-0 unchanged |
| FrameMetadata.MetaWordFields | udt4/src/packet.h:178-230 | frame id << 16, chunk id << 8 and total chunks ORed together rebuild word 4 exactly, so the three fields are disjoint and cover the word |
| FrameMetadata.WithFrameIDKeepsFields | udt4/src/packet.h:178-230 | writing the frame id does not change the chunk id or the total-chunk count |
| FrameMetadata.WithChunkIDKeepsFields | udt4/src/packet.h:178-230 | writing the chunk id does not change the frame id or the total-chunk count |
| FrameMetadata.WithTotalChunksKeepsFields | udt4/src/packet.h:178-230 | writing the total-chunk count does not change the frame id or the chunk id |
| FrameMetadata.Low16IsRemainder | udt4/test/test_frame_metadata.cpp:96-102 | keeping the low 16 bits is the remainder modulo 2^16, so 65536 stores as 0 |
| FrameMetadata.Low8IsRemainder | udt4/test/test_frame_metadata.cpp:128-134 | keeping the low 8 bits is the remainder modulo 2^8, so 256 stores as 0 |
| FrameMetadata.Low32IsRemainder | udt4/src/packet.h:242-250 | keeping the low 32 bits of a 64-bit deadline is the remainder modulo 2^32 |
| FrameMetadata.FrameDeadline | udt4/src/packet.h:232-240 | the deadline read from the timestamp word fits in 32 bits |
| FrameMetadata.WithFrameDeadline | udt4/src/packet.h:242-250 | the word stored for deadline d reads back as d mod 2^32 |
| FrameWrites.Apply | udt4/src/packet.h:187-250 | one setter call changes word 4 (frame-metadata setters) or word 2 (deadline) only; words 0, 1 and 3 keep their values |
| FrameWrites.ApplyReads | udt4/src/packet.h:178-250 | after one setter call, the field it targets reads the truncated value written and every other field reads what it read before |
| FrameWrites.SetFrameIDReads | udt4/src/packet.h:178-250 | the frame-id case of ApplyReads, on words 2 and 4 |
| FrameWrites.SetChunkIDReads | udt4/src/packet.h:178-250 | the chunk-id case of ApplyReads, on words 2 and 4 |
| FrameWrites.SetTotalChunksReads | udt4/src/packet.h:178-250 | the total-chunks case of ApplyReads, on words 2 and 4 |
| FrameWrites.ApplyAllSnoc | udt4/src/packet.h:178-250 | applying a sequence of setter calls then one more is the same as applying the longer sequence |
| FrameWrites.ApplyAllReadsLastWritten | udt4/src/packet.h:178-262 | after any sequence of setter calls, each field reads the last value written to it, truncated to its width (or its initial value if never written), and words 0, 1 and 3 are unchanged |
| Packets.Packet.constructor | udt4/src/packet.h:73 | a new packet has a five-word header, an empty borrowed payload and length 0; its header words are left unspecified |
| Packets.Packet.Owning | udt4/src/packet.h:252-262 | a packet with a fresh header array of its own holding the given words, and the given payload buffer, which it owns |
| Packets.Packet.SeqNo | udt4/src/packet.h:64 | the sequence-number alias is word 0 in place, from which the flag and type are decoded |
| Packets.Packet.MsgNo | udt4/src/packet.h:65 | the message-number alias is word 1 in place, from which the boundary and message sequence number are decoded |
| Packets.Packet.TimeStamp | udt4/src/packet.h:66 | the timestamp alias has the same bits the frame deadline is read from |
| Packets.Packet.ID | udt4/src/packet.h:67 | the socket-id alias is word 3 of the header value, so every statement about the header words applies to it (the setters keep it) |
| Packets.Packet.GetLength | udt4/src/packet.h:76-83 | the length read is the length of the payload segment of the packet vector |
| Packets.Packet.SetLength | udt4/src/packet.h:83-92 | after setLength(n) the length reads n, the payload segment's length is n and no header word changes |
| Packets.Packet.PacketVector | udt4/src/packet.h:106-113 | the vector has two segments: the header, whose length is the fixed header size, and the payload, whose length is getLength() |
| Packets.Packet.Pack | udt4/src/packet.h:94-104 | a packed packet is a control packet (flag 1); when `rparam` is supplied, the payload is that buffer, borrowed, and the length is `size` |
| Packets.Packet.GetFlag | udt4/src/packet.h:115-122 | the flag is 0 or 1, and 1 exactly when the top bit of word 0 is set |
| Packets.Packet.GetType | udt4/src/packet.h:124-131 | the type read from the packet lies in 0..7 |
| Packets.Packet.GetExtendedType | udt4/src/packet.h:133-140 | the extended type read from the packet lies in 0..0xFFF |
| Packets.Packet.GetAckSeqNo | udt4/src/packet.h:142-149 | the ACK-2 sequence number is the whole of word 1, the word of the message-number alias; no width is claimed |
| Packets.Packet.GetMsgBoundary | udt4/src/packet.h:151-158 | the boundary read from the packet lies in 0..3 |
| Packets.Packet.GetMsgOrderFlag | udt4/src/packet.h:160-167 | the in-order flag holds exactly when bit 29 of word 1 is set |
| Packets.Packet.GetMsgSeq | udt4/src/packet.h:169-176 | the message sequence number read from the packet is below 2^29 |
| Packets.Packet.GetFrameID | udt4/src/packet.h:178-185 | the frame id read from the packet lies in 0..65535 |
| Packets.Packet.GetChunkID | udt4/src/packet.h:196-203 | the chunk id read from the packet lies in 0..255 |
| Packets.Packet.GetTotalChunks | udt4/src/packet.h:214-221 | the total-chunk count read from the packet lies in 0..255 |
| Packets.Packet.GetFrameDeadline | udt4/src/packet.h:232-240 | the deadline read from the packet lies in 0..0xFFFFFFFF: the stored bits, not sign-extended |
| Packets.Packet.SetFrameID | udt4/src/packet.h:187-194 | the new header is Apply of the old one; the frame id reads the value mod 2^16; chunk id, total chunks, deadline and the other bits of word 4 are unchanged |
| Packets.Packet.SetChunkID | udt4/src/packet.h:205-212 | the new header is Apply of the old one; the chunk id reads the value mod 2^8; frame id, total chunks, deadline and the other bits of word 4 are unchanged |
| Packets.Packet.SetTotalChunks | udt4/src/packet.h:223-230 | the new header is Apply of the old one; the total-chunk count reads the value mod 2^8; frame id, chunk id, deadline and the other bits of word 4 are unchanged |
| Packets.Packet.SetFrameDeadline | udt4/src/packet.h:242-250 | the new header is Apply of the old one; only word 2 changes; the deadline reads d mod 2^32 through the getter and through the timestamp alias; the three word-4 fields are unchanged |
| Packets.Packet.Clone | udt4/src/packet.h:252-263 | a fresh packet with fresh buffers, the same five header words, the same length, and a copy of the payload bytes, which it owns |
| Handshake.Encode | udt4/src/packet.h:285-293 | the serialized record is twelve words, with the peer address in words 8-11 |
| Handshake.Decode | udt4/src/packet.h:285-293 | a record read from twelve words has a four-word peer address |
| Handshake.DecodeEncode | udt4/src/packet.h:278-293 | decoding an encoded record gives the record back |
| Handshake.EncodeDecode | udt4/src/packet.h:278-293 | encoding a decoded twelve-word buffer gives the buffer back |
| Handshake.HandShake.Fields | udt4/src/packet.h:285-293 | the object's current fields, as a well-formed record |
| Handshake.HandShake.constructor | udt4/src/packet.h:276 | a new record has its four-word peer address array |
| Handshake.HandShake.Serialize | udt4/src/packet.h:278-282 | a buffer smaller than the content size is refused, with the buffer and the size untouched; otherwise status 0, size set to the content size, the first twelve words are the encoded record and the rest of the buffer is untouched |
| Handshake.HandShake.Load | udt4/src/packet.h:285-293 | after loading a record, the object's fields are exactly that record, in the same peer-address array |
| Handshake.HandShake.Deserialize | udt4/src/packet.h:279-282 | a buffer smaller than the content size is refused and every field keeps its value; otherwise status 0 and the fields are the record decoded from the buffer |
| Handshake.Exchange | udt4/src/packet.h:278-293 | serializing one record and deserializing the buffer into another object reproduces all twelve fields |
| FrameMetadataTests.TestBasicSetGet | udt4/test/test_frame_metadata.cpp:18-64 | frame 12345, chunk 123, total 200 and deadline 1234567890 all read back exactly |
| FrameMetadataTests.TestBoundaryValues | udt4/test/test_frame_metadata.cpp:66-175 | 0 and 65535 read back as frame ids and 65536 reads 0; 0 and 255 read back as chunk id and total chunks, and 256 reads 0 |
| FrameMetadataTests.TestNoBitOverlap | udt4/test/test_frame_metadata.cpp:177-228 | with every field at its maximum, rewriting the frame id to 12345 leaves chunk 255, total 255 and deadline 0xFFFFFFFF |
| FrameMetadataTests.TestPreserveUdtFields | udt4/test/test_frame_metadata.cpp:230-264 | frame 100, chunk 50 and total 75 read back; the boundary and in-order flag read after the writes equal the values read before them |
| FrameMetadataTests.RunSuite | udt4/test/test_frame_metadata.cpp:266-295 | all four scenarios pass and the status is 0 |

## Left out

- The `.cpp` bodies of `CPacket` and `CHandShake` are not part of this model. The word layouts, the header size of 20 bytes, the content size of 48 bytes and the status values are the choices listed above. Every frame-metadata property holds for any disjoint layout.
- Packets.Packet.Pack: the per-type switch in `pack` is outside this model. The model sets the control flag and attaches `rparam`/`size` as the payload when `rparam` is given; it states nothing about the type fields, the other header words, the `lparam` value embedded in the header, or the payload when no `rparam` is given.
- Packets.Packet.GetAckSeqNo: a plain read of word 1, with no claim about its width, because its doc comment does not name the word.
- Packets.Packet.constructor: the constructor's initial header is not modelled; its words are left unspecified, and the scenarios are proved for every initial header.
- Real pointers: the `iovec` base addresses, the `m_pcData` alias as a pointer, heap ownership, deletion in `~CPacket`, and `operator=`. The vector is modelled by its two lengths and the payload by a byte array.
- Allocation failure in `clone`. Dafny allocation cannot fail.
- The WIN32 `iovec` shim.
- Host/network byte-order conversion, which the transport classes perform. The header and the handshake buffer are sequences of host-order words.
- The handshake buffer is modelled as 32-bit words, not bytes. Its `size` is in bytes, as in the source.
- The console and ANSI colour output of the test program.
- `udt4/app/appserver.cpp`, a network server: sockets, threads and blocking I/O.
