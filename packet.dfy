/** The packet object: five header words held in place, the payload segment
    (a buffer and its length), and the accessors and mutators over them. */
module Packets {
  import opened HeaderLayout
  import opened FrameMetadata
  import opened FrameWrites

  /** A C `int`. */
  newtype int32 = x: int | -0x8000_0000 <= x < 0x8000_0000

  /** Whether the payload belongs to someone else (a packet built by `pack`
      or bound over a receive buffer) or to the packet itself (a clone). */
  datatype Ownership = Borrowed | Owned

  /** One entry of the scatter/gather vector.  Only the length is modelled;
      the entry's base address is the header array or the payload array. */
  datatype IoVec = IoVec(len: int)

  class Packet {
    /** The 160-bit header, word by word.  The words are storage of the packet
        itself, so the array is fixed at construction and never shared. */
    const header: array<bv32>
    /** The buffer the payload entry points to (the `m_pcData` alias). */
    var payload: array<bv8>
    /** The payload entry's length. */
    var length: int32
    var ownership: Ownership

    ghost predicate Valid()
      reads this
    {
      header.Length == HEADER_WORDS
    }

    /** The header words as a value. */
    function Words(): Header
      reads this, header
      requires Valid()
    {
      header[..]
    }

    /** A packet with an empty payload.  The initial header words are not
        specified: callers may assume nothing about them. */
    constructor ()
      ensures Valid() && fresh(header)
      ensures payload.Length == 0 && length == 0 && ownership == Borrowed
    {
      header := new bv32[HEADER_WORDS];
      payload := new bv8[0];
      length := 0;
      ownership := Borrowed;
    }

    /** A packet with its own copy of the given header words, owning the
        given payload buffer. */
    constructor Owning(words: Header, bytes: array<bv8>, len: int32)
      ensures Valid() && fresh(header) && Words() == words
      ensures payload == bytes && length == len && ownership == Owned
    {
      header := new bv32[HEADER_WORDS](i requires 0 <= i < HEADER_WORDS => words[i]);
      payload, length, ownership := bytes, len, Owned;
    }

    // The four aliases of the header words: views of the array, not copies.

    /** `m_iSeqNo`: word 0. */
    function SeqNo(): (r: bv32)
      reads this, header
      requires Valid()
      ensures Flag(r) == GetFlag() && Type(r) == GetType()
    {
      header[SEQ_NO_WORD]
    }

    /** `m_iMsgNo`: word 1. */
    function MsgNo(): (r: bv32)
      reads this, header
      requires Valid()
      ensures MsgSeq(r) == GetMsgSeq() && MsgBoundary(r) == GetMsgBoundary()
    {
      header[MSG_NO_WORD]
    }

    /** `m_iTimeStamp`: word 2, the same bits the frame deadline is read from. */
    function TimeStamp(): (r: bv32)
      reads this, header
      requires Valid()
      ensures r as bv64 == GetFrameDeadline()
    {
      header[TIMESTAMP_WORD]
    }

    /** `m_iID`: word 3, the destination socket id. */
    function ID(): (r: bv32)
      reads this, header
      requires Valid()
      ensures r == Words()[ID_WORD]
    {
      header[ID_WORD]
    }

    function GetLength(): (r: int32)
      reads this
      ensures r as int == PacketVector()[1].len
    {
      length
    }

    /** Sets the payload length; the header is left as it is. */
    method SetLength(len: int32)
      requires Valid()
      modifies this`length
      ensures Valid() && GetLength() == len
      ensures Words() == old(Words())
      ensures PacketVector()[1].len == len as int
    {
      length := len;
    }

    /** The scatter/gather vector: the header segment, whose length is the
        fixed header size, then the payload segment. */
    function PacketVector(): (v: seq<IoVec>)
      reads this
      ensures |v| == 2
      ensures v[0].len == PKT_HDR_SIZE
      ensures v[1].len == length as int
    {
      [IoVec(PKT_HDR_SIZE), IoVec(length as int)]
    }

    /** Builds a control packet: sets the control flag and, when a second
        parameter `rparam` of `size` bytes is supplied, attaches it without
        copying as the borrowed payload.  What each control type writes into
        the other header fields is not modelled. */
    method Pack(pktType: bv32, rparam: array?<bv8>, size: int32)
      requires Valid()
      modifies this, header
      ensures Valid() && GetFlag() == 1
      ensures rparam != null ==> payload == rparam && length == size && ownership == Borrowed
    {
      header[SEQ_NO_WORD] := header[SEQ_NO_WORD] | FLAG_MASK;
      if rparam != null {
        payload, length, ownership := rparam, size, Borrowed;
      }
    }

    // Decoders of words 0 and 1.

    function GetFlag(): (r: bv32)
      reads this, header
      requires Valid()
      ensures r <= 1 && (r == 1 <==> header[SEQ_NO_WORD] >= 0x8000_0000)
    {
      Flag(header[SEQ_NO_WORD])
    }

    function GetType(): (r: bv32)
      reads this, header
      requires Valid()
      ensures r <= 7
    {
      Type(header[SEQ_NO_WORD])
    }

    function GetExtendedType(): (r: bv32)
      reads this, header
      requires Valid()
      ensures r <= 0xFFF
    {
      ExtendedType(header[SEQ_NO_WORD])
    }

    /** The acknowledged sequence number of an ACK-2 packet, read from word 1. */
    function GetAckSeqNo(): (r: bv32)
      reads this, header
      requires Valid()
      ensures r == MsgNo()
    {
      header[MSG_NO_WORD]
    }

    function GetMsgBoundary(): (r: bv32)
      reads this, header
      requires Valid()
      ensures r <= 3
    {
      MsgBoundary(header[MSG_NO_WORD])
    }

    function GetMsgOrderFlag(): (r: bool)
      reads this, header
      requires Valid()
      ensures r <==> header[MSG_NO_WORD] & ORDER_FLAG_MASK == ORDER_FLAG_MASK
    {
      MsgOrderFlag(header[MSG_NO_WORD])
    }

    function GetMsgSeq(): (r: bv32)
      reads this, header
      requires Valid()
      ensures r < 0x2000_0000
    {
      MsgSeq(header[MSG_NO_WORD])
    }

    // Frame metadata.

    function GetFrameID(): (r: bv32)
      reads this, header
      requires Valid()
      ensures r <= 0xFFFF
    {
      FrameID(header[FRAME_META_WORD])
    }

    function GetChunkID(): (r: bv32)
      reads this, header
      requires Valid()
      ensures r <= 0xFF
    {
      ChunkID(header[FRAME_META_WORD])
    }

    function GetTotalChunks(): (r: bv32)
      reads this, header
      requires Valid()
      ensures r <= 0xFF
    {
      TotalChunks(header[FRAME_META_WORD])
    }

    function GetFrameDeadline(): (r: bv64)
      reads this, header
      requires Valid()
      ensures r <= 0xFFFF_FFFF
    {
      FrameDeadline(header[TIMESTAMP_WORD])
    }

    /** Stores the frame id modulo 2^16; only its 16 bits of word 4 change. */
    method SetFrameID(frameId: bv32)
      requires Valid()
      modifies header
      ensures Valid()
      ensures Words() == Apply(old(Words()), FrameWrite.SetFrameID(frameId))
      ensures GetFrameID() == frameId & 0xFFFF
      ensures GetChunkID() == old(GetChunkID()) && GetTotalChunks() == old(GetTotalChunks())
      ensures header[FRAME_META_WORD] & !FRAME_ID_MASK == old(header[FRAME_META_WORD]) & !FRAME_ID_MASK
      ensures GetFrameDeadline() == old(GetFrameDeadline())
    {
      WithFrameIDKeepsFields(header[FRAME_META_WORD], frameId);
      WithFrameIDKeepsOtherBits(header[FRAME_META_WORD], frameId);
      header[FRAME_META_WORD] := WithFrameID(header[FRAME_META_WORD], frameId);
    }

    /** Stores the chunk id modulo 2^8; only its 8 bits of word 4 change. */
    method SetChunkID(chunkId: bv32)
      requires Valid()
      modifies header
      ensures Valid()
      ensures Words() == Apply(old(Words()), FrameWrite.SetChunkID(chunkId))
      ensures GetChunkID() == chunkId & 0xFF
      ensures GetFrameID() == old(GetFrameID()) && GetTotalChunks() == old(GetTotalChunks())
      ensures header[FRAME_META_WORD] & !CHUNK_ID_MASK == old(header[FRAME_META_WORD]) & !CHUNK_ID_MASK
      ensures GetFrameDeadline() == old(GetFrameDeadline())
    {
      WithChunkIDKeepsFields(header[FRAME_META_WORD], chunkId);
      WithChunkIDKeepsOtherBits(header[FRAME_META_WORD], chunkId);
      header[FRAME_META_WORD] := WithChunkID(header[FRAME_META_WORD], chunkId);
    }

    /** Stores the total-chunk count modulo 2^8; only its 8 bits of word 4
        change. */
    method SetTotalChunks(totalChunks: bv32)
      requires Valid()
      modifies header
      ensures Valid()
      ensures Words() == Apply(old(Words()), FrameWrite.SetTotalChunks(totalChunks))
      ensures GetTotalChunks() == totalChunks & 0xFF
      ensures GetFrameID() == old(GetFrameID()) && GetChunkID() == old(GetChunkID())
      ensures header[FRAME_META_WORD] & !TOTAL_CHUNKS_MASK == old(header[FRAME_META_WORD]) & !TOTAL_CHUNKS_MASK
      ensures GetFrameDeadline() == old(GetFrameDeadline())
    {
      WithTotalChunksKeepsFields(header[FRAME_META_WORD], totalChunks);
      WithTotalChunksKeepsOtherBits(header[FRAME_META_WORD], totalChunks);
      header[FRAME_META_WORD] := WithTotalChunks(header[FRAME_META_WORD], totalChunks);
    }

    /** Stores the low 32 bits of the deadline in word 2, the timestamp word. */
    method SetFrameDeadline(deadline: bv64)
      requires Valid()
      modifies header
      ensures Valid()
      ensures Words() == Apply(old(Words()), FrameWrite.SetFrameDeadline(deadline))
      ensures GetFrameDeadline() == deadline & 0xFFFF_FFFF
      ensures TimeStamp() == WithFrameDeadline(deadline)
      ensures GetFrameID() == old(GetFrameID()) && GetChunkID() == old(GetChunkID())
      ensures GetTotalChunks() == old(GetTotalChunks())
    {
      header[TIMESTAMP_WORD] := WithFrameDeadline(deadline);
    }

    /** A new packet that owns copies of this packet's header words and of the
        `length` payload bytes. */
    method Clone() returns (p: Packet)
      requires Valid()
      requires 0 <= length as int <= payload.Length
      ensures fresh(p) && fresh(p.header) && fresh(p.payload)
      ensures p.Valid() && p.Words() == Words()
      ensures p.length == length && p.payload[..] == payload[..length]
      ensures p.ownership == Owned
    {
      var n := length as int;
      var bytes := new bv8[n];
      var j := 0;
      while j < n
        invariant 0 <= j <= n
        invariant forall k :: 0 <= k < j ==> bytes[k] == payload[k]
      {
        bytes[j] := payload[j];
        j := j + 1;
      }
      p := new Packet.Owning(Words(), bytes, length);
    }
  }
}
