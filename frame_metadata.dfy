/** The frame-metadata extension of the packet header: frame id, chunk id and
    total-chunk count packed into word 4, and the frame deadline carried in
    word 2 (the timestamp word).

    C integers are modelled by their bit patterns: an int32_t argument is the
    bv32 of its two's-complement bits, an int64_t one the bv64.  For such a
    pattern `v`, the unsigned remainder `v % 2^k` is exactly the value that
    `v mod 2^k` has for the signed integer, because 2^32 and 2^64 are
    multiples of 2^k. */
module FrameMetadata {
  import opened HeaderLayout

  // Word 4: frame id (bits 31-16), chunk id (bits 15-8), total chunks (7-0).
  const FRAME_ID_SHIFT: bv5 := 16
  const FRAME_ID_MASK: bv32 := 0xFFFF_0000
  const CHUNK_ID_SHIFT: bv5 := 8
  const CHUNK_ID_MASK: bv32 := 0x0000_FF00
  const TOTAL_CHUNKS_SHIFT: bv5 := 0
  const TOTAL_CHUNKS_MASK: bv32 := 0x0000_00FF

  /** Frame id, 16 bits. */
  function FrameID(w4: bv32): (r: bv32)
    ensures r <= 0xFFFF
  {
    (w4 & FRAME_ID_MASK) >> FRAME_ID_SHIFT
  }

  /** Chunk id within the frame, 8 bits. */
  function ChunkID(w4: bv32): (r: bv32)
    ensures r <= 0xFF
  {
    (w4 & CHUNK_ID_MASK) >> CHUNK_ID_SHIFT
  }

  /** Number of chunks of the frame, 8 bits. */
  function TotalChunks(w4: bv32): (r: bv32)
    ensures r <= 0xFF
  {
    (w4 & TOTAL_CHUNKS_MASK) >> TOTAL_CHUNKS_SHIFT
  }

  /** Word 4 after storing a frame id: the value is truncated to 16 bits,
      never rejected. */
  function WithFrameID(w4: bv32, frameId: bv32): (r: bv32)
    ensures FrameID(r) == frameId & 0xFFFF
  {
    (w4 & !FRAME_ID_MASK) | ((frameId & 0xFFFF) << FRAME_ID_SHIFT)
  }

  /** Word 4 after storing a chunk id, truncated to 8 bits. */
  function WithChunkID(w4: bv32, chunkId: bv32): (r: bv32)
    ensures ChunkID(r) == chunkId & 0xFF
  {
    (w4 & !CHUNK_ID_MASK) | ((chunkId & 0xFF) << CHUNK_ID_SHIFT)
  }

  /** Word 4 after storing a total-chunk count, truncated to 8 bits. */
  function WithTotalChunks(w4: bv32, totalChunks: bv32): (r: bv32)
    ensures TotalChunks(r) == totalChunks & 0xFF
  {
    (w4 & !TOTAL_CHUNKS_MASK) | ((totalChunks & 0xFF) << TOTAL_CHUNKS_SHIFT)
  }

  /** Storing the frame id changes no bit of word 4 outside its range. */
  lemma WithFrameIDKeepsOtherBits(w4: bv32, frameId: bv32)
    ensures WithFrameID(w4, frameId) & !FRAME_ID_MASK == w4 & !FRAME_ID_MASK
  {
  }

  /** Storing the chunk id changes no bit of word 4 outside its range. */
  lemma WithChunkIDKeepsOtherBits(w4: bv32, chunkId: bv32)
    ensures WithChunkID(w4, chunkId) & !CHUNK_ID_MASK == w4 & !CHUNK_ID_MASK
  {
  }

  /** Storing the total-chunk count changes no bit of word 4 outside its range. */
  lemma WithTotalChunksKeepsOtherBits(w4: bv32, totalChunks: bv32)
    ensures WithTotalChunks(w4, totalChunks) & !TOTAL_CHUNKS_MASK == w4 & !TOTAL_CHUNKS_MASK
  {
  }

  /** Keeping the low k bits of a bit pattern is taking it modulo 2^k: the
      masks the setters apply are the truncations `v mod 2^16`, `v mod 2^8`
      and, for the deadline, `v mod 2^32`. */
  lemma Low16IsRemainder(v: bv32)
    ensures v & 0xFFFF == v % 0x1_0000
  {
  }

  lemma Low8IsRemainder(v: bv32)
    ensures v & 0xFF == v % 0x100
  {
  }

  lemma Low32IsRemainder(d: bv64)
    ensures d & 0xFFFF_FFFF == d % 0x1_0000_0000
  {
  }

  /** Each packed field keeps its value when one of the other two is stored. */
  lemma WithFrameIDKeepsFields(w4: bv32, frameId: bv32)
    ensures ChunkID(WithFrameID(w4, frameId)) == ChunkID(w4)
    ensures TotalChunks(WithFrameID(w4, frameId)) == TotalChunks(w4)
  {
  }

  lemma WithChunkIDKeepsFields(w4: bv32, chunkId: bv32)
    ensures FrameID(WithChunkID(w4, chunkId)) == FrameID(w4)
    ensures TotalChunks(WithChunkID(w4, chunkId)) == TotalChunks(w4)
  {
  }

  lemma WithTotalChunksKeepsFields(w4: bv32, totalChunks: bv32)
    ensures FrameID(WithTotalChunks(w4, totalChunks)) == FrameID(w4)
    ensures ChunkID(WithTotalChunks(w4, totalChunks)) == ChunkID(w4)
  {
  }

  /** The three packed fields put back in place rebuild word 4 exactly: they
      are disjoint and together cover all of its bits. */
  lemma MetaWordFields(w4: bv32)
    ensures (FrameID(w4) << FRAME_ID_SHIFT) | (ChunkID(w4) << CHUNK_ID_SHIFT)
            | (TotalChunks(w4) << TOTAL_CHUNKS_SHIFT) == w4
  {
  }

  /** The deadline as the 64-bit getter returns it: the stored 32 bits read
      as unsigned, never sign-extended. */
  function FrameDeadline(w2: bv32): (r: bv64)
    ensures r <= 0xFFFF_FFFF
  {
    w2 as bv64
  }

  /** Word 2 after storing a 64-bit deadline: its low 32 bits. */
  function WithFrameDeadline(deadline: bv64): (r: bv32)
    ensures FrameDeadline(r) == deadline & 0xFFFF_FFFF
  {
    (deadline & 0xFFFF_FFFF) as bv32
  }
}

/** Sequences of frame-metadata writes on a whole header, and the field
    independence they obey: whatever the interleaving, each field reads back
    the last value written to it, and words 0, 1 and 3 never change. */
module FrameWrites {
  import opened HeaderLayout
  import opened FrameMetadata

  /** One call of a frame-metadata setter. */
  datatype FrameWrite =
    | SetFrameID(frameId: bv32)
    | SetChunkID(chunkId: bv32)
    | SetTotalChunks(totalChunks: bv32)
    | SetFrameDeadline(deadline: bv64)

  /** The four fields a frame-metadata getter can read. */
  datatype Field = FrameIDField | ChunkIDField | TotalChunksField | DeadlineField

  /** The header after one setter call. */
  function Apply(h: Header, w: FrameWrite): (r: Header)
    ensures r[SEQ_NO_WORD] == h[SEQ_NO_WORD]
    ensures r[MSG_NO_WORD] == h[MSG_NO_WORD]
    ensures r[ID_WORD] == h[ID_WORD]
    ensures w.SetFrameDeadline? ==> r[FRAME_META_WORD] == h[FRAME_META_WORD]
    ensures !w.SetFrameDeadline? ==> r[TIMESTAMP_WORD] == h[TIMESTAMP_WORD]
  {
    match w
    case SetFrameID(v) => h[FRAME_META_WORD := WithFrameID(h[FRAME_META_WORD], v)]
    case SetChunkID(v) => h[FRAME_META_WORD := WithChunkID(h[FRAME_META_WORD], v)]
    case SetTotalChunks(v) => h[FRAME_META_WORD := WithTotalChunks(h[FRAME_META_WORD], v)]
    case SetFrameDeadline(d) => h[TIMESTAMP_WORD := WithFrameDeadline(d)]
  }

  /** The header after a sequence of setter calls, first call first. */
  function ApplyAll(h: Header, ws: seq<FrameWrite>): Header
    decreases |ws|
  {
    if ws == [] then h else ApplyAll(Apply(h, ws[0]), ws[1..])
  }

  /** The value of a field, from the timestamp word w2 and the metadata word
      w4; for the deadline, the 32 stored bits. */
  function FieldValue(w2: bv32, w4: bv32, f: Field): bv32
  {
    match f
    case FrameIDField => FrameID(w4)
    case ChunkIDField => ChunkID(w4)
    case TotalChunksField => TotalChunks(w4)
    case DeadlineField => w2
  }

  /** What a getter returns from a header. */
  function Read(h: Header, f: Field): bv32
  {
    FieldValue(h[TIMESTAMP_WORD], h[FRAME_META_WORD], f)
  }

  /** The field a setter call writes. */
  function Target(w: FrameWrite): Field
  {
    match w
    case SetFrameID(_) => FrameIDField
    case SetChunkID(_) => ChunkIDField
    case SetTotalChunks(_) => TotalChunksField
    case SetFrameDeadline(_) => DeadlineField
  }

  /** The value a setter call leaves in its field: its argument modulo the
      field's width. */
  function Stored(w: FrameWrite): bv32
  {
    match w
    case SetFrameID(v) => v & 0xFFFF
    case SetChunkID(v) => v & 0xFF
    case SetTotalChunks(v) => v & 0xFF
    case SetFrameDeadline(d) => (d & 0xFFFF_FFFF) as bv32
  }

  /** Reference definition: the value of field f after ws is the one stored
      by the last call in ws that targets f, or its initial value if none
      does. */
  function LastWritten(ws: seq<FrameWrite>, f: Field, initial: bv32): bv32
    decreases |ws|
  {
    if ws == [] then initial
    else if Target(ws[|ws| - 1]) == f then Stored(ws[|ws| - 1])
    else LastWritten(ws[..|ws| - 1], f, initial)
  }

  /** One setter call: its own field reads the truncated argument, every
      other field keeps its value. */
  lemma ApplyReads(h: Header, w: FrameWrite, f: Field)
    ensures Read(Apply(h, w), f) == if Target(w) == f then Stored(w) else Read(h, f)
  {
    var w2, w4 := h[TIMESTAMP_WORD], h[FRAME_META_WORD];
    var r := Apply(h, w);
    match w
    case SetFrameID(v) =>
      assert r[TIMESTAMP_WORD] == w2 && r[FRAME_META_WORD] == WithFrameID(w4, v);
      SetFrameIDReads(w2, w4, v, f);
    case SetChunkID(v) =>
      assert r[TIMESTAMP_WORD] == w2 && r[FRAME_META_WORD] == WithChunkID(w4, v);
      SetChunkIDReads(w2, w4, v, f);
    case SetTotalChunks(v) =>
      assert r[TIMESTAMP_WORD] == w2 && r[FRAME_META_WORD] == WithTotalChunks(w4, v);
      SetTotalChunksReads(w2, w4, v, f);
    case SetFrameDeadline(d) =>
      assert r[TIMESTAMP_WORD] == WithFrameDeadline(d) && r[FRAME_META_WORD] == w4;
  }

  lemma SetFrameIDReads(w2: bv32, w4: bv32, v: bv32, f: Field)
    ensures FieldValue(w2, WithFrameID(w4, v), f)
            == if f == FrameIDField then v & 0xFFFF else FieldValue(w2, w4, f)
  {
    match f
    case FrameIDField =>
    case ChunkIDField => WithFrameIDKeepsFields(w4, v);
    case TotalChunksField => WithFrameIDKeepsFields(w4, v);
    case DeadlineField =>
  }

  lemma SetChunkIDReads(w2: bv32, w4: bv32, v: bv32, f: Field)
    ensures FieldValue(w2, WithChunkID(w4, v), f)
            == if f == ChunkIDField then v & 0xFF else FieldValue(w2, w4, f)
  {
    match f
    case FrameIDField => WithChunkIDKeepsFields(w4, v);
    case ChunkIDField =>
    case TotalChunksField => WithChunkIDKeepsFields(w4, v);
    case DeadlineField =>
  }

  lemma SetTotalChunksReads(w2: bv32, w4: bv32, v: bv32, f: Field)
    ensures FieldValue(w2, WithTotalChunks(w4, v), f)
            == if f == TotalChunksField then v & 0xFF else FieldValue(w2, w4, f)
  {
    match f
    case FrameIDField => WithTotalChunksKeepsFields(w4, v);
    case ChunkIDField => WithTotalChunksKeepsFields(w4, v);
    case TotalChunksField =>
    case DeadlineField =>
  }

  /** Appending a call to the sequence applies it last. */
  lemma {:induction false} ApplyAllSnoc(h: Header, ws: seq<FrameWrite>, w: FrameWrite)
    ensures ApplyAll(h, ws + [w]) == Apply(ApplyAll(h, ws), w)
    decreases |ws|
  {
    if ws == [] {
      assert [w][1..] == [];
    } else {
      assert (ws + [w])[1..] == ws[1..] + [w];
      ApplyAllSnoc(Apply(h, ws[0]), ws[1..], w);
    }
  }

  /** Field independence for any sequence of frame-metadata writes: every
      field reads the last value written to it, and the words that hold the
      sequence number, the message number and the socket id are unchanged. */
  lemma {:induction false} ApplyAllReadsLastWritten(h: Header, ws: seq<FrameWrite>, f: Field)
    ensures Read(ApplyAll(h, ws), f) == LastWritten(ws, f, Read(h, f))
    ensures ApplyAll(h, ws)[SEQ_NO_WORD] == h[SEQ_NO_WORD]
    ensures ApplyAll(h, ws)[MSG_NO_WORD] == h[MSG_NO_WORD]
    ensures ApplyAll(h, ws)[ID_WORD] == h[ID_WORD]
    decreases |ws|
  {
    if ws != [] {
      var prefix, w := ws[..|ws| - 1], ws[|ws| - 1];
      assert ws == prefix + [w];
      ApplyAllSnoc(h, prefix, w);
      ApplyAllReadsLastWritten(h, prefix, f);
      ApplyReads(ApplyAll(h, prefix), w, f);
    }
  }
}
