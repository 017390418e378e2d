/** The fixed part of a packet header: five 32-bit words, and the bit fields
    of words 0 and 1.

    Bits are numbered here from the least significant end (bit 31 is the most
    significant bit of a word).  The doc comments of udt4/src/packet.h count
    from the most significant end, so their "bit 0~1" of word 1 is bits 31-30
    here, their "bit 2" is bit 29 and their "bit 3~31" is bits 28-0. */
module HeaderLayout {

  /** Number of 32-bit words in the header (four classic ones plus the
      frame-metadata word). */
  const HEADER_WORDS: nat := 5

  /** Size of the header segment in bytes. */
  const PKT_HDR_SIZE: int := 4 * HEADER_WORDS

  /** Word indices, one per named alias of the header. */
  const SEQ_NO_WORD: nat := 0     // sequence number, or flag/type for control packets
  const MSG_NO_WORD: nat := 1     // message number, or a control-specific value
  const TIMESTAMP_WORD: nat := 2  // timestamp, reused as the frame deadline
  const ID_WORD: nat := 3         // destination socket identifier
  const FRAME_META_WORD: nat := 4 // frame id, chunk id, total chunks

  /** The header words as a value. */
  type Header = h: seq<bv32> | |h| == HEADER_WORDS witness [0, 0, 0, 0, 0]

  // Word 0 of a control packet: flag (bit 31), type (bits 30-28),
  // extended type (bits 27-16).
  const FLAG_SHIFT: bv5 := 31
  const FLAG_MASK: bv32 := 0x8000_0000
  const TYPE_SHIFT: bv5 := 28
  const TYPE_MASK: bv32 := 0x7000_0000
  const EXT_TYPE_SHIFT: bv5 := 16
  const EXT_TYPE_MASK: bv32 := 0x0FFF_0000

  // Word 1 of a data packet: boundary (bits 31-30), in-order flag (bit 29),
  // message sequence number (bits 28-0).
  const BOUNDARY_SHIFT: bv5 := 30
  const BOUNDARY_MASK: bv32 := 0xC000_0000
  const ORDER_FLAG_SHIFT: bv5 := 29
  const ORDER_FLAG_MASK: bv32 := 0x2000_0000
  const MSG_SEQ_MASK: bv32 := 0x1FFF_FFFF

  /** Packet flag: 0 for a data packet, 1 for a control packet. */
  function Flag(w0: bv32): (r: bv32)
    ensures r <= 1
    ensures r == 1 <==> w0 >= 0x8000_0000
  {
    (w0 & FLAG_MASK) >> FLAG_SHIFT
  }

  /** Control packet type, 000 to 111. */
  function Type(w0: bv32): (r: bv32)
    ensures r <= 7
  {
    (w0 & TYPE_MASK) >> TYPE_SHIFT
  }

  /** Extended control packet type, 0x000 to 0xFFF. */
  function ExtendedType(w0: bv32): (r: bv32)
    ensures r <= 0xFFF
  {
    (w0 & EXT_TYPE_MASK) >> EXT_TYPE_SHIFT
  }

  /** The three control fields occupy adjacent, disjoint ranges that together
      make up the upper half of word 0. */
  lemma ControlWordFields(w0: bv32)
    ensures (Flag(w0) << FLAG_SHIFT) | (Type(w0) << TYPE_SHIFT)
            | (ExtendedType(w0) << EXT_TYPE_SHIFT) == w0 & 0xFFFF_0000
  {
  }

  /** Message boundary code: 0 middle, 1 last, 2 first, 3 whole message. */
  function MsgBoundary(w1: bv32): (r: bv32)
    ensures r <= 3
  {
    (w1 & BOUNDARY_MASK) >> BOUNDARY_SHIFT
  }

  /** In-order delivery flag. */
  function MsgOrderFlag(w1: bv32): (r: bool)
    ensures r <==> w1 & ORDER_FLAG_MASK == ORDER_FLAG_MASK
  {
    (w1 >> ORDER_FLAG_SHIFT) & 1 == 1
  }

  /** Message sequence number, below 2^29. */
  function MsgSeq(w1: bv32): (r: bv32)
    ensures r < 0x2000_0000
  {
    w1 & MSG_SEQ_MASK
  }

  /** Boundary, order flag and sequence number partition word 1: put back in
      place, they give the word back exactly. */
  lemma MsgWordFields(w1: bv32)
    ensures (MsgBoundary(w1) << BOUNDARY_SHIFT)
            | ((if MsgOrderFlag(w1) then 1 else 0) << ORDER_FLAG_SHIFT)
            | MsgSeq(w1) == w1
  {
  }
}
