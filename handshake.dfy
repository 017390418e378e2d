/** The connection handshake record and its fixed-size codec.  The record
    is twelve four-byte fields in declaration order: eight int32_t values and
    the four words of the peer address.  Fields are modelled as the bv32 of
    their bits; the buffer as the sequence of four-byte words it holds, in
    host byte order. */
module Handshake {

  /** Size of the serialized record in bytes. */
  const CONTENT_SIZE: int := 48
  /** The same size in four-byte words. */
  const CONTENT_WORDS: nat := 12
  /** Number of words of the peer address. */
  const PEER_IP_WORDS: nat := 4
  /** Position of the peer address in the serialized record. */
  const PEER_IP_OFFSET: nat := 8

  /** Status codes of serialize and deserialize. */
  const SUCCESS: int := 0
  const FAILURE: int := -1

  /** The record's fields as a value. */
  datatype Record = Record(
    version: bv32,         // protocol version
    sockType: bv32,        // socket type
    isn: bv32,             // random initial sequence number
    mss: bv32,             // maximum segment size
    flightFlagSize: bv32,  // flow control window size
    reqType: bv32,         // 1 regular request, 0 rendezvous, negative: response
    id: bv32,              // socket id
    cookie: bv32,          // anti-spoofing cookie
    peerIP: seq<bv32>)     // address the peer's UDP port is bound to

  predicate WellFormed(r: Record)
  {
    |r.peerIP| == PEER_IP_WORDS
  }

  /** The serialized form: the scalar fields in declaration order, then the
      address words. */
  function Encode(r: Record): (s: seq<bv32>)
    requires WellFormed(r)
    ensures |s| == CONTENT_WORDS
    ensures s[PEER_IP_OFFSET..] == r.peerIP
  {
    [r.version, r.sockType, r.isn, r.mss, r.flightFlagSize, r.reqType, r.id, r.cookie]
      + r.peerIP
  }

  /** Reads a record back from the first twelve words of a buffer. */
  function Decode(s: seq<bv32>): (r: Record)
    requires |s| >= CONTENT_WORDS
    ensures WellFormed(r)
  {
    Record(s[0], s[1], s[2], s[3], s[4], s[5], s[6], s[7],
           s[PEER_IP_OFFSET..CONTENT_WORDS])
  }

  /** Decoding what was encoded gives the record back. */
  lemma DecodeEncode(r: Record)
    requires WellFormed(r)
    ensures Decode(Encode(r)) == r
  {
    assert Encode(r)[PEER_IP_OFFSET..CONTENT_WORDS] == r.peerIP;
  }

  /** Encoding what was decoded gives the twelve words back: every buffer
      of the right size is the image of exactly one record. */
  lemma EncodeDecode(s: seq<bv32>)
    requires |s| == CONTENT_WORDS
    ensures Encode(Decode(s)) == s
  {
  }

  class HandShake {
    var version: bv32
    var sockType: bv32
    var isn: bv32
    var mss: bv32
    var flightFlagSize: bv32
    var reqType: bv32
    var id: bv32
    var cookie: bv32
    var peerIP: array<bv32>

    ghost predicate Valid()
      reads this
    {
      peerIP.Length == PEER_IP_WORDS
    }

    /** The current field values. */
    function Fields(): (r: Record)
      reads this, peerIP
      requires Valid()
      ensures WellFormed(r)
    {
      Record(version, sockType, isn, mss, flightFlagSize, reqType, id, cookie, peerIP[..])
    }

    /** A record whose field values are not specified. */
    constructor ()
      ensures Valid() && fresh(peerIP)
    {
      peerIP := new bv32[PEER_IP_WORDS];
    }

    /** Writes the record into the first CONTENT_SIZE bytes of a buffer that
        holds `size` bytes, and reports the bytes written in `newSize`.  A
        buffer that is too small is refused and left untouched. */
    method Serialize(buf: array<bv32>, size: int) returns (status: int, newSize: int)
      requires Valid()
      requires size <= 4 * buf.Length
      requires buf != peerIP
      modifies buf
      ensures size < CONTENT_SIZE ==> status == FAILURE && newSize == size && buf[..] == old(buf[..])
      ensures size >= CONTENT_SIZE ==>
                && status == SUCCESS && newSize == CONTENT_SIZE
                && buf[..CONTENT_WORDS] == Encode(Fields())
                && buf[CONTENT_WORDS..] == old(buf[CONTENT_WORDS..])
    {
      if size < CONTENT_SIZE {
        return FAILURE, size;
      }
      var encoded := Encode(Fields());
      var i := 0;
      while i < CONTENT_WORDS
        invariant 0 <= i <= CONTENT_WORDS
        invariant buf[..i] == encoded[..i]
        invariant buf[CONTENT_WORDS..] == old(buf[CONTENT_WORDS..])
      {
        buf[i] := encoded[i];
        i := i + 1;
      }
      return SUCCESS, CONTENT_SIZE;
    }

    /** Sets every field from a record value. */
    method Load(r: Record)
      requires Valid() && WellFormed(r)
      modifies this, peerIP
      ensures Valid() && peerIP == old(peerIP)
      ensures Fields() == r
    {
      var i := 0;
      while i < PEER_IP_WORDS
        invariant 0 <= i <= PEER_IP_WORDS
        invariant forall k :: 0 <= k < i ==> peerIP[k] == r.peerIP[k]
        modifies peerIP
      {
        peerIP[i] := r.peerIP[i];
        i := i + 1;
      }
      assert peerIP[..] == r.peerIP;
      version := r.version;
      sockType := r.sockType;
      isn := r.isn;
      mss := r.mss;
      flightFlagSize := r.flightFlagSize;
      reqType := r.reqType;
      id := r.id;
      cookie := r.cookie;
    }

    /** Overwrites the record from the first CONTENT_SIZE bytes of a buffer
        of `size` bytes.  A buffer that is too small is refused and the record
        keeps all its previous values. */
    method Deserialize(buf: array<bv32>, size: int) returns (status: int)
      requires Valid()
      requires size <= 4 * buf.Length
      requires buf != peerIP
      modifies this, peerIP
      ensures Valid() && peerIP == old(peerIP)
      ensures size < CONTENT_SIZE ==> status == FAILURE && Fields() == old(Fields())
      ensures size >= CONTENT_SIZE ==> status == SUCCESS && Fields() == Decode(old(buf[..]))
    {
      if size < CONTENT_SIZE {
        return FAILURE;
      }
      Load(Decode(buf[..]));
      return SUCCESS;
    }
  }

  /** One side serializes its record, the other deserializes the buffer:
      the receiver ends up with the sender's fields. */
  method Exchange(sender: HandShake, receiver: HandShake, buf: array<bv32>)
    requires sender.Valid() && receiver.Valid()
    requires buf.Length >= CONTENT_WORDS
    requires buf != sender.peerIP && buf != receiver.peerIP
    requires receiver != sender && receiver.peerIP != sender.peerIP
    modifies buf, receiver, receiver.peerIP
    ensures receiver.Valid() && receiver.Fields() == old(sender.Fields())
  {
    var status, written := sender.Serialize(buf, 4 * buf.Length);
    var received := receiver.Deserialize(buf, written);
    DecodeEncode(old(sender.Fields()));
    assert buf[..CONTENT_WORDS] == Encode(old(sender.Fields()));
  }
}
