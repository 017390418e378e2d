/** The frame-metadata test program's four scenarios, each replayed on the
    packet model.  Every scenario returns its verdict as the program does,
    and its contract states that the verdict is a pass for every initial
    header a freshly constructed packet may hold. */
module FrameMetadataTests {
  import opened Packets

  /** Number of scenarios in the suite. */
  const TOTAL: int := 4

  /** Scenario 1: each of the four fields reads back the value written. */
  method TestBasicSetGet() returns (passed: bool)
    ensures passed
  {
    var pkt := new Packet();
    var frameId: bv32 := 12345;
    var chunkId: bv32 := 123;
    var totalChunks: bv32 := 200;
    var frameDeadline: bv64 := 1234567890;
    pkt.SetFrameID(frameId);
    pkt.SetChunkID(chunkId);
    pkt.SetTotalChunks(totalChunks);
    pkt.SetFrameDeadline(frameDeadline);
    passed := pkt.GetFrameID() == frameId
           && pkt.GetChunkID() == chunkId
           && pkt.GetTotalChunks() == totalChunks
           && pkt.GetFrameDeadline() == frameDeadline;
  }

  /** Scenario 2: least and greatest values of each field, and the first
      value past the field's width, which wraps to zero. */
  method TestBoundaryValues() returns (allPassed: bool)
    ensures allPassed
  {
    allPassed := true;

    var pkt := new Packet();
    pkt.SetFrameID(0);
    if pkt.GetFrameID() != 0 { allPassed := false; }
    pkt.SetFrameID(65535);
    if pkt.GetFrameID() != 65535 { allPassed := false; }
    pkt.SetFrameID(65536);
    if pkt.GetFrameID() != 0 { allPassed := false; }

    var chunkPkt := new Packet();
    chunkPkt.SetChunkID(0);
    if chunkPkt.GetChunkID() != 0 { allPassed := false; }
    chunkPkt.SetChunkID(255);
    if chunkPkt.GetChunkID() != 255 { allPassed := false; }
    chunkPkt.SetChunkID(256);
    if chunkPkt.GetChunkID() != 0 { allPassed := false; }

    var totalPkt := new Packet();
    totalPkt.SetTotalChunks(0);
    if totalPkt.GetTotalChunks() != 0 { allPassed := false; }
    totalPkt.SetTotalChunks(255);
    if totalPkt.GetTotalChunks() != 255 { allPassed := false; }
    totalPkt.SetTotalChunks(256);
    if totalPkt.GetTotalChunks() != 0 { allPassed := false; }
  }

  /** Scenario 3: with every field at its greatest value, rewriting the
      frame ID leaves the other three fields as they were. */
  method TestNoBitOverlap() returns (passed: bool)
    ensures passed
  {
    var pkt := new Packet();
    pkt.SetFrameID(65535);
    pkt.SetChunkID(255);
    pkt.SetTotalChunks(255);
    pkt.SetFrameDeadline(0xFFFF_FFFF);
    var allMax := pkt.GetFrameID() == 65535
               && pkt.GetChunkID() == 255
               && pkt.GetTotalChunks() == 255
               && (pkt.GetFrameDeadline() & 0xFFFF_FFFF) as bv32 == 0xFFFF_FFFF;
    pkt.SetFrameID(12345);
    var noOverlap := pkt.GetFrameID() == 12345
                  && pkt.GetChunkID() == 255
                  && pkt.GetTotalChunks() == 255
                  && (pkt.GetFrameDeadline() & 0xFFFF_FFFF) as bv32 == 0xFFFF_FFFF;
    passed := allMax && noOverlap;
  }

  /** Scenario 4: writing the frame metadata keeps the message boundary and
      the in-order flag of word 1 readable, with the values they had before
      the writes. */
  method TestPreserveUdtFields()
    returns (frameOk: bool, boundaryBefore: bv32, orderFlagBefore: bool, boundary: bv32, orderFlag: bool)
    ensures frameOk
    ensures boundary == boundaryBefore && orderFlag == orderFlagBefore
  {
    var pkt := new Packet();
    boundaryBefore := pkt.GetMsgBoundary();
    orderFlagBefore := pkt.GetMsgOrderFlag();
    pkt.SetFrameID(100);
    pkt.SetChunkID(50);
    pkt.SetTotalChunks(75);
    boundary := pkt.GetMsgBoundary();
    orderFlag := pkt.GetMsgOrderFlag();
    frameOk := pkt.GetFrameID() == 100
            && pkt.GetChunkID() == 50
            && pkt.GetTotalChunks() == 75;
  }

  /** The suite: counts the scenarios that pass and reports status 0 when
      all of them do. */
  method RunSuite() returns (passed: int, status: int)
    ensures passed == TOTAL && status == 0
  {
    passed := 0;
    var ok := TestBasicSetGet();
    if ok { passed := passed + 1; }
    ok := TestBoundaryValues();
    if ok { passed := passed + 1; }
    ok := TestNoBitOverlap();
    if ok { passed := passed + 1; }
    var boundaryBefore, orderFlagBefore, boundary, orderFlag;
    ok, boundaryBefore, orderFlagBefore, boundary, orderFlag := TestPreserveUdtFields();
    if ok { passed := passed + 1; }
    status := if passed == TOTAL then 0 else 1;
  }
}
