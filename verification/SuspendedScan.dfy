/** A coefficient controller that drives the sequential Huffman encoder, while the application empties the output
    buffer whenever the encoder runs out of room. */
module SuspendedScan {
  import opened RestartIntervals
  import opened HuffmanScan
  import opened HuffmanScanEncoder
  import opened CodedMcus
  import opened ImageGeometry
  import opened McuStream
  import opened EntropySink
  import opened CoefficientController

  /** A controller over an encoder, both at the same place of the scan. */
  ghost predicate Running(c: CoefController)
    reads c, c.sink, c.sink.coder, c.whole, c.dummyBuffer
  {
    c.Valid() && c.sink.coder != null && c.start == [] && (c.mode == Buffered ==> c.imcuRowNum <= c.loaded)
  }

  /** One call for an interleaved MCU row. */
  method Step(c: CoefController) returns (done: bool)
    requires Running(c) && c.imcuRowNum < c.l.down
    modifies c, c.sink, c.sink.coder, c.mcuBuffer, c.dummyBuffer, c.whole
    ensures Running(c) && c.l == old(c.l) && c.imcuRowNum == if done then old(c.imcuRowNum) + 1 else old(c.imcuRowNum)
  {
    hide c.Valid;
    if c.mode == Buffered {
      done := c.CompressFirstPass();
    } else {
      done := c.Compress();
    }
  }

  /** New room in the output buffer changes nothing that the controller relies on. */
  method SupplyRoom(c: CoefController, n: nat)
    requires Running(c) && 0 < n
    modifies c.sink.coder
    ensures Running(c)
  {
    hide c.Shape, c.BuffersReady, c.Sent, c.NextRow, c.sink.Valid;
    c.sink.SupplyRoom(n);
  }

  /** Call the controller until the scan is complete or there is no more room to be had. */
  method CompressAll(c: CoefController, rooms: seq<nat>) returns (done: bool)
    requires Running(c) && forall i :: 0 <= i < |rooms| ==> 0 < rooms[i]
    modifies c, c.sink, c.sink.coder, c.mcuBuffer, c.dummyBuffer, c.whole
    ensures Running(c) && c.l == old(c.l) && (done ==> c.imcuRowNum == c.l.down)
  {
    hide Running, c.Valid;
    var i := 0;
    RowInside(c);
    while c.imcuRowNum < c.l.down
      invariant Running(c) && c.l == old(c.l) && i <= |rooms| && c.imcuRowNum <= c.l.down
      decreases |rooms| - i, c.l.down - c.imcuRowNum
    {
      done := Step(c);
      if !done {
        if c.sink.failed || i == |rooms| {
          return;
        }
        SupplyRoom(c, rooms[i]);
        i := i + 1;
      }
    }
    done := true;
  }

  lemma RowInside(c: CoefController)
    requires Running(c)
    ensures c.imcuRowNum <= c.l.down && c.sink.coder != null
  {
  }

  /** A scan through a buffer that is emptied at any times: if it is completed, what has come out is what the scan's
      MCUs come to, and nothing in it depends on where the encoder had to stop. */
  method CompressScan(c: CoefController, rooms: seq<nat>) returns (done: bool)
    requires Running(c) && forall i :: 0 <= i < |rooms| ==> 0 < rooms[i]
    modifies c, c.sink, c.sink.coder, c.mcuBuffer, c.dummyBuffer, c.whole
    ensures c.sink.coder != null && c.l == old(c.l) && ValidLayout(c.l)
    ensures var mcus, e := Stream(c.l, c.pic), c.sink.coder;
      && ValidScan(e.scan) && ValidChunks(e.scan, Intervals(e.interval, mcus))
      && (done ==> e.out == e.start + Wire(0, Plains(e.scan, e.tables, Intervals(e.interval, mcus))))
  {
    done := CompressAll(c, rooms);
    StreamValid(c);
    if done {
      AllSent(c);
      hide *;
      done := c.sink.coder.FinishPass();
    }
  }

  lemma AllSent(c: CoefController)
    requires Running(c) && c.imcuRowNum == c.l.down
    ensures c.sink.coder.Valid() && c.sink.coder.p == Coded(c.sink.coder.interval, Stream(c.l, c.pic))
  {
    hide Stream, Coded, ScanOf, Membership, HoldsPadded, HoldsReal, RowNumber;
    WholeScan(c);
    assert [] + Stream(c.l, c.pic) == Stream(c.l, c.pic);
  }

  lemma StreamValid(c: CoefController)
    requires Running(c)
    ensures ValidLayout(c.l) && ValidScan(c.sink.coder.scan)
    ensures ValidChunks(c.sink.coder.scan, Intervals(c.sink.coder.interval, Stream(c.l, c.pic)))
  {
    hide Stream, Coded, Membership;
    var mcus := Stream(c.l, c.pic);
    StreamFits(c.l, c.pic, c.sink);
    CodedValid(c.sink.coder.scan, c.sink.coder.interval, mcus);
  }

  lemma StreamFits(l: Layout, pic: Picture, sink: McuSink)
    requires ValidLayout(l) && CoderFits(l, sink) && sink.coder != null
    ensures forall i :: 0 <= i < |Stream(l, pic)| ==> ValidMcu(sink.coder.scan, Stream(l, pic)[i])
  {
    hide McuBlocks, Membership, RowPlace;
    forall i | 0 <= i < |Stream(l, pic)|
      ensures ValidMcu(sink.coder.scan, Stream(l, pic)[i])
    {
      var (r, y) := RowPlace(l, i / McusPerRow(l));
      McuLength(l, pic, Place(r, y, i % McusPerRow(l)), |l.planes|);
    }
  }
}
