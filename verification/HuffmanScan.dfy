/** Huffman coding of a sequential scan with restart intervals: the symbols of every MCU, the bits of every
    interval, what a decoder reads off the wire, and the round trip between the two. */
module HuffmanScan {
  import opened Powers
  import opened Coefficients
  import opened ByteStream
  import opened BitStream
  import opened RestartIntervals
  import opened SegmentedReading
  import opened HuffmanBlocks

  datatype Component = Component(dcTbl: TableNumber, acTbl: TableNumber)

  /** The components of a scan, the component of each block of an MCU, and the last coefficient coded. */
  datatype Scan = Scan(comps: seq<Component>, membership: seq<nat>, se: nat)

  predicate ValidScan(s: Scan) {
    s.se < 64 && forall i :: 0 <= i < |s.membership| ==> s.membership[i] < |s.comps|
  }

  predicate ValidMcu(s: Scan, mcu: Mcu) { |mcu| == |s.membership| }

  predicate ValidChunk(s: Scan, chunk: Chunk) { forall i :: 0 <= i < |chunk| ==> ValidMcu(s, chunk[i]) }

  function Zero(s: Scan): (p: seq<int>)
    ensures |p| == |s.comps|
  {
    seq(|s.comps|, _ => 0)
  }

  // ----- what is coded -----

  /** Blocks i onwards of an MCU, with the predictions given. */
  function McuItems(s: Scan, preds: seq<int>, mcu: Mcu, i: nat): seq<Item>
    requires ValidScan(s) && |preds| == |s.comps| && ValidMcu(s, mcu) && i <= |mcu|
    decreases |mcu| - i
  {
    if i == |mcu| then []
    else
      var c := s.membership[i];
      BlockItems(s.comps[c].dcTbl, s.comps[c].acTbl, preds[c], mcu[i], s.se)
      + McuItems(s, preds[c := mcu[i][0]], mcu, i + 1)
  }

  function McuPreds(s: Scan, preds: seq<int>, mcu: Mcu, i: nat): (r: seq<int>)
    requires ValidScan(s) && |preds| == |s.comps| && ValidMcu(s, mcu) && i <= |mcu|
    ensures |r| == |preds|
    decreases |mcu| - i
  {
    if i == |mcu| then preds else McuPreds(s, preds[s.membership[i] := mcu[i][0]], mcu, i + 1)
  }

  /** Every DC difference has at most 11 bits and every AC coefficient at most 10. */
  predicate McuFits(s: Scan, preds: seq<int>, mcu: Mcu, i: nat)
    requires ValidScan(s) && |preds| == |s.comps| && ValidMcu(s, mcu) && i <= |mcu|
    decreases |mcu| - i
  {
    i == |mcu|
    || (DcFits(mcu[i][0] - preds[s.membership[i]]) && AcFits(mcu[i], 1, s.se)
        && McuFits(s, preds[s.membership[i] := mcu[i][0]], mcu, i + 1))
  }

  function ChunkItems(s: Scan, preds: seq<int>, chunk: Chunk): seq<Item>
    requires ValidScan(s) && |preds| == |s.comps| && ValidChunk(s, chunk)
    decreases |chunk|
  {
    if chunk == [] then []
    else McuItems(s, preds, chunk[0], 0) + ChunkItems(s, McuPreds(s, preds, chunk[0], 0), chunk[1..])
  }

  function ChunkPreds(s: Scan, preds: seq<int>, chunk: Chunk): (r: seq<int>)
    requires ValidScan(s) && |preds| == |s.comps| && ValidChunk(s, chunk)
    ensures |r| == |preds|
    decreases |chunk|
  {
    if chunk == [] then preds else ChunkPreds(s, McuPreds(s, preds, chunk[0], 0), chunk[1..])
  }

  predicate ChunkFits(s: Scan, preds: seq<int>, chunk: Chunk)
    requires ValidScan(s) && |preds| == |s.comps| && ValidChunk(s, chunk)
    decreases |chunk|
  {
    chunk == [] || (McuFits(s, preds, chunk[0], 0) && ChunkFits(s, McuPreds(s, preds, chunk[0], 0), chunk[1..]))
  }

  lemma {:induction false} ChunkAppend(s: Scan, preds: seq<int>, chunk: Chunk, mcu: Mcu)
    requires ValidScan(s) && |preds| == |s.comps| && ValidChunk(s, chunk) && ValidMcu(s, mcu)
    ensures ChunkItems(s, preds, chunk + [mcu])
      == ChunkItems(s, preds, chunk) + McuItems(s, ChunkPreds(s, preds, chunk), mcu, 0)
    ensures ChunkPreds(s, preds, chunk + [mcu]) == McuPreds(s, ChunkPreds(s, preds, chunk), mcu, 0)
    ensures ChunkFits(s, preds, chunk + [mcu]) <==>
      ChunkFits(s, preds, chunk) && McuFits(s, ChunkPreds(s, preds, chunk), mcu, 0)
    decreases |chunk|
  {
    hide McuItems, McuPreds, McuFits;
    if chunk == [] {
      assert ([mcu])[1..] == [];
      assert chunk + [mcu] == [mcu];
    } else {
      assert (chunk + [mcu])[1..] == chunk[1..] + [mcu];
      ChunkAppend(s, McuPreds(s, preds, chunk[0], 0), chunk[1..], mcu);
    }
  }

  /** The data bytes of a restart interval. */
  function ChunkBytes(s: Scan, e: Tables, chunk: Chunk): seq<byte>
    requires ValidScan(s) && ValidChunk(s, chunk)
  {
    Pack(Flushed(Bits(e, ChunkItems(s, Zero(s), chunk))))
  }

  ghost predicate ValidChunks(s: Scan, chunks: seq<Chunk>) {
    forall j :: 0 <= j < |chunks| ==> ValidChunk(s, chunks[j])
  }

  /** Every chunk fits, and every symbol has a code. */
  ghost predicate AllWritable(s: Scan, e: Tables, chunks: seq<Chunk>)
    requires ValidScan(s) && ValidChunks(s, chunks)
  {
    forall j :: 0 <= j < |chunks| ==>
      ChunkFits(s, Zero(s), chunks[j]) && AllCodable(e, ChunkItems(s, Zero(s), chunks[j]))
  }

  // ----- what is read -----

  datatype McuRead = McuRead(mcu: Mcu, preds: seq<int>, src: Source)

  function ReadMcu(s: Scan, e: Tables, src: Source, preds: seq<int>, mcu: Mcu, i: nat): (r: McuRead)
    requires ValidScan(s) && |preds| == |s.comps| && ValidMcu(s, mcu) && i <= |mcu|
    ensures |r.preds| == |preds| && |r.mcu| == |mcu|
    decreases |mcu| - i
  {
    if i == |mcu| then McuRead(mcu, preds, src)
    else
      var c := s.membership[i];
      var b := ReadBlock(e.dc[s.comps[c].dcTbl].t, e.ac[s.comps[c].acTbl].t, src, preds[c], mcu[i], s.se);
      ReadMcu(s, e, b.src, preds[c := b.pred], mcu[i := b.b], i + 1)
  }

  /** A decoder's state within a segment: the bits to come, and the predictions. */
  datatype State = State(src: Source, preds: seq<int>)

  /** The decoding process.  Once bits have run out, MCUs are left as they are. */
  function Decoding(s: Scan, e: Tables): Process<State>
    requires ValidScan(s)
  {
    Process((st: State, data: seq<byte>) => State(Source(Unpack(data), false), Zero(s)),
            (st: State, was: Mcu) => ReadInto(s, e, st, was))
  }

  function ReadInto(s: Scan, e: Tables, st: State, was: Mcu): (Mcu, State)
    requires ValidScan(s)
  {
    if st.src.dry || |st.preds| != |s.comps| || !ValidMcu(s, was) then (was, st)
    else
      var m := ReadMcu(s, e, st.src, st.preds, was, 0);
      (m.mcu, State(m.src, m.preds))
  }

  // ----- round trip -----

  /** Blocks are cleared before they are decoded. */
  predicate Clear(s: Scan, was: Block) { forall j :: 1 <= j < 64 && j <= s.se ==> was[j] == 0 }

  ghost predicate AllClear(s: Scan, was: seq<Mcu>) {
    forall m, i :: 0 <= m < |was| && 0 <= i < |was[m]| ==> Clear(s, was[m][i])
  }

  /** A block with the coefficients coded: all of the band, the rest as before. */
  function Delivered(s: Scan, was: Block, b: Block): Block { WithAc(was[0 := b[0]], b, s.se) }

  function DeliveredFrom(s: Scan, was: Mcu, mcu: Mcu, i: nat): Mcu
    requires |was| == |mcu|
  {
    seq(|mcu|, j requires 0 <= j < |mcu| => if i <= j then Delivered(s, was[j], mcu[j]) else was[j])
  }

  function DeliveredAll(s: Scan, was: seq<Mcu>, mcus: seq<Mcu>): (r: seq<Mcu>)
    requires |was| == |mcus| && forall i :: 0 <= i < |mcus| ==> |was[i]| == |mcus[i]|
    ensures |r| == |mcus|
  {
    seq(|mcus|, i requires 0 <= i < |mcus| => DeliveredFrom(s, was[i], mcus[i], 0))
  }

  lemma DeliveredStep(s: Scan, was: Mcu, mcu: Mcu, i: nat)
    requires |was| == |mcu| && i < |mcu|
    ensures DeliveredFrom(s, was[i := Delivered(s, was[i], mcu[i])], mcu, i + 1) == DeliveredFrom(s, was, mcu, i)
    ensures i == |mcu| - 1 ==> DeliveredFrom(s, was, mcu, i + 1) == was
  {
    hide Delivered;
  }

  /** What a reader makes of the items of an MCU from block i on. */
  function McuReadAt(s: Scan, e: Tables, items: seq<Item>, rest: seq<Bit>, dry: bool, preds: seq<int>, was: Mcu,
      i: nat): (r: McuRead)
    requires ValidScan(s) && |preds| == |s.comps| && ValidMcu(s, was) && i <= |was|
    ensures |r.preds| == |preds| && |r.mcu| == |was|
  {
    ReadMcu(s, e, Source(Bits(e, items) + rest, dry), preds, was, i)
  }

  lemma {:induction false} McuRoundTrip(s: Scan, e: Tables, preds: seq<int>, was: Mcu, mcu: Mcu, i: nat,
      rest: seq<Bit>, dry: bool)
    requires ValidScan(s) && |preds| == |s.comps| && ValidMcu(s, mcu) && ValidMcu(s, was) && i <= |mcu|
    requires McuFits(s, preds, mcu, i) && AllCodable(e, McuItems(s, preds, mcu, i))
    requires forall j :: i <= j < |was| ==> Clear(s, was[j])
    ensures McuReadAt(s, e, McuItems(s, preds, mcu, i), rest, dry, preds, was, i)
      == McuRead(DeliveredFrom(s, was, mcu, i), McuPreds(s, preds, mcu, i), Source(rest, dry))
    decreases |mcu| - i
  {
    hide BlockItems, ReadBlock, Codable, Delivered, DeliveredFrom, ItemBits, DcFits, AcFits;
    if i == |mcu| {
      assert Bits(e, []) + rest == rest;
      AllDelivered(s, was, mcu);
    } else {
      var c := s.membership[i];
      var comp := s.comps[c];
      var here := BlockItems(comp.dcTbl, comp.acTbl, preds[c], mcu[i], s.se);
      var more := McuItems(s, preds[c := mcu[i][0]], mcu, i + 1);
      CodableParts(e, here, more);
      BitsConcat(e, here, more);
      var after := Bits(e, more) + rest;
      assert Bits(e, here + more) + rest == Bits(e, here) + after;
      OneBlock(s, e, comp, preds[c], was[i], mcu[i], after, dry);
      var next := was[i := Delivered(s, was[i], mcu[i])];
      DeliveredStep(s, was, mcu, i);
      McuRoundTrip(s, e, preds[c := mcu[i][0]], next, mcu, i + 1, rest, dry);
    }
  }

  lemma AllDelivered(s: Scan, was: Mcu, mcu: Mcu)
    requires |was| == |mcu|
    ensures DeliveredFrom(s, was, mcu, |mcu|) == was
  {
  }

  lemma OneBlock(s: Scan, e: Tables, comp: Component, pred: int, was: Block, b: Block, after: seq<Bit>, dry: bool)
    requires s.se < 64 && Clear(s, was) && DcFits(b[0] - pred) && AcFits(b, 1, s.se)
    requires AllCodable(e, BlockItems(comp.dcTbl, comp.acTbl, pred, b, s.se))
    ensures ReadBlock(e.dc[comp.dcTbl].t, e.ac[comp.acTbl].t,
                      Source(Bits(e, BlockItems(comp.dcTbl, comp.acTbl, pred, b, s.se)) + after, dry), pred, was, s.se)
      == BlockRead(Delivered(s, was, b), b[0], Source(after, dry))
  {
    hide BlockItems, ReadBlock, Codable, Bits, DcFits, AcFits, WithAc;
    BlockRoundTrip(e, comp.dcTbl, comp.acTbl, pred, b, s.se, was, after, dry);
  }

  /** One MCU, and what is left behind it. */
  lemma ReadIntoMcu(s: Scan, e: Tables, preds: seq<int>, was: Mcu, mcu: Mcu, more: seq<Item>, rest: seq<Bit>)
    requires ValidScan(s) && |preds| == |s.comps| && ValidMcu(s, mcu) && ValidMcu(s, was)
    requires McuFits(s, preds, mcu, 0) && AllCodable(e, McuItems(s, preds, mcu, 0))
    requires forall j :: 0 <= j < |was| ==> Clear(s, was[j])
    ensures ReadInto(s, e, State(Source(Bits(e, McuItems(s, preds, mcu, 0) + more) + rest, false), preds), was)
      == (DeliveredFrom(s, was, mcu, 0), State(Source(Bits(e, more) + rest, false), McuPreds(s, preds, mcu, 0)))
  {
    hide McuItems, McuPreds, McuFits, ReadMcu, Codable, DeliveredFrom, Bits, Clear;
    var items := McuItems(s, preds, mcu, 0);
    BitsConcat(e, items, more);
    assert Bits(e, items + more) + rest == Bits(e, items) + (Bits(e, more) + rest);
    McuRoundTrip(s, e, preds, was, mcu, 0, Bits(e, more) + rest, false);
  }

  /** The MCUs of one restart interval. */
  lemma {:induction false} ChunkRoundTrip(s: Scan, e: Tables, preds: seq<int>, was: seq<Mcu>, chunk: Chunk,
      rest: seq<Bit>)
    requires ValidScan(s) && |preds| == |s.comps| && ValidChunk(s, chunk) && ValidChunk(s, was)
    requires |was| == |chunk| && AllClear(s, was) && ChunkFits(s, preds, chunk)
    requires AllCodable(e, ChunkItems(s, preds, chunk))
    ensures ReadChunk(Decoding(s, e), State(Source(Bits(e, ChunkItems(s, preds, chunk)) + rest, false), preds), was)
      == (DeliveredAll(s, was, chunk), State(Source(rest, false), ChunkPreds(s, preds, chunk)))
    decreases |chunk|
  {
    hide McuItems, McuPreds, McuFits, ReadInto, Codable, DeliveredFrom, Clear, ItemBits;
    if chunk == [] {
      assert Bits(e, []) + rest == rest;
    } else {
      var items, next := McuItems(s, preds, chunk[0], 0), McuPreds(s, preds, chunk[0], 0);
      var more := ChunkItems(s, next, chunk[1..]);
      CodableParts(e, items, more);
      ReadIntoMcu(s, e, preds, was[0], chunk[0], more, rest);
      ChunkRoundTrip(s, e, next, was[1..], chunk[1..], rest);
      DeliveredFirst(s, was, chunk);
    }
  }

  lemma DeliveredFirst(s: Scan, was: seq<Mcu>, chunk: Chunk)
    requires chunk != [] && |was| == |chunk| && forall i :: 0 <= i < |chunk| ==> |was[i]| == |chunk[i]|
    ensures DeliveredAll(s, was, chunk)
      == [DeliveredFrom(s, was[0], chunk[0], 0)] + DeliveredAll(s, was[1..], chunk[1..])
  {
    hide DeliveredFrom;
  }

  /** The data bytes of the intervals. */
  function Plains(s: Scan, e: Tables, chunks: seq<Chunk>): (p: seq<seq<byte>>)
    requires ValidScan(s) && ValidChunks(s, chunks)
    ensures |p| == |chunks|
    decreases |chunks|
  {
    if chunks == [] then [] else [ChunkBytes(s, e, chunks[0])] + Plains(s, e, chunks[1..])
  }

  /** The data bytes of one interval read back. */
  lemma IntervalRoundTrip(s: Scan, e: Tables, st: State, chunk: Chunk, was: seq<Mcu>) returns (next: State)
    requires ValidScan(s) && ValidChunk(s, chunk) && ValidChunk(s, was) && |was| == |chunk| && AllClear(s, was)
    requires ChunkFits(s, Zero(s), chunk) && AllCodable(e, ChunkItems(s, Zero(s), chunk))
    ensures var p := Decoding(s, e);
      ReadChunk(p, p.open(st, ChunkBytes(s, e, chunk)), was) == (DeliveredAll(s, was, chunk), next)
    ensures !next.src.dry
  {
    hide ChunkItems, ChunkFits, Bits, Pack, Unpack, Clear, Codable, ReadChunk, DeliveredAll, ReadInto;
    var bits := Bits(e, ChunkItems(s, Zero(s), chunk));
    UnpackPack(Flushed(bits));
    var pad := Flushed(bits)[|bits|..];
    assert Flushed(bits) == bits + pad;
    ChunkRoundTrip(s, e, Zero(s), was, chunk, pad);
    next := State(Source(pad, false), ChunkPreds(s, Zero(s), chunk));
  }

  /** Blocks of every interval as they are before decoding. */
  ghost predicate Blank(s: Scan, was: seq<Chunk>, chunks: seq<Chunk>) {
    && |was| == |chunks|
    && forall j :: 0 <= j < |chunks| ==> |was[j]| == |chunks[j]| && ValidChunk(s, was[j]) && AllClear(s, was[j])
  }

  function Delivery(s: Scan, was: seq<Chunk>, chunks: seq<Chunk>): (r: seq<Chunk>)
    requires |was| == |chunks|
    requires forall j :: 0 <= j < |chunks| ==>
      |was[j]| == |chunks[j]| && forall i :: 0 <= i < |chunks[j]| ==> |was[j][i]| == |chunks[j][i]|
    ensures |r| == |chunks|
  {
    seq(|chunks|, j requires 0 <= j < |chunks| => DeliveredAll(s, was[j], chunks[j]))
  }

  lemma {:induction false} AllIntervals(s: Scan, e: Tables, st: State, chunks: seq<Chunk>, was: seq<Chunk>)
    requires ValidScan(s) && ValidChunks(s, chunks) && AllWritable(s, e, chunks) && Blank(s, was, chunks) && !st.src.dry
    ensures AllRead(Decoding(s, e), st, Plains(s, e, chunks), was, Delivery(s, was, chunks))
    ensures !LastState(Decoding(s, e), st, Plains(s, e, chunks), was).src.dry
    decreases |chunks|
  {
    hide ReadChunk, DeliveredAll, ChunkFits, ChunkItems, AllCodable, AllClear, ChunkBytes;
    if chunks != [] {
      var next := IntervalRoundTrip(s, e, st, chunks[0], was[0]);
      AllIntervals(s, e, next, chunks[1..], was[1..]);
      assert Delivery(s, was, chunks)[1..] == Delivery(s, was[1..], chunks[1..]);
    }
  }

  /** A decoder's state before a scan. */
  function Initially(s: Scan): State { State(Source([], false), Zero(s)) }

  /** Scan round trip: for every sequence of MCUs, any tables and any restart interval, a decoder reads back
      exactly what was coded, without running out of bits. */
  lemma HuffmanRoundTrip(s: Scan, e: Tables, interval: nat, chunks: seq<Chunk>, ending: seq<byte>, was: seq<Chunk>)
    requires ValidScan(s) && ValidChunks(s, chunks) && Chunked(interval, chunks) && AllWritable(s, e, chunks)
    requires CleanEnding(ending) && Blank(s, was, chunks)
    ensures var p, plains := Decoding(s, e), Plains(s, e, chunks);
      && Recovers(p, interval, StartReader(p, interval, Initially(s), Wire(0, plains) + ending), Flatten(was),
                  Flatten(Delivery(s, was, chunks)), LastState(p, Initially(s), plains, was))
      && !LastState(p, Initially(s), plains, was).src.dry
  {
    hide Wire, Delivery, AllRead, LastState, Recovers, StartReader;
    AllIntervals(s, e, Initially(s), chunks, was);
    SameChunks(interval, s, was, chunks);
    ScanRoundTrip(Decoding(s, e), interval, Initially(s), Plains(s, e, chunks), ending, was, Delivery(s, was, chunks));
  }

  lemma SameChunks(interval: nat, s: Scan, was: seq<Chunk>, chunks: seq<Chunk>)
    requires Chunked(interval, chunks) && Blank(s, was, chunks)
    ensures Chunked(interval, was)
  {
    hide ValidChunk, AllClear;
  }
}
