/** Huffman coding of progressive scans with restart intervals (section G of ITU-T T.81): the symbols of every
    MCU, the bits of every interval, what a decoder reads off the wire, and the round trip between the two. */
module ProgressiveCoding {
  import opened Powers
  import opened Coefficients
  import opened ByteStream
  import opened BitStream
  import opened RestartIntervals
  import opened SegmentedReading
  import opened HuffmanSymbols
  import opened HuffmanBlocks
  import opened BandItems
  import opened BandReading
  import opened EobRuns
  import BandRoundTrip
  import BlockRefinement
  import McuCoding
  import ScanCoding

  type Scan = McuCoding.Scan

  /** A scan of the progressive process whose components use the four Huffman tables of either kind. */
  predicate ValidScan(s: Scan) {
    && McuCoding.ValidScan(s) && s.kind != McuCoding.Sequential
    && forall c :: 0 <= c < |s.comps| ==> s.comps[c].dcTbl < NUM_HUFF_TBLS && s.comps[c].acTbl < NUM_HUFF_TBLS
  }

  predicate IsDc(s: Scan) { s.kind == McuCoding.DcFirst || s.kind == McuCoding.DcRefine }

  function DcTableOf(s: Scan, c: nat): TableNumber
    requires ValidScan(s) && c < |s.comps|
  {
    s.comps[c].dcTbl
  }

  /** The AC table is that of the first component. */
  function AcTableOf(s: Scan): TableNumber
    requires ValidScan(s)
  {
    if |s.comps| > 0 then s.comps[0].acTbl else 0
  }

  function BandOf(s: Scan): (p: Band)
    requires ValidScan(s) && !IsDc(s)
    ensures ValidBand(p)
  {
    Band(s.kind == McuCoding.AcRefine, AcTableOf(s), s.ss, s.se, s.al)
  }

  predicate ValidMcu(s: Scan, mcu: Mcu) { |mcu| == |s.membership| }

  predicate ValidChunk(s: Scan, chunk: Chunk) { forall i :: 0 <= i < |chunk| ==> ValidMcu(s, chunk[i]) }

  // ----- what is coded -----

  /** What coding keeps from MCU to MCU: the predictions, and the run not yet written. */
  datatype Coding = Coding(preds: seq<int>, st: Pending)

  function Fresh(s: Scan): (c: Coding)
    ensures |c.preds| == |s.comps|
  {
    Coding(seq(|s.comps|, _ => 0), NONE)
  }

  /** Blocks i onwards of a first DC scan: differences of point-transformed values. */
  function DcItems(s: Scan, preds: seq<int>, mcu: Mcu, i: nat): seq<Item>
    requires ValidScan(s) && |preds| == |s.comps| && ValidMcu(s, mcu) && i <= |mcu|
    decreases |mcu| - i
  {
    if i == |mcu| then []
    else
      var c, x := s.membership[i], Shift(mcu[i][0], s.al);
      Value(false, DcTableOf(s, c), 0, x - preds[c]) + DcItems(s, preds[c := x], mcu, i + 1)
  }

  function DcPreds(s: Scan, preds: seq<int>, mcu: Mcu, i: nat): (r: seq<int>)
    requires ValidScan(s) && |preds| == |s.comps| && ValidMcu(s, mcu) && i <= |mcu|
    ensures |r| == |preds|
    decreases |mcu| - i
  {
    if i == |mcu| then preds else DcPreds(s, preds[s.membership[i] := Shift(mcu[i][0], s.al)], mcu, i + 1)
  }

  predicate DcMcuFits(s: Scan, preds: seq<int>, mcu: Mcu, i: nat)
    requires ValidScan(s) && |preds| == |s.comps| && ValidMcu(s, mcu) && i <= |mcu|
    decreases |mcu| - i
  {
    i == |mcu|
    || var c, x := s.membership[i], Shift(mcu[i][0], s.al);
       DcFits(x - preds[c]) && DcMcuFits(s, preds[c := x], mcu, i + 1)
  }

  /** Blocks i onwards of a DC refinement scan: one bit each. */
  function RefineItems(s: Scan, mcu: Mcu, i: nat): seq<Item>
    requires i <= |mcu|
    decreases |mcu| - i
  {
    if i == |mcu| then [] else [Extra(BlockRefinement.BitOf(mcu[i][0], s.al), 1)] + RefineItems(s, mcu, i + 1)
  }

  /** The items of one MCU, and what is kept after it. */
  ghost function McuCoded(s: Scan, c: Coding, mcu: Mcu): (r: (seq<Item>, Coding))
    requires ValidScan(s) && |c.preds| == |s.comps| && ValidMcu(s, mcu)
    ensures |r.1.preds| == |c.preds|
  {
    if s.kind == McuCoding.DcFirst then (DcItems(s, c.preds, mcu, 0), c.(preds := DcPreds(s, c.preds, mcu, 0)))
    else if s.kind == McuCoding.DcRefine then (RefineItems(s, mcu, 0), c)
    else
      var (items, st) := StepItems(BandOf(s), c.st, mcu[0]);
      (items, c.(st := st))
  }

  /** DC differences of at most 11 bits, AC coefficients of first passes of at most 10. */
  predicate McuFits(s: Scan, c: Coding, mcu: Mcu)
    requires ValidScan(s) && |c.preds| == |s.comps| && ValidMcu(s, mcu)
  {
    if s.kind == McuCoding.DcFirst then DcMcuFits(s, c.preds, mcu, 0)
    else s.kind == McuCoding.DcRefine || BandRoundTrip.BandFits(BandOf(s), mcu[0])
  }

  ghost function ChunkCoded(s: Scan, c: Coding, chunk: Chunk): (r: (seq<Item>, Coding))
    requires ValidScan(s) && |c.preds| == |s.comps| && ValidChunk(s, chunk)
    ensures |r.1.preds| == |c.preds|
    decreases |chunk|
  {
    if chunk == [] then ([], c)
    else
      var (items, next) := McuCoded(s, c, chunk[0]);
      var (more, last) := ChunkCoded(s, next, chunk[1..]);
      (items + more, last)
  }

  ghost predicate ChunkFits(s: Scan, c: Coding, chunk: Chunk)
    requires ValidScan(s) && |c.preds| == |s.comps| && ValidChunk(s, chunk)
    decreases |chunk|
  {
    chunk == [] || (McuFits(s, c, chunk[0]) && ChunkFits(s, McuCoded(s, c, chunk[0]).1, chunk[1..]))
  }

  /** The items of a restart interval, with the last run written at its end. */
  ghost function ChunkItems(s: Scan, chunk: Chunk): seq<Item>
    requires ValidScan(s) && ValidChunk(s, chunk)
  {
    var (items, last) := ChunkCoded(s, Fresh(s), chunk);
    items + EobItems(AcTableOf(s), last.st)
  }

  lemma {:induction false} ChunkAppend(s: Scan, c: Coding, chunk: Chunk, mcu: Mcu)
    requires ValidScan(s) && |c.preds| == |s.comps| && ValidChunk(s, chunk) && ValidMcu(s, mcu)
    ensures var (items, last) := ChunkCoded(s, c, chunk);
      var (more, next) := McuCoded(s, last, mcu);
      && ChunkCoded(s, c, chunk + [mcu]) == (items + more, next)
      && (ChunkFits(s, c, chunk + [mcu]) <==> ChunkFits(s, c, chunk) && McuFits(s, last, mcu))
    decreases |chunk|
  {
    hide McuCoded, McuFits;
    if chunk == [] {
      assert ([mcu])[1..] == [];
      assert chunk + [mcu] == [mcu];
      var items := McuCoded(s, c, mcu).0;
      assert items + [] == items && [] + items == items;
    } else {
      assert (chunk + [mcu])[1..] == chunk[1..] + [mcu];
      var (items, next) := McuCoded(s, c, chunk[0]);
      ChunkAppend(s, next, chunk[1..], mcu);
      var (more, last) := ChunkCoded(s, next, chunk[1..]);
      assert items + (more + McuCoded(s, last, mcu).0) == items + more + McuCoded(s, last, mcu).0;
    }
  }

  /** The data bytes of a restart interval. */
  ghost function ChunkBytes(s: Scan, e: Tables, chunk: Chunk): seq<byte>
    requires ValidScan(s) && ValidChunk(s, chunk)
  {
    Pack(Flushed(Bits(e, ChunkItems(s, chunk))))
  }

  ghost predicate ValidChunks(s: Scan, chunks: seq<Chunk>) {
    forall j :: 0 <= j < |chunks| ==> ValidChunk(s, chunks[j])
  }

  /** Every chunk fits, and every symbol has a code. */
  ghost predicate AllWritable(s: Scan, e: Tables, chunks: seq<Chunk>)
    requires ValidScan(s) && ValidChunks(s, chunks)
  {
    forall j :: 0 <= j < |chunks| ==> ChunkFits(s, Fresh(s), chunks[j]) && AllCodable(e, ChunkItems(s, chunks[j]))
  }

  // ----- what is read -----

  /** A decoder's state within a segment: the bits to come, predictions, and blocks left in a run. */
  datatype State = State(src: Source, preds: seq<int>, run: nat)

  datatype McuRead = McuRead(mcu: Mcu, preds: seq<int>, src: Source)

  function ReadDcFirst(s: Scan, e: Tables, src: Source, preds: seq<int>, mcu: Mcu, i: nat): (r: McuRead)
    requires ValidScan(s) && |preds| == |s.comps| && ValidMcu(s, mcu) && i <= |mcu|
    ensures |r.preds| == |preds| && |r.mcu| == |mcu|
    decreases |mcu| - i
  {
    if i == |mcu| then McuRead(mcu, preds, src)
    else
      var c := s.membership[i];
      var (n, s1) := ReadSymbol(e.dc[DcTableOf(s, c)].t, src);
      var (diff, s2) := ReadExtra(s1, n);
      var x := diff + preds[c];
      ReadDcFirst(s, e, s2, preds[c := x], mcu[i := mcu[i][0 := ToCoef(x * Pow2(s.al))]], i + 1)
  }

  function ReadDcRefine(s: Scan, src: Source, mcu: Mcu, i: nat): (r: (Mcu, Source))
    requires i <= |mcu|
    ensures |r.0| == |mcu|
    decreases |mcu| - i
  {
    if i == |mcu| then (mcu, src)
    else
      var (bit, s1) := Take(src, 1);
      ReadDcRefine(s, s1,
        if bit != 0 then mcu[i := mcu[i][0 := ToCoef(BlockRefinement.SetBit(mcu[i][0], s.al))]] else mcu, i + 1)
  }

  /** Read one MCU.  Once bits have run out MCUs are left as they are; DC refinement then reads zeros, which
      leave them so as well. */
  function ReadInto(s: Scan, e: Tables, st: State, was: Mcu): (Mcu, State)
    requires ValidScan(s)
  {
    if |st.preds| != |s.comps| || !ValidMcu(s, was) then (was, st)
    else if s.kind == McuCoding.DcFirst then
      if st.src.dry then (was, st)
      else
        var m := ReadDcFirst(s, e, st.src, st.preds, was, 0);
        (m.mcu, st.(src := m.src, preds := m.preds))
    else if s.kind == McuCoding.DcRefine then
      var (mcu, src) := ReadDcRefine(s, st.src, was, 0);
      (mcu, st.(src := src))
    else
      var r := ReadBand(BandOf(s), e.ac[AcTableOf(s)].t, st.src, st.run, was[0]);
      (was[0 := r.b], st.(src := r.src, run := r.run))
  }

  function Decoding(s: Scan, e: Tables): Process<State>
    requires ValidScan(s)
  {
    Process((st: State, data: seq<byte>) => State(Source(Unpack(data), false), Fresh(s).preds, 0),
            (st: State, was: Mcu) => ReadInto(s, e, st, was))
  }

  // ----- round trip: DC scans -----

  /** What a reader of a first DC scan makes of items. */
  function DcReadAt(s: Scan, e: Tables, items: seq<Item>, rest: seq<Bit>, preds: seq<int>, was: Mcu,
      i: nat): (r: McuRead)
    requires ValidScan(s) && |preds| == |s.comps| && ValidMcu(s, was) && i <= |was|
    ensures |r.preds| == |preds| && |r.mcu| == |was|
  {
    ReadDcFirst(s, e, Source(Bits(e, items) + rest, false), preds, was, i)
  }

  lemma {:induction false} DcFirstRoundTrip(s: Scan, e: Tables, preds: seq<int>, was: Mcu, mcu: Mcu, i: nat,
      more: seq<Item>, rest: seq<Bit>)
    requires ValidScan(s) && s.kind == McuCoding.DcFirst && |preds| == |s.comps| && ValidMcu(s, mcu)
    requires ValidMcu(s, was) && i <= |mcu|
    requires DcMcuFits(s, preds, mcu, i) && AllCodable(e, DcItems(s, preds, mcu, i))
    ensures DcReadAt(s, e, DcItems(s, preds, mcu, i) + more, rest, preds, was, i)
      == McuRead(McuCoding.DeliveredFrom(s, was, mcu, i), DcPreds(s, preds, mcu, i),
        Source(Bits(e, more) + rest, false))
    decreases |mcu| - i
  {
    hide Value, Bits, Codable, McuCoding.Delivered, McuCoding.DeliveredFrom, DcFits, Shift, ReadSymbol, ReadExtra;
    if i == |mcu| {
      assert [] + more == more;
      McuCoding.DeliveredDone(s, was, mcu);
    } else {
      var c, x := s.membership[i], Shift(mcu[i][0], s.al);
      var here, later := Value(false, DcTableOf(s, c), 0, x - preds[c]), DcItems(s, preds[c := x], mcu, i + 1);
      CodableParts(e, here, later);
      assert here + later + more == here + (later + more);
      FitsSize(x - preds[c]);
      ReadValue(e, false, DcTableOf(s, c), 0, x - preds[c], later + more, rest, false);
      var next := was[i := McuCoding.Delivered(s, was[i], mcu[i])];
      assert McuCoding.Delivered(s, was[i], mcu[i]) == was[i][0 := ToCoef(x * Pow2(s.al))] by {
        DcDelivered(s, was[i], mcu[i]);
      }
      McuCoding.DeliveredStep(s, was, mcu, i);
      DcFirstRoundTrip(s, e, preds[c := x], next, mcu, i + 1, more, rest);
    }
  }

  lemma FitsSize(diff: int)
    requires DcFits(diff)
    ensures Size(Abs(diff)) <= 11
  {
  }

  lemma DcDelivered(s: Scan, was: Block, b: Block)
    requires s.kind == McuCoding.DcFirst
    ensures McuCoding.Delivered(s, was, b) == was[0 := ToCoef(Shift(b[0], s.al) * Pow2(s.al))]
  {
  }

  lemma {:induction false} DcRefineRoundTrip(s: Scan, e: Tables, was: Mcu, mcu: Mcu, i: nat, more: seq<Item>,
      rest: seq<Bit>)
    requires s.kind == McuCoding.DcRefine && i <= |mcu| && |was| == |mcu|
    ensures ReadDcRefine(s, Source(Bits(e, RefineItems(s, mcu, i) + more) + rest, false), was, i)
      == (McuCoding.DeliveredFrom(s, was, mcu, i), Source(Bits(e, more) + rest, false))
    decreases |mcu| - i
  {
    hide McuCoding.DeliveredFrom, BlockRefinement.SetBit, BlockRefinement.BitOf, Bits, Take;
    if i == |mcu| {
      assert [] + more == more;
      McuCoding.DeliveredDone(s, was, mcu);
    } else {
      var bit := BlockRefinement.BitOf(mcu[i][0], s.al);
      var later := RefineItems(s, mcu, i + 1) + more;
      var items := RefineItems(s, mcu, i) + more;
      assert items[0] == Extra(bit, 1) && items[1..] == later;
      BitCodable(e, bit);
      ReadFirst(e, items, rest, false);
      McuCoding.DeliveredStep(s, was, mcu, i);
      var next := was[i := McuCoding.Delivered(s, was[i], mcu[i])];
      assert was[i := was[i]] == was;
      DcRefineRoundTrip(s, e, next, mcu, i + 1, more, rest);
    }
  }

  lemma BitCodable(e: Tables, bit: Bit)
    ensures Codable(e, Extra(bit, 1))
  {
    assert Pow2(1) == 2;
  }

  /** One MCU of a DC scan. */
  lemma ReadDcMcu(s: Scan, e: Tables, c: Coding, was: Mcu, mcu: Mcu, more: seq<Item>, rest: seq<Bit>)
    requires ValidScan(s) && IsDc(s) && |c.preds| == |s.comps| && ValidMcu(s, mcu) && ValidMcu(s, was)
    requires McuFits(s, c, mcu) && AllCodable(e, McuCoded(s, c, mcu).0)
    ensures var (items, next) := McuCoded(s, c, mcu);
      ReadInto(s, e, State(Source(Bits(e, items + more) + rest, false), c.preds, 0), was)
        == (McuCoding.DeliveredFrom(s, was, mcu, 0), State(Source(Bits(e, more) + rest, false), next.preds, 0))
  {
    hide DcItems, DcPreds, DcMcuFits, ReadDcFirst, ReadDcRefine, RefineItems, Codable, Bits, McuCoding.DeliveredFrom;
    if s.kind == McuCoding.DcFirst {
      DcFirstRoundTrip(s, e, c.preds, was, mcu, 0, more, rest);
    } else {
      DcRefineRoundTrip(s, e, was, mcu, 0, more, rest);
    }
  }

  /** What reading the MCUs of an interval comes to. */
  ghost predicate ReadBack(s: Scan, e: Tables, items: seq<Item>, rest: seq<Bit>, preds: seq<int>, was: seq<Mcu>,
      chunk: Chunk, st: State)
    requires ValidScan(s) && |was| == |chunk| && ValidChunk(s, chunk) && ValidChunk(s, was)
  {
    ReadChunk(Decoding(s, e), State(Source(Bits(e, items) + rest, false), preds, 0), was)
      == (ScanCoding.DeliveredAll(s, was, chunk), st)
  }

  lemma {:induction false} DcChunkRoundTrip(s: Scan, e: Tables, c: Coding, was: seq<Mcu>, chunk: Chunk, rest: seq<Bit>)
    requires ValidScan(s) && IsDc(s) && |c.preds| == |s.comps| && ValidChunk(s, chunk) && ValidChunk(s, was)
    requires |was| == |chunk|
    requires ChunkFits(s, c, chunk) && AllCodable(e, ChunkCoded(s, c, chunk).0)
    ensures var (items, last) := ChunkCoded(s, c, chunk);
      ReadBack(s, e, items, rest, c.preds, was, chunk, State(Source(rest, false), last.preds, 0))
    ensures ChunkCoded(s, c, chunk).1.st == c.st
    decreases |chunk|
  {
    hide McuFits, ReadInto, Codable, McuCoding.DeliveredFrom, ItemBits, DcItems, DcPreds, RefineItems;
    if chunk == [] {
      assert Bits(e, []) + rest == rest;
    } else {
      var (items, next) := McuCoded(s, c, chunk[0]);
      var more := ChunkCoded(s, next, chunk[1..]).0;
      CodableParts(e, items, more);
      ReadDcMcu(s, e, c, was[0], chunk[0], more, rest);
      DcChunkRoundTrip(s, e, next, was[1..], chunk[1..], rest);
      ScanCoding.DeliveredFirst(s, was, chunk);
    }
  }

  // ----- round trip: AC scans -----

  /** The blocks of MCUs with one block each. */
  function Blocks(s: Scan, chunk: seq<Mcu>): (r: seq<Block>)
    requires ValidScan(s) && !IsDc(s) && ValidChunk(s, chunk)
    ensures |r| == |chunk|
  {
    seq(|chunk|, i requires 0 <= i < |chunk| => chunk[i][0])
  }

  lemma BlocksFirst(s: Scan, chunk: seq<Mcu>)
    requires ValidScan(s) && !IsDc(s) && ValidChunk(s, chunk) && chunk != []
    ensures Blocks(s, chunk) == [chunk[0][0]] + Blocks(s, chunk[1..])
    ensures Blocks(s, chunk)[1..] == Blocks(s, chunk[1..])
  {
  }

  /** Coding an interval is coding its blocks, with the last run written. */
  lemma {:induction false} ChunkIsBlocks(s: Scan, c: Coding, chunk: Chunk)
    requires ValidScan(s) && !IsDc(s) && |c.preds| == |s.comps| && ValidChunk(s, chunk)
    ensures var (items, last) := ChunkCoded(s, c, chunk);
      && items + EobItems(AcTableOf(s), last.st) == AllItems(BandOf(s), c.st, Blocks(s, chunk))
      && last.preds == c.preds
    ensures ChunkFits(s, c, chunk) ==> AllFit(BandOf(s), Blocks(s, chunk))
    decreases |chunk|
  {
    hide StepItems, EobItems, BandRoundTrip.BandFits, Fresh;
    if chunk == [] {
      assert [] + EobItems(AcTableOf(s), c.st) == EobItems(AcTableOf(s), c.st);
    } else {
      BlocksFirst(s, chunk);
      var (items, next) := McuCoded(s, c, chunk[0]);
      ChunkIsBlocks(s, next, chunk[1..]);
      var (more, last) := ChunkCoded(s, next, chunk[1..]);
      assert items + more + EobItems(AcTableOf(s), last.st) == items + (more + EobItems(AcTableOf(s), last.st));
    }
  }

  /** Reading MCUs of one block each is reading blocks. */
  lemma {:induction false} ReadingBlocks(s: Scan, e: Tables, st: State, was: seq<Mcu>)
    requires ValidScan(s) && !IsDc(s) && ValidChunk(s, was) && |st.preds| == |s.comps|
    ensures var (mcus, next) := ReadChunk(Decoding(s, e), st, was);
      var r := ReadBands(BandOf(s), e.ac[AcTableOf(s)].t, st.src, st.run, Blocks(s, was));
      && |mcus| == |was| && (forall i :: 0 <= i < |was| ==> mcus[i] == [r.blocks[i]])
      && next == State(r.src, st.preds, r.run)
    decreases |was|
  {
    hide ReadBand;
    if was != [] {
      BlocksFirst(s, was);
      var (mcu, st1) := ReadInto(s, e, st, was[0]);
      assert |was[0]| == 1 && mcu == [mcu[0]];
      ReadingBlocks(s, e, st1, was[1..]);
    }
  }

  /** Expecting and delivering, block by block. */
  lemma SameDelivery(s: Scan, was: seq<Mcu>, chunk: Chunk)
    requires ValidScan(s) && !IsDc(s) && ValidChunk(s, chunk) && ScanCoding.ExpectedAll(s, was, chunk)
    ensures ValidChunk(s, was) && AllExpected(BandOf(s), Blocks(s, was), Blocks(s, chunk))
    ensures var d := AllDelivered(BandOf(s), Blocks(s, was), Blocks(s, chunk));
      forall i :: 0 <= i < |chunk| ==> ScanCoding.DeliveredAll(s, was, chunk)[i] == [d[i]]
  {
    forall i | 0 <= i < |chunk|
      ensures |was[i]| == 1 && BandRoundTrip.Expected(BandOf(s), was[i][0], chunk[i][0])
      ensures McuCoding.DeliveredFrom(s, was[i], chunk[i], 0)
        == [BandRoundTrip.Delivered(BandOf(s), was[i][0], chunk[i][0])]
    {
      assert McuCoding.ExpectedMcu(s, was[i], chunk[i]);
    }
    hide McuCoding.Expected, McuCoding.DeliveredFrom, BandRoundTrip.Expected, BandRoundTrip.Delivered;
  }

  lemma AcChunkRoundTrip(s: Scan, e: Tables, was: seq<Mcu>, chunk: Chunk, rest: seq<Bit>)
    requires ValidScan(s) && !IsDc(s) && ValidChunk(s, chunk) && ScanCoding.ExpectedAll(s, was, chunk)
    requires ChunkFits(s, Fresh(s), chunk) && AllCodable(e, ChunkItems(s, chunk))
    ensures ValidChunk(s, was)
    ensures ReadBack(s, e, ChunkItems(s, chunk), rest, Fresh(s).preds, was, chunk,
      State(Source(rest, false), Fresh(s).preds, 0))
  {
    hide Bits, Codable, AllItems, EobItems, StepItems, ReadBands, ReadChunk, AllFit, AllExpected, AllDelivered, McuFits,
      ScanCoding.ExpectedAll, ScanCoding.DeliveredAll;
    SameDelivery(s, was, chunk);
    ChunkIsBlocks(s, Fresh(s), chunk);
    BandsRoundTrip(e, BandOf(s), Blocks(s, was), Blocks(s, chunk), rest);
    var st := State(Source(Bits(e, ChunkItems(s, chunk)) + rest, false), Fresh(s).preds, 0);
    ReadingBlocks(s, e, st, was);
    assert ReadChunk(Decoding(s, e), st, was).0 == ScanCoding.DeliveredAll(s, was, chunk);
  }

  // ----- round trip: scans -----

  /** No run is pending at the end of a DC scan's interval. */
  lemma DcItemsOnly(s: Scan, e: Tables, chunk: Chunk)
    requires ValidScan(s) && IsDc(s) && ValidChunk(s, chunk) && ChunkCoded(s, Fresh(s), chunk).1.st == NONE
    ensures ChunkItems(s, chunk) == ChunkCoded(s, Fresh(s), chunk).0
  {
    hide ChunkCoded;
  }

  lemma {:induction false} DcLeavesNothing(s: Scan, c: Coding, chunk: Chunk)
    requires ValidScan(s) && IsDc(s) && |c.preds| == |s.comps| && ValidChunk(s, chunk)
    ensures ChunkCoded(s, c, chunk).1.st == c.st
    decreases |chunk|
  {
    hide DcItems, DcPreds, RefineItems;
    if chunk != [] {
      DcLeavesNothing(s, McuCoded(s, c, chunk[0]).1, chunk[1..]);
    }
  }

  /** The data bytes of one interval read back. */
  lemma IntervalRoundTrip(s: Scan, e: Tables, st: State, chunk: Chunk, was: seq<Mcu>) returns (next: State)
    requires ValidScan(s) && ValidChunk(s, chunk) && ScanCoding.ExpectedAll(s, was, chunk)
    requires ChunkFits(s, Fresh(s), chunk) && AllCodable(e, ChunkItems(s, chunk))
    ensures var p := Decoding(s, e);
      ReadChunk(p, p.open(st, ChunkBytes(s, e, chunk)), was) == (ScanCoding.DeliveredAll(s, was, chunk), next)
    ensures !next.src.dry
  {
    hide ChunkItems, ChunkCoded, ChunkFits, Bits, Pack, Unpack, Codable, ReadChunk, ScanCoding.DeliveredAll, ReadInto;
    var bits := Bits(e, ChunkItems(s, chunk));
    UnpackPack(Flushed(bits));
    var pad := Flushed(bits)[|bits|..];
    assert Flushed(bits) == bits + pad;
    SameLengths(s, was, chunk);
    if IsDc(s) {
      DcLeavesNothing(s, Fresh(s), chunk);
      DcItemsOnly(s, e, chunk);
      DcChunkRoundTrip(s, e, Fresh(s), was, chunk, pad);
      next := State(Source(pad, false), ChunkCoded(s, Fresh(s), chunk).1.preds, 0);
    } else {
      AcChunkRoundTrip(s, e, was, chunk, pad);
      next := State(Source(pad, false), Fresh(s).preds, 0);
    }
  }

  lemma SameLengths(s: Scan, was: seq<Mcu>, chunk: Chunk)
    requires ValidChunk(s, chunk) && ScanCoding.ExpectedAll(s, was, chunk)
    ensures ValidChunk(s, was) && |was| == |chunk|
  {
    hide McuCoding.Expected;
  }

  /** The data bytes of the intervals. */
  ghost function Plains(s: Scan, e: Tables, chunks: seq<Chunk>): (p: seq<seq<byte>>)
    requires ValidScan(s) && ValidChunks(s, chunks)
    ensures |p| == |chunks|
    decreases |chunks|
  {
    if chunks == [] then [] else [ChunkBytes(s, e, chunks[0])] + Plains(s, e, chunks[1..])
  }

  lemma {:induction false} AllIntervals(s: Scan, e: Tables, st: State, chunks: seq<Chunk>, was: seq<Chunk>)
    requires ValidScan(s) && ValidChunks(s, chunks) && AllWritable(s, e, chunks)
    requires ScanCoding.ExpectedChunks(s, was, chunks)
    requires !st.src.dry
    ensures AllRead(Decoding(s, e), st, Plains(s, e, chunks), was, ScanCoding.Delivery(s, was, chunks))
    ensures !LastState(Decoding(s, e), st, Plains(s, e, chunks), was).src.dry
    decreases |chunks|
  {
    hide ReadChunk, ScanCoding.DeliveredAll, ScanCoding.ExpectedAll, ChunkFits, ChunkItems, AllCodable, ChunkBytes;
    if chunks != [] {
      ScanCoding.DeliveryFirst(s, was, chunks);
      var next := IntervalRoundTrip(s, e, st, chunks[0], was[0]);
      AllIntervals(s, e, next, chunks[1..], was[1..]);
    }
  }

  /** A decoder's state before a scan. */
  function Initially(s: Scan): State { State(Source([], false), Fresh(s).preds, 0) }

  /** Scan round trip: for every progressive scan, any tables and any restart interval, a decoder delivers
      exactly what was coded, without running out of bits. */
  lemma ProgressiveRoundTrip(s: Scan, e: Tables, interval: nat, chunks: seq<Chunk>, ending: seq<byte>, was: seq<Mcu>)
    requires ValidScan(s) && ValidChunks(s, chunks) && Chunked(interval, chunks) && AllWritable(s, e, chunks)
    requires CleanEnding(ending) && ScanCoding.ExpectedAll(s, was, Flatten(chunks))
    ensures var p, plains := Decoding(s, e), Plains(s, e, chunks);
      plains != []
      && var (mcus, r) := ReadAll(p, interval, StartReader(p, interval, Initially(s), Wire(0, plains) + ending), was);
         mcus == ScanCoding.DeliveredAll(s, was, Flatten(chunks)) && r.ok && !r.st.src.dry
  {
    assert |was| == |Flatten(chunks)|;
    hide Wire, ScanCoding.Delivery, AllRead, LastState, StartReader, ReadAll, ScanCoding.ExpectedAll, AllWritable;
    var again := Rechunked(was, chunks);
    ScanCoding.ExpectedFlat(s, was, chunks);
    RechunkedFlat(was, chunks);
    AllIntervals(s, e, Initially(s), chunks, again);
    ScanCoding.SameChunks(interval, s, again, chunks);
    ScanRoundTrip(Decoding(s, e), interval, Initially(s), Plains(s, e, chunks), ending, again,
      ScanCoding.Delivery(s, again, chunks));
  }
}
