/** The Huffman decoder of a progressive scan: MCU by MCU into the coefficient blocks as earlier scans left them,
    with restart processing.  While markers are where they should be it follows the reader of
    ProgressiveCoding. */
module ProgressiveDecoder {
  import opened Powers
  import opened Coefficients
  import opened ByteStream
  import opened BitStream
  import opened MarkerReading
  import opened SegmentedReading
  import opened DerivedTables
  import opened HuffmanSymbols
  import opened HuffmanBlocks
  import opened BandReading
  import opened BandDecoder
  import opened ProgressiveCoding
  import opened BitReader
  import BlockRefinement
  import McuCoding
  import S = HuffmanScanDecoder

  ghost predicate ValidBlocks(s: Scan, blocks: seq<array<Coef>>) {
    && |blocks| == |s.membership|
    && (forall i :: 0 <= i < |blocks| ==> blocks[i].Length == 64)
    && forall i, j :: 0 <= i < j < |blocks| ==> blocks[i] != blocks[j]
  }

  ghost function Contents(s: Scan, blocks: seq<array<Coef>>): (mcu: Mcu)
    requires ValidBlocks(s, blocks)
    reads blocks
    ensures ValidMcu(s, mcu)
  {
    seq(|blocks|, i requires 0 <= i < |blocks| reads blocks => blocks[i][..])
  }

  lemma OneChanged(s: Scan, blocks: seq<array<Coef>>, was: Mcu, i: nat)
    requires ValidBlocks(s, blocks) && ValidMcu(s, was) && i < |blocks|
    requires forall j :: 0 <= j < |blocks| && j != i ==> blocks[j][..] == was[j]
    ensures Contents(s, blocks) == was[i := blocks[i][..]]
  {
  }

  /** The decoder's tables are those of e, as far as the scan needs them. */
  ghost predicate TablesFor(s: Scan, e: Tables, dc: seq<Decoder>, ac: seq<Decoder>)
    requires ValidScan(s)
  {
    && |dc| == |ac| == NUM_HUFF_TBLS
    && (s.kind == McuCoding.DcFirst ==>
          forall c :: 0 <= c < |s.comps| ==>
            var d := DcTableOf(s, c);
            ValidDecoder(dc[d]) && DecoderAccepts(dc[d].t, true) && dc[d].t == e.dc[d].t)
    && (!IsDc(s) ==> ValidDecoder(ac[AcTableOf(s)]) && ac[AcTableOf(s)].t == e.ac[AcTableOf(s)].t)
  }

  lemma TablesAt(s: Scan, e: Tables, dc: seq<Decoder>, ac: seq<Decoder>, c: nat)
    requires ValidScan(s) && s.kind == McuCoding.DcFirst && TablesFor(s, e, dc, ac) && c < |s.comps|
    ensures |dc| == NUM_HUFF_TBLS
    ensures var d := DcTableOf(s, c);
      ValidDecoder(dc[d]) && DecoderAccepts(dc[d].t, true) && dc[d].t == e.dc[d].t
  {
    hide ValidDecoder, DecoderAccepts;
  }

  /** First DC scan. */
  method DecodeDcFirst(src: BitSource, s: Scan, ghost e: Tables, dc: seq<Decoder>, ghost ac: seq<Decoder>,
      preds0: seq<int>,
      blocks: seq<array<Coef>>) returns (preds: seq<int>)
    requires src.Valid() && ValidScan(s) && s.kind == McuCoding.DcFirst && TablesFor(s, e, dc, ac)
    requires |preds0| == |s.comps| && ValidBlocks(s, blocks)
    modifies src, blocks
    ensures src.Valid() && src.SameSegment()
    ensures ReadDcFirst(s, e, old(src.coming), preds0, old(Contents(s, blocks)), 0)
      == McuRead(Contents(s, blocks), preds, src.coming)
  {
    hide ReadSymbol, ReadExtra, ValidDecoder, DecoderAccepts, Pow2, TablesFor, src.Valid, ToCoef;
    preds := preds0;
    for blkn := 0 to |blocks|
      invariant src.Valid() && src.SameSegment() && |preds| == |preds0|
      invariant ReadDcFirst(s, e, old(src.coming), preds0, old(Contents(s, blocks)), 0)
        == ReadDcFirst(s, e, src.coming, preds, Contents(s, blocks), blkn)
    {
      var ci := s.membership[blkn];
      ghost var was, b := Contents(s, blocks), blocks[blkn][..];
      TablesAt(s, e, dc, ac, ci);
      var x := S.DecodeDc(src, dc[DcTableOf(s, ci)], preds[ci]);
      preds := preds[ci := x];
      blocks[blkn][0] := ToCoef(x * Pow2(s.al));
      assert blocks[blkn][..] == b[0 := ToCoef(x * Pow2(s.al))];
      OneChanged(s, blocks, was, blkn);
    }
  }

  /** DC refinement: one bit a block. */
  method DecodeDcRefine(src: BitSource, s: Scan, blocks: seq<array<Coef>>)
    requires src.Valid() && ValidBlocks(s, blocks)
    modifies src, blocks
    ensures src.Valid() && src.SameSegment()
    ensures ReadDcRefine(s, old(src.coming), old(Contents(s, blocks)), 0) == (Contents(s, blocks), src.coming)
  {
    hide Take, BlockRefinement.SetBit, src.Valid;
    for blkn := 0 to |blocks|
      invariant src.Valid() && src.SameSegment()
      invariant ReadDcRefine(s, old(src.coming), old(Contents(s, blocks)), 0)
        == ReadDcRefine(s, src.coming, Contents(s, blocks), blkn)
    {
      ghost var was, b := Contents(s, blocks), blocks[blkn][..];
      var bit := src.GetBits(1);
      if bit != 0 {
        blocks[blkn][0] := ToCoef(BlockRefinement.SetBit(blocks[blkn][0], s.al));
        assert blocks[blkn][..] == b[0 := ToCoef(BlockRefinement.SetBit(b[0], s.al))];
        OneChanged(s, blocks, was, blkn);
      } else {
        assert Contents(s, blocks) == was;
      }
    }
  }

  /** An MCU of a band scan is one block. */
  method DecodeBand(src: BitSource, s: Scan, ghost e: Tables, ghost dc: seq<Decoder>, ac: seq<Decoder>,
      blocks: seq<array<Coef>>, eobRun0: nat)
    returns (eobRun: nat)
    requires src.Valid() && ValidScan(s) && !IsDc(s) && TablesFor(s, e, dc, ac) && ValidBlocks(s, blocks)
    requires !src.coming.dry
    modifies src, blocks
    ensures src.Valid() && src.SameSegment()
    ensures var r := ReadBand(BandOf(s), e.ac[AcTableOf(s)].t, old(src.coming), eobRun0, old(Contents(s, blocks))[0]);
      r == BandRead(Contents(s, blocks)[0], src.coming, eobRun)
        && Contents(s, blocks) == old(Contents(s, blocks))[0 := r.b]
  {
    hide ReadBand, ValidDecoder, DecoderAccepts;
    ghost var was := Contents(s, blocks);
    if s.kind == McuCoding.AcFirst {
      eobRun := DecodeFirst(src, ac[AcTableOf(s)], BandOf(s), blocks[0], eobRun0);
    } else {
      eobRun := DecodeRefine(src, ac[AcTableOf(s)], BandOf(s), blocks[0], eobRun0);
    }
    OneChanged(s, blocks, was, 0);
  }

  class ProgressiveDecoder {
    const scan: Scan
    const interval: nat
    const src: BitSource
    const dcTables: seq<Decoder>
    const acTables: seq<Decoder>
    var lastDc: seq<int>
    var eobRun: nat
    var restartsToGo: nat
    var nextRestartNum: nat

    ghost const tables: Tables
    ghost var reader: Reader<State>   // the reader followed while markers are as expected

    ghost predicate Follows()
      reads this, src
    {
      && State(src.coming, lastDc, eobRun) == reader.st
      && AheadOf(src.source, src.unreadMarker).marker == reader.marker
      && AheadOf(src.source, src.unreadMarker).rest == reader.rest
      && (0 < interval ==> restartsToGo == reader.toGo)
      && nextRestartNum == reader.restarts % 8
    }

    ghost predicate Valid()
      reads this, src
    {
      && ValidScan(scan) && src.Valid() && TablesFor(scan, tables, dcTables, acTables)
      && |lastDc| == |scan.comps| && nextRestartNum < 8
      && (reader.ok ==> Follows())
    }

    /** Start a scan whose entropy-coded data come next in the source. */
    constructor (scan: Scan, interval: nat, input: seq<byte>, dc: seq<Decoder>, ac: seq<Decoder>, ghost tables: Tables)
      requires ValidScan(scan) && TablesFor(scan, tables, dc, ac)
      ensures Valid() && fresh(src) && this.scan == scan && this.interval == interval && this.tables == tables
      ensures reader == StartReader(Decoding(scan, tables), interval, Initially(scan), input)
    {
      this.scan, this.interval, this.dcTables, this.acTables, this.tables := scan, interval, dc, ac, tables;
      src := new BitSource(input);
      lastDc, eobRun, restartsToGo, nextRestartNum := Fresh(scan).preds, 0, interval, 0;
      reader := StartReader(Decoding(scan, tables), interval, Initially(scan), input);
    }

    /** Throw away what is left in the buffer, get past the restart marker and resynchronise. */
    method ProcessRestart()
      requires Valid() && 0 < interval && restartsToGo == 0
      modifies this, src
      ensures Valid() && restartsToGo == interval
      ensures reader == if old(reader).ok then Restarted(Decoding(scan, tables), interval, old(reader)) else old(reader)
    {
      hide ReadSegment, Unpack, TablesFor;
      src.Restart(nextRestartNum);
      nextRestartNum := (nextRestartNum + 1) % 8;
      lastDc := Fresh(scan).preds;
      eobRun := 0;
      restartsToGo := interval;
      if reader.ok {
        reader := Restarted(Decoding(scan, tables), interval, reader);
      }
    }

    /** Decode one MCU into the blocks; once data have run out, leave them alone. */
    method DecodeMcu(blocks: seq<array<Coef>>)
      requires Valid() && ValidBlocks(scan, blocks)
      modifies this, src, blocks
      ensures Valid()
      ensures old(reader).ok ==>
        var (mcu, r) := NextMcu(Decoding(scan, tables), interval, old(reader), old(Contents(scan, blocks)));
        reader == r && (r.ok ==> Contents(scan, blocks) == mcu)
    {
      hide ReadInto, ReadSegment, Unpack, TablesFor;
      ghost var was := Contents(scan, blocks);
      if 0 < interval {
        if restartsToGo == 0 {
          ProcessRestart();
        }
      }
      ghost var r := NextMcu(Decoding(scan, tables), interval, old(reader), was).1;
      DecodeBlocks(blocks);
      if 0 < interval {
        restartsToGo := restartsToGo - 1;
      }
      reader := if old(reader).ok then r else reader;
    }

    /** The blocks of an MCU, by the routine for the kind of scan. */
    method DecodeBlocks(blocks: seq<array<Coef>>)
      requires ValidScan(scan) && src.Valid() && TablesFor(scan, tables, dcTables, acTables) && |lastDc| == |scan.comps|
      requires ValidBlocks(scan, blocks)
      modifies `lastDc, `eobRun, src, blocks
      ensures src.Valid() && src.SameSegment() && |lastDc| == |scan.comps|
      ensures ReadInto(scan, tables, old(State(src.coming, lastDc, eobRun)), old(Contents(scan, blocks)))
        == (Contents(scan, blocks), State(src.coming, lastDc, eobRun))
    {
      hide ReadDcFirst, ReadDcRefine, ReadBand, TablesFor, ReadSegment;
      if scan.kind == McuCoding.DcFirst {
        if !src.insufficient {
          lastDc := DecodeDcFirst(src, scan, tables, dcTables, acTables, lastDc, blocks);
        }
      } else if scan.kind == McuCoding.DcRefine {
        DecodeDcRefine(src, scan, blocks);
      } else if !src.insufficient {
        eobRun := DecodeBand(src, scan, tables, dcTables, acTables, blocks, eobRun);
      } else {
        DryBand(scan, tables, State(src.coming, lastDc, eobRun), Contents(scan, blocks));
      }
    }
  }

  /** Nothing is read once bits have run out. */
  lemma DryBand(s: Scan, e: Tables, st: State, was: Mcu)
    requires ValidScan(s) && !IsDc(s) && st.src.dry && |st.preds| == |s.comps| && ValidMcu(s, was)
    ensures ReadInto(s, e, st, was) == (was, st)
  {
    assert was[0 := was[0]] == was;
  }
}
