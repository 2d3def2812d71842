/** The Huffman decoder of a sequential scan: MCU loops writing coefficient blocks in place, and restart
    processing.  It runs on any input bytes; while markers are where they should be it follows the reader of
    HuffmanScan. */
module HuffmanScanDecoder {
  import opened Powers
  import opened Coefficients
  import opened ByteStream
  import opened BitStream
  import opened MarkerReading
  import opened SegmentedReading
  import opened CanonicalCode
  import opened CodeLengths
  import opened DerivedTables
  import opened HuffmanSymbols
  import opened HuffmanBlocks
  import opened HuffmanScan
  import opened BitReader

  /** Symbols of a DC table are at most 15. */
  lemma DcSymbol(t: HuffTable, s: Source)
    requires DecoderAccepts(t, true)
    ensures ReadSymbol(t, s).0 <= 15
  {
    hide Match, FindLength, Code, Scaled, LeavesRoom;
    var l := FindLength(t.bits, s, 1);
    if l < 17 {
      TotalGrows(t.bits, l, 16);
    }
  }

  /** Read a value of s extra bits. */
  method DecodeExtra(src: BitSource, s: nat) returns (x: int)
    requires src.Valid() && s <= 16
    modifies src
    ensures src.Valid() && src.SameSegment() && (x, src.coming) == ReadExtra(old(src.coming), s)
  {
    hide Take, ReadSegment, Pow2;
    x := 0;
    if s != 0 {
      var r := src.GetBits(s);
      x := if r < Pow2(s - 1) then r - (Pow2(s) - 1) else r;
    }
  }

  /** Decode one block. */
  method DecodeBlock(src: BitSource, dct: Decoder, act: Decoder, pred: int, blk: array<Coef>, se: nat)
    returns (pred1: int)
    requires src.Valid() && ValidDecoder(dct) && ValidDecoder(act) && DecoderAccepts(dct.t, true)
    requires blk.Length == 64 && se < 64
    modifies src, blk
    ensures src.Valid() && src.SameSegment()
    ensures ReadBlock(dct.t, act.t, old(src.coming), pred, old(blk[..]), se) == BlockRead(blk[..], pred1, src.coming)
  {
    hide ReadSymbol, ReadExtra, ReadAc, ReadSegment, DecoderAccepts, ValidDecoder;
    ghost var b0 := blk[..];
    pred1 := DecodeDc(src, dct, pred);
    blk[0] := ToCoef(pred1);
    assert blk[..] == b0[0 := ToCoef(pred1)];
    DecodeAc(src, act, blk, se);
  }

  /** Decode a DC difference. */
  method DecodeDc(src: BitSource, dct: Decoder, pred: int) returns (pred1: int)
    requires src.Valid() && ValidDecoder(dct) && DecoderAccepts(dct.t, true)
    modifies src
    ensures src.Valid() && src.SameSegment()
    ensures var (s, s1) := ReadSymbol(dct.t, old(src.coming));
      ReadExtra(s1, s) == (pred1 - pred, src.coming)
  {
    hide ReadSymbol, ReadExtra, ReadSegment, DecoderLimits, DecoderLookahead, LeavesRoom, Total;
    DcSymbol(dct.t, src.coming);
    var s := src.HuffDecode(dct);
    var diff := DecodeExtra(src, s);
    pred1 := diff + pred;
  }

  /** Decode the AC coefficients; the block holds zeros there. */
  method DecodeAc(src: BitSource, act: Decoder, blk: array<Coef>, se: nat)
    requires src.Valid() && ValidDecoder(act) && blk.Length == 64 && se < 64
    modifies src, blk
    ensures src.Valid() && src.SameSegment()
    ensures ReadAc(act.t, old(src.coming), old(blk[..]), 1, se) == (blk[..], src.coming)
  {
    hide ReadSymbol, ReadExtra, ReadSegment, DecoderLimits, DecoderLookahead, LeavesRoom, Total;
    var k := 1;
    while k <= se
      invariant 1 <= k && src.Valid() && src.SameSegment()
      invariant ReadAc(act.t, old(src.coming), old(blk[..]), 1, se) == ReadAc(act.t, src.coming, blk[..], k, se)
      decreases se + 1 - k
    {
      ghost var b := blk[..];
      var sym := src.HuffDecode(act);
      var r := sym / 16;
      var s := sym % 16;
      assert blk[..] == b;
      if s != 0 {
        k := k + r;
        var x := DecodeExtra(src, s);
        var at := if k < 64 then k else 63;
        blk[at] := ToCoef(x);
        assert blk[..] == b[at := ToCoef(x)];
        k := k + 1;
      } else {
        if r != 15 {
          return;
        }
        k := k + 16;
      }
    }
  }

  ghost predicate ValidBlocks(s: Scan, blocks: seq<array<Coef>>) {
    && |blocks| == |s.membership|
    && (forall i :: 0 <= i < |blocks| ==> blocks[i].Length == 64)
    && forall i, j :: 0 <= i < j < |blocks| ==> blocks[i] != blocks[j]
  }

  ghost function Contents(s: Scan, blocks: seq<array<Coef>>): (mcu: Mcu)
    requires ValidBlocks(s, blocks)
    reads blocks
    ensures ValidMcu(s, mcu)
  {
    seq(|blocks|, i requires 0 <= i < |blocks| reads blocks => blocks[i][..])
  }

  /** The decoder's tables are those of e, for every component. */
  ghost predicate TablesFor(s: Scan, e: Tables, dc: seq<Decoder>, ac: seq<Decoder>) {
    && |dc| == |ac| == NUM_HUFF_TBLS
    && forall c :: 0 <= c < |s.comps| ==>
         var d, a := s.comps[c].dcTbl, s.comps[c].acTbl;
         && ValidDecoder(dc[d]) && DecoderAccepts(dc[d].t, true) && dc[d].t == e.dc[d].t
         && ValidDecoder(ac[a]) && ac[a].t == e.ac[a].t
  }

  lemma TablesAt(s: Scan, e: Tables, dc: seq<Decoder>, ac: seq<Decoder>, c: nat)
    requires TablesFor(s, e, dc, ac) && c < |s.comps|
    ensures |dc| == |ac| == NUM_HUFF_TBLS
    ensures var d, a := s.comps[c].dcTbl, s.comps[c].acTbl;
      && ValidDecoder(dc[d]) && DecoderAccepts(dc[d].t, true) && dc[d].t == e.dc[d].t
      && ValidDecoder(ac[a]) && ac[a].t == e.ac[a].t
  {
    hide ValidDecoder, DecoderAccepts;
  }

  lemma OneChanged(s: Scan, blocks: seq<array<Coef>>, was: Mcu, i: nat)
    requires ValidBlocks(s, blocks) && ValidMcu(s, was) && i < |blocks|
    requires forall j :: 0 <= j < |blocks| && j != i ==> blocks[j][..] == was[j]
    ensures Contents(s, blocks) == was[i := blocks[i][..]]
  {
  }

  /** Decode the blocks of an MCU. */
  method DecodeBlocks(src: BitSource, s: Scan, ghost e: Tables, dc: seq<Decoder>, ac: seq<Decoder>, preds0: seq<int>,
      blocks: seq<array<Coef>>) returns (preds: seq<int>)
    requires src.Valid() && ValidScan(s) && TablesFor(s, e, dc, ac) && |preds0| == |s.comps| && ValidBlocks(s, blocks)
    modifies src, blocks
    ensures src.Valid() && src.SameSegment()
    ensures ReadMcu(s, e, old(src.coming), preds0, old(Contents(s, blocks)), 0)
      == McuRead(Contents(s, blocks), preds, src.coming)
  {
    hide ReadBlock, ReadSegment, ValidDecoder, DecoderAccepts, TablesFor;
    preds := preds0;
    for blkn := 0 to |blocks|
      invariant src.Valid() && src.SameSegment() && |preds| == |preds0|
      invariant ReadMcu(s, e, old(src.coming), preds0, old(Contents(s, blocks)), 0)
        == ReadMcu(s, e, src.coming, preds, Contents(s, blocks), blkn)
    {
      var ci := s.membership[blkn];
      var comp := s.comps[ci];
      ghost var was := Contents(s, blocks);
      TablesAt(s, e, dc, ac, ci);
      var pred := DecodeBlock(src, dc[comp.dcTbl], ac[comp.acTbl], preds[ci], blocks[blkn], s.se);
      OneChanged(s, blocks, was, blkn);
      preds := preds[ci := pred];
    }
  }

  class SequentialDecoder {
    const scan: Scan
    const interval: nat
    const src: BitSource
    const dcTables: seq<Decoder>
    const acTables: seq<Decoder>
    var lastDc: seq<int>
    var restartsToGo: nat
    var nextRestartNum: nat

    ghost const tables: Tables
    ghost var reader: Reader<State>   // the reader followed while markers are as expected

    ghost predicate Follows()
      reads this, src
    {
      && src.coming == reader.st.src && lastDc == reader.st.preds
      && AheadOf(src.source, src.unreadMarker).marker == reader.marker
      && AheadOf(src.source, src.unreadMarker).rest == reader.rest
      && (0 < interval ==> restartsToGo == reader.toGo)
      && nextRestartNum == reader.restarts % 8
    }

    ghost predicate Valid()
      reads this, src
    {
      && ValidScan(scan) && src.Valid() && TablesFor(scan, tables, dcTables, acTables)
      && |lastDc| == |scan.comps| &&  nextRestartNum < 8
      && (reader.ok ==> Follows())
    }

    /** Start a scan whose entropy-coded data come next in the source. */
    constructor (scan: Scan, interval: nat, input: seq<byte>, dc: seq<Decoder>, ac: seq<Decoder>, ghost tables: Tables)
      requires ValidScan(scan) && TablesFor(scan, tables, dc, ac)
      ensures Valid() && fresh(src) && this.scan == scan && this.interval == interval && this.tables == tables
      ensures reader == StartReader(Decoding(scan, tables), interval, Initially(scan), input)
    {
      this.scan, this.interval, this.dcTables, this.acTables, this.tables := scan, interval, dc, ac, tables;
      src := new BitSource(input);
      lastDc, restartsToGo, nextRestartNum := Zero(scan), interval, 0;
      reader := StartReader(Decoding(scan, tables), interval, Initially(scan), input);
    }

    /** Throw away what is left in the buffer, get past the restart marker and resynchronise. */
    method ProcessRestart()
      requires Valid() && 0 < interval && restartsToGo == 0
      modifies this, src
      ensures Valid() && restartsToGo == interval
      ensures reader == if old(reader).ok then Restarted(Decoding(scan, tables), interval, old(reader)) else old(reader)
    {
      hide ReadSegment, Unpack;
      src.Restart(nextRestartNum);
      nextRestartNum := (nextRestartNum + 1) % 8;
      lastDc := Zero(scan);
      restartsToGo := interval;
      if reader.ok {
        reader := Restarted(Decoding(scan, tables), interval, reader);
      }
    }

    /** Decode one MCU into the blocks; once data have run out, leave them alone. */
    method DecodeMcu(blocks: seq<array<Coef>>)
      requires Valid() && ValidBlocks(scan, blocks)
      modifies this, src, blocks
      ensures Valid()
      ensures old(reader).ok ==>
        var (mcu, r) := NextMcu(Decoding(scan, tables), interval, old(reader), old(Contents(scan, blocks)));
        reader == r && (r.ok ==> Contents(scan, blocks) == mcu)
    {
      hide ReadMcu, ReadSegment, Unpack, TablesFor;
      ghost var was := Contents(scan, blocks);
      if 0 < interval {
        if restartsToGo == 0 {
          ProcessRestart();
        }
      }
      ghost var r := NextMcu(Decoding(scan, tables), interval, old(reader), was).1;
      if !src.insufficient {
        lastDc := DecodeBlocks(src, scan, tables, dcTables, acTables, lastDc, blocks);
      }
      if 0 < interval {
        restartsToGo := restartsToGo - 1;
      }
      reader := if old(reader).ok then r else reader;
    }
  }
}
