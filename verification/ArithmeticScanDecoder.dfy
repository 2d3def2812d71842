/** The arithmetic entropy decoder of a scan: MCU loops writing coefficient blocks in place, and
    restart processing.  It runs on any input bytes; while the input is well formed it follows the
    reader of ScanCoding. */
module ArithmeticScanDecoder {
  import opened Powers
  import opened Decisions
  import opened Coefficients
  import opened BlockCoding
  import opened BlockRefinement
  import opened McuCoding
  import opened IntervalCoder
  import opened ByteStream
  import opened MarkerReading
  import opened SegmentedReading
  import opened ScanCoding
  import opened ArithmeticDecoder
  import opened ArithmeticBlockDecoder

  /** The blocks of an MCU as the caller passes them: distinct arrays of 64 coefficients. */
  ghost predicate ValidBlocks(s: Scan, blocks: seq<array<Coef>>) {
    && |blocks| == |s.membership|
    && (forall i :: 0 <= i < |blocks| ==> blocks[i].Length == 64)
    && forall i, j :: 0 <= i < j < |blocks| ==> blocks[i] != blocks[j]
  }

  ghost function Contents(s: Scan, blocks: seq<array<Coef>>): (mcu: Mcu)
    requires ValidBlocks(s, blocks)
    reads blocks
    ensures ValidMcu(s, mcu)
  {
    seq(|blocks|, i requires 0 <= i < |blocks| reads blocks => blocks[i][..])
  }

  /** Contexts stay in range whatever is decoded. */
  ghost predicate ContextsInRange(s: Scan, dcs: seq<DcState>) {
    |dcs| == |s.comps| && forall c :: 0 <= c < |dcs| ==> 0 <= dcs[c].ctx <= 16
  }

  /** Decode one block of a scan with DC differences. */
  method DecodeDcBlock(d: DecoderObject, s: Scan, c: nat, st0: DcState, blk: array<Coef>)
    returns (ok: bool, st: DcState)
    requires d.Valid() && ValidScan(s) && CodesDc(s) && c < |s.comps| && 0 <= st0.ctx <= 16 && blk.Length == 64
    modifies d, blk
    ensures d.Valid() && d.SameSegment() && 0 <= st.ctx <= 16
    ensures ReadDcBlock(IntervalCoder.Decode, old(d.exact), s, c, st0, old(blk[..]))
      == DcBlockRead(ok, blk[..], st, d.exact)
  {
    hide IntervalCoder.Decode, Represents, AheadOf, Pow2, ReadDc, ReadBandFrom;
    ok, st := DecodeDc(d, TableOf(s, c), st0);
    if !ok {
      return false, st0;
    }
    blk[0] := ToCoef(st.pred * Pow2(s.al));
    if CodesAc(s) {
      ok := DecodeBand(d, BandOf(s, c), blk);
    }
  }

  /** Decode the blocks of a scan with DC differences. */
  method DecodeDcBlocks(d: DecoderObject, s: Scan, dcs0: seq<DcState>, blocks: seq<array<Coef>>)
    returns (ok: bool, dcs: seq<DcState>)
    requires d.Valid() && ValidScan(s) && CodesDc(s) && ContextsInRange(s, dcs0) && ValidBlocks(s, blocks)
    modifies d, blocks
    ensures d.Valid() && d.SameSegment() && ContextsInRange(s, dcs)
    ensures ReadDcBlocks(IntervalCoder.Decode, old(d.exact), s, dcs0, old(Contents(s, blocks)), 0)
      == McuRead(ok, Contents(s, blocks), dcs, d.exact)
  {
    hide IntervalCoder.Decode, Represents, AheadOf, ReadDcBlock;
    dcs := dcs0;
    for blkn := 0 to |blocks|
      invariant d.Valid() && d.SameSegment() && ContextsInRange(s, dcs)
      invariant ReadDcBlocks(IntervalCoder.Decode, old(d.exact), s, dcs0, old(Contents(s, blocks)), 0)
        == ReadDcBlocks(IntervalCoder.Decode, d.exact, s, dcs, Contents(s, blocks), blkn)
    {
      var c := s.membership[blkn];
      var st;
      ghost var was := Contents(s, blocks);
      ok, st := DecodeDcBlock(d, s, c, dcs[c], blocks[blkn]);
      assert Contents(s, blocks) == was[blkn := blocks[blkn][..]];
      dcs := dcs[c := st];
      if !ok {
        return;
      }
    }
    ok := true;
  }

  /** Decode one more bit of each DC value. */
  method DecodeRefineBits(d: DecoderObject, s: Scan, blocks: seq<array<Coef>>)
    requires d.Valid() && ValidScan(s) && ValidBlocks(s, blocks)
    modifies d, blocks
    ensures d.Valid() && d.SameSegment()
    ensures ReadRefineBits(IntervalCoder.Decode, old(d.exact), s, old(Contents(s, blocks)), 0)
      == (Contents(s, blocks), d.exact)
  {
    hide IntervalCoder.Decode, Represents, AheadOf, SetBit;
    for blkn := 0 to |blocks|
      invariant d.Valid() && d.SameSegment()
      invariant ReadRefineBits(IntervalCoder.Decode, old(d.exact), s, old(Contents(s, blocks)), 0)
        == ReadRefineBits(IntervalCoder.Decode, d.exact, s, Contents(s, blocks), blkn)
    {
      ghost var was := Contents(s, blocks);
      var bit := d.Decode(Fixed);
      assert Contents(s, blocks) == was;
      if bit == 1 {
        var x := blocks[blkn][0];
        blocks[blkn][0] := ToCoef(SetBit(x, s.al));
        ghost var b := was[blkn][0 := ToCoef(SetBit(x, s.al))];
        assert blocks[blkn][..] == b;
        assert Contents(s, blocks) == was[blkn := b];
      }
    }
  }

  /** The MCU loop proper, for each kind of scan. */
  method DecodeMcuData(d: DecoderObject, s: Scan, dcs0: seq<DcState>, blocks: seq<array<Coef>>)
    returns (ok: bool, dcs: seq<DcState>)
    requires d.Valid() && ValidScan(s) && ContextsInRange(s, dcs0) && ValidBlocks(s, blocks)
    modifies d, blocks
    ensures d.Valid() && d.SameSegment() && ContextsInRange(s, dcs)
    ensures ReadMcu(IntervalCoder.Decode, old(d.exact), s, dcs0, old(Contents(s, blocks)))
      == McuRead(ok, Contents(s, blocks), dcs, d.exact)
    ensures s.kind == DcRefine ==> ok
  {
    hide IntervalCoder.Decode, Represents, AheadOf, ReadDcBlocks, ReadRefineBits, ReadBandFrom, ReadRefineFrom;
    dcs := dcs0;
    match s.kind {
      case Sequential => ok, dcs := DecodeDcBlocks(d, s, dcs0, blocks);
      case DcFirst => ok, dcs := DecodeDcBlocks(d, s, dcs0, blocks);
      case DcRefine =>
        DecodeRefineBits(d, s, blocks);
        ok := true;
      case AcFirst =>
        ok := DecodeBand(d, BandOf(s, 0), blocks[0]);
        assert Contents(s, blocks) == old(Contents(s, blocks))[0 := blocks[0][..]];
      case AcRefine =>
        ok := DecodeRefine(d, BandOf(s, 0), blocks[0]);
        assert Contents(s, blocks) == old(Contents(s, blocks))[0 := blocks[0][..]];
    }
  }

  lemma FreshInRange(s: Scan)
    ensures ContextsInRange(s, FreshStates(s))
  {
  }

  class ScanDecoder {
    const scan: Scan
    const interval: nat
    const coder: DecoderObject
    var dcs: seq<DcState>       // prediction and context of each component
    var restartsToGo: nat       // MCUs left in this restart interval
    var nextRestartNum: nat     // next restart number expected, 0..7

    ghost var reader: Reader<State>   // the reader followed while markers are as expected

    ghost predicate Follows()
      reads this, coder
    {
      && coder.stats == reader.st.d.stats
      && (if reader.st.good then coder.Valid() && coder.exact == reader.st.d && dcs == reader.st.dcs
          else coder.ct == -1)
      && AheadOf(coder.source, coder.unreadMarker).marker == reader.marker
      && AheadOf(coder.source, coder.unreadMarker).rest == reader.rest
      && (0 < interval ==> restartsToGo == reader.toGo)
      && nextRestartNum == reader.restarts % 8
    }

    ghost predicate Valid()
      reads this, coder
    {
      && ValidScan(scan) && ContextsInRange(scan, dcs) && nextRestartNum < 8
      && (coder.Valid() || (coder.ct == -1 && scan.kind != DcRefine))
      && (reader.ok ==> Follows())
    }

    /** Start a scan whose entropy-coded data come next in the source. */
    constructor (scan: Scan, interval: nat, coder: DecoderObject)
      requires ValidScan(scan) && coder.unreadMarker == 0
      modifies coder
      ensures Valid() && this.scan == scan && this.interval == interval && this.coder == coder
      ensures reader == StartReader(Decoding(scan), interval, Initially(old(coder.stats)), old(coder.source))
    {
      this.scan, this.interval, this.coder := scan, interval, coder;
      dcs, restartsToGo, nextRestartNum := FreshStates(scan), interval, 0;
      reader := StartReader(Decoding(scan), interval, Initially(coder.stats), coder.source);
      new;
      coder.BeginSegment(Reset(scan, coder.stats));
    }

    /** Get past the restart marker and resynchronise. */
    method ProcessRestart()
      requires Valid() && 0 < interval && restartsToGo == 0
      modifies this, coder
      ensures Valid() && coder.Valid() && restartsToGo == interval
      ensures reader == if old(reader).ok then Restarted(Decoding(scan), interval, old(reader)) else old(reader)
    {
      hide Represents, ReadSegment, Fraction, Reset, Resynced, FreshStates, ContextsInRange;
      assert ContextsInRange(scan, FreshStates(scan)) by { FreshInRange(scan); }
      coder.unreadMarker, coder.source := ReadRestartMarker(coder.source, coder.unreadMarker, nextRestartNum);
      nextRestartNum := (nextRestartNum + 1) % 8;
      coder.BeginSegment(Reset(scan, coder.stats));
      dcs := FreshStates(scan);
      restartsToGo := interval;
      if reader.ok {
        reader := Restarted(Decoding(scan), interval, reader);
      }
    }

    /** Decode one MCU into the blocks; after a bad code leave them alone until the next restart. */
    method DecodeMcu(blocks: seq<array<Coef>>)
      requires Valid() && ValidBlocks(scan, blocks)
      modifies this, coder, blocks
      ensures Valid()
      ensures old(reader).ok ==>
        var (mcu, r) := NextMcu(Decoding(scan), interval, old(reader), old(Contents(scan, blocks)));
        reader == r && (r.ok ==> Contents(scan, blocks) == mcu)
    {
      assert reader.ok && 0 < interval ==> restartsToGo == reader.toGo;
      hide Valid, ReadOne, Restarted;
      if interval > 0 {
        if restartsToGo == 0 {
          ProcessRestart();
        }
      }
      DecodeOne(blocks);
    }

    /** The MCU itself. */
    method DecodeOne(blocks: seq<array<Coef>>)
      requires Valid() && ValidBlocks(scan, blocks) && (0 < interval ==> 0 < restartsToGo)
      modifies this, coder, blocks
      ensures Valid()
      ensures var (mcu, r) := ReadOne(Decoding(scan), old(reader), old(Contents(scan, blocks)));
        reader == r && (r.ok ==> Contents(scan, blocks) == mcu)
    {
      hide Represents, AheadOf, ReadMcu, IntervalCoder.Decode, Reset, ReadSegment;
      ghost var r := ReadOne(Decoding(scan), reader, Contents(scan, blocks)).1;
      if interval > 0 {
        restartsToGo := restartsToGo - 1;
      }
      reader := r;
      if coder.ct == -1 {
        return;
      }
      var ok;
      ok, dcs := DecodeMcuData(coder, scan, dcs, blocks);
      if !ok {
        coder.ct := -1;
      }
    }
  }
}
