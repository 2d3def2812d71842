/** Coding of one MCU: the sequential process and the four kinds of progressive scan. */
module McuCoding {
  import opened Powers
  import opened Decisions
  import opened Coefficients
  import opened BlockCoding
  import opened BlockRefinement
  import Magnitude

  datatype Kind = Sequential | DcFirst | AcFirst | DcRefine | AcRefine

  datatype Component = Component(dcTbl: int, acTbl: int)

  /** The parameters of a scan.  For sequential coding se is the last coefficient coded and ss, al
      are zero; membership gives the component of each block of an MCU. */
  datatype Scan = Scan(kind: Kind, comps: seq<Component>, membership: seq<nat>,
                       ss: int, se: int, al: nat, dcL: seq<nat>, dcU: seq<nat>, acK: seq<int>)

  predicate ValidScan(s: Scan) {
    && |s.dcL| == 16 && |s.dcU| == 16 && |s.acK| == 16
    && (forall c :: 0 <= c < |s.comps| ==> 0 <= s.comps[c].dcTbl < 16 && 0 <= s.comps[c].acTbl < 16)
    && (forall i :: 0 <= i < |s.membership| ==> s.membership[i] < |s.comps|)
    && match s.kind
       case Sequential => s.ss == 0 && 0 <= s.se < 64 && s.al == 0
       case DcFirst => s.ss == 0 && s.se == 0
       case DcRefine => s.ss == 0 && s.se == 0
       case AcFirst => 1 <= s.ss <= s.se < 64 && |s.comps| == 1 && |s.membership| == 1
       case AcRefine => 1 <= s.ss <= s.se < 64 && |s.comps| == 1 && |s.membership| == 1
  }

  /** The scans that code DC differences. */
  predicate CodesDc(s: Scan) { s.kind == Sequential || s.kind == DcFirst }

  predicate CodesAc(s: Scan) { s.se != 0 }

  function TableOf(s: Scan, c: nat): DcTable
    requires ValidScan(s) && c < |s.comps|
  {
    DcTable(s.comps[c].dcTbl, s.dcL[s.comps[c].dcTbl], s.dcU[s.comps[c].dcTbl])
  }

  /** The AC band coded for component c. */
  function BandOf(s: Scan, c: nat): (p: Band)
    requires ValidScan(s) && CodesAc(s) && c < |s.comps|
    ensures ValidBand(p)
  {
    Band(s.comps[c].acTbl, s.acK[s.comps[c].acTbl], if s.kind == Sequential then 1 else s.ss, s.se, s.al)
  }

  predicate ValidMcu(s: Scan, mcu: Mcu) { |mcu| == |s.membership| }

  predicate ValidStates(s: Scan, dcs: seq<DcState>) {
    && |dcs| == |s.comps|
    && forall c :: 0 <= c < |dcs| ==> 0 <= dcs[c].ctx <= 16 && -0x8000 <= dcs[c].pred < 0x8000
  }

  // ----- encoding -----

  /** Blocks i onwards of an MCU of a scan with DC differences. */
  function DcBlocks(s: Scan, dcs: seq<DcState>, mcu: Mcu, i: nat): seq<Decision>
    requires ValidScan(s) && CodesDc(s) && ValidMcu(s, mcu) && |dcs| == |s.comps| && i <= |mcu|
    decreases |mcu| - i
  {
    if i == |mcu| then []
    else
      var c := s.membership[i];
      var m := Shift(mcu[i][0], s.al);
      DcDecisions(TableOf(s, c), dcs[c], m)
      + (if CodesAc(s) then BandDecisions(BandOf(s, c), mcu[i]) else [])
      + DcBlocks(s, dcs[c := DcNext(TableOf(s, c), dcs[c], m)], mcu, i + 1)
  }

  /** The predictions after blocks i onwards. */
  function DcStates(s: Scan, dcs: seq<DcState>, mcu: Mcu, i: nat): (r: seq<DcState>)
    requires ValidScan(s) && CodesDc(s) && ValidMcu(s, mcu) && |dcs| == |s.comps| && i <= |mcu|
    ensures |r| == |dcs|
    decreases |mcu| - i
  {
    if i == |mcu| then dcs
    else
      var c := s.membership[i];
      DcStates(s, dcs[c := DcNext(TableOf(s, c), dcs[c], Shift(mcu[i][0], s.al))], mcu, i + 1)
  }

  function RefineBits(s: Scan, mcu: Mcu, i: nat): seq<Decision>
    requires i <= |mcu|
    decreases |mcu| - i
  {
    if i == |mcu| then [] else [Decision(Fixed, BitOf(mcu[i][0], s.al))] + RefineBits(s, mcu, i + 1)
  }

  function McuDecisions(s: Scan, dcs: seq<DcState>, mcu: Mcu): seq<Decision>
    requires ValidScan(s) && ValidMcu(s, mcu) && |dcs| == |s.comps|
  {
    match s.kind
    case Sequential => DcBlocks(s, dcs, mcu, 0)
    case DcFirst => DcBlocks(s, dcs, mcu, 0)
    case DcRefine => RefineBits(s, mcu, 0)
    case AcFirst => BandDecisions(BandOf(s, 0), mcu[0])
    case AcRefine => RefineDecisions(BandOf(s, 0), mcu[0])
  }

  function McuStates(s: Scan, dcs: seq<DcState>, mcu: Mcu): (r: seq<DcState>)
    requires ValidScan(s) && ValidMcu(s, mcu) && |dcs| == |s.comps|
    ensures |r| == |dcs|
  {
    if CodesDc(s) then DcStates(s, dcs, mcu, 0) else dcs
  }

  // ----- decoding -----

  /** A decoded MCU, with whether the code was good, the predictions and the decoder afterwards. */
  datatype McuRead<D> = McuRead(ok: bool, mcu: Mcu, dcs: seq<DcState>, d: D)

  /** One block of a scan with DC differences, with whether the code was good. */
  datatype DcBlockRead<D> = DcBlockRead(ok: bool, b: Block, st: DcState, d: D)

  function ReadDcBlock<D>(step: Step<D>, d: D, s: Scan, c: nat, st: DcState, was: Block): DcBlockRead<D>
    requires ValidScan(s) && CodesDc(s) && c < |s.comps|
  {
    match ReadDc(step, d, TableOf(s, c), st)
    case DcBad(n) => DcBlockRead(false, was, st, n)
    case DcValue(st1, n) =>
      var b := was[0 := ToCoef(st1.pred * Pow2(s.al))];
      if !CodesAc(s) then DcBlockRead(true, b, st1, n)
      else
        var r := ReadBandFrom(step, n, BandOf(s, c), b, 0);
        DcBlockRead(r.ok, r.b, st1, r.d)
  }

  function ReadDcBlocks<D>(step: Step<D>, d: D, s: Scan, dcs: seq<DcState>, mcu: Mcu, i: nat): (r: McuRead<D>)
    requires ValidScan(s) && CodesDc(s) && ValidMcu(s, mcu) && |dcs| == |s.comps| && i <= |mcu|
    ensures |r.dcs| == |dcs| && |r.mcu| == |mcu|
    decreases |mcu| - i
  {
    if i == |mcu| then McuRead(true, mcu, dcs, d)
    else
      var c := s.membership[i];
      var r := ReadDcBlock(step, d, s, c, dcs[c], mcu[i]);
      if !r.ok then McuRead(false, mcu[i := r.b], dcs[c := r.st], r.d)
      else ReadDcBlocks(step, r.d, s, dcs[c := r.st], mcu[i := r.b], i + 1)
  }

  function ReadRefineBits<D>(step: Step<D>, d: D, s: Scan, mcu: Mcu, i: nat): (r: (Mcu, D))
    requires i <= |mcu|
    ensures |r.0| == |mcu|
    decreases |mcu| - i
  {
    if i == |mcu| then (mcu, d)
    else
      var (bit, n) := step(d, Fixed);
      ReadRefineBits(step, n, s, if bit == 1 then mcu[i := mcu[i][0 := ToCoef(SetBit(mcu[i][0], s.al))]] else mcu,
        i + 1)
  }

  /** Decode an MCU into the blocks `mcu`, which hold what earlier scans delivered. */
  function ReadMcu<D>(step: Step<D>, d: D, s: Scan, dcs: seq<DcState>, mcu: Mcu): (r: McuRead<D>)
    requires ValidScan(s) && ValidMcu(s, mcu) && |dcs| == |s.comps|
    ensures |r.dcs| == |dcs| && |r.mcu| == |mcu|
  {
    match s.kind
    case Sequential => ReadDcBlocks(step, d, s, dcs, mcu, 0)
    case DcFirst => ReadDcBlocks(step, d, s, dcs, mcu, 0)
    case DcRefine =>
      var (blocks, n) := ReadRefineBits(step, d, s, mcu, 0);
      McuRead(true, blocks, dcs, n)
    case AcFirst =>
      var p := BandOf(s, 0);
      var r := ReadBandFrom(step, d, p, mcu[0], p.ss - 1);
      McuRead(r.ok, mcu[0 := r.b], dcs, r.d)
    case AcRefine =>
      var p := BandOf(s, 0);
      var r := ReadRefineFrom(step, d, p, mcu[0], LastSet(mcu[0], p.se), p.ss - 1);
      McuRead(r.ok, mcu[0 := r.b], dcs, r.d)
  }

  // ----- round trip -----

  /** What a block holds after the scan, if it was `was` before and the original is b. */
  function Delivered(s: Scan, was: Block, b: Block): Block {
    match s.kind
    case Sequential => WithBand(was[0 := b[0]], b, 1, s.se, 0)
    case DcFirst => was[0 := ToCoef(DcLevel(b[0], s.al))]
    case DcRefine => if BitOf(b[0], s.al) == 1 then was[0 := ToCoef(SetBit(was[0], s.al))] else was
    case AcFirst => WithBand(was, b, s.ss, s.se, s.al)
    case AcRefine => WithBand(was, b, s.ss, s.se, s.al)
  }

  /** What the scan expects to find: nothing yet of the band a first pass delivers, and the band
      down to one bit more for a refinement.  DC values are overwritten or refined unseen. */
  ghost predicate Expected(s: Scan, was: Block, b: Block) {
    match s.kind
    case Sequential => ZeroBand(was, 1, s.se)
    case DcFirst => true
    case DcRefine => true
    case AcFirst => ZeroBand(was, s.ss, s.se)
    case AcRefine => HoldsBand(was, b, s.ss, s.se, s.al + 1)
  }

  /** Every DC difference of blocks i onwards is at most 2^15 in magnitude. */
  predicate DcFitsFrom(s: Scan, dcs: seq<DcState>, mcu: Mcu, i: nat)
    requires ValidScan(s) && CodesDc(s) && ValidMcu(s, mcu) && |dcs| == |s.comps| && i <= |mcu|
    decreases |mcu| - i
  {
    i == |mcu|
    || var c := s.membership[i];
       var m := Shift(mcu[i][0], s.al);
       Abs(m - dcs[c].pred) <= 0x8000
       && DcFitsFrom(s, dcs[c := DcNext(TableOf(s, c), dcs[c], m)], mcu, i + 1)
  }

  predicate DcFits(s: Scan, dcs: seq<DcState>, mcu: Mcu)
    requires ValidScan(s) && ValidMcu(s, mcu) && |dcs| == |s.comps|
  {
    CodesDc(s) ==> DcFitsFrom(s, dcs, mcu, 0)
  }

  ghost predicate ExpectedMcu(s: Scan, was: Mcu, mcu: Mcu) {
    |was| == |mcu| && forall i :: 0 <= i < |mcu| ==> Expected(s, was[i], mcu[i])
  }

  /** The blocks from i on delivered, the others as they were. */
  function DeliveredFrom(s: Scan, was: Mcu, mcu: Mcu, i: nat): Mcu
    requires |was| == |mcu|
  {
    seq(|mcu|, j requires 0 <= j < |mcu| => if i <= j then Delivered(s, was[j], mcu[j]) else was[j])
  }

  lemma DeliveredStep(s: Scan, was: Mcu, mcu: Mcu, i: nat)
    requires |was| == |mcu| && i < |mcu|
    ensures DeliveredFrom(s, was[i := Delivered(s, was[i], mcu[i])], mcu, i + 1) == DeliveredFrom(s, was, mcu, i)
  {
    hide Delivered;
  }

  lemma DeliveredDone(s: Scan, was: Mcu, mcu: Mcu)
    requires |was| == |mcu|
    ensures DeliveredFrom(s, was, mcu, |mcu|) == was
  {
  }

  /** One block of a scan with DC differences: the value decoded and, in sequential mode, the band. */
  lemma DcBlockRoundTrip<D>(step: Step<D>, d: D, s: Scan, c: nat, st: DcState, was: Block, b: Block)
    requires ValidScan(s) && CodesDc(s) && c < |s.comps| && Expected(s, was, b)
    requires var m := Shift(b[0], s.al);
      Yields(step, d, DcDecisions(TableOf(s, c), st, m)
        + (if CodesAc(s) then BandDecisions(BandOf(s, c), b) else []))
    ensures var m := Shift(b[0], s.al);
      var ds := DcDecisions(TableOf(s, c), st, m) + (if CodesAc(s) then BandDecisions(BandOf(s, c), b) else []);
      var r := ReadDcBlock(step, d, s, c, st, was);
      if Abs(m - st.pred) <= 0x8000 then
        r == DcBlockRead(true, Delivered(s, was, b), DcNext(TableOf(s, c), st, m), After(step, d, ds))
      else !r.ok
  {
    hide Pow2, DcDecisions, ReadDc, BandDecisions, ReadBandFrom, WithBand, NextContext, Magnitude.CategoryOf;
    var t, m := TableOf(s, c), Shift(b[0], s.al);
    var band := if CodesAc(s) then BandDecisions(BandOf(s, c), b) else [];
    Split(step, d, DcDecisions(t, st, m), band);
    DcRoundTrip(step, d, t, st, m);
    Pow2Zero();
    if Abs(m - st.pred) <= 0x8000 {
      if CodesAc(s) {
        var b1 := was[0 := ToCoef(m * Pow2(s.al))];
        BandRoundTrip(step, After(step, d, DcDecisions(t, st, m)), BandOf(s, c), b, b1);
      } else if s.kind == Sequential {
        EmptyBand(was[0 := b[0]], b);
      }
    }
  }

  lemma EmptyBand(was: Block, b: Block)
    ensures WithBand(was, b, 1, 0, 0) == was
  {
    hide AcLevel;
  }

  lemma {:induction false} DcBlocksRoundTrip<D>(step: Step<D>, d: D, s: Scan, dcs: seq<DcState>, was: Mcu, mcu: Mcu,
      i: nat)
    requires ValidScan(s) && CodesDc(s) && ValidMcu(s, mcu) && |dcs| == |s.comps| && i <= |mcu| && |was| == |mcu|
    requires forall j :: i <= j < |mcu| ==> Expected(s, was[j], mcu[j])
    requires Yields(step, d, DcBlocks(s, dcs, mcu, i))
    ensures var r := ReadDcBlocks(step, d, s, dcs, was, i);
      if DcFitsFrom(s, dcs, mcu, i) then
        r
          == McuRead(true, DeliveredFrom(s, was, mcu, i), DcStates(s, dcs, mcu, i),
            After(step, d, DcBlocks(s, dcs, mcu, i)))
      else !r.ok
    decreases |mcu| - i
  {
    hide DcDecisions, ReadDcBlock, BandDecisions, Delivered, Expected, DcNext, DeliveredFrom, Shift;
    if i == |mcu| {
      DeliveredDone(s, was, mcu);
    } else {
      var c := s.membership[i];
      var m := Shift(mcu[i][0], s.al);
      var here := DcDecisions(TableOf(s, c), dcs[c], m) + (if CodesAc(s) then BandDecisions(BandOf(s, c),
        mcu[i]) else []);
      var next := dcs[c := DcNext(TableOf(s, c), dcs[c], m)];
      var rest := DcBlocks(s, next, mcu, i + 1);
      Split(step, d, here, rest);
      DcBlockRoundTrip(step, d, s, c, dcs[c], was[i], mcu[i]);
      DeliveredStep(s, was, mcu, i);
      if Abs(m - dcs[c].pred) <= 0x8000 {
        DcBlocksRoundTrip(step, After(step, d, here), s, next, was[i := Delivered(s, was[i], mcu[i])], mcu, i + 1);
      }
    }
  }

  lemma {:induction false} RefineBitsRoundTrip<D>(step: Step<D>, d: D, s: Scan, was: Mcu, mcu: Mcu, i: nat)
    requires s.kind == DcRefine && i <= |mcu| && |was| == |mcu|
    requires Yields(step, d, RefineBits(s, mcu, i))
    ensures ReadRefineBits(step, d, s, was, i) == (DeliveredFrom(s, was, mcu, i), After(step, d, RefineBits(s, mcu, i)))
    decreases |mcu| - i
  {
    hide DeliveredFrom, SetBit, BitOf;
    if i == |mcu| {
      DeliveredDone(s, was, mcu);
    } else {
      var ds := RefineBits(s, mcu, i);
      var n := step(d, Fixed).1;
      assert ds[1..] == RefineBits(s, mcu, i + 1);
      assert After(step, d, ds) == After(step, n, ds[1..]);
      DeliveredStep(s, was, mcu, i);
      var next := was[i := Delivered(s, was[i], mcu[i])];
      assert was[i := was[i]] == was;
      RefineBitsRoundTrip(step, n, s, next, mcu, i + 1);
    }
  }

  /** MCU round trip, for every kind of scan: decoding succeeds exactly when every DC difference is
      at most 2^15 in magnitude, and then delivers this scan's share of every block, with the
      predictions and the decoder state of the encoder. */
  lemma McuRoundTrip<D>(step: Step<D>, d: D, s: Scan, dcs: seq<DcState>, was: Mcu, mcu: Mcu)
    requires ValidScan(s) && ValidMcu(s, mcu) && |dcs| == |s.comps| && ExpectedMcu(s, was, mcu)
    requires Yields(step, d, McuDecisions(s, dcs, mcu))
    ensures var r := ReadMcu(step, d, s, dcs, was);
      if DcFits(s, dcs, mcu) then
        r
          == McuRead(true, DeliveredFrom(s, was, mcu, 0), McuStates(s, dcs, mcu),
            After(step, d, McuDecisions(s, dcs, mcu)))
      else !r.ok
  {
    hide Pow2, BandDecisions, ReadBandFrom, ReadRefineFrom, RefineDecisions, RefineBits, DeliveredFrom, DcBlocks,
      ReadDcBlocks, ReadRefineBits, WithBand, DcLevel;
    match s.kind {
      case Sequential => DcBlocksRoundTrip(step, d, s, dcs, was, mcu, 0);
      case DcFirst => DcBlocksRoundTrip(step, d, s, dcs, was, mcu, 0);
      case DcRefine => RefineBitsRoundTrip(step, d, s, was, mcu, 0);
      case AcFirst =>
        BandRoundTrip(step, d, BandOf(s, 0), mcu[0], was[0]);
        DeliveredOne(s, was, mcu);
      case AcRefine =>
        RefineRoundTrip(step, d, BandOf(s, 0), mcu[0], was[0]);
        DeliveredOne(s, was, mcu);
    }
  }

  lemma DeliveredOne(s: Scan, was: Mcu, mcu: Mcu)
    requires |was| == |mcu| == 1
    ensures DeliveredFrom(s, was, mcu, 0) == was[0 := Delivered(s, was[0], mcu[0])]
  {
    hide Delivered;
  }
}
