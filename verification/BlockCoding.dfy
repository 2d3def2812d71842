/** Decisions for the coefficients of one block, and their decoding: DC differences, AC bands and
    AC refinement (sections F.1.4, F.2.4 and G.1.3 of ITU-T T.81). */
module BlockCoding {
  import opened Powers
  import opened Decisions
  import opened Magnitude
  import opened Coefficients

  // ----- DC differences -----

  /** Prediction and conditioning context of one component. */
  datatype DcState = DcState(pred: int, ctx: int)

  const FRESH: DcState := DcState(0, 0)

  /** A DC table with its conditioning bounds. */
  datatype DcTable = DcTable(tbl: int, l: nat, u: nat)

  /** The conditioning context after a nonzero difference of category m. */
  function NextContext(t: DcTable, m: nat, sign: Bit): int {
    if m < Pow2(t.l) / 2 then 0 else if m > Pow2(t.u) / 2 then 12 + 4 * sign else 4 + 4 * sign
  }

  function SignOf(x: int): Bit { if x < 0 then 1 else 0 }

  /** A magnitude with the sign decoded for it. */
  function Signed(sign: Bit, a: int): int { if sign == 1 then -a else a }

  /** Code the point-transformed DC value m. */
  function DcDecisions(t: DcTable, s: DcState, m: int): seq<Decision> {
    var diff := m - s.pred;
    if diff == 0 then [Decision(Dc(t.tbl, s.ctx), 0)]
    else
      [Decision(Dc(t.tbl, s.ctx), 1), Decision(Dc(t.tbl, s.ctx + 1), SignOf(diff))]
      + DcMagnitude(t.tbl, s.ctx + 2 + SignOf(diff), Abs(diff) - 1)
  }

  function DcNext(t: DcTable, s: DcState, m: int): DcState {
    var diff := m - s.pred;
    if diff == 0 then DcState(m, 0)
    else DcState(m, NextContext(t, CategoryOf(Abs(diff) - 1), SignOf(diff)))
  }

  /** A decoded DC value, or the state after a bad code. */
  datatype DcRead<D> = DcValue(s: DcState, d: D) | DcBad(d: D)

  function ReadDc<D>(step: Step<D>, d: D, t: DcTable, s: DcState): DcRead<D> {
    var (bit, n) := step(d, Dc(t.tbl, s.ctx));
    if bit == 0 then DcValue(DcState(s.pred, 0), n)
    else
      var (sign, n1) := step(n, Dc(t.tbl, s.ctx + 1));
      match ReadDcMagnitude(step, n1, t.tbl, s.ctx + 2 + sign)
      case Overflow(n2) => DcBad(n2)
      case Value(v, m, n2) =>
        DcValue(DcState(s.pred + Signed(sign, v + 1), NextContext(t, m, sign)), n2)
  }

  /** DC values round-trip exactly when the difference is at most 2^15 in magnitude. */
  lemma DcRoundTrip<D>(step: Step<D>, d: D, t: DcTable, s: DcState, m: int)
    requires Yields(step, d, DcDecisions(t, s, m))
    ensures var r := ReadDc(step, d, t, s);
      if Abs(m - s.pred) <= 0x8000 then r == DcValue(DcNext(t, s, m), After(step, d, DcDecisions(t, s, m)))
      else r.DcBad?
  {
    hide DcMagnitude, ReadDcMagnitude, NextContext, CategoryOf;
    var ds := DcDecisions(t, s, m);
    var diff := m - s.pred;
    var n := step(d, Dc(t.tbl, s.ctx)).1;
    if diff == 0 {
      assert After(step, d, ds) == After(step, n, []);
    } else {
      var st, v := s.ctx + 2 + SignOf(diff), Abs(diff) - 1;
      assert ds[1..][1..] == DcMagnitude(t.tbl, st, v);
      var n1 := step(n, Dc(t.tbl, s.ctx + 1)).1;
      assert After(step, d, ds) == After(step, n, ds[1..]) == After(step, n1, ds[1..][1..]);
      DcMagnitudeRoundTrip(step, n1, t.tbl, st, v);
    }
  }

  // ----- AC bands, first pass -----

  /** An AC band: table, conditioning parameter, spectral range and low bit. */
  datatype Band = Band(tbl: int, kx: int, ss: int, se: int, al: nat)

  predicate ValidBand(p: Band) { 1 <= p.ss <= p.se < 64 }

  /** Index of the last coefficient up to k that is nonzero at bit al, 0 if there is none. */
  function LastNonzero(b: Block, al: nat, k: int): (e: int)
    requires 0 <= k < 64
    ensures 0 <= e <= k
    ensures 0 < e ==> Trunc(b[e], al) != 0
    ensures forall i :: e < i <= k ==> Trunc(b[i], al) == 0
  {
    if k == 0 || Trunc(b[k], al) != 0 then k else LastNonzero(b, al, k - 1)
  }

  /** Decisions from a possible end of block at k onwards; ke is the end-of-block index. */
  function BandFrom(p: Band, b: Block, ke: int, k: int): seq<Decision>
    requires ValidBand(p) && p.ss - 1 <= k && ke < 64 && (0 < ke ==> Trunc(b[ke], p.al) != 0)
    decreases ke - k, 1
  {
    if k < ke then [Decision(Ac(p.tbl, 3 * k), 0)] + BandRun(p, b, ke, k + 1)
    else if k < p.se then [Decision(Ac(p.tbl, 3 * k), 1)]
    else []
  }

  /** Decisions from a run of zero coefficients starting at k. */
  function BandRun(p: Band, b: Block, ke: int, k: int): seq<Decision>
    requires ValidBand(p) && p.ss <= k <= ke < 64 && Trunc(b[ke], p.al) != 0
    decreases ke - k + 1, 0
  {
    var v := Trunc(b[k], p.al);
    var st := 3 * (k - 1);
    if v == 0 then [Decision(Ac(p.tbl, st + 1), 0)] + BandRun(p, b, ke, k + 1)
    else [Decision(Ac(p.tbl, st + 1), 1), Decision(Fixed, SignOf(v))]
         + AcMagnitude(p.tbl, st + 2, k, p.kx, Abs(v) - 1) + BandFrom(p, b, ke, k)
  }

  function BandDecisions(p: Band, b: Block): seq<Decision>
    requires ValidBand(p)
  {
    BandFrom(p, b, LastNonzero(b, p.al, p.se), p.ss - 1)
  }

  /** A decoded block, with whether the code was good. */
  datatype BlockRead<D> = BlockRead(ok: bool, b: Block, d: D)

  function ReadBandFrom<D>(step: Step<D>, d: D, p: Band, b: Block, k: int): BlockRead<D>
    requires ValidBand(p) && p.ss - 1 <= k < p.se
    decreases p.se - k, 1
  {
    var (eob, n) := step(d, Ac(p.tbl, 3 * k));
    if eob == 1 then BlockRead(true, b, n) else ReadBandRun(step, n, p, b, k + 1)
  }

  function ReadBandRun<D>(step: Step<D>, d: D, p: Band, b: Block, k: int): BlockRead<D>
    requires ValidBand(p) && p.ss <= k <= p.se
    decreases p.se - k + 1, 0
  {
    var st := 3 * (k - 1);
    var (nonzero, n) := step(d, Ac(p.tbl, st + 1));
    if nonzero == 0 then
      if k >= p.se then BlockRead(false, b, n) else ReadBandRun(step, n, p, b, k + 1)
    else
      var (sign, n1) := step(n, Fixed);
      match ReadAcMagnitude(step, n1, p.tbl, st + 2, k, p.kx)
      case Overflow(n2) => BlockRead(false, b, n2)
      case Value(v, _, n2) =>
        var b1 := b[k := ToCoef(Signed(sign, v + 1) * Pow2(p.al))];
        if k < p.se then ReadBandFrom(step, n2, p, b1, k) else BlockRead(true, b1, n2)
  }

  /** The block `was` with the coefficients lo..hi replaced by those of b, sent down to bit al. */
  function WithBand(was: Block, b: Block, lo: int, hi: int, al: nat): (r: Block) {
    seq(64, i requires 0 <= i < 64 => if lo <= i <= hi then AcLevel(b[i], al) else was[i])
  }

  ghost predicate ZeroBand(was: Block, lo: int, hi: int) {
    forall i :: 0 <= i < 64 && lo <= i <= hi ==> was[i] == 0
  }

  // ----- AC bands: round trip -----

  lemma ZeroLevel(x: Coef, al: nat)
    requires Trunc(x, al) == 0
    ensures AcLevel(x, al) == 0
  {
  }

  /** A decoded nonzero value lands in 16 bits unchanged. */
  lemma DecodedLevel(x: Coef, al: nat)
    requires Trunc(x, al) != 0
    ensures var v := Abs(Trunc(x, al)) - 1;
      && 0 <= v < 0x8000
      && ToCoef(Signed(SignOf(Trunc(x, al)), v + 1) * Pow2(al)) == AcLevel(x, al)
  {
    hide Pow2;
    LevelBound(x, al);
  }

  lemma BandDone(was: Block, b: Block, ke: int, k: int, hi: int, al: nat)
    requires ke <= k && hi < 64 && ZeroBand(was, k + 1, hi)
    requires forall i :: 0 <= i < 64 && ke < i <= hi ==> Trunc(b[i], al) == 0
    ensures WithBand(was, b, k + 1, hi, al) == was
  {
    hide Trunc;
    forall i | 0 <= i < 64 && k + 1 <= i <= hi
      ensures AcLevel(b[i], al) == was[i]
    {
      ZeroLevel(b[i], al);
    }
  }

  lemma BandStep(was: Block, b: Block, k: int, hi: int, al: nat)
    requires 0 <= k <= hi < 64
    ensures WithBand(was[k := AcLevel(b[k], al)], b, k + 1, hi, al) == WithBand(was, b, k, hi, al)
    ensures was[k] == AcLevel(b[k], al) ==> WithBand(was, b, k + 1, hi, al) == WithBand(was, b, k, hi, al)
    ensures k == hi ==> WithBand(was, b, k, hi, al) == was[k := AcLevel(b[k], al)]
  {
    hide Trunc, Pow2, AcLevel;
  }

  lemma {:induction false} BandFromRoundTrip<D>(step: Step<D>, d: D, p: Band, b: Block, was: Block, ke: int, k: int)
    requires ValidBand(p) && p.ss - 1 <= k < p.se && ke == LastNonzero(b, p.al, p.se)
    requires ZeroBand(was, k + 1, p.se) && Yields(step, d, BandFrom(p, b, ke, k))
    ensures ReadBandFrom(step, d, p, was, k)
      == BlockRead(true, WithBand(was, b, k + 1, p.se, p.al), After(step, d, BandFrom(p, b, ke, k)))
    decreases p.se - k, 1
  {
    hide Trunc, AcLevel, WithBand, LastNonzero, BandRun, ReadBandRun;
    var ds := BandFrom(p, b, ke, k);
    var n := step(d, Ac(p.tbl, 3 * k)).1;
    assert After(step, d, ds) == After(step, n, ds[1..]);
    if k < ke {
      assert ds[1..] == BandRun(p, b, ke, k + 1);
      BandRunRoundTrip(step, n, p, b, was, ke, k + 1);
    } else {
      assert ds[1..] == [];
      BandDone(was, b, ke, k, p.se, p.al);
    }
  }

  lemma {:induction false} BandRunRoundTrip<D>(step: Step<D>, d: D, p: Band, b: Block, was: Block, ke: int, k: int)
    requires ValidBand(p) && p.ss <= k <= ke && ke == LastNonzero(b, p.al, p.se)
    requires ZeroBand(was, k, p.se) && Yields(step, d, BandRun(p, b, ke, k))
    ensures ReadBandRun(step, d, p, was, k)
      == BlockRead(true, WithBand(was, b, k, p.se, p.al), After(step, d, BandRun(p, b, ke, k)))
    decreases p.se - k + 1, 0
  {
    hide Trunc, AcLevel, WithBand, LastNonzero, BandFrom, ReadBandFrom, AcMagnitude, ReadAcMagnitude;
    var ds := BandRun(p, b, ke, k);
    var v := Trunc(b[k], p.al);
    var st := 3 * (k - 1);
    var n := step(d, Ac(p.tbl, st + 1)).1;
    BandStep(was, b, k, p.se, p.al);
    assert After(step, d, ds) == After(step, n, ds[1..]);
    if v == 0 {
      assert ds[1..] == BandRun(p, b, ke, k + 1);
      ZeroLevel(b[k], p.al);
      BandRunRoundTrip(step, n, p, b, was, ke, k + 1);
    } else {
      var n1 := step(n, Fixed).1;
      var mag, rest := AcMagnitude(p.tbl, st + 2, k, p.kx, Abs(v) - 1), BandFrom(p, b, ke, k);
      assert ds[1..][1..] == mag + rest;
      assert After(step, n, ds[1..]) == After(step, n1, mag + rest);
      Split(step, n1, mag, rest);
      DecodedLevel(b[k], p.al);
      AcMagnitudeRoundTrip(step, n1, p.tbl, st + 2, k, p.kx, Abs(v) - 1);
      NonzeroEnd(step, After(step, n1, mag), p, b, was[k := AcLevel(b[k], p.al)], ke, k);
    }
  }

  /** What follows a nonzero coefficient at k. */
  lemma NonzeroEnd<D>(step: Step<D>, d: D, p: Band, b: Block, was: Block, ke: int, k: int)
    requires ValidBand(p) && p.ss <= k <= ke && ke == LastNonzero(b, p.al, p.se)
    requires ZeroBand(was, k + 1, p.se) && Yields(step, d, BandFrom(p, b, ke, k))
    ensures k < p.se ==>
      ReadBandFrom(step, d, p, was, k)
        == BlockRead(true, WithBand(was, b, k + 1, p.se, p.al), After(step, d, BandFrom(p, b, ke, k)))
    ensures k == p.se ==> After(step, d, BandFrom(p, b, ke, k)) == d
    decreases p.se - k, 2
  {
    hide Trunc, AcLevel, WithBand, LastNonzero;
    if k < p.se {
      BandFromRoundTrip(step, d, p, b, was, ke, k);
    } else {
      assert BandFrom(p, b, ke, k) == [];
    }
  }

  /** First passes over an AC band: decoding into a block whose band is still zero gives exactly
      the coefficients sent down to bit al, and touches nothing else. */
  lemma BandRoundTrip<D>(step: Step<D>, d: D, p: Band, b: Block, was: Block)
    requires ValidBand(p) && ZeroBand(was, p.ss, p.se) && Yields(step, d, BandDecisions(p, b))
    ensures ReadBandFrom(step, d, p, was, p.ss - 1)
      == BlockRead(true, WithBand(was, b, p.ss, p.se, p.al), After(step, d, BandDecisions(p, b)))
  {
    BandFromRoundTrip(step, d, p, b, was, LastNonzero(b, p.al, p.se), p.ss - 1);
  }
}
