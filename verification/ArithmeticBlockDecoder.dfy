/** The decoder's loops over magnitudes and coefficients: each is proved to read exactly what
    Magnitude, BlockCoding and BlockRefinement specify, whatever the input bytes are. */
module ArithmeticBlockDecoder {
  import opened Powers
  import opened Decisions
  import opened Coefficients
  import opened Magnitude
  import opened BlockCoding
  import opened BlockRefinement
  import opened IntervalCoder
  import opened MarkerReading
  import opened ArithmeticDecoder

  /** Read the unary part of a category from m0 = 2^j on; not ok if the magnitude overflows. */
  method DecodeCategory(d: DecoderObject, area: Area, st0: int, m0: nat, ghost j0: nat)
    returns (ok: bool, m: nat, st: int)
    requires d.Valid() && j0 <= 14 && m0 == Pow2(j0) < 0x8000
    requires forall i :: st0 <= i <= st0 + 14 - j0 ==> Standard(area.At(i))
    modifies d
    ensures d.Valid() && 0 <= d.ct && d.SameSegment()
    ensures ReadCategory(IntervalCoder.Decode, old(d.exact), area, st0, m0)
      == if ok then Reached(m, st, d.exact) else TooLarge(d.exact)
    ensures ok ==> exists j: nat :: j0 <= j <= 14 && m == Pow2(j) && st == st0 + j - j0
  {
    hide IntervalCoder.Decode, Represents, AheadOf, Pow2, Standard;
    ghost var j := j0;
    m, st := m0, st0;
    SmallPowers(j);
    var bit := d.Decode(area.At(st));
    while bit != 0
      invariant d.Valid() && 0 <= d.ct && d.SameSegment()
      invariant j0 <= j <= 14 && st == st0 + j - j0 && m == Pow2(j) < 0x8000
      invariant ReadCategory(IntervalCoder.Decode, old(d.exact), area, st0, m0)
        == if bit == 0 then Reached(m, st, d.exact)
           else if 2 * m >= 0x8000 then TooLarge(d.exact)
           else ReadCategory(IntervalCoder.Decode, d.exact, area, st + 1, 2 * m)
      decreases 0x8000 - m, bit
    {
      SmallPowers(j);
      LastPower(j);
      m := 2 * m;
      if m == 0x8000 {
        ok := false;
        return;
      }
      j := j + 1;
      SmallPowers(j);
      st := st + 1;
      bit := d.Decode(area.At(st));
    }
    ok := true;
  }

  /** Doubling a power of two below 2^15 either stays below or hits it exactly. */
  lemma LastPower(j: nat)
    requires j <= 14
    ensures 2 * Pow2(j) == 0x8000 <==> j == 14
    ensures 2 * Pow2(j) >= 0x8000 <==> j == 14
  {
    hide Pow2;
    Pow2Values();
    SmallPowers(j);
  }

  /** Read the bits below m. */
  method DecodePattern(d: DecoderObject, k: Context, m0: nat, v0: nat) returns (v: nat)
    requires d.Valid() && 0 <= d.ct && Standard(k)
    modifies d
    ensures d.Valid() && 0 <= d.ct && d.SameSegment()
    ensures ReadPattern(IntervalCoder.Decode, old(d.exact), k, m0, v0) == (v, d.exact)
  {
    hide IntervalCoder.Decode, Represents, AheadOf, Standard;
    v := v0;
    ghost var x: nat := m0;
    var m: nat := m0 / 2;
    while m != 0
      invariant d.Valid() && 0 <= d.ct && d.SameSegment() && m == x / 2
      invariant ReadPattern(IntervalCoder.Decode, old(d.exact), k, m0, v0)
        == ReadPattern(IntervalCoder.Decode, d.exact, k, x, v)
    {
      var bit := d.Decode(k);
      if bit == 1 {
        v := v + m;
      }
      x := m;
      m := m / 2;
    }
  }

  /** Read a DC magnitude and its category; not ok if it overflows. */
  method DecodeDcMagnitude(d: DecoderObject, tbl: int, st0: int) returns (ok: bool, v: nat, m: nat)
    requires d.Valid() && 0 <= tbl < 16 && 0 <= st0 < 20
    modifies d
    ensures d.Valid() && 0 <= d.ct && d.SameSegment()
    ensures ReadDcMagnitude(IntervalCoder.Decode, old(d.exact), tbl, st0)
      == if ok then Value(v, m, d.exact) else Overflow(d.exact)
  {
    hide IntervalCoder.Decode, Represents, AheadOf, Pow2, ReadCategory, ReadPattern;
    var area := DcArea(tbl);
    var bit := d.Decode(area.At(st0));
    ok, v, m := true, 0, 0;
    if bit != 0 {
      var st;
      Pow2Zero();
      ok, m, st := DecodeCategory(d, area, 20, 1, 0);
      if ok {
        v := DecodePattern(d, area.At(st + 14), m, m);
      }
    }
  }

  /** Establish the conditioning context. */
  method ContextAfter(t: DcTable, m: nat, sign: Bit) returns (ctx: int)
    ensures ctx == NextContext(t, m, sign) && 0 <= ctx <= 16
  {
    hide Pow2;
    if m < Pow2(t.l) / 2 {
      ctx := 0;
    } else if m > Pow2(t.u) / 2 {
      ctx := 12 + sign * 4;
    } else {
      ctx := 4 + sign * 4;
    }
  }

  /** Read a DC difference; the prediction and context are updated unless the code is bad. */
  method DecodeDc(d: DecoderObject, t: DcTable, s: DcState) returns (ok: bool, n: DcState)
    requires d.Valid() && 0 <= t.tbl < 16 && 0 <= s.ctx <= 16
    modifies d
    ensures d.Valid() && 0 <= d.ct && d.SameSegment()
    ensures ReadDc(IntervalCoder.Decode, old(d.exact), t, s)
      == if ok then DcValue(n, d.exact) else DcBad(d.exact)
    ensures 0 <= n.ctx <= 16
  {
    hide IntervalCoder.Decode, Represents, AheadOf, Pow2, ReadDcMagnitude, NextContext;
    n := s;
    var bit := d.Decode(Dc(t.tbl, s.ctx));
    if bit == 0 {
      return true, DcState(s.pred, 0);
    }
    var sign := d.Decode(Dc(t.tbl, s.ctx + 1));
    var st := s.ctx + 2;
    st := st + sign;
    var v, m;
    ok, v, m := DecodeDcMagnitude(d, t.tbl, st);
    if ok {
      var ctx := ContextAfter(t, m, sign);
      v := v + 1;
      n := DcState(s.pred + Signed(sign, v), ctx);
    }
  }

  /** Read an AC magnitude; not ok if it overflows. */
  method DecodeAcMagnitude(d: DecoderObject, tbl: int, st0: int, k: int, kx: int) returns (ok: bool, v: nat)
    requires d.Valid() && 0 <= tbl < 16 && 0 <= st0 <= 188
    modifies d
    ensures d.Valid() && 0 <= d.ct && d.SameSegment()
    ensures var r := ReadAcMagnitude(IntervalCoder.Decode, old(d.exact), tbl, st0, k, kx);
      if ok then r.Value? && r.v == v && r.d == d.exact else r == Overflow(d.exact)
  {
    hide IntervalCoder.Decode, Represents, AheadOf, Pow2, ReadCategory, ReadPattern;
    var area := AcArea(tbl);
    var bit := d.Decode(area.At(st0));
    ok, v := true, 0;
    if bit != 0 {
      bit := d.Decode(area.At(st0));
      v := 1;
      if bit != 0 {
        var m, st;
        Pow2Zero();
        Pow2Successor(0);
        ok, m, st := DecodeCategory(d, area, if k <= kx then 189 else 217, 2, 1);
        if ok {
          v := DecodePattern(d, area.At(st + 14), m, m);
        }
      }
    }
  }

  // ----- coefficients -----

  /** Read an AC band, first pass, into the block; not ok if the code is bad. */
  method DecodeBand(d: DecoderObject, p: Band, blk: array<Coef>) returns (ok: bool)
    requires d.Valid() && ValidBand(p) && 0 <= p.tbl < 16 && blk.Length == 64
    modifies d, blk
    ensures d.Valid() && 0 <= d.ct && d.SameSegment()
    ensures ReadBandFrom(IntervalCoder.Decode, old(d.exact), p, old(blk[..]), p.ss - 1)
      == BlockRead(ok, blk[..], d.exact)
  {
    hide IntervalCoder.Decode, Represents, AheadOf, Pow2, ReadBandRun;
    var k := p.ss - 1;
    while k < p.se
      invariant d.Valid() && d.SameSegment() && (k >= p.ss ==> 0 <= d.ct)
      invariant p.ss - 1 <= k <= p.se
      invariant ReadBandFrom(IntervalCoder.Decode, old(d.exact), p, old(blk[..]), p.ss - 1)
        == if k < p.se then ReadBandFrom(IntervalCoder.Decode, d.exact, p, blk[..], k)
           else BlockRead(true, blk[..], d.exact)
    {
      var eob := d.Decode(Ac(p.tbl, 3 * k));
      if eob == 1 {
        return true;
      }
      ok, k := DecodeRun(d, p, blk, k + 1);
      if !ok {
        return;
      }
    }
    ok := true;
  }

  /** Read zero flags from k0 up to a nonzero coefficient, and that one; its index is returned. */
  method DecodeRun(d: DecoderObject, p: Band, blk: array<Coef>, k0: int) returns (ok: bool, k: int)
    requires d.Valid() && ValidBand(p) && 0 <= p.tbl < 16 && blk.Length == 64
    requires p.ss <= k0 <= p.se
    modifies d, blk
    ensures d.Valid() && 0 <= d.ct && d.SameSegment()
    ensures k0 <= k <= p.se
    ensures ReadBandRun(IntervalCoder.Decode, old(d.exact), p, old(blk[..]), k0)
      == if !ok then BlockRead(false, blk[..], d.exact)
         else if k < p.se then ReadBandFrom(IntervalCoder.Decode, d.exact, p, blk[..], k)
         else BlockRead(true, blk[..], d.exact)
  {
    hide IntervalCoder.Decode, Represents, AheadOf, Pow2, ReadBandFrom, ReadAcMagnitude;
    k := k0;
    var nonzero := d.Decode(Ac(p.tbl, 3 * (k - 1) + 1));
    while nonzero == 0
      invariant d.Valid() && 0 <= d.ct && d.SameSegment()
      invariant k0 <= k <= p.se && blk[..] == old(blk[..])
      invariant ReadBandRun(IntervalCoder.Decode, old(d.exact), p, blk[..], k0)
        == Flagged(d.exact, p, blk[..], k, nonzero)
      decreases p.se - k
    {
      if k >= p.se {
        return false, k;
      }
      k := k + 1;
      nonzero := d.Decode(Ac(p.tbl, 3 * (k - 1) + 1));
    }
    ok := DecodeNonzero(d, p, blk, k);
  }

  /** What is left to read at k once its zero flag is known. */
  ghost function Flagged(d: Decoder, p: Band, b: Block, k: int, nonzero: Bit): BlockRead<Decoder>
    requires ValidBand(p) && p.ss <= k <= p.se
  {
    if nonzero == 0 then
      if k >= p.se then BlockRead(false, b, d) else ReadBandRun(IntervalCoder.Decode, d, p, b, k + 1)
    else
      var (sign, n1) := IntervalCoder.Decode(d, Fixed);
      match ReadAcMagnitude(IntervalCoder.Decode, n1, p.tbl, 3 * (k - 1) + 2, k, p.kx)
      case Overflow(n2) => BlockRead(false, b, n2)
      case Value(v, _, n2) =>
        var b1 := b[k := ToCoef(Signed(sign, v + 1) * Pow2(p.al))];
        if k < p.se then ReadBandFrom(IntervalCoder.Decode, n2, p, b1, k) else BlockRead(true, b1, n2)
  }

  /** Read the nonzero coefficient at k. */
  method DecodeNonzero(d: DecoderObject, p: Band, blk: array<Coef>, k: int) returns (ok: bool)
    requires d.Valid() && ValidBand(p) && 0 <= p.tbl < 16 && blk.Length == 64
    requires p.ss <= k <= p.se
    modifies d, blk
    ensures d.Valid() && 0 <= d.ct && d.SameSegment()
    ensures Flagged(old(d.exact), p, old(blk[..]), k, 1)
      == if !ok then BlockRead(false, blk[..], d.exact)
         else if k < p.se then ReadBandFrom(IntervalCoder.Decode, d.exact, p, blk[..], k)
         else BlockRead(true, blk[..], d.exact)
  {
    hide IntervalCoder.Decode, Represents, AheadOf, Pow2, ReadBandFrom, ReadAcMagnitude;
    var sign := d.Decode(Fixed);
    var v;
    ok, v := DecodeAcMagnitude(d, p.tbl, 3 * (k - 1) + 2, k, p.kx);
    if ok {
      v := v + 1;
      blk[k] := ToCoef(Signed(sign, v) * Pow2(p.al));
    }
  }

  /** Read the refinement of an AC band into the block; not ok if the code is bad. */
  method DecodeRefine(d: DecoderObject, p: Band, blk: array<Coef>) returns (ok: bool)
    requires d.Valid() && ValidBand(p) && 0 <= p.tbl < 16 && blk.Length == 64
    modifies d, blk
    ensures d.Valid() && 0 <= d.ct && d.SameSegment()
    ensures ReadRefineFrom(IntervalCoder.Decode, old(d.exact), p, old(blk[..]), LastSet(old(blk[..]), p.se), p.ss - 1)
      == BlockRead(ok, blk[..], d.exact)
  {
    hide IntervalCoder.Decode, Represents, AheadOf, ReadRefineRun, Corrected, NewLevel;
    var kex := FindLastSet(blk, p.se);
    var k := p.ss - 1;
    while k < p.se
      invariant d.Valid() && d.SameSegment() && (k >= p.ss ==> 0 <= d.ct)
      invariant p.ss - 1 <= k <= p.se
      invariant ReadRefineFrom(IntervalCoder.Decode, old(d.exact), p, old(blk[..]), kex, p.ss - 1)
        == if k < p.se then ReadRefineFrom(IntervalCoder.Decode, d.exact, p, blk[..], kex, k)
           else BlockRead(true, blk[..], d.exact)
    {
      if k >= kex {
        var eob := d.Decode(Ac(p.tbl, 3 * k));
        if eob == 1 {
          return true;
        }
      }
      ok, k := DecodeRefineRun(d, p, blk, kex, k + 1);
      if !ok {
        return;
      }
    }
    ok := true;
  }

  /** Find the end of the previous stage: the last nonzero coefficient up to k. */
  method FindLastSet(blk: array<Coef>, k: int) returns (e: int)
    requires blk.Length == 64 && 0 <= k < 64
    ensures e == LastSet(blk[..], k)
  {
    e := k;
    while e > 0 && blk[e] == 0
      invariant 0 <= e <= k && LastSet(blk[..], e) == LastSet(blk[..], k)
    {
      e := e - 1;
    }
  }

  /** Go through coefficients from k0 up to one that was or becomes nonzero; its index is returned. */
  method DecodeRefineRun(d: DecoderObject, p: Band, blk: array<Coef>, kex: int, k0: int) returns (ok: bool, k: int)
    requires d.Valid() && ValidBand(p) && 0 <= p.tbl < 16 && blk.Length == 64
    requires p.ss <= k0 <= p.se
    modifies d, blk
    ensures d.Valid() && 0 <= d.ct && d.SameSegment()
    ensures k0 <= k <= p.se
    ensures ReadRefineRun(IntervalCoder.Decode, old(d.exact), p, old(blk[..]), kex, k0)
      == if !ok then BlockRead(false, blk[..], d.exact)
         else if k < p.se then ReadRefineFrom(IntervalCoder.Decode, d.exact, p, blk[..], kex, k)
         else BlockRead(true, blk[..], d.exact)
  {
    hide IntervalCoder.Decode, Represents, AheadOf, ReadRefineFrom, Corrected, NewLevel;
    k := k0;
    ghost var was := blk[..];
    while true
      invariant d.Valid() && d.SameSegment() && (k > k0 ==> 0 <= d.ct)
      invariant k0 <= k <= p.se && blk[..] == was
      invariant ReadRefineRun(IntervalCoder.Decode, old(d.exact), p, was, kex, k0)
        == ReadRefineRun(IntervalCoder.Decode, d.exact, p, was, kex, k)
      decreases p.se - k
    {
      var st := 3 * (k - 1);
      if blk[k] != 0 {
        var bit := d.Decode(Ac(p.tbl, st + 2));
        if bit == 1 {
          blk[k] := Corrected(blk[k], p.al);
        }
        return true, k;
      }
      var nonzero := d.Decode(Ac(p.tbl, st + 1));
      if nonzero == 1 {
        var sign := d.Decode(Fixed);
        blk[k] := NewLevel(sign, p.al);
        return true, k;
      }
      if k >= p.se {
        return false, k;
      }
      k := k + 1;
    }
  }
}
