/** The encoder's loops over magnitudes and coefficients: each is proved to code exactly the
    decisions that Magnitude, BlockCoding and BlockRefinement specify. */
module ArithmeticBlockEncoder {
  import opened Powers
  import opened Decisions
  import opened Coefficients
  import opened Magnitude
  import opened BlockCoding
  import opened BlockRefinement
  import opened IntervalCoder
  import opened ArithmeticEncoder

  /** Code the unary part of a category, doubling m at each step; the closing zero is left to do. */
  method EncodeUnary(e: Encoder, area: Area, st0: int, m0: nat, v: nat) returns (m: nat, st: int)
    requires e.Valid()
    requires forall i :: st0 <= i <= st0 + Log2(v) ==> InBounds(area.At(i))
    modifies e
    ensures e.Valid() && e.before == old(e.before)
    ensures st == st0 + Log2(v) && m == m0 * Pow2(Log2(v))
    ensures EncodeAll(e.exact, [Decision(area.At(st), 0)]) == EncodeAll(old(e.exact), Category(area, st0, v))
  {
    hide EncodeAll, IntervalCoder.Encode, Pow2, InBounds;
    ghost var x := v;
    m, st := m0, st0;
    var v2 := v / 2;
    Pow2Zero();
    while v2 != 0
      invariant e.Valid() && e.before == old(e.before)
      invariant v2 == x / 2 && st0 <= st && st + Log2(x) == st0 + Log2(v)
      invariant m * Pow2(Log2(x)) == m0 * Pow2(Log2(v))
      invariant EncodeAll(e.exact, Category(area, st, x)) == EncodeAll(old(e.exact), Category(area, st0, v))
    {
      EncodeAllFirst(e.exact, Decision(area.At(st), 1), Category(area, st + 1, x / 2));
      e.Encode(area.At(st), 1);
      UnaryStep(m, Log2(x / 2));
      m := 2 * m;
      st := st + 1;
      x := x / 2;
      v2 := v2 / 2;
    }
  }

  lemma UnaryStep(m: nat, n: nat)
    ensures m * Pow2(n + 1) == 2 * m * Pow2(n)
  {
    hide Pow2;
    Pow2Successor(n);
    var p := Pow2(n);
    assert m * (2 * p) == 2 * m * p;
  }

  /** Code the bits of v below m. */
  method EncodePattern(e: Encoder, k: Context, m0: nat, v: nat)
    requires e.Valid() && InBounds(k)
    modifies e
    ensures e.Coded(Pattern(k, m0, v))
  {
    hide EncodeAll, IntervalCoder.Encode, InBounds;
    var m := m0;
    ghost var x := m0;
    m := m / 2;
    while m != 0
      invariant e.Valid() && e.before == old(e.before) && m == x / 2
      invariant EncodeAll(e.exact, Pattern(k, x, v)) == EncodeAll(old(e.exact), Pattern(k, m0, v))
    {
      EncodeAllFirst(e.exact, Decision(k, v / m % 2), Pattern(k, m, v));
      e.Encode(k, v / m % 2);
      x := m;
      m := m / 2;
    }
    EncodeAllFirst(e.exact, Decision(k, 0), []);
  }

  /** Code a category from bin x upwards and then the bits of v below it. */
  method EncodeBody(e: Encoder, area: Area, x: int, m0: nat, w: nat, v: nat) returns (m: nat)
    requires e.Valid() && m0 * Pow2(Log2(w)) == Pow2(Log2(v))
    requires forall i :: x <= i <= x + Log2(w) + 14 ==> InBounds(area.At(i))
    modifies e
    ensures e.Coded(Category(area, x, w) + Pattern(area.At(x + Log2(w) + 14), Pow2(Log2(v)), v))
    ensures m == Pow2(Log2(v))
  {
    hide EncodeAll, IntervalCoder.Encode, Pow2, Category, Pattern, InBounds;
    var st;
    EncodeAllSplit(e.exact, Category(area, x, w), Pattern(area.At(x + Log2(w) + 14), Pow2(Log2(v)), v));
    m, st := EncodeUnary(e, area, x, m0, w);
    EncodeAllFirst(e.exact, Decision(area.At(st), 0), []);
    e.Encode(area.At(st), 0);
    EncodePattern(e, area.At(st + 14), m, v);
  }

  /** Code a DC magnitude, one less than the absolute value; the category is returned. */
  method EncodeDcMagnitude(e: Encoder, tbl: int, st: int, v: nat) returns (m: nat)
    requires e.Valid() && 0 <= tbl < 16 && 0 <= st < 20 && v < 0x1_0000
    modifies e
    ensures e.Coded(DcMagnitude(tbl, st, v))
    ensures m == CategoryOf(v)
  {
    hide EncodeAll, IntervalCoder.Encode, Pow2, Category, Pattern, Log2;
    var area := DcArea(tbl);
    if v != 0 {
      Pow2Values();
      Log2Below(v, 16);
      ghost var body, tail := Category(area, 20, v), Pattern(area.At(20 + Log2(v) + 14), Pow2(Log2(v)), v);
      EncodeAllFirst(e.exact, Decision(area.At(st), 1), body + tail);
      assert DcMagnitude(tbl, st, v) == [Decision(area.At(st), 1)] + (body + tail);
      e.Encode(area.At(st), 1);
      m := EncodeBody(e, area, 20, 1, v, v);
    } else {
      EncodeAllFirst(e.exact, Decision(area.At(st), 0), []);
      e.Encode(area.At(st), 0);
      m := 0;
    }
  }

  lemma {:induction false} Log2Below(v: nat, n: nat)
    requires 0 < v < Pow2(n)
    ensures Log2(v) < n
    decreases n
  {
    if v / 2 != 0 {
      Log2Below(v / 2, n - 1);
    }
  }

  /** Code a DC value that has been point-transformed already; the new prediction is returned. */
  method EncodeDc(e: Encoder, t: DcTable, s: DcState, m: int) returns (n: DcState)
    requires e.Valid() && 0 <= t.tbl < 16 && 0 <= s.ctx <= 16 && Abs(m - s.pred) <= 0x1_0000
    modifies e
    ensures e.Coded(DcDecisions(t, s, m))
    ensures n == DcNext(t, s, m) && 0 <= n.ctx <= 16
  {
    hide EncodeAll, IntervalCoder.Encode, Pow2, DcMagnitude, CategoryOf;
    var st := s.ctx;
    var ctx := 0;
    var v := m - s.pred;
    if v == 0 {
      EncodeAllFirst(e.exact, Decision(Dc(t.tbl, st), 0), []);
      e.Encode(Dc(t.tbl, st), 0);
    } else {
      ghost var sign := SignOf(v);
      ghost var mag := DcMagnitude(t.tbl, st + 2 + sign, Abs(v) - 1);
      assert DcDecisions(t, s, m) == [Decision(Dc(t.tbl, st), 1)] + ([Decision(Dc(t.tbl, st + 1), sign)] + mag);
      EncodeAllFirst(e.exact, Decision(Dc(t.tbl, st), 1), [Decision(Dc(t.tbl, st + 1), sign)] + mag);
      e.Encode(Dc(t.tbl, st), 1);
      EncodeAllFirst(e.exact, Decision(Dc(t.tbl, st + 1), sign), mag);
      if v > 0 {
        e.Encode(Dc(t.tbl, st + 1), 0);
        st := st + 2;
        ctx := 4;
      } else {
        v := -v;
        e.Encode(Dc(t.tbl, st + 1), 1);
        st := st + 3;
        ctx := 8;
      }
      var category := EncodeDcMagnitude(e, t.tbl, st, v - 1);
      if category < Pow2(t.l) / 2 {
        ctx := 0;
      } else if category > Pow2(t.u) / 2 {
        ctx := ctx + 8;
      }
    }
    n := DcState(m, ctx);
  }

  /** Code an AC magnitude, one less than the absolute value. */
  method EncodeAcMagnitude(e: Encoder, tbl: int, st0: int, k: int, kx: int, v: nat)
    requires e.Valid() && 0 <= tbl < 16 && 0 <= st0 <= 188 && v < 0x8000
    modifies e
    ensures e.Coded(AcMagnitude(tbl, st0, k, kx, v))
  {
    hide EncodeAll, IntervalCoder.Encode, Pow2, Category, Pattern;
    var area := AcArea(tbl);
    var st := st0;
    if v == 0 {
      EncodeAllFirst(e.exact, Decision(area.At(st), 0), []);
      e.Encode(area.At(st), 0);
    } else if v / 2 == 0 {
      EncodeAllFirst(e.exact, Decision(area.At(st), 1), [Decision(area.At(st), 0)]);
      e.Encode(area.At(st), 1);
      EncodeAllFirst(e.exact, Decision(area.At(st), 0), []);
      e.Encode(area.At(st), 0);
      assert AcMagnitude(tbl, st0, k, kx, v) == [Decision(area.At(st), 1)] + [Decision(area.At(st), 0)];
    } else {
      EncodeLargeAc(e, tbl, st0, k, kx, v);
    }
  }

  method EncodeLargeAc(e: Encoder, tbl: int, st: int, k: int, kx: int, v: nat)
    requires e.Valid() && 0 <= tbl < 16 && 0 <= st <= 188 && 2 <= v < 0x8000
    modifies e
    ensures e.Coded(AcMagnitude(tbl, st, k, kx, v))
  {
    hide EncodeAll, IntervalCoder.Encode, Pow2, Category, Pattern;
    var area := AcArea(tbl);
    Pow2Values();
    Log2Below(v / 2, 14);
    Pow2Successor(Log2(v / 2));
    var x := LargeBins(k, kx);
    ghost var z := Decision(area.At(st), 1);
    ghost var rest := Category(area, x, v / 2) + Pattern(area.At(x + Log2(v / 2) + 14), Pow2(Log2(v)), v);
    LargeAcMagnitude(tbl, st, k, kx, v);
    EncodeAllFirst(e.exact, z, [z] + rest);
    e.Encode(area.At(st), 1);
    EncodeAllFirst(e.exact, z, rest);
    e.Encode(area.At(st), 1);
    var _ := EncodeBody(e, area, x, 2, v / 2, v);
  }

  lemma LargeAcMagnitude(tbl: int, st: int, k: int, kx: int, v: nat)
    requires 2 <= v
    ensures var x, area := LargeBins(k, kx), AcArea(tbl);
      var z, rest := Decision(area.At(st), 1),
        Category(area, x, v / 2) + Pattern(area.At(x + Log2(v / 2) + 14), Pow2(Log2(v)), v);
      AcMagnitude(tbl, st, k, kx, v) == [z] + ([z] + rest)
  {
    hide Category, Pattern, Pow2, Log2;
  }

  // ----- coefficients -----

  /** Find the end of block: the last index up to k that is nonzero at bit al. */
  method FindLast(b: Block, al: nat, k: int) returns (e: int)
    requires 0 <= k < 64
    ensures e == LastNonzero(b, al, k)
  {
    hide Trunc;
    e := k;
    while e > 0 && Trunc(b[e], al) == 0
      invariant 0 <= e <= k && LastNonzero(b, al, e) == LastNonzero(b, al, k)
    {
      e := e - 1;
    }
  }

  /** Code the coefficients of an AC band, first pass. */
  method EncodeBand(e: Encoder, p: Band, b: Block)
    requires e.Valid() && ValidBand(p) && 0 <= p.tbl < 16
    modifies e
    ensures e.Coded(BandDecisions(p, b))
  {
    hide EncodeAll, IntervalCoder.Encode, Trunc, AcMagnitude;
    var ke := FindLast(b, p.al, p.se);
    var k := p.ss - 1;
    while k < ke
      invariant e.Valid() && e.before == old(e.before)
      invariant p.ss - 1 <= k && (k <= ke || k == p.ss - 1)
      invariant EncodeAll(e.exact, BandFrom(p, b, ke, k)) == EncodeAll(old(e.exact), BandDecisions(p, b))
    {
      EncodeAllFirst(e.exact, Decision(Ac(p.tbl, 3 * k), 0), BandRun(p, b, ke, k + 1));
      e.Encode(Ac(p.tbl, 3 * k), 0);
      k := EncodeRun(e, p, b, ke, k + 1);
    }
    if k < p.se {
      EncodeAllFirst(e.exact, Decision(Ac(p.tbl, 3 * k), 1), []);
      e.Encode(Ac(p.tbl, 3 * k), 1);
    } else {
      EncodeAllFirst(e.exact, Decision(Ac(p.tbl, 3 * k), 1), []);
    }
  }

  /** Code zero coefficients from k0 up to the next nonzero one, and that one; its index is returned. */
  method EncodeRun(e: Encoder, p: Band, b: Block, ke: int, k0: int) returns (k: int)
    requires e.Valid() && ValidBand(p) && 0 <= p.tbl < 16
    requires p.ss <= k0 <= ke <= p.se && Trunc(b[ke], p.al) != 0
    modifies e
    ensures e.Valid() && e.before == old(e.before) && k0 <= k <= ke
    ensures EncodeAll(e.exact, BandFrom(p, b, ke, k)) == EncodeAll(old(e.exact), BandRun(p, b, ke, k0))
  {
    hide EncodeAll, IntervalCoder.Encode, Trunc, AcMagnitude, BandFrom;
    k := k0;
    var v := Trunc(b[k], p.al);
    while v == 0
      invariant e.Valid() && e.before == old(e.before)
      invariant k0 <= k <= ke && v == Trunc(b[k], p.al)
      invariant EncodeAll(e.exact, BandRun(p, b, ke, k)) == EncodeAll(old(e.exact), BandRun(p, b, ke, k0))
      decreases ke - k
    {
      var st := 3 * (k - 1);
      EncodeAllFirst(e.exact, Decision(Ac(p.tbl, st + 1), 0), BandRun(p, b, ke, k + 1));
      e.Encode(Ac(p.tbl, st + 1), 0);
      k := k + 1;
      v := Trunc(b[k], p.al);
    }
    EncodeNonzero(e, p, b, ke, k);
  }

  /** Code the nonzero coefficient at k. */
  method EncodeNonzero(e: Encoder, p: Band, b: Block, ke: int, k: int)
    requires e.Valid() && ValidBand(p) && 0 <= p.tbl < 16
    requires p.ss <= k <= ke <= p.se && Trunc(b[ke], p.al) != 0 && Trunc(b[k], p.al) != 0
    modifies e
    ensures e.Valid() && e.before == old(e.before)
    ensures EncodeAll(e.exact, BandFrom(p, b, ke, k)) == EncodeAll(old(e.exact), BandRun(p, b, ke, k))
  {
    hide EncodeAll, IntervalCoder.Encode, Trunc, AcMagnitude, BandFrom;
    var v, st := Trunc(b[k], p.al), 3 * (k - 1);
    ghost var z, sign := Decision(Ac(p.tbl, st + 1), 1), Decision(Fixed, SignOf(v));
    ghost var mag, rest := AcMagnitude(p.tbl, st + 2, k, p.kx, Abs(v) - 1), BandFrom(p, b, ke, k);
    assert BandRun(p, b, ke, k) == [z] + ([sign] + (mag + rest));
    LevelBound(b[k], p.al);
    EncodeAllFirst(e.exact, z, [sign] + (mag + rest));
    e.Encode(Ac(p.tbl, st + 1), 1);
    EncodeAllFirst(e.exact, sign, mag + rest);
    if v > 0 {
      e.Encode(Fixed, 0);
    } else {
      v := -v;
      e.Encode(Fixed, 1);
    }
    EncodeAllSplit(e.exact, mag, rest);
    EncodeAcMagnitude(e, p.tbl, st + 2, k, p.kx, v - 1);
  }

  /** Code the refinement of an AC band from bit al + 1 to bit al. */
  method EncodeRefine(e: Encoder, p: Band, b: Block)
    requires e.Valid() && ValidBand(p) && 0 <= p.tbl < 16
    modifies e
    ensures e.Coded(RefineDecisions(p, b))
  {
    hide EncodeAll, IntervalCoder.Encode, Trunc;
    var ke := FindLast(b, p.al, p.se);
    var kex := FindLast(b, p.al + 1, ke);
    var k := p.ss - 1;
    while k < ke
      invariant e.Valid() && e.before == old(e.before)
      invariant p.ss - 1 <= k && (k <= ke || k == p.ss - 1)
      invariant EncodeAll(e.exact, RefineFrom(p, b, ke, kex, k)) == EncodeAll(old(e.exact), RefineDecisions(p, b))
    {
      EncodeAllFirst(e.exact, Decision(Ac(p.tbl, 3 * k), 0), RefineRun(p, b, ke, kex, k + 1));
      assert k < kex ==> RefineFrom(p, b, ke, kex, k) == RefineRun(p, b, ke, kex, k + 1);
      if k >= kex {
        e.Encode(Ac(p.tbl, 3 * k), 0);
      }
      k := EncodeRefineRun(e, p, b, ke, kex, k + 1);
    }
    EncodeAllFirst(e.exact, Decision(Ac(p.tbl, 3 * k), 1), []);
    if k < p.se {
      e.Encode(Ac(p.tbl, 3 * k), 1);
    }
  }

  /** Code zero coefficients from k0 up to the next nonzero one, and that one; its index is returned. */
  method EncodeRefineRun(e: Encoder, p: Band, b: Block, ke: int, kex: int, k0: int) returns (k: int)
    requires e.Valid() && ValidBand(p) && 0 <= p.tbl < 16
    requires p.ss <= k0 <= ke <= p.se && Trunc(b[ke], p.al) != 0
    modifies e
    ensures e.Valid() && e.before == old(e.before) && k0 <= k <= ke
    ensures EncodeAll(e.exact, RefineFrom(p, b, ke, kex, k)) == EncodeAll(old(e.exact), RefineRun(p, b, ke, kex, k0))
  {
    hide EncodeAll, IntervalCoder.Encode, Trunc, RefineFrom;
    k := k0;
    var v := Trunc(b[k], p.al);
    while v == 0
      invariant e.Valid() && e.before == old(e.before)
      invariant k0 <= k <= ke && v == Trunc(b[k], p.al)
      invariant EncodeAll(e.exact, RefineRun(p, b, ke, kex, k)) == EncodeAll(old(e.exact), RefineRun(p, b, ke, kex, k0))
      decreases ke - k
    {
      var st := 3 * (k - 1);
      EncodeAllFirst(e.exact, Decision(Ac(p.tbl, st + 1), 0), RefineRun(p, b, ke, kex, k + 1));
      e.Encode(Ac(p.tbl, st + 1), 0);
      k := k + 1;
      v := Trunc(b[k], p.al);
    }
    EncodeRefined(e, p, b, ke, kex, k);
  }

  /** Code the nonzero coefficient at k: a correction bit if it was nonzero before, else its sign. */
  method EncodeRefined(e: Encoder, p: Band, b: Block, ke: int, kex: int, k: int)
    requires e.Valid() && ValidBand(p) && 0 <= p.tbl < 16
    requires p.ss <= k <= ke <= p.se && Trunc(b[ke], p.al) != 0 && Trunc(b[k], p.al) != 0
    modifies e
    ensures e.Valid() && e.before == old(e.before)
    ensures EncodeAll(e.exact, RefineFrom(p, b, ke, kex, k)) == EncodeAll(old(e.exact), RefineRun(p, b, ke, kex, k))
  {
    hide EncodeAll, IntervalCoder.Encode, Trunc, RefineFrom;
    var v, st := Trunc(b[k], p.al), 3 * (k - 1);
    ghost var rest := RefineFrom(p, b, ke, kex, k);
    if Abs(v) / 2 != 0 {
      EncodeAllFirst(e.exact, Decision(Ac(p.tbl, st + 2), Abs(v) % 2), rest);
      e.Encode(Ac(p.tbl, st + 2), Abs(v) % 2);
    } else {
      ghost var z, sign := Decision(Ac(p.tbl, st + 1), 1), Decision(Fixed, SignOf(v));
      assert RefineRun(p, b, ke, kex, k) == [z] + ([sign] + rest);
      EncodeAllFirst(e.exact, z, [sign] + rest);
      e.Encode(Ac(p.tbl, st + 1), 1);
      EncodeAllFirst(e.exact, sign, rest);
      if v >= 0 {
        e.Encode(Fixed, 0);
      } else {
        e.Encode(Fixed, 1);
      }
    }
  }
}
