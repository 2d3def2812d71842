/** Decisions for successive-approximation refinement of DC values and AC bands, and their decoding
    (section G.1.3.3 of ITU-T T.81). */
module BlockRefinement {
  import opened Powers
  import opened Decisions
  import opened Coefficients
  import opened BlockCoding

  // ----- DC refinement: one more bit of the two's-complement value -----

  function BitOf(x: int, al: nat): Bit { Shift(x, al) % 2 }

  /** Set bit al of a coefficient. */
  function SetBit(x: int, al: nat): int { if BitOf(x, al) == 1 then x else x + Pow2(al) }

  /** Refining a value known down to bit al + 1 by its bit al makes it known down to bit al. */
  lemma DcRefined(x: Coef, al: nat)
    ensures (if BitOf(x, al) == 1 then SetBit(DcLevel(x, al + 1), al) else DcLevel(x, al + 1)) == DcLevel(x, al)
  {
    hide Pow2;
    Pow2Successor(al);
    var h := Pow2(al);
    var q := x / h;
    HalfQuotient(x, h);
    var q2 := x / (2 * h);
    assert q == 2 * q2 + q % 2;
    EvenShift(q2, h);
    Distribute(2 * q2, q % 2, h);
  }

  lemma HalfQuotient(x: int, h: int)
    requires h > 0
    ensures x / (2 * h) == (x / h) / 2
  {
    var q, r := x / h, x % h;
    var q2, c := q / 2, q % 2;
    assert x == h * q + r;
    Distribute(2 * q2, c, h);
    Reorder(q2, h);
    var low := (if c == 1 then h else 0) + r;
    assert x == (2 * h) * q2 + low;
    Remainder(x, 2 * h, q2, low);
  }

  lemma Reorder(q: int, h: int)
    ensures h * (2 * q) == (2 * h) * q == q * (2 * h) == (2 * q) * h
  {
  }

  lemma Distribute(x: int, c: int, h: int)
    requires 0 <= c <= 1
    ensures h * (x + c) == h * x + (if c == 1 then h else 0)
    ensures (x + c) * h == x * h + (if c == 1 then h else 0)
  {
  }

  /** The level known so far has bit al clear. */
  lemma EvenShift(q2: int, h: int)
    requires h > 0
    ensures (q2 * (2 * h)) / h == 2 * q2
    ensures q2 * (2 * h) == (2 * q2) * h
  {
    Reorder(q2, h);
    Remainder(q2 * (2 * h), h, 2 * q2, 0);
  }

  // ----- AC refinement -----

  /** Decisions from a possible end of block at k; kex is the end of the previous stage. */
  function RefineFrom(p: Band, b: Block, ke: int, kex: int, k: int): seq<Decision>
    requires ValidBand(p) && p.ss - 1 <= k && ke < 64 && (0 < ke ==> Trunc(b[ke], p.al) != 0)
    decreases ke - k, 1
  {
    if k < ke then
      (if k >= kex then [Decision(Ac(p.tbl, 3 * k), 0)] else []) + RefineRun(p, b, ke, kex, k + 1)
    else if k < p.se then [Decision(Ac(p.tbl, 3 * k), 1)]
    else []
  }

  function RefineRun(p: Band, b: Block, ke: int, kex: int, k: int): seq<Decision>
    requires ValidBand(p) && p.ss <= k <= ke < 64 && Trunc(b[ke], p.al) != 0
    decreases ke - k + 1, 0
  {
    var v := Trunc(b[k], p.al);
    var st := 3 * (k - 1);
    if v == 0 then [Decision(Ac(p.tbl, st + 1), 0)] + RefineRun(p, b, ke, kex, k + 1)
    else if Abs(v) / 2 != 0 then [Decision(Ac(p.tbl, st + 2), Abs(v) % 2)] + RefineFrom(p, b, ke, kex, k)
    else [Decision(Ac(p.tbl, st + 1), 1), Decision(Fixed, SignOf(v))] + RefineFrom(p, b, ke, kex, k)
  }

  /** The band's low bit is refined from al + 1 to al. */
  function RefineDecisions(p: Band, b: Block): seq<Decision>
    requires ValidBand(p)
  {
    var ke := LastNonzero(b, p.al, p.se);
    RefineFrom(p, b, ke, LastNonzero(b, p.al + 1, ke), p.ss - 1)
  }

  /** Index of the last nonzero coefficient of a decoded block up to k, 0 if there is none. */
  function LastSet(b: Block, k: int): (e: int)
    requires 0 <= k < 64
    ensures 0 <= e <= k
    ensures 0 < e ==> b[e] != 0
    ensures forall i :: e < i <= k ==> b[i] == 0
  {
    if k == 0 || b[k] != 0 then k else LastSet(b, k - 1)
  }

  /** A nonzero coefficient after a correction bit of one. */
  function Corrected(y: Coef, al: nat): Coef {
    ToCoef(if y < 0 then y - Pow2(al) else y + Pow2(al))
  }

  /** A coefficient that becomes nonzero. */
  function NewLevel(sign: Bit, al: nat): Coef {
    ToCoef(if sign == 1 then 0 - Pow2(al) else Pow2(al))
  }

  function ReadRefineFrom<D>(step: Step<D>, d: D, p: Band, b: Block, kex: int, k: int): BlockRead<D>
    requires ValidBand(p) && p.ss - 1 <= k < p.se
    decreases p.se - k, 1
  {
    if k >= kex then
      var (eob, n) := step(d, Ac(p.tbl, 3 * k));
      if eob == 1 then BlockRead(true, b, n) else ReadRefineRun(step, n, p, b, kex, k + 1)
    else ReadRefineRun(step, d, p, b, kex, k + 1)
  }

  function ReadRefineRun<D>(step: Step<D>, d: D, p: Band, b: Block, kex: int, k: int): BlockRead<D>
    requires ValidBand(p) && p.ss <= k <= p.se
    decreases p.se - k + 1, 0
  {
    var st := 3 * (k - 1);
    if b[k] != 0 then
      var (bit, n) := step(d, Ac(p.tbl, st + 2));
      var b1 := if bit == 1 then b[k := Corrected(b[k], p.al)] else b;
      if k < p.se then ReadRefineFrom(step, n, p, b1, kex, k) else BlockRead(true, b1, n)
    else
      var (nonzero, n) := step(d, Ac(p.tbl, st + 1));
      if nonzero == 1 then
        var (sign, n1) := step(n, Fixed);
        var b1 := b[k := NewLevel(sign, p.al)];
        if k < p.se then ReadRefineFrom(step, n1, p, b1, kex, k) else BlockRead(true, b1, n1)
      else if k >= p.se then BlockRead(false, b, n)
      else ReadRefineRun(step, n, p, b, kex, k + 1)
  }

  // ----- AC refinement: round trip -----

  /** The band lo..hi of `was` holds the coefficients of b down to bit al. */
  ghost predicate HoldsBand(was: Block, b: Block, lo: int, hi: int, al: nat) {
    forall i :: 0 <= i < 64 && lo <= i <= hi ==> was[i] == AcLevel(b[i], al)
  }

  /** What one more bit does to one coefficient. */
  lemma RefinedLevel(x: Coef, al: nat)
    ensures var y, v := AcLevel(x, al + 1), Trunc(x, al);
      && (y != 0 <==> Abs(v) / 2 != 0)
      && (v == 0 ==> AcLevel(x, al) == 0)
      && (y != 0 ==> AcLevel(x, al) == if Abs(v) % 2 == 1 then Corrected(y, al) else y)
      && (y == 0 && v != 0 ==> AcLevel(x, al) == NewLevel(SignOf(v), al))
  {
    hide Pow2;
    Pow2Successor(al);
    var h, a := Pow2(al), Abs(x);
    RefinedQuotient(a, h);
    Negated(a / h, h);
    Negated(a / (2 * h), 2 * h);
    LevelBound(x, al);
  }

  lemma RefinedQuotient(a: nat, h: int)
    requires h > 0
    ensures var q, q2 := a / h, a / (2 * h);
      && 0 <= q && q2 == q / 2
      && (q2 * (2 * h) != 0 <==> q2 != 0)
      && 0 <= q2 * (2 * h)
      && q * h == q2 * (2 * h) + (if q % 2 == 1 then h else 0)
  {
    var q := a / h;
    QuotientBelow(a, h);
    HalfQuotient(a, h);
    Reorder(q / 2, h);
    Distribute(2 * (q / 2), q % 2, h);
    if q / 2 != 0 {
      Grow(2 * h, q / 2);
    }
  }

  /** Replacing position k by its refined value. */
  lemma RefineStep(was: Block, b: Block, k: int, hi: int, al: nat, y: Coef)
    requires 0 <= k <= hi < 64 && HoldsBand(was, b, k, hi, al + 1) && y == AcLevel(b[k], al)
    ensures HoldsBand(was[k := y], b, k + 1, hi, al + 1)
    ensures WithBand(was[k := y], b, k + 1, hi, al) == WithBand(was, b, k, hi, al)
    ensures k == hi ==> WithBand(was, b, k, hi, al) == was[k := y]
    ensures was[k := was[k]] == was
  {
    hide AcLevel;
  }

  lemma RefineDone(was: Block, b: Block, ke: int, k: int, hi: int, al: nat)
    requires ke <= k && hi < 64 && HoldsBand(was, b, k + 1, hi, al + 1)
    requires forall i :: 0 <= i < 64 && ke < i <= hi ==> Trunc(b[i], al) == 0
    ensures WithBand(was, b, k + 1, hi, al) == was
  {
    hide Trunc, AcLevel;
    forall i | 0 <= i < 64 && k + 1 <= i <= hi
      ensures AcLevel(b[i], al) == was[i]
    {
      RefinedLevel(b[i], al);
      assert Abs(0) == 0;
    }
  }

  /** The two ends of the previous stage agree wherever it matters. */
  ghost predicate SameEnds(p: Band, kexE: int, kexD: int) {
    kexE == kexD || (kexE < p.ss && kexD < p.ss)
  }

  lemma {:induction false} RefineFromRoundTrip<D>(step: Step<D>, d: D, p: Band, b: Block, was: Block,
      ke: int, kexE: int, kexD: int, k: int)
    requires ValidBand(p) && p.ss - 1 <= k < p.se && ke == LastNonzero(b, p.al, p.se)
    requires SameEnds(p, kexE, kexD) && kexE <= ke
    requires HoldsBand(was, b, k + 1, p.se, p.al + 1) && Yields(step, d, RefineFrom(p, b, ke, kexE, k))
    ensures ReadRefineFrom(step, d, p, was, kexD, k)
      == BlockRead(true, WithBand(was, b, k + 1, p.se, p.al), After(step, d, RefineFrom(p, b, ke, kexE, k)))
    decreases p.se - k, 1
  {
    hide Trunc, AcLevel, WithBand, LastNonzero, RefineRun, ReadRefineRun, HoldsBand;
    var ds := RefineFrom(p, b, ke, kexE, k);
    if k < ke {
      var run := RefineRun(p, b, ke, kexE, k + 1);
      if k >= kexE {
        var n := step(d, Ac(p.tbl, 3 * k)).1;
        assert ds[1..] == run;
        assert After(step, d, ds) == After(step, n, run);
        RefineRunRoundTrip(step, n, p, b, was, ke, kexE, kexD, k + 1);
      } else {
        assert ds == run;
        RefineRunRoundTrip(step, d, p, b, was, ke, kexE, kexD, k + 1);
      }
    } else {
      var n := step(d, Ac(p.tbl, 3 * k)).1;
      assert ds[1..] == [];
      assert After(step, d, ds) == After(step, n, ds[1..]);
      RefineDone(was, b, ke, k, p.se, p.al);
    }
  }

  lemma {:induction false} RefineRunRoundTrip<D>(step: Step<D>, d: D, p: Band, b: Block, was: Block,
      ke: int, kexE: int, kexD: int, k: int)
    requires ValidBand(p) && p.ss <= k <= ke && ke == LastNonzero(b, p.al, p.se)
    requires SameEnds(p, kexE, kexD) && kexE <= ke
    requires HoldsBand(was, b, k, p.se, p.al + 1) && Yields(step, d, RefineRun(p, b, ke, kexE, k))
    ensures ReadRefineRun(step, d, p, was, kexD, k)
      == BlockRead(true, WithBand(was, b, k, p.se, p.al), After(step, d, RefineRun(p, b, ke, kexE, k)))
    decreases p.se - k + 1, 0
  {
    hide Trunc, AcLevel, WithBand, LastNonzero, RefineFrom, ReadRefineFrom, Corrected, NewLevel;
    var ds := RefineRun(p, b, ke, kexE, k);
    var v := Trunc(b[k], p.al);
    var st := 3 * (k - 1);
    RefinedLevel(b[k], p.al);
    RefineStep(was, b, k, p.se, p.al, AcLevel(b[k], p.al));
    var next := was[k := AcLevel(b[k], p.al)];
    if v == 0 {
      var n := step(d, Ac(p.tbl, st + 1)).1;
      assert ds[1..] == RefineRun(p, b, ke, kexE, k + 1);
      assert After(step, d, ds) == After(step, n, ds[1..]);
      RefineRunRoundTrip(step, n, p, b, was, ke, kexE, kexD, k + 1);
    } else if Abs(v) / 2 != 0 {
      var n := step(d, Ac(p.tbl, st + 2)).1;
      assert ds[1..] == RefineFrom(p, b, ke, kexE, k);
      assert After(step, d, ds) == After(step, n, ds[1..]);
      RefineNext(step, n, p, b, next, ke, kexE, kexD, k);
    } else {
      var n := step(d, Ac(p.tbl, st + 1)).1;
      var n1 := step(n, Fixed).1;
      assert ds[1..][1..] == RefineFrom(p, b, ke, kexE, k);
      assert After(step, d, ds) == After(step, n, ds[1..]) == After(step, n1, ds[1..][1..]);
      RefineNext(step, n1, p, b, next, ke, kexE, kexD, k);
    }
  }

  /** What follows a nonzero coefficient at k. */
  lemma RefineNext<D>(step: Step<D>, d: D, p: Band, b: Block, was: Block,
      ke: int, kexE: int, kexD: int, k: int)
    requires ValidBand(p) && p.ss <= k <= ke && ke == LastNonzero(b, p.al, p.se)
    requires SameEnds(p, kexE, kexD) && kexE <= ke
    requires HoldsBand(was, b, k + 1, p.se, p.al + 1) && Yields(step, d, RefineFrom(p, b, ke, kexE, k))
    ensures k < p.se ==>
      ReadRefineFrom(step, d, p, was, kexD, k)
        == BlockRead(true, WithBand(was, b, k + 1, p.se, p.al), After(step, d, RefineFrom(p, b, ke, kexE, k)))
    ensures k == p.se ==> After(step, d, RefineFrom(p, b, ke, kexE, k)) == d
    decreases p.se - k, 2
  {
    hide Trunc, AcLevel, WithBand, LastNonzero;
    if k < p.se {
      RefineFromRoundTrip(step, d, p, b, was, ke, kexE, kexD, k);
    } else {
      assert RefineFrom(p, b, ke, kexE, k) == [];
    }
  }

  /** The encoder looks for the end of the previous stage in the original coefficients, the decoder
      in what it has decoded; outside the band the two may differ, inside they cannot. */
  lemma EndsAgree(p: Band, b: Block, was: Block)
    requires ValidBand(p) && HoldsBand(was, b, p.ss, p.se, p.al + 1)
    ensures SameEnds(p, LastNonzero(b, p.al + 1, LastNonzero(b, p.al, p.se)), LastSet(was, p.se))
  {
    hide Trunc, AcLevel, Pow2;
    var ke := LastNonzero(b, p.al, p.se);
    var kexE, kexD := LastNonzero(b, p.al + 1, ke), LastSet(was, p.se);
    forall i | p.ss <= i <= p.se
      ensures was[i] != 0 <==> Trunc(b[i], p.al + 1) != 0
      ensures Trunc(b[i], p.al) == 0 ==> was[i] == 0
    {
      RefinedLevel(b[i], p.al);
      LevelNonzero(b[i], p.al + 1);
      assert Abs(0) == 0;
    }
  }

  lemma LevelNonzero(x: Coef, al: nat)
    ensures AcLevel(x, al) != 0 <==> Trunc(x, al) != 0
  {
    hide Pow2;
    var v, p := Trunc(x, al), Pow2(al);
    if v > 0 {
      Grow(p, v);
    } else if v < 0 {
      Grow(p, -v);
      Negated(-v, p);
    }
  }

  /** Refinement of an AC band: decoding into a block that holds the band down to bit al + 1 makes
      it hold the band down to bit al, and touches nothing else. */
  lemma RefineRoundTrip<D>(step: Step<D>, d: D, p: Band, b: Block, was: Block)
    requires ValidBand(p) && HoldsBand(was, b, p.ss, p.se, p.al + 1)
    requires Yields(step, d, RefineDecisions(p, b))
    ensures ReadRefineFrom(step, d, p, was, LastSet(was, p.se), p.ss - 1)
      == BlockRead(true, WithBand(was, b, p.ss, p.se, p.al), After(step, d, RefineDecisions(p, b)))
  {
    hide HoldsBand, WithBand, AcLevel, Trunc;
    var ke := LastNonzero(b, p.al, p.se);
    EndsAgree(p, b, was);
    RefineFromRoundTrip(step, d, p, b, was, ke, LastNonzero(b, p.al + 1, ke), LastSet(was, p.se), p.ss - 1);
  }
}
