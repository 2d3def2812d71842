/** The binary decisions of coefficients one by one, with the numbers of their bins, against the procedures
    that make them (figures F.4 to F.9 and tables F.4 and F.5 of ITU-T T.81). */
module DecisionTables {
  import opened Powers
  import opened Decisions
  import opened Magnitude
  import opened Coefficients
  import opened BlockCoding
  import opened BlockRefinement

  // ----- magnitudes -----

  /** The leading bit of v is bit n. */
  predicate LeadingAt(v: nat, n: nat) { Pow2(n) <= v < 2 * Pow2(n) }

  /** n ones and a zero, each in a bin of its own from `first` on. */
  function Unary(area: Area, first: int, n: nat): (ds: seq<Decision>)
    ensures |ds| == n + 1
  {
    seq(n + 1, i requires 0 <= i <= n => Decision(area.At(first + i), if i < n then 1 else 0))
  }

  /** The bits of v below bit n, the highest first, all in one bin. */
  function LowBits(k: Context, n: nat, v: nat): (ds: seq<Decision>)
    ensures |ds| == n
  {
    seq(n, i requires 0 <= i < n => Decision(k, BitAt(v, n - 1 - i)))
  }

  function BitAt(v: nat, n: nat): Bit { v / Pow2(n) % 2 }

  lemma {:induction false} CategoryIs(area: Area, st: int, v: nat, n: nat)
    requires LeadingAt(v, n)
    ensures Category(area, st, v) == Unary(area, st, n) && Log2(v) == n
    decreases n
  {
    if n > 0 {
      CategoryIs(area, st + 1, v / 2, n - 1);
      var u, t := Unary(area, st, n), Unary(area, st + 1, n - 1);
      assert u == [Decision(area.At(st), 1)] + t by {
        assert forall i :: 0 < i <= n ==> u[i] == t[i - 1];
      }
    } else {
      assert Pow2(0) == 1;
      assert Unary(area, st, 0) == [Decision(area.At(st), 0)];
    }
  }

  lemma {:induction false} PatternIs(k: Context, n: nat, v: nat)
    ensures Pattern(k, Pow2(n), v) == LowBits(k, n, v)
    decreases n
  {
    if n > 0 {
      PatternIs(k, n - 1, v);
      Pow2Successor(n - 1);
      hide Pow2;
      var l, t := LowBits(k, n, v), LowBits(k, n - 1, v);
      assert l == [Decision(k, BitAt(v, n - 1))] + t by {
        assert forall i :: 0 < i < n ==> l[i] == t[i - 1];
      }
      assert Pow2(n) / 2 == Pow2(n - 1);
    } else {
      assert Pow2(0) == 1;
      assert LowBits(k, 0, v) == [];
    }
  }

  // ----- DC differences -----

  /** A DC value with difference diff from its prediction: whether it is zero in bin ctx, its sign in the next,
      whether it is more than one in one of the next two by sign, the category from bin 20 on, and the bits
      below the leading one in the bin 14 behind that of the category's end. */
  lemma DcDecisionsAre(t: DcTable, s: DcState, m: int, n: nat)
    requires Abs(m - s.pred) > 1 ==> LeadingAt(Abs(m - s.pred) - 1, n)
    ensures var diff := m - s.pred;
      var sign := if diff < 0 then 1 else 0;
      DcDecisions(t, s, m)
      == (if diff == 0 then [Decision(Dc(t.tbl, s.ctx), 0)]
          else
            [Decision(Dc(t.tbl, s.ctx), 1), Decision(Dc(t.tbl, s.ctx + 1), sign)]
            + (if Abs(diff) == 1 then [Decision(Dc(t.tbl, s.ctx + 2 + sign), 0)]
               else
                 [Decision(Dc(t.tbl, s.ctx + 2 + sign), 1)]
                 + Unary(DcArea(t.tbl), 20, n) + LowBits(Dc(t.tbl, 34 + n), n, Abs(diff) - 1)))
  {
    hide Unary, LowBits, Category, Pattern;
    var diff := m - s.pred;
    if Abs(diff) > 1 {
      CategoryIs(DcArea(t.tbl), 20, Abs(diff) - 1, n);
      PatternIs(Dc(t.tbl, 34 + n), n, Abs(diff) - 1);
    }
  }

  /** What a DC value leaves for the next of its component: itself as the prediction, and a context by the
      size and sign of the difference. */
  lemma DcNextIs(t: DcTable, s: DcState, m: int)
    ensures var diff := m - s.pred;
      var next := DcNext(t, s, m);
      && next.pred == m
      && next.ctx == if Abs(diff) <= Pow2(t.l) / 2 then 0
                     else if 0 < diff <= Pow2(t.u) then 4
                     else if diff > 0 then 12
                     else if -diff <= Pow2(t.u) then 8
                     else 16
  {
    hide Pow2, Log2;
    var diff := m - s.pred;
    if Abs(diff) > 1 {
      var n := Log2(Abs(diff) - 1);
      AgainstHalf(Abs(diff) - 1, n, t.l);
      AgainstHalf(Abs(diff) - 1, n, t.u);
    }
    Pow2Positive(t.l);
    Pow2Positive(t.u);
  }

  lemma Pow2Positive(n: nat)
    ensures Pow2(n) >= 1 && (Pow2(n) == 1 || Pow2(n) / 2 >= 1)
  {
  }

  /** A leading power compared with half a power of two. */
  lemma AgainstHalf(v: nat, n: nat, c: nat)
    requires LeadingAt(v, n)
    ensures Pow2(n) < Pow2(c) / 2 <==> v < Pow2(c) / 2
    ensures Pow2(n) > Pow2(c) / 2 <==> v >= Pow2(c)
  {
    hide Pow2;
    if n < c {
      Pow2Successor(c - 1);
      Pow2Monotone(n, c - 1);
      if n + 1 < c {
        Pow2Monotone(n + 1, c - 1);
        Pow2Successor(n);
      }
    } else {
      Pow2Monotone(c, n);
    }
  }

  // ----- AC bands, first pass -----

  /** A nonzero value at coefficient k: the sign with fixed probability, whether the magnitude is more than one
      and more than two in the third bin of k, the category from bin 189 or 217 on, and the low bits. */
  function ValueDecisions(tbl: int, kx: int, k: int, x: int, n: nat): seq<Decision>
    requires x != 0
  {
    var first := if k <= kx then 189 else 217;
    var two := Ac(tbl, 3 * k - 1);
    [Decision(Fixed, if x < 0 then 1 else 0)]
    + (if Abs(x) == 1 then [Decision(two, 0)]
       else if Abs(x) == 2 then [Decision(two, 1), Decision(two, 0)]
       else
         [Decision(two, 1), Decision(two, 1)]
         + Unary(AcArea(tbl), first, n) + LowBits(Ac(tbl, first + 14 + n), n + 1, Abs(x) - 1))
  }

  lemma MagnitudeIs(tbl: int, kx: int, k: int, x: int, n: nat)
    requires x != 0 && (Abs(x) > 2 ==> LeadingAt(Abs(x) - 1, n + 1))
    ensures [Decision(Fixed, SignOf(x))] + AcMagnitude(tbl, 3 * (k - 1) + 2, k, kx, Abs(x) - 1)
      == ValueDecisions(tbl, kx, k, x, n)
  {
    hide Unary, LowBits, Category, Pattern, Pow2;
    if Abs(x) > 2 {
      var v := Abs(x) - 1;
      Pow2Successor(n);
      Pow2Successor(n + 1);
      LeadingUnique(v, n + 1);
      CategoryIs(AcArea(tbl), if k <= kx then 189 else 217, v / 2, n);
      PatternIs(Ac(tbl, (if k <= kx then 189 else 217) + 14 + n), n + 1, v);
    }
  }

  lemma {:induction false} LeadingUnique(v: nat, n: nat)
    requires LeadingAt(v, n)
    ensures Log2(v) == n
    decreases n
  {
    if n > 0 {
      LeadingUnique(v / 2, n - 1);
    }
  }

  /** The position of the leading bit below that of a magnitude of more than two. */
  function CategoryBits(x: int): (n: nat)
    ensures Abs(x) > 2 ==> LeadingAt(Abs(x) - 1, n + 1)
  {
    if Abs(x) > 2 then
      var l := Log2(Abs(x) - 1);
      assert l > 0;
      l - 1
    else 0
  }

  /** The end of the block is asked for at the start of the band and behind every nonzero coefficient, in the
      first bin of the coefficient that follows. */
  function Asked(p: Band, b: Block, k: int): seq<Decision>
    requires 1 <= p.ss <= k < 64
  {
    if k == p.ss || Trunc(b[k - 1], p.al) != 0 then [Decision(Ac(p.tbl, 3 * k - 3), 0)] else []
  }

  /** Whether coefficient k is zero is asked in its second bin. */
  function Answered(p: Band, b: Block, k: int): seq<Decision>
    requires 1 <= k < 64
  {
    var x := Trunc(b[k], p.al);
    if x == 0 then [Decision(Ac(p.tbl, 3 * k - 2), 0)]
    else [Decision(Ac(p.tbl, 3 * k - 2), 1)] + ValueDecisions(p.tbl, p.kx, k, x, CategoryBits(x))
  }

  /** The coefficients from k up to e, and the end of the block if the band goes on. */
  function Onwards(p: Band, b: Block, e: int, k: int): seq<Decision>
    requires ValidBand(p) && p.ss <= k && e < 64
    decreases e - k
  {
    if k <= e then Asked(p, b, k) + Answered(p, b, k) + Onwards(p, b, e, k + 1)
    else if e < p.se then [Decision(Ac(p.tbl, 3 * e), 1)]
    else []
  }

  /** The last coefficient of the band that is not zero, or the one before the band. */
  predicate EndsAt(p: Band, b: Block, e: int)
    requires ValidBand(p)
  {
    && p.ss - 1 <= e <= p.se && (p.ss <= e ==> Trunc(b[e], p.al) != 0)
    && forall i :: e < i <= p.se ==> Trunc(b[i], p.al) == 0
  }

  /** The decisions of a band are those of its coefficients up to the last nonzero one, each coded by itself. */
  lemma BandDecisionsAre(p: Band, b: Block, e: int)
    requires ValidBand(p) && EndsAt(p, b, e)
    ensures BandDecisions(p, b) == Onwards(p, b, e, p.ss)
  {
    hide Trunc;
    var ke := LastNonzero(b, p.al, p.se);
    if e < p.ss {
      assert ke < p.ss;
    } else {
      assert ke == e;
      BandRunIs(p, b, e, p.ss);
      OnwardsStep(p, b, e, p.ss);
    }
  }

  lemma RunStep(p: Band, b: Block, e: int, k: int)
    requires ValidBand(p) && p.ss <= k <= e && EndsAt(p, b, e)
    ensures Trunc(b[k], p.al) == 0 ==> k < e && BandRun(p, b, e, k) == Answered(p, b, k) + BandRun(p, b, e, k + 1)
    ensures Trunc(b[k], p.al) != 0 ==> BandRun(p, b, e, k) == Answered(p, b, k) + BandFrom(p, b, e, k)
  {
    hide Trunc, ValueDecisions, AcMagnitude, BandFrom;
    var x := Trunc(b[k], p.al);
    if x != 0 {
      MagnitudeIs(p.tbl, p.kx, k, x, CategoryBits(x));
      assert [Decision(Ac(p.tbl, 3 * (k - 1) + 1), 1), Decision(Fixed, SignOf(x))]
        == [Decision(Ac(p.tbl, 3 * k - 2), 1)] + [Decision(Fixed, SignOf(x))];
    }
  }

  lemma OnwardsStep(p: Band, b: Block, e: int, k: int)
    requires ValidBand(p) && p.ss <= k <= e < 64
    ensures Onwards(p, b, e, k) == Asked(p, b, k) + (Answered(p, b, k) + Onwards(p, b, e, k + 1))
    ensures k > p.ss && Trunc(b[k - 1], p.al) == 0 ==>
      Onwards(p, b, e, k) == Answered(p, b, k) + Onwards(p, b, e, k + 1)
  {
    hide Trunc, Answered;
  }

  lemma FromStep(p: Band, b: Block, e: int, k: int)
    requires ValidBand(p) && p.ss <= k <= e && EndsAt(p, b, e) && Trunc(b[k], p.al) != 0
    ensures BandFrom(p, b, e, k)
      == if k < e then Asked(p, b, k + 1) + BandRun(p, b, e, k + 1) else Onwards(p, b, e, k + 1)
  {
    hide Trunc, BandRun;
  }

  lemma {:induction false} BandRunIs(p: Band, b: Block, e: int, k: int)
    requires ValidBand(p) && p.ss <= k <= e && EndsAt(p, b, e)
    ensures BandRun(p, b, e, k) == Answered(p, b, k) + Onwards(p, b, e, k + 1)
    decreases e - k
  {
    hide Trunc, Answered, Asked, BandRun, BandFrom, Onwards;
    RunStep(p, b, e, k);
    if Trunc(b[k], p.al) != 0 {
      FromStep(p, b, e, k);
    }
    if k < e {
      BandRunIs(p, b, e, k + 1);
      OnwardsStep(p, b, e, k + 1);
    }
  }

  // ----- AC bands, refinement -----

  /** Coefficient k of a refinement: nothing about the end of the block before coefficient `known`, the last
      that was nonzero before; a bit in its third bin if it was nonzero; else whether it becomes nonzero. */
  function AskedAgain(p: Band, b: Block, known: int, k: int): seq<Decision>
    requires 1 <= p.ss <= k < 64
  {
    if k > known && (k == p.ss || Trunc(b[k - 1], p.al) != 0) then [Decision(Ac(p.tbl, 3 * k - 3), 0)] else []
  }

  function Refined(p: Band, b: Block, k: int): seq<Decision>
    requires 1 <= k < 64
  {
    var x := Trunc(b[k], p.al);
    if x == 0 then [Decision(Ac(p.tbl, 3 * k - 2), 0)]
    else if Abs(x) == 1 then [Decision(Ac(p.tbl, 3 * k - 2), 1), Decision(Fixed, if x < 0 then 1 else 0)]
    else [Decision(Ac(p.tbl, 3 * k - 1), Abs(x) % 2)]
  }

  function OnwardsAgain(p: Band, b: Block, known: int, e: int, k: int): seq<Decision>
    requires ValidBand(p) && p.ss <= k && e < 64
    decreases e - k
  {
    if k <= e then AskedAgain(p, b, known, k) + Refined(p, b, k) + OnwardsAgain(p, b, known, e, k + 1)
    else if e < p.se then [Decision(Ac(p.tbl, 3 * e), 1)]
    else []
  }

  /** The last coefficient up to e that was nonzero one bit higher, 0 if there is none. */
  predicate KnownUpTo(p: Band, b: Block, e: int, known: int)
    requires ValidBand(p) && e < 64
  {
    && 0 <= known && (0 < known ==> known <= e && Trunc(b[known], p.al + 1) != 0)
    && forall i :: known < i <= e ==> Trunc(b[i], p.al + 1) == 0
  }

  /** The ends that the encoder finds. */
  lemma EndsFound(p: Band, b: Block, e: int, known: int)
    requires ValidBand(p) && EndsAt(p, b, e) && KnownUpTo(p, b, e, known)
    ensures var ke := LastNonzero(b, p.al, p.se);
      if e < p.ss then ke < p.ss else ke == e && LastNonzero(b, p.al + 1, ke) == known
  {
    hide Trunc;
  }

  lemma RefineStart(p: Band, b: Block, e: int, known: int)
    requires ValidBand(p) && EndsAt(p, b, e) && KnownUpTo(p, b, e, known)
    ensures RefineDecisions(p, b)
      == if e < p.ss then OnwardsAgain(p, b, known, e, p.ss)
         else AskedAgain(p, b, known, p.ss) + RefineRun(p, b, e, known, p.ss)
  {
    hide Trunc, LastNonzero, RefineRun;
    EndsFound(p, b, e, known);
  }

  /** The decisions of a refinement are those of its coefficients, each coded by itself. */
  lemma RefineDecisionsAre(p: Band, b: Block, e: int, known: int)
    requires ValidBand(p) && EndsAt(p, b, e) && KnownUpTo(p, b, e, known)
    ensures RefineDecisions(p, b) == OnwardsAgain(p, b, known, e, p.ss)
  {
    hide RefineDecisions, Trunc, Refined, RefineRun, OnwardsAgain, AskedAgain;
    RefineStart(p, b, e, known);
    if e >= p.ss {
      RefineRunIs(p, b, e, known, p.ss);
      OnwardsAgainStep(p, b, known, e, p.ss);
    }
  }

  lemma OnwardsAgainStep(p: Band, b: Block, known: int, e: int, k: int)
    requires ValidBand(p) && p.ss <= k <= e < 64
    ensures OnwardsAgain(p, b, known, e, k)
      == AskedAgain(p, b, known, k) + (Refined(p, b, k) + OnwardsAgain(p, b, known, e, k + 1))
    ensures k > p.ss && Trunc(b[k - 1], p.al) == 0 ==>
      OnwardsAgain(p, b, known, e, k) == Refined(p, b, k) + OnwardsAgain(p, b, known, e, k + 1)
  {
    hide Trunc, Refined;
  }

  lemma RefineFromStep(p: Band, b: Block, e: int, known: int, k: int)
    requires ValidBand(p) && p.ss <= k <= e && EndsAt(p, b, e) && Trunc(b[k], p.al) != 0
    ensures RefineFrom(p, b, e, known, k)
      == if k < e then AskedAgain(p, b, known, k + 1) + RefineRun(p, b, e, known, k + 1)
         else OnwardsAgain(p, b, known, e, k + 1)
  {
    hide Trunc, RefineRun;
  }

  lemma {:induction false} RefineRunIs(p: Band, b: Block, e: int, known: int, k: int)
    requires ValidBand(p) && p.ss <= k <= e && EndsAt(p, b, e)
    ensures RefineRun(p, b, e, known, k) == Refined(p, b, k) + OnwardsAgain(p, b, known, e, k + 1)
    decreases e - k
  {
    hide Trunc, Refined, AskedAgain, RefineRun, RefineFrom, OnwardsAgain;
    RefineRunStep(p, b, e, known, k);
    if Trunc(b[k], p.al) != 0 {
      RefineFromStep(p, b, e, known, k);
    }
    if k < e {
      RefineRunIs(p, b, e, known, k + 1);
      OnwardsAgainStep(p, b, known, e, k + 1);
    }
  }

  lemma RefineRunStep(p: Band, b: Block, e: int, known: int, k: int)
    requires ValidBand(p) && p.ss <= k <= e && EndsAt(p, b, e)
    ensures Trunc(b[k], p.al) == 0 ==>
      k < e && RefineRun(p, b, e, known, k) == Refined(p, b, k) + RefineRun(p, b, e, known, k + 1)
    ensures Trunc(b[k], p.al) != 0 ==>
      RefineRun(p, b, e, known, k) == Refined(p, b, k) + RefineFrom(p, b, e, known, k)
  {
    hide Trunc, RefineFrom;
  }
}
