/** Binary decisions for the magnitude of a nonzero value (Figures F.8 and F.9 of ITU-T T.81), and
    their decoding (Figures F.23 and F.24). */
module Magnitude {
  import opened Powers
  import opened Decisions

  /** A statistics area: the bins of one DC or AC table. */
  datatype Area = DcArea(tbl: int) | AcArea(tbl: int) {
    function At(bin: int): Context {
      match this
      case DcArea(tbl) => Dc(tbl, bin)
      case AcArea(tbl) => Ac(tbl, bin)
    }
  }

  /** Position of the leading one bit. */
  function Log2(v: nat): (n: nat)
    ensures v > 0 ==> Pow2(n) <= v < 2 * Pow2(n)
  {
    if v / 2 == 0 then 0 else 1 + Log2(v / 2)
  }

  // ----- encoding -----

  /** The magnitude category in unary, from bin st upwards. */
  function Category(area: Area, st: int, v: nat): seq<Decision>
    decreases v
  {
    if v / 2 == 0 then [Decision(area.At(st), 0)]
    else [Decision(area.At(st), 1)] + Category(area, st + 1, v / 2)
  }

  /** The bits of v below the power of two m, all coded with the same bin. */
  function Pattern(k: Context, m: nat, v: nat): seq<Decision>
    decreases m
  {
    if m / 2 == 0 then [] else [Decision(k, v / (m / 2) % 2)] + Pattern(k, m / 2, v)
  }

  /** A DC magnitude, one less than the absolute value; st is the bin of the sign just coded. */
  function DcMagnitude(tbl: int, st: int, v: nat): seq<Decision> {
    var area := DcArea(tbl);
    if v == 0 then [Decision(area.At(st), 0)]
    else [Decision(area.At(st), 1)] + Category(area, 20, v)
         + Pattern(area.At(20 + Log2(v) + 14), Pow2(Log2(v)), v)
  }

  /** First of the bins for large AC magnitudes, chosen by the conditioning parameter. */
  function LargeBins(k: int, kx: int): int { if k <= kx then 189 else 217 }

  /** An AC magnitude at coefficient index k. */
  function AcMagnitude(tbl: int, st: int, k: int, kx: int, v: nat): seq<Decision> {
    var area := AcArea(tbl);
    if v == 0 then [Decision(area.At(st), 0)]
    else if v / 2 == 0 then [Decision(area.At(st), 1), Decision(area.At(st), 0)]
    else [Decision(area.At(st), 1), Decision(area.At(st), 1)] + Category(area, LargeBins(k, kx), v / 2)
         + Pattern(area.At(LargeBins(k, kx) + Log2(v / 2) + 14), Pow2(Log2(v)), v)
  }

  // ----- decoding -----

  /** The outcome of decoding a category: the power of two reached and the bin it ended in, or an
      overflow of the magnitude. */
  datatype CategoryRead<D> = Reached(m: nat, st: int, d: D) | TooLarge(d: D)

  function ReadCategory<D>(step: Step<D>, d: D, area: Area, st: int, m: nat): CategoryRead<D>
    requires 0 < m < 0x8000
    decreases 0x8000 - m
  {
    var (bit, n) := step(d, area.At(st));
    if bit == 0 then Reached(m, st, n)
    else if 2 * m >= 0x8000 then TooLarge(n)
    else ReadCategory(step, n, area, st + 1, 2 * m)
  }

  function ReadPattern<D>(step: Step<D>, d: D, k: Context, m: nat, v: nat): (nat, D)
    decreases m
  {
    if m / 2 == 0 then (v, d)
    else
      var (bit, n) := step(d, k);
      ReadPattern(step, n, k, m / 2, if bit == 1 then v + m / 2 else v)
  }

  /** A decoded magnitude, with the category the DC conditioning looks at, or an overflow. */
  datatype MagnitudeRead<D> = Value(v: nat, m: nat, d: D) | Overflow(d: D)

  function ReadDcMagnitude<D>(step: Step<D>, d: D, tbl: int, st: int): MagnitudeRead<D> {
    var area := DcArea(tbl);
    var (bit, n) := step(d, area.At(st));
    if bit == 0 then Value(0, 0, n)
    else match ReadCategory(step, n, area, 20, 1)
      case TooLarge(n1) => Overflow(n1)
      case Reached(m, st1, n1) =>
        var (v, n2) := ReadPattern(step, n1, area.At(st1 + 14), m, m);
        Value(v, m, n2)
  }

  function ReadAcMagnitude<D>(step: Step<D>, d: D, tbl: int, st: int, k: int, kx: int): MagnitudeRead<D> {
    var area := AcArea(tbl);
    var (bit, n) := step(d, area.At(st));
    if bit == 0 then Value(0, 0, n)
    else
      var (again, n1) := step(n, area.At(st));
      if again == 0 then Value(1, 1, n1)
      else match ReadCategory(step, n1, area, LargeBins(k, kx), 2)
        case TooLarge(n2) => Overflow(n2)
        case Reached(m, st1, n2) =>
          var (v, n3) := ReadPattern(step, n2, area.At(st1 + 14), m, m);
          Value(v, m, n3)
  }

  // ----- round trip -----

  /** The decoder follows the unary category, and gives up exactly when it passes 2^14. */
  lemma {:induction false} CategoryRoundTrip<D>(step: Step<D>, d: D, area: Area, st: int, j: nat, v: nat)
    requires j <= 14 && Yields(step, d, Category(area, st, v))
    ensures 0 < Pow2(j) < 0x8000
    ensures var r := ReadCategory(step, d, area, st, Pow2(j));
      if j + Log2(v) <= 14 then
        r == Reached(Pow2(j + Log2(v)), st + Log2(v), After(step, d, Category(area, st, v)))
      else r.TooLarge?
    decreases v
  {
    SmallPowers(j);
    var ds := Category(area, st, v);
    var n := step(d, area.At(st)).1;
    if v / 2 == 0 {
      assert After(step, d, ds) == After(step, n, []);
    } else {
      assert ds[1..] == Category(area, st + 1, v / 2);
      if j < 14 {
        CategoryRoundTrip(step, n, area, st + 1, j + 1, v / 2);
      }
    }
  }

  lemma SmallPowers(j: nat)
    requires j <= 14
    ensures 0 < Pow2(j) < 0x8000
    ensures Pow2(j + 1) == 2 * Pow2(j)
    ensures j < 14 <==> 2 * Pow2(j) < 0x8000
  {
    hide Pow2;
    Pow2Successor(j);
    Pow2Monotone(j, 14);
    Pow2Values();
    if j < 14 {
      Pow2Monotone(j, 13);
    }
  }

  /** v with its bits below the power of two m cleared. */
  function Above(v: nat, m: nat): nat
    requires m > 0
  {
    v / m * m
  }

  /** With the bits of v above m read, the pattern supplies the rest. */
  lemma {:induction false} PatternRoundTrip<D>(step: Step<D>, d: D, k: Context, j: nat, v: nat)
    requires Yields(step, d, Pattern(k, Pow2(j), v))
    ensures ReadPattern(step, d, k, Pow2(j), Above(v, Pow2(j))) == (v, After(step, d, Pattern(k, Pow2(j), v)))
    decreases j
  {
    hide Pow2, Above;
    var m := Pow2(j);
    if j == 0 {
      Pow2Zero();
      AboveOne(v);
    } else {
      var h := Pow2(j - 1);
      Pow2Successor(j - 1);
      assert m / 2 == h;
      SplitBit(v, h);
      assert Pattern(k, m, v)[1..] == Pattern(k, h, v);
      PatternRoundTrip(step, step(d, k).1, k, j - 1, v);
    }
  }

  lemma AboveOne(v: nat)
    ensures Above(v, 1) == v
  {
  }

  /** One more bit known. */
  lemma SplitBit(v: nat, h: nat)
    requires h > 0
    ensures Above(v, h) == Above(v, 2 * h) + (if v / h % 2 == 1 then h else 0)
    ensures 0 <= v / h % 2 <= 1
  {
    var q, r := v / h, v % h;
    var q2, b := q / 2, q % 2;
    SplitProduct(h, q, q2, b);
    var low := if b == 1 then h + r else r;
    assert v == (2 * h) * q2 + low;
    Remainder(v, 2 * h, q2, low);
  }

  lemma SplitProduct(h: int, q: int, q2: int, b: int)
    requires q == 2 * q2 + b && 0 <= b <= 1
    ensures h * q == (2 * h) * q2 + (if b == 1 then h else 0)
  {
    var t := 2 * q2;
    assert h * t == (2 * h) * q2 by { MoveTwo(h, q2); }
    if b == 1 {
      assert h * (t + 1) == h * t + h;
    }
  }

  lemma MoveTwo(h: int, n: int)
    ensures h * (2 * n) == (2 * h) * n
  {
  }

  lemma Log2Limit(v: nat)
    requires v > 0
    ensures Log2(v) <= 14 <==> v < 0x8000
  {
    hide Pow2;
    Pow2Values();
    Pow2Successor(14);
    if Log2(v) <= 14 {
      Pow2Monotone(Log2(v), 14);
    } else {
      Pow2Monotone(15, Log2(v));
    }
  }

  /** The category of a magnitude, as the DC conditioning sees it. */
  function CategoryOf(v: nat): nat { if v == 0 then 0 else Pow2(Log2(v)) }

  /** A category followed by the bit pattern: the decoder recovers v exactly when it is below
      2^15, and reports an overflow otherwise. */
  lemma BodyRoundTrip<D>(step: Step<D>, d: D, area: Area, st: int, j: nat, w: nat, v: nat)
    requires v > 0 && j <= 14 && Log2(v) == j + Log2(w)
    requires Yields(step, d,
      Category(area, st, w) + Pattern(area.At(st + Log2(w) + 14), Pow2(Log2(v)), v))
    ensures 0 < Pow2(j) < 0x8000
    ensures var k := area.At(st + Log2(w) + 14);
      var ds := Category(area, st, w) + Pattern(k, Pow2(Log2(v)), v);
      var r := ReadCategory(step, d, area, st, Pow2(j));
      if v < 0x8000 then
        && r.Reached? && r.m == Pow2(Log2(v)) && r.st == st + Log2(w)
        && ReadPattern(step, r.d, k, r.m, r.m) == (v, After(step, d, ds))
      else r.TooLarge?
  {
    hide Pow2, Above, Category, Pattern, ReadCategory, ReadPattern;
    var k := area.At(st + Log2(w) + 14);
    Split(step, d, Category(area, st, w), Pattern(k, Pow2(Log2(v)), v));
    CategoryRoundTrip(step, d, area, st, j, w);
    Log2Limit(v);
    if v < 0x8000 {
      LeadingBit(v);
      PatternRoundTrip(step, After(step, d, Category(area, st, w)), k, Log2(v), v);
    }
  }

  lemma LeadingBit(v: nat)
    requires v > 0
    ensures Above(v, Pow2(Log2(v))) == Pow2(Log2(v))
  {
    hide Pow2;
    var m := Pow2(Log2(v));
    Remainder(v, m, 1, v - m);
  }

  /** DC magnitudes round-trip exactly when they are below 2^15. */
  lemma DcMagnitudeRoundTrip<D>(step: Step<D>, d: D, tbl: int, st: int, v: nat)
    requires Yields(step, d, DcMagnitude(tbl, st, v))
    ensures var r := ReadDcMagnitude(step, d, tbl, st);
      if v < 0x8000 then r == Value(v, CategoryOf(v), After(step, d, DcMagnitude(tbl, st, v)))
      else r.Overflow?
  {
    hide Category, Pattern, ReadCategory, ReadPattern, Log2;
    var ds := DcMagnitude(tbl, st, v);
    var n := step(d, Dc(tbl, st)).1;
    if v == 0 {
      assert After(step, d, ds) == After(step, n, []);
    } else {
      var tail := Category(DcArea(tbl), 20, v) + Pattern(Dc(tbl, 20 + Log2(v) + 14), Pow2(Log2(v)), v);
      assert ds[1..] == tail;
      Pow2Zero();
      BodyRoundTrip(step, n, DcArea(tbl), 20, 0, v, v);
    }
  }

  /** AC magnitudes round-trip exactly when they are below 2^15. */
  lemma AcMagnitudeRoundTrip<D>(step: Step<D>, d: D, tbl: int, st: int, k: int, kx: int, v: nat)
    requires Yields(step, d, AcMagnitude(tbl, st, k, kx, v))
    ensures var r := ReadAcMagnitude(step, d, tbl, st, k, kx);
      if v < 0x8000 then r == Value(v, CategoryOf(v), After(step, d, AcMagnitude(tbl, st, k, kx, v)))
      else r.Overflow?
  {
    hide Category, Pattern, ReadCategory, ReadPattern;
    var ds := AcMagnitude(tbl, st, k, kx, v);
    var n := step(d, Ac(tbl, st)).1;
    if v == 0 {
      assert After(step, d, ds) == After(step, n, []);
    } else {
      var n1 := step(n, Ac(tbl, st)).1;
      Pow2Zero();
      if v / 2 == 0 {
        assert After(step, d, ds) == After(step, n, ds[1..]) == After(step, n1, ds[1..][1..]);
        assert v == 1 && Log2(v) == 0;
      } else {
        var x := LargeBins(k, kx);
        var tail := Category(AcArea(tbl), x, v / 2) + Pattern(Ac(tbl, x + Log2(v / 2) + 14), Pow2(Log2(v)), v);
        assert ds[1..][1..] == tail;
        assert Log2(v) == 1 + Log2(v / 2);
        Pow2Successor(0);
        BodyRoundTrip(step, n1, AcArea(tbl), x, 1, v / 2, v);
      }
    }
  }

  // ----- the bins used -----

  ghost predicate AllStandard(ds: seq<Decision>) { forall i :: 0 <= i < |ds| ==> Standard(ds[i].ctx) }

  lemma StandardConcat(a: seq<Decision>, b: seq<Decision>)
    ensures AllStandard(a + b) <==> AllStandard(a) && AllStandard(b)
  {
    hide Standard;
    assert forall i :: 0 <= i < |a| ==> (a + b)[i] == a[i];
    assert forall i :: 0 <= i < |b| ==> (a + b)[|a| + i] == b[i];
  }

  lemma {:induction false} CategoryBins(area: Area, st: int, v: nat)
    requires 0 <= st && 0 <= area.tbl < 16
    ensures AllStandard(Category(area, st, v)) <==> Standard(area.At(st + Log2(v)))
    decreases v
  {
    hide AllStandard;
    AloneStandard(Decision(area.At(st), 0));
    AloneStandard(Decision(area.At(st), 1));
    if v / 2 != 0 {
      CategoryBins(area, st + 1, v / 2);
      StandardConcat([Decision(area.At(st), 1)], Category(area, st + 1, v / 2));
    }
  }

  lemma AloneStandard(d: Decision)
    ensures AllStandard([d]) <==> Standard(d.ctx)
  {
    assert [d][0] == d;
  }

  lemma {:induction false} PatternBins(k: Context, m: nat, v: nat)
    ensures AllStandard(Pattern(k, m, v)) <==> m / 2 == 0 || Standard(k)
    decreases m
  {
    hide Standard, AllStandard;
    if m / 2 == 0 {
      NoneStandard();
    } else {
      PatternBins(k, m / 2, v);
      AloneStandard(Decision(k, v / (m / 2) % 2));
      StandardConcat([Decision(k, v / (m / 2) % 2)], Pattern(k, m / 2, v));
    }
  }

  lemma NoneStandard()
    ensures AllStandard([])
  {
  }

  /** The bins of a category and the bits below it are standard if the last of them is. */
  lemma BodyBins(area: Area, x: int, w: nat, v: nat)
    requires 0 <= x && 0 <= area.tbl < 16
    ensures Standard(area.At(x + Log2(w) + 14)) ==>
      AllStandard(Category(area, x, w)) && AllStandard(Pattern(area.At(x + Log2(w) + 14), Pow2(Log2(v)), v))
    ensures !Standard(area.At(x + Log2(w) + 14)) && Log2(v) > 0 ==>
      !AllStandard(Pattern(area.At(x + Log2(w) + 14), Pow2(Log2(v)), v))
  {
    hide AllStandard, Category, Pattern;
    CategoryBins(area, x, w);
    PatternBins(area.At(x + Log2(w) + 14), Pow2(Log2(v)), v);
  }

  /** A DC magnitude keeps to the standard's bins just when the difference is at most 32768. */
  lemma DcBins(tbl: int, st: int, v: nat)
    requires 0 <= tbl < 16 && 0 <= st < 20
    ensures AllStandard(DcMagnitude(tbl, st, v)) <==> v < 0x8000
  {
    hide AllStandard, Category, Pattern, Log2, Pow2;
    var area := DcArea(tbl);
    AloneStandard(Decision(area.At(st), 0));
    AloneStandard(Decision(area.At(st), 1));
    if v > 0 {
      Pow2Values();
      WithinBits(v, 15);
      Log2Positive(v);
      BodyBins(area, 20, v, v);
      var category, pattern := Category(area, 20, v), Pattern(area.At(20 + Log2(v) + 14), Pow2(Log2(v)), v);
      StandardConcat([Decision(area.At(st), 1)], category);
      StandardConcat([Decision(area.At(st), 1)] + category, pattern);
    }
  }

  /** An AC magnitude keeps to the standard's bins if it is less than 32768, and at high frequencies only then. */
  lemma AcBins(tbl: int, st: int, k: int, kx: int, v: nat)
    requires 0 <= tbl < 16 && 0 <= st <= 188
    ensures v < 0x8000 ==> AllStandard(AcMagnitude(tbl, st, k, kx, v))
    ensures k > kx ==> (AllStandard(AcMagnitude(tbl, st, k, kx, v)) <==> v < 0x8000)
  {
    hide AllStandard, Category, Pattern, Log2, Pow2;
    var area := AcArea(tbl);
    var zero, one := [Decision(area.At(st), 0)], [Decision(area.At(st), 1)];
    AloneStandard(Decision(area.At(st), 0));
    AloneStandard(Decision(area.At(st), 1));
    StandardConcat(one, zero);
    assert one + zero == [Decision(area.At(st), 1), Decision(area.At(st), 0)];
    if v / 2 > 0 {
      LargeAcBins(tbl, st, k, kx, v);
    }
  }

  lemma LargeAcBins(tbl: int, st: int, k: int, kx: int, v: nat)
    requires 0 <= tbl < 16 && 0 <= st <= 188 && v >= 2
    ensures v < 0x8000 ==> AllStandard(AcMagnitude(tbl, st, k, kx, v))
    ensures k > kx ==> (AllStandard(AcMagnitude(tbl, st, k, kx, v)) <==> v < 0x8000)
  {
    hide AllStandard, Category, Pattern, Log2, Pow2;
    var area, x := AcArea(tbl), LargeBins(k, kx);
    var one := [Decision(area.At(st), 1)];
    var ones := one + one;
    AloneStandard(Decision(area.At(st), 1));
    StandardConcat(one, one);
    assert ones == [Decision(area.At(st), 1), Decision(area.At(st), 1)];
    Pow2Values();
    WithinBits(v / 2, 14);
    Log2Positive(v);
    BodyBins(area, x, v / 2, v);
    var category, pattern := Category(area, x, v / 2), Pattern(area.At(x + Log2(v / 2) + 14), Pow2(Log2(v)), v);
    StandardConcat(ones, category);
    StandardConcat(ones + category, pattern);
  }

  lemma {:induction false} WithinBits(v: nat, n: nat)
    requires v > 0
    ensures v < Pow2(n) <==> Log2(v) < n
    decreases n
  {
    if n > 0 && v / 2 > 0 {
      WithinBits(v / 2, n - 1);
    }
  }

  lemma Log2Positive(v: nat)
    ensures Log2(v) > 0 <==> v >= 2
  {
  }
}
