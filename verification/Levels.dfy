/** What the levels of a coefficient are: AC coefficients are cut off towards zero, DC coefficients towards
    minus infinity, and each refinement adds one bit (section G.1.2.1 of ITU-T T.81). */
module Levels {
  import opened Powers
  import opened Coefficients
  import opened BlockRefinement

  /** The AC level is the multiple of 2^al nearest to the coefficient on the side of zero. */
  lemma AcLevelIs(x: Coef, al: nat)
    ensures var y := AcLevel(x, al);
      y % Pow2(al) == 0 && (if x >= 0 then 0 <= y <= x < y + Pow2(al) else y - Pow2(al) < x <= y <= 0)
  {
    hide Pow2;
    var p := Pow2(al);
    var m: int := if x >= 0 then x else 0 - x;
    Floor(m, p);
    QuotientNonnegative(m, p);
    MultipleNonnegative(m / p, p);
    Negated(m / p, p);
    Multiple(-(m / p), p);
  }

  lemma Floor(x: int, p: int)
    requires p > 0
    ensures x / p * p <= x < x / p * p + p && (x / p * p) % p == 0
  {
    Multiple(x / p, p);
  }

  lemma Multiple(q: int, p: int)
    requires p > 0
    ensures q * p % p == 0
  {
    Remainder(q * p, p, q, 0);
  }

  /** The DC level is the greatest multiple of 2^al up to the coefficient. */
  lemma DcLevelIs(x: Coef, al: nat)
    ensures var y := DcLevel(x, al);
      y % Pow2(al) == 0 && y <= x < y + Pow2(al)
  {
    hide Pow2;
    Floor(x, Pow2(al));
  }

  /** One more bit of a DC coefficient. */
  lemma DcOneBit(x: Coef, al: nat)
    ensures DcLevel(x, al) == DcLevel(x, al + 1) + BitOf(x, al) * Pow2(al)
    ensures BitOf(x, al) == x / Pow2(al) % 2
  {
    var p := Pow2(al);
    hide Pow2;
    Pow2Successor(al);
    Halved(x, p);
  }

  lemma Halved(x: int, p: int)
    requires p > 0
    ensures x / p * p == x / (2 * p) * (2 * p) + x / p % 2 * p
  {
    var q, r := x / p, x % p;
    var h, b := q / 2, q % 2;
    Twice(h, b, p);
    assert x == h * (2 * p) + (b * p + r);
    Regrouped(h, p);
    Remainder(x, 2 * p, h, b * p + r);
  }

  lemma Twice(h: int, b: int, p: int)
    requires 0 <= b <= 1
    ensures (2 * h + b) * p == h * (2 * p) + b * p
    ensures b * p == if b == 0 then 0 else p
  {
  }

  lemma Regrouped(h: int, p: int)
    ensures h * (2 * p) == (2 * p) * h
  {
  }

  /** One more bit of the magnitude of an AC coefficient; its sign does not change once it is nonzero. */
  lemma AcOneBit(x: Coef, al: nat)
    ensures Abs(AcLevel(x, al)) == Abs(AcLevel(x, al + 1)) + Abs(Trunc(x, al)) % 2 * Pow2(al)
    ensures AcLevel(x, al + 1) != 0 ==> (AcLevel(x, al) < 0 <==> AcLevel(x, al + 1) < 0)
    ensures Abs(Trunc(x, al)) == Abs(x) / Pow2(al)
  {
    var p := Pow2(al);
    hide Pow2;
    Pow2Successor(al);
    AbsLevel(x, al);
    AbsLevel(x, al + 1);
    Halved(Abs(x), p);
    AcLevelIs(x, al);
    AcLevelIs(x, al + 1);
    Floor(Abs(x), p);
    Floor(Abs(x), 2 * p);
    BitTimes(Abs(x) / p % 2, p);
  }

  lemma BitTimes(b: int, p: int)
    requires 0 <= b <= 1 && 0 < p
    ensures 0 <= b * p
  {
  }

  lemma AbsLevel(x: Coef, al: nat)
    ensures Abs(Trunc(x, al)) == Abs(x) / Pow2(al) && Abs(AcLevel(x, al)) == Abs(x) / Pow2(al) * Pow2(al)
  {
    hide Pow2;
    var p := Pow2(al);
    QuotientNonnegative(Abs(x), p);
    Negated(Abs(x) / p, p);
    MultipleNonnegative(Abs(x) / p, p);
  }

  lemma QuotientNonnegative(x: nat, p: int)
    requires p > 0
    ensures x / p >= 0
  {
  }

  lemma MultipleNonnegative(q: int, p: int)
    requires q >= 0 && p > 0
    ensures q * p >= 0
  {
  }
}
