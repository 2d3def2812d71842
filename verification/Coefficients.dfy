/** Coefficient blocks and the point transforms of progressive coding. */
module Coefficients {
  import opened Powers

  /** A coefficient is a 16-bit signed integer. */
  type Coef = x: int | -0x8000 <= x < 0x8000

  /** A block of 64 coefficients, indexed in zigzag order. */
  type Block = b: seq<Coef> | |b| == 64 witness seq(64, _ => 0)

  type Mcu = seq<Block>

  /** Conversion to 16 bits. */
  function ToCoef(x: int): Coef { (x + 0x8000) % 0x1_0000 - 0x8000 }

  function Abs(x: int): nat { if x < 0 then -x else x }

  /** The point transform of AC coefficients: division by 2^al, rounding towards zero. */
  function Trunc(x: int, al: nat): int {
    if x >= 0 then x / Pow2(al) else -((-x) / Pow2(al))
  }

  /** The point transform of DC coefficients: an arithmetic right shift. */
  function Shift(x: int, al: nat): int { x / Pow2(al) }

  /** What a decoder makes of a coefficient sent down to bit al. */
  function AcLevel(x: Coef, al: nat): (y: Coef) {
    LevelBound(x, al);
    Trunc(x, al) * Pow2(al)
  }

  function DcLevel(x: Coef, al: nat): (y: int) { Shift(x, al) * Pow2(al) }

  lemma QuotientProduct(x: int, p: int)
    requires p > 0
    ensures x - p < x / p * p <= x
  {
    var q := x / p;
    assert x == p * q + x % p;
  }

  lemma LevelBound(x: Coef, al: nat)
    ensures -0x8000 <= Trunc(x, al) * Pow2(al) < 0x8000
    ensures Abs(Trunc(x, al)) <= Abs(x)
    ensures Trunc(x, al) != 0 ==> (Trunc(x, al) < 0 <==> x < 0)
  {
    hide Pow2;
    var p := Pow2(al);
    var a := Abs(x);
    QuotientProduct(a, p);
    QuotientBelow(a, p);
    if x < 0 {
      Negated(a / p, p);
    }
  }

  lemma QuotientBelow(a: nat, p: int)
    requires p > 0
    ensures 0 <= a / p <= a && 0 <= a / p * p
  {
    var q := a / p;
    assert a == p * q + a % p;
    if q > 0 { Grow(p, q); }
  }

  lemma Grow(p: int, q: int)
    requires p >= 1 && q >= 1
    ensures p * q >= q && p * q >= p
  {
  }

  lemma ShiftRange(x: Coef, al: nat)
    ensures -0x8000 <= Shift(x, al) < 0x8000
  {
    hide Pow2;
    ShiftBy(x, Pow2(al));
  }

  lemma ShiftBy(x: Coef, p: int)
    requires p > 0
    ensures -0x8000 <= x / p < 0x8000
  {
    var q := x / p;
    assert x == p * q + x % p && 0 <= x % p < p;
    if q >= 1 {
      Grow(p, q);
    } else if q <= -1 {
      ShiftDown(p, q, x);
    }
  }

  lemma ShiftDown(p: int, q: int, x: int)
    requires p >= 1 && q <= -1 && x < p * q + p && -0x8000 <= x
    ensures -0x8000 <= q
  {
    if q < -1 {
      Grow(p, -q - 1);
      assert p * (-q - 1) == -(p * q) - p;
    }
  }

  lemma Negated(q: int, p: int)
    ensures (-q) * p == -(q * p)
  {
  }

  /** Levels 0 are exact. */
  lemma LevelZero(x: Coef)
    ensures AcLevel(x, 0) == x && DcLevel(x, 0) == x
  {
    hide Pow2;
    Pow2Zero();
  }
}
