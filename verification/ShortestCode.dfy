/** Why a segment ends as it does: among the values of the final interval the one with the most trailing zero
    bits needs the fewest bytes. */
module ShortestCode {
  import opened Powers
  import opened ByteStream
  import opened IntervalCoder

  /** P lies in the interval, at its scale, and is its multiple of 65536 if it has one. */
  ghost predicate MostAligned(point: int, e: Coder) {
    && e.low <= point < e.low + e.width && point % 0x8000 == 0
    && forall z :: e.low <= z < e.low + e.width && z % 0x1_0000 == 0 ==> z == point
  }

  /** The bytes denote that point, at the scale of so many shifts. */
  ghost predicate Denotes(p: seq<byte>, point: int, shifts: nat) {
    65536.0 * Fraction(p) * Pow2(shifts) as real == point as real
  }

  /** No byte string that denotes a value of the interval is shorter. */
  ghost predicate Shortest(p: seq<byte>, e: Coder) {
    forall q :: Contains(65536.0 * Fraction(q), e) ==> |p| <= |q|
  }

  lemma Inside(p: seq<byte>, point: int, e: Coder)
    requires Denotes(p, point, e.shifts) && e.low <= point < e.low + e.width
    ensures Contains(65536.0 * Fraction(p), e)
  {
    hide Fraction, Pow2;
  }

  lemma SameFraction(p: seq<byte>, q: seq<byte>, point: int, shifts: nat)
    requires Denotes(p, point, shifts) && Fraction(p) == Fraction(q)
    ensures Denotes(q, point, shifts)
  {
    hide Fraction, Pow2;
  }

  /** The value of bytes at a scale that has room for all of them. */
  lemma CoarseValue(p: seq<byte>, shifts: nat)
    requires 8 * |p| <= 16 + shifts
    ensures Denotes(p, ToNat(p) * Pow2(16 + shifts - 8 * |p|), shifts)
  {
    hide ToNat, Pow2;
    var w, t := Pow2(8 * |p|), Pow2(16 + shifts - 8 * |p|);
    Pow2Sum(8 * |p|, 16 + shifts - 8 * |p|);
    Pow2Sum(16, shifts);
    Pow2Values();
    Rescaled(ToNat(p), w, Pow2(shifts), t);
  }

  lemma Rescaled(y: int, w: int, s: int, t: int)
    requires w > 0 && w * t == 65536 * s
    ensures 65536.0 * (y as real / w as real) * s as real == (y * t) as real
  {
    var q := y as real / w as real;
    assert q * w as real == y as real;
    assert (w * t) as real == w as real * t as real && (65536 * s) as real == 65536.0 * s as real;
    Regrouped(q, w as real, s as real, t as real);
  }

  lemma Regrouped(q: real, w: real, s: real, t: real)
    requires w * t == 65536.0 * s
    ensures 65536.0 * q * s == q * w * t
  {
    assert q * (w * t) == q * (65536.0 * s);
  }

  /** And at a scale that has not. */
  lemma FineValue(p: seq<byte>, shifts: nat, point: int)
    requires 16 + shifts < 8 * |p| && Denotes(p, point, shifts)
    ensures ToNat(p) == point * Pow2(8 * |p| - 16 - shifts)
  {
    hide ToNat, Pow2;
    var w, t := Pow2(8 * |p|), Pow2(8 * |p| - 16 - shifts);
    Pow2Sum(16, shifts);
    Pow2Sum(16 + shifts, 8 * |p| - 16 - shifts);
    Pow2Values();
    assert w == 65536 * Pow2(shifts) * t;
    Unscaled(ToNat(p), w, Pow2(shifts), t, point);
  }

  lemma Unscaled(y: int, w: int, s: int, t: int, point: int)
    requires w > 0 && w == 65536 * s * t && 65536.0 * (y as real / w as real) * s as real == point as real
    ensures y == point * t
  {
    var q := y as real / w as real;
    assert q * w as real == y as real;
    assert w as real == 65536.0 * s as real * t as real;
    assert q * (65536.0 * s as real * t as real) == 65536.0 * q * s as real * t as real;
    assert (point * t) as real == point as real * t as real;
  }

  /** A multiple of 256 times a power. */
  lemma Powers256(k: int, n: nat)
    requires 8 <= n
    ensures (k * Pow2(n)) % 256 == 0
  {
    hide Pow2;
    Pow2Sum(8, n - 8);
    Pow2Eight();
    assert k * Pow2(n) == k * Pow2(n - 8) * 256;
    Remainder((k * Pow2(n - 8)) * 256, 256, k * Pow2(n - 8), 0);
  }

  /** Data that do not end in a zero byte are no multiple of 256. */
  lemma NotMultiple(p: seq<byte>)
    requires p != [] && p[|p| - 1] != 0
    ensures ToNat(p) % 256 != 0
  {
  }

  /** Data without a trailing zero byte that denote an aligned point end well before the scale does. */
  lemma EndsEarly(p: seq<byte>, point: int, e: Coder)
    requires p != [] && p[|p| - 1] != 0 && point % 0x8000 == 0 && Denotes(p, point, e.shifts)
    ensures 8 * |p| <= 16 + e.shifts - 8
  {
    hide ToNat, Pow2, Fraction;
    NotMultiple(p);
    var k := point / 0x8000;
    assert point == k * 0x8000;
    Pow2Values();
    if 8 * |p| > 16 + e.shifts {
      var n := 8 * |p| - 16 - e.shifts;
      FineValue(p, e.shifts, point);
      Pow2Sum(15, n);
      assert k * 0x8000 * Pow2(n) == k * Pow2(15 + n);
      Powers256(k, 15 + n);
    } else if 8 * |p| > 16 + e.shifts - 8 {
      var n := 16 + e.shifts - 8 * |p|;
      CoarseValue(p, e.shifts);
      Pow2Sum(15 - n, n);
      assert ToNat(p) * Pow2(n) == k * Pow2(15 - n) * Pow2(n);
      CancelCommon(ToNat(p), k * Pow2(15 - n), Pow2(n));
      Powers256(k, 15 - n);
    }
  }

  /** A byte string that denotes another value of the interval is no shorter. */
  lemma ShortestData(e: Coder, p: seq<byte>, point: int, q: seq<byte>)
    requires MostAligned(point, e) && Denotes(p, point, e.shifts) && (p == [] || p[|p| - 1] != 0)
    requires Contains(65536.0 * Fraction(q), e)
    ensures |p| <= |q|
  {
    hide ToNat, Pow2, Fraction;
    if |q| < |p| {
      EndsEarly(p, point, e);
      var n, m := 16 + e.shifts - 8 * |p|, 16 + e.shifts - 8 * |q|;
      CoarseValue(q, e.shifts);
      CoarseValue(p, e.shifts);
      var other := ToNat(q) * Pow2(m);
      ManyZeros(ToNat(q), m);
      assert other == point;
      Pow2Sum(m - n, n);
      assert ToNat(q) * Pow2(m) == ToNat(q) * Pow2(m - n) * Pow2(n);
      CancelCommon(ToNat(p), ToNat(q) * Pow2(m - n), Pow2(n));
      Powers256(ToNat(q), m - n);
      NotMultiple(p);
    }
  }

  /** Data that denote the most aligned point, without a trailing zero byte, are the shortest there are. */
  lemma ShortestOfAll(e: Coder, p: seq<byte>, point: int)
    requires MostAligned(point, e) && Denotes(p, point, e.shifts) && (p == [] || p[|p| - 1] != 0)
    ensures Shortest(p, e)
  {
    hide Contains, Fraction, MostAligned, Denotes;
    forall q | Contains(65536.0 * Fraction(q), e)
      ensures |p| <= |q|
    {
      ShortestData(e, p, point, q);
    }
  }

  lemma ManyZeros(k: int, m: nat)
    requires 16 <= m
    ensures (k * Pow2(m)) % 0x1_0000 == 0
  {
    hide Pow2;
    Pow2Sum(16, m - 16);
    Pow2Values();
    assert k * Pow2(m) == k * Pow2(m - 16) * 0x1_0000;
    Remainder((k * Pow2(m - 16)) * 0x1_0000, 0x1_0000, k * Pow2(m - 16), 0);
  }
}
