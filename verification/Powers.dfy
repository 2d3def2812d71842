/** Bits, powers of two, the scale of every shift in the coders, and quotients. */
module Powers {
  type Bit = b: int | 0 <= b <= 1

  function Pow2(n: nat): (p: nat)
    ensures p > 0
  {
    if n == 0 then 1 else 2 * Pow2(n - 1)
  }

  lemma Pow2Zero()
    ensures Pow2(0) == 1
  {
  }

  lemma Pow2Successor(n: nat)
    ensures Pow2(n + 1) == 2 * Pow2(n)
  {
  }

  lemma Pow2Plus8(n: nat)
    ensures Pow2(n + 8) == 256 * Pow2(n)
  {
    assert Pow2(n + 2) == 2 * Pow2(n + 1);
    assert Pow2(n + 4) == 2 * Pow2(n + 3);
    assert Pow2(n + 6) == 2 * Pow2(n + 5);
    assert Pow2(n + 8) == 2 * Pow2(n + 7);
  }

  lemma {:induction false} Pow2Sum(m: nat, n: nat)
    ensures Pow2(m + n) == Pow2(m) * Pow2(n)
  {
    if m > 0 {
      Pow2Sum(m - 1, n);
      assert Pow2(m + n) == 2 * Pow2(m - 1 + n);
      Associate(2, Pow2(m - 1), Pow2(n));
    }
  }

  lemma Associate(x: int, y: int, z: int)
    ensures (x * y) * z == x * (y * z)
  {
  }

  lemma {:induction false} Pow2Monotone(m: nat, n: nat)
    requires m <= n
    ensures Pow2(m) <= Pow2(n)
    decreases n
  {
    if m < n {
      Pow2Monotone(m, n - 1);
    }
  }

  /** The powers that occur as constants. */
  lemma Pow2Values()
    ensures Pow2(27) == 0x800_0000 && Pow2(24) == 0x100_0000
    ensures Pow2(19) == 0x8_0000 && Pow2(16) == 0x1_0000 && Pow2(11) == 0x800
    ensures Pow2(13) == 0x2000 && Pow2(14) == 0x4000 && Pow2(15) == 0x8000
  {
    assert Pow2(3) == 8;
    Pow2Plus8(0);
    Pow2Plus8(3);
    Pow2Plus8(8);
    Pow2Plus8(11);
    Pow2Plus8(16);
    Pow2Plus8(19);
  }

  lemma Pow2Eight()
    ensures Pow2(8) == 256 && Pow2(24) == 0x100_0000
  {
    Pow2Plus8(0);
    Pow2Plus8(8);
    Pow2Plus8(16);
  }

  lemma AtMost(x: int, y: int, p: nat)
    requires x <= y
    ensures x * p <= y * p
  {
  }

  /** Quotient and remainder are unique. */
  lemma Remainder(n: int, h: int, q: int, r: int)
    requires h > 0 && n == h * q + r && 0 <= r < h
    ensures n % h == r && n / h == q
  {
    var d := n / h - q;
    assert n == h * (n / h) + n % h;
    assert h * (n / h) - h * q == h * d;
    if d >= 1 {
      AtMost(1, d, h);
    } else if d <= -1 {
      AtMost(d, -1, h);
    }
  }

  lemma CancelCommon(x: int, y: int, s: int)
    requires s > 0 && x * s == y * s
    ensures x == y
  {
  }
}
