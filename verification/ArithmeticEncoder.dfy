/** The register-level arithmetic encoder: a 28-bit code register whose carries are resolved
    lazily over stacked 0xFF bytes and pending zero bytes. */
module ArithmeticEncoder {
  import opened Powers
  import opened ProbabilityTable
  import opened Decisions
  import opened IntervalCoder
  import opened ByteStream
  import opened ShortestCode

  // ----- what the registers mean -----

  /** The bytes decided on so far, written or not: data bytes already written, pending zeros, the
      buffered byte, and the stacked 0xFF bytes behind it. */
  ghost function Pending(plain: seq<byte>, zc: nat, buffer: int, sc: nat): seq<byte>
    requires -1 <= buffer < 256
  {
    plain + Repeat(0, zc) + (if buffer >= 0 then [buffer] else []) + Repeat(0xFF, sc)
  }

  /** The registers c, a, ct together with the decided bytes p stand for the exact interval e:
      its lower end is the decided bytes followed by the code register.  The upper end never
      exceeds what the decided bytes can express, and the code register keeps three spacer bits. */
  ghost predicate Represents(e: Coder, p: seq<byte>, c: int, a: int, ct: int) {
    && 0 <= ct <= 11
    && 0 <= c
    && e.width == a
    && e.low == ToNat(p) * Pow2(27 - ct) + c
    && e.shifts == 8 * |p| + 11 - ct
    && e.low + a <= Pow2(8 * |p|) * Pow2(27 - ct)
    && c + a <= Pow2(27 - ct) + Pow2(24 - ct)
  }

  /** A fresh encoder represents the whole interval. */
  lemma StartRepresented(stats: Stats)
    ensures Represents(Start(stats), [], 0, 0x10000, 11)
  {
    Pow2Values();
    assert Pow2(27 - 11) == Pow2(16);
  }

  /** The code register never needs more than 28 bits, nor does the upper end of the interval. */
  lemma RegisterBound(e: Coder, p: seq<byte>, c: int, a: int, ct: int)
    requires Represents(e, p, c, a, ct)
    ensures 0 <= c < c + a <= 0x900_0000
  {
    Pow2Monotone(27 - ct, 27);
    Pow2Monotone(24 - ct, 24);
    Pow2Values();
  }

  /** Choosing a sub-interval. */
  lemma NarrowRepresented(e: Coder, p: seq<byte>, c: int, a: int, ct: int, offset: int, n: Coder)
    requires Represents(e, p, c, a, ct)
    requires 0 <= offset && offset + n.width <= a
    requires n.low == e.low + offset && n.shifts == e.shifts
    ensures Represents(n, p, c + offset, n.width, ct)
  {
  }

  lemma Doubled(v: int, s: int)
    ensures v * (2 * s) == 2 * (v * s)
  {
  }

  /** One renormalisation shift. */
  lemma ShiftRepresented(e: Coder, p: seq<byte>, c: int, a: int, ct: int)
    requires Represents(e, p, c, a, ct) && 0 < ct && !Normal(e)
    ensures Represents(Double(e), p, 2 * c, 2 * a, ct - 1)
  {
    hide Pow2, ToNat;
    Pow2Successor(27 - ct);
    Pow2Successor(24 - ct);
    Doubled(ToNat(p), Pow2(27 - ct));
    Doubled(Pow2(8 * |p|), Pow2(27 - ct));
  }

  /** Moving the top byte of the code register to the decided bytes q, whose value accounts for a
      carry out of the register. */
  lemma ByteOutRepresented(e: Coder, p: seq<byte>, c: int, a: int, q: seq<byte>)
    requires Represents(e, p, c, a, 0)
    requires |q| == |p| + 1 && ToNat(q) == 256 * ToNat(p) + c / 0x8_0000
    ensures Represents(e, q, c % 0x8_0000, a, 8)
  {
    hide Pow2, ToNat;
    Pow2Values();
    Pow2Plus8(8 * |p|);
    assert 27 - 8 == 19 && 24 - 8 == 16 && 8 * |q| == 8 * |p| + 8;
  }

  /** The spacer bits bound the byte taken from the register, so that a byte kept after a carry is
      at most 0x1F; and the decided bytes cannot all be 0xFF when there is a carry. */
  lemma TopByte(e: Coder, p: seq<byte>, c: int, a: int)
    requires Represents(e, p, c, a, 0)
    ensures 0 <= c / 0x8_0000 <= 0x11F
    ensures c / 0x8_0000 > 0xFF ==> ToNat(p) + 1 < Pow2(8 * |p|)
  {
    Pow2Values();
    var v, w := ToNat(p), Pow2(8 * |p|);
    if c / 0x8_0000 > 0xFF {
      assert v * Pow2(27) + Pow2(27) < w * Pow2(27);
      assert (v + 1) * 0x800_0000 < w * 0x800_0000;
    }
  }

  /** The decided bytes after a carry into the buffered byte. */
  lemma CarryDecided(plain: seq<byte>, zc: nat, buffer: int, sc: nat)
    requires 0 <= buffer < 255
    ensures var p := Pending(plain, zc, buffer, sc);
      var q := plain + Repeat(0, zc) + [buffer + 1] + Repeat(0, sc);
      |q| == |p| && ToNat(q) == ToNat(p) + 1
  {
    Carry(plain + Repeat(0, zc), buffer, sc);
  }

  /** The three ways a buffered byte that no carry can reach leaves the buffer. */
  lemma PendingSettled(plain: seq<byte>, zc: nat, buffer: int, sc: nat)
    requires -1 <= buffer < 255 && (buffer == -1 ==> zc == 0)
    ensures var p := Pending(plain, zc, buffer, sc);
      && (buffer == 0 ==> p == plain + Repeat(0, zc + 1) + Repeat(0xFF, sc))
      && (buffer > 0 ==>
            p == plain + Repeat(0, zc) + [buffer] + Repeat(0, 0) + Repeat(0xFF, sc))
      && (buffer == -1 ==> p == plain + Repeat(0, 0) + Repeat(0xFF, sc))
  {
    assert Repeat(0, zc + 1) == Repeat(0, zc) + [0];
    assert plain + Repeat(0, zc) + [0] == plain + (Repeat(0, zc) + [0]);
    assert buffer > 0 ==> plain + Repeat(0, zc) + [buffer] + Repeat(0, 0) == plain + Repeat(0, zc) + [buffer];
    assert buffer == -1 ==> plain + Repeat(0, zc) + [] == plain + Repeat(0, 0);
  }

  /** Settling and then buffering a new byte b appends b to the decided bytes. */
  lemma PendingAppend(p: seq<byte>, plain: seq<byte>, zc: nat, b: byte)
    requires plain + Repeat(0, zc) == p
    ensures Pending(plain, zc, b, 0) == p + [b] && ToNat(p + [b]) == 256 * ToNat(p) + b
  {
    ToNatAppend(p, b);
  }

  /** Stacking one more 0xFF. */
  lemma PendingStack(plain: seq<byte>, zc: nat, buffer: int, sc: nat)
    requires -1 <= buffer < 255
    ensures var p := Pending(plain, zc, buffer, sc);
      && Pending(plain, zc, buffer, sc + 1) == p + [0xFF]
      && ToNat(p + [0xFF]) == 256 * ToNat(p) + 0xFF
  {
    ToNatAppend(Pending(plain, zc, buffer, sc), 0xFF);
    assert Repeat(0xFF, sc + 1) == Repeat(0xFF, sc) + [0xFF];
  }

  lemma NothingPending()
    ensures Pending([], 0, -1, 0) == []
  {
  }

  /** With nothing buffered, every decided byte is 0xFF. */
  lemma NothingBuffered(sc: nat)
    ensures ToNat(Pending([], 0, -1, sc)) + 1 == Pow2(8 * sc) && |Pending([], 0, -1, sc)| == sc
  {
    AllOnes(sc);
    assert Pending([], 0, -1, sc) == Repeat(0xFF, sc);
  }

  // ----- termination -----

  /** The value of the interval [c, c + a) with the most trailing zero bits. */
  function FinalCode(c: int, a: int): int {
    var temp := (a - 1 + c) / 0x1_0000 * 0x1_0000;
    if temp < c then temp + 0x8000 else temp
  }

  lemma FinalCodeInside(c: int, a: int)
    requires 0 <= c && 0x8000 <= a <= 0x1_0000
    ensures c <= FinalCode(c, a) < c + a
    ensures FinalCode(c, a) % 0x8000 == 0
  {
    var temp := (a - 1 + c) / 0x1_0000 * 0x1_0000;
    assert a - 1 + c - 0x1_0000 < temp <= a - 1 + c;
    Aligned((a - 1 + c) / 0x1_0000);
  }

  /** A multiple of 65536 in the interval is taken. */
  lemma OnlyMultiple(c: int, a: int, y: int)
    requires 0 <= c <= y < c + a <= c + 0x1_0000 && y % 0x1_0000 == 0
    ensures FinalCode(c, a) == y
  {
  }

  /** The point chosen is the interval's most aligned. */
  lemma FinalAligned(e: Coder, p: seq<byte>, c: int, a: int, ct: int)
    requires Represents(e, p, c, a, ct) && 0 < ct && Normal(e)
    ensures MostAligned(e.low + FinalCode(c, a) - c, e)
  {
    hide ToNat, Pow2, FinalCode;
    FinalCodeInside(c, a);
    Pow2Sum(16, 11 - ct);
    Pow2Values();
    var k := ToNat(p) * Pow2(11 - ct);
    assert Pow2(27 - ct) == Pow2(11 - ct) * 0x1_0000;
    Associate(ToNat(p), Pow2(11 - ct), 0x1_0000);
    FinalAmong(e, k, c, FinalCode(c, a));
  }

  lemma FinalAmong(e: Coder, k: int, c: int, f: int)
    requires e.low == k * 0x1_0000 + c && 0 <= c && Normal(e) && f == FinalCode(c, e.width)
    requires c <= f < c + e.width && f % 0x8000 == 0
    ensures MostAligned(e.low + f - c, e)
  {
    hide FinalCode;
    AlignedSum(k, f);
    forall z | e.low <= z < e.low + e.width && z % 0x1_0000 == 0
      ensures z == e.low + f - c
    {
      AlignedRest(k, z);
      OnlyMultiple(c, e.width, z - k * 0x1_0000);
    }
  }

  lemma AlignedSum(k: int, f: int)
    requires f % 0x8000 == 0
    ensures (k * 0x1_0000 + f) % 0x8000 == 0
  {
    Remainder(k * 0x1_0000 + f, 0x8000, 2 * k + f / 0x8000, 0);
  }

  lemma AlignedRest(k: int, z: int)
    requires z % 0x1_0000 == 0
    ensures (z - k * 0x1_0000) % 0x1_0000 == 0
  {
    Remainder(z - k * 0x1_0000, 0x1_0000, z / 0x1_0000 - k, 0);
  }

  lemma Aligned(k: int)
    ensures (k * 0x1_0000) % 0x8000 == 0 && (k * 0x1_0000 + 0x8000) % 0x8000 == 0
  {
    Remainder((2 * k) * 0x8000, 0x8000, 2 * k, 0);
    Remainder((2 * k + 1) * 0x8000, 0x8000, 2 * k + 1, 0);
  }

  lemma Multiples(k: int, s: int, z: int)
    requires z > 0
    ensures ((k * z) * s) % z == 0
  {
    assert (k * z) * s == (k * s) * z;
    Remainder((k * s) * z, z, k * s, 0);
  }

  /** The final code, left-justified in the register: two bytes hold it, and a carry out of it
      never finds all decided bytes equal to 0xFF. */
  lemma FinalShift(e: Coder, p: seq<byte>, c: int, a: int, ct: int)
    requires Represents(e, p, c, a, ct) && 0 < ct && Normal(e)
    ensures var f := FinalCode(c, a);
      && c <= f < c + a
      && 0 <= f * Pow2(ct) < 0x900_0000
      && (f * Pow2(ct)) % 0x800 == 0
      && (f * Pow2(ct) >= 0x800_0000 ==> ToNat(p) + 1 < Pow2(8 * |p|))
  {
    hide ToNat, Pow2, FinalCode;
    FinalCodeInside(c, a);
    FinalShiftBounds(ToNat(p), Pow2(8 * |p|), c, a, ct, FinalCode(c, a));
  }

  lemma FinalShiftBounds(v: int, w: int, c: int, a: int, ct: int, f: int)
    requires 0 < ct <= 11 && 0 <= c <= f < c + a && f % 0x8000 == 0
    requires v * Pow2(27 - ct) + c + a <= w * Pow2(27 - ct)
    requires c + a <= Pow2(27 - ct) + Pow2(24 - ct)
    ensures 0 <= f * Pow2(ct) < 0x900_0000
    ensures (f * Pow2(ct)) % 0x800 == 0
    ensures f * Pow2(ct) >= 0x800_0000 ==> v + 1 < w
  {
    hide Pow2;
    var s, g := Pow2(ct), Pow2(27 - ct);
    Pow2Values();
    Pow2Sum(27 - ct, ct);
    Pow2Sum(24 - ct, ct);
    ScaleLess(f, g + Pow2(24 - ct), s);
    ScaleLess(g, Pow2(24 - ct), s);
    FinalShiftAligned(f, s);
    if f * s >= 0x800_0000 {
      ScaleLessEq(g, f, s);
      assert (v + 1) * g == v * g + g;
      ScaleLess(v + 1, w, g);
    }
  }

  lemma FinalShiftAligned(f: int, s: int)
    requires f % 0x8000 == 0
    ensures (f * s) % 0x800 == 0
  {
    var k := 16 * (f / 0x8000);
    assert f == k * 0x800;
    Multiples(k, s, 0x800);
  }

  lemma FinalTop(c: int)
    requires 0 <= c < 0x900_0000 && c % 0x800 == 0
    ensures var top := c % 0x800_0000;
      && 0 <= top < 0x800_0000 && top % 0x800 == 0
      && c == top + (if c >= 0x800_0000 then 0x800_0000 else 0)
  {
  }

  /** Appending the two bytes held by the top of the register. */
  lemma FinalBytes(h: seq<byte>, top: int)
    requires 0 <= top < 0x800_0000 && top % 0x800 == 0
    ensures 0 <= top / 0x8_0000 < 256 && 0 <= top / 0x800 % 0x100 < 256
    ensures ToNat(h + [top / 0x8_0000, top / 0x800 % 0x100]) * 0x800 == ToNat(h) * 0x800_0000 + top
  {
    var hi, lo := top / 0x8_0000, top / 0x800 % 0x100;
    assert top == (hi * 256 + lo) * 0x800;
    assert h + [hi, lo] == (h + [hi]) + [lo];
    ToNatAppend(h, hi);
    ToNatAppend(h + [hi], lo);
  }

  /** The data bytes of the finished segment. */
  function FinalData(plain: seq<byte>, zc: nat, top: int): seq<byte>
    requires 0 <= top < 0x800_0000
  {
    var h := plain + Repeat(0, zc);
    if top / 0x800 == 0 then plain
    else if top / 0x800 % 0x100 == 0 then h + [top / 0x8_0000]
    else h + [top / 0x8_0000, top / 0x800 % 0x100]
  }

  /** Dropping the trailing zero bytes changes nothing. */
  lemma DroppedZeros(plain: seq<byte>, zc: nat, top: int)
    requires 0 <= top < 0x800_0000
    ensures var hi, lo := top / 0x8_0000, top / 0x800 % 0x100;
      var full := plain + Repeat(0, zc) + [hi, lo];
      && (top / 0x800 == 0 ==> Fraction(full) == Fraction(plain))
      && (lo == 0 ==> Fraction(full) == Fraction(plain + Repeat(0, zc) + [hi]))
      && Fraction(FinalData(plain, zc, top)) == Fraction(full)
  {
    hide Fraction;
    var hi, lo := top / 0x8_0000, top / 0x800 % 0x100;
    var h := plain + Repeat(0, zc);
    assert h + [hi, lo] == (h + [hi]) + [lo];
    if lo == 0 {
      FractionAppendZero(h + [hi]);
    }
    if top / 0x800 == 0 {
      FractionAppendZero(h);
      FractionZeros(plain, zc);
    }
  }

  /** The decided bytes followed by the two bytes of the final code, as a number. */
  lemma FinalValue(v: int, f: int, ct: int, y: int)
    requires 0 < ct <= 11
    requires y * 0x800 == v * 0x800_0000 + f * Pow2(ct)
    ensures y * Pow2(11 - ct) == v * Pow2(27 - ct) + f
  {
    hide Pow2;
    var g, s := Pow2(27 - ct), Pow2(ct);
    Pow2Values();
    Pow2Sum(27 - ct, ct);
    Associate(v, g, s);
    ScaleLess(v * g, f, s);
    Pow2Sum(11 - ct, ct);
    Associate(y, Pow2(11 - ct), s);
    CancelCommon(y * Pow2(11 - ct), v * g + f, s);
  }

  /** The decided bytes followed by the two bytes of the final code, as a point at the scale of the interval. */
  lemma FinalPoint(e: Coder, p: seq<byte>, c: int, a: int, ct: int, f: int, full: seq<byte>)
    requires Represents(e, p, c, a, ct) && 0 < ct
    requires ToNat(full) * 0x800 == ToNat(p) * 0x800_0000 + f * Pow2(ct)
    ensures ct <= 11 && e.shifts == 8 * |p| + (11 - ct) && ToNat(full) * Pow2(11 - ct) == e.low + f - c
  {
    hide ToNat, Pow2;
    FinalValue(ToNat(p), f, ct, ToNat(full));
  }

  lemma FinalFraction(full: seq<byte>, n: nat, t: nat, point: int)
    requires |full| == n + 2 && point == ToNat(full) * Pow2(t)
    ensures Denotes(full, point, 8 * n + t)
  {
    hide ToNat, Pow2;
    Pow2Sum(8 * n, t);
    Pow2Plus8(8 * n);
    Pow2Plus8(8 * n + 8);
    assert 8 * |full| == 8 * n + 8 + 8;
    UnscaledFraction(ToNat(full), Pow2(8 * n), Pow2(t));
  }

  lemma UnscaledFraction(y: int, w: int, t: int)
    requires w > 0
    ensures 65536.0 * (y as real / (256 * (256 * w)) as real) * (w * t) as real == (y * t) as real
  {
    var yr, wr, tr := y as real, w as real, t as real;
    var q := yr / (65536.0 * wr);
    assert q * (65536.0 * wr) == yr;
    assert (w * t) as real == wr * tr && (y * t) as real == yr * tr;
    assert 65536.0 * q * (wr * tr) == (q * (65536.0 * wr)) * tr;
  }

  /** Comparing multiples of a positive number. */
  lemma ScaleLess(x: int, y: int, s: int)
    requires s > 0
    ensures x < y <==> x * s < y * s
    ensures 0 <= x <==> 0 <= x * s
    ensures (x + y) * s == x * s + y * s
  {
  }

  lemma ScaleLessEq(x: int, y: int, s: int)
    requires s > 0
    ensures x <= y <==> x * s <= y * s
  {
  }

  /** Whatever the writer drops of the final bytes, the segment denotes the same point. */
  lemma DataDenotes(plain: seq<byte>, zc: nat, top: int, n: nat, t: nat, point: int)
    requires 0 <= top < 0x800_0000 && top % 0x800 == 0 && |plain| + zc == n
    requires point == ToNat(plain + Repeat(0, zc) + [top / 0x8_0000, top / 0x800 % 0x100]) * Pow2(t)
    ensures Denotes(FinalData(plain, zc, top), point, 8 * n + t)
  {
    hide ToNat, Pow2, Fraction, FinalData, Denotes;
    var full := plain + Repeat(0, zc) + [top / 0x8_0000, top / 0x800 % 0x100];
    FinalFraction(full, n, t, point);
    DroppedZeros(plain, zc, top);
    SameFraction(full, FinalData(plain, zc, top), point, 8 * n + t);
  }

  // ----- the encoder object -----

  class Encoder {
    var c: int                  // code register
    var a: int                  // interval width
    var sc: nat                 // stacked 0xFF bytes
    var zc: nat                 // pending zero bytes
    var ct: int                 // shifts until the next byte is ready
    var buffer: int             // most recent byte other than 0xFF, or -1
    var stats: Stats
    var output: seq<byte>       // the destination

    ghost var exact: Coder      // the interval the registers stand for
    ghost var before: seq<byte> // the destination when the segment began
    ghost var plain: seq<byte>  // data bytes of the segment written so far

    /** What has been written is the stuffed form of the data bytes, which never end in a zero. */
    ghost predicate Emission()
      reads this
    {
      && output == before + Stuff(plain)
      && -1 <= buffer < 255
      && (buffer == -1 ==> plain == [] && zc == 0)
    }

    ghost predicate Trimmed()
      reads this
    {
      plain == [] || plain[|plain| - 1] != 0
    }

    ghost predicate Linked()
      reads this
    {
      && Emission() && Trimmed()
      && Represents(exact, Pending(plain, zc, buffer, sc), c, a, ct)
      && exact.width == a && exact.stats == stats
    }

    ghost predicate Valid()
      reads this
    {
      Linked() && 0 < ct && Normal(exact)
    }

    /** Since the old state, exactly the decisions ds were coded. */
    twostate predicate Coded(ds: seq<Decision>)
      requires old(Valid())
      reads this
    {
      && Valid()
      && exact == EncodeAll(old(exact), ds)
      && before == old(before)
    }

    constructor ()
      ensures Valid() && exact == Start(map[]) && before == [] && output == []
    {
      c, a, sc, zc, ct, buffer := 0, 0x10000, 0, 0, 11, -1;
      stats, output := map[], [];
      exact, before, plain := Start(map[]), [], [];
      new;
      StartRepresented(map[]);
      assert Pending(plain, zc, buffer, sc) == [];
    }

    /** Write a data byte, stuffing a zero behind 0xFF. */
    method EmitData(b: byte)
      requires output == before + Stuff(plain)
      modifies this`output, this`plain
      ensures output == before + Stuff(plain) && plain == old(plain) + [b]
    {
      output := output + [b];
      if b == 0xFF {
        output := output + [0x00];
      }
      StuffAppend(plain, b);
      plain := plain + [b];
    }

    /** Write the pending zero bytes. */
    method FlushZeros()
      requires output == before + Stuff(plain)
      modifies this`output, this`plain, this`zc
      ensures output == before + Stuff(plain) && zc == 0
      ensures plain == old(plain) + Repeat(0, old(zc))
    {
      while zc > 0
        invariant output == before + Stuff(plain) && zc <= old(zc)
        invariant plain == old(plain) + Repeat(0, old(zc) - zc)
      {
        EmitData(0x00);
        zc := zc - 1;
      }
    }

    /** Write the stacked 0xFF bytes. */
    method FlushStacked()
      requires output == before + Stuff(plain)
      modifies this`output, this`plain, this`sc
      ensures output == before + Stuff(plain) && sc == 0
      ensures plain == old(plain) + Repeat(0xFF, old(sc))
    {
      while sc > 0
        invariant output == before + Stuff(plain) && sc <= old(sc)
        invariant plain == old(plain) + Repeat(0xFF, old(sc) - sc)
      {
        EmitData(0xFF);
        sc := sc - 1;
      }
    }

    /** A carry reached the buffered byte: it is written incremented, and the stacked 0xFF bytes
        become pending zeros. */
    method PropagateCarry()
      requires Emission() && Trimmed() && 0 <= buffer
      modifies this`output, this`plain, this`zc, this`sc
      ensures output == before + Stuff(plain) && Trimmed() && sc == 0
      ensures plain == old(plain) + Repeat(0, old(zc)) + [buffer + 1] && zc == old(sc)
    {
      FlushZeros();
      EmitData(buffer + 1);
      zc := zc + sc;
      sc := 0;
    }

    /** No carry can reach the buffered byte any more: it is written, or counted if it is zero,
        and so are the stacked 0xFF bytes. */
    method SettleBuffer()
      requires Emission() && Trimmed()
      modifies this`output, this`plain, this`zc, this`sc
      ensures output == before + Stuff(plain) && Trimmed() && sc == 0
      ensures plain + Repeat(0, zc) == Pending(old(plain), old(zc), buffer, old(sc))
    {
      hide Stuff, Pending;
      ghost var p := Pending(plain, zc, buffer, sc);
      PendingSettled(plain, zc, buffer, sc);
      if buffer == 0 {
        zc := zc + 1;
      } else if buffer >= 0 {
        FlushZeros();
        EmitData(buffer);
      }
      ghost var h := plain + Repeat(0, zc);
      assert p == h + Repeat(0xFF, sc);
      if sc > 0 {
        FlushZeros();
        FlushStacked();
        assert plain + Repeat(0, zc) == h + Repeat(0xFF, old(sc));
      } else {
        assert h + Repeat(0xFF, sc) == h;
      }
    }

    /** Another byte of the code register is ready. */
    method ByteOut()
      requires Linked() && ct == 0
      modifies this`c, this`ct, this`sc, this`zc, this`buffer, this`output, this`plain
      ensures Linked() && ct == 8
    {
      hide Stuff, Pending, ToNat, Represents;
      ghost var p := Pending(plain, zc, buffer, sc);
      TopByte(exact, p, c, a);
      var temp := c / 0x8_0000;
      if temp > 0xFF {
        if buffer < 0 {
          NothingBuffered(sc);
          assert false;
        }
        CarryDecided(plain, zc, buffer, sc);
        PropagateCarry();
        PendingAppend(plain + Repeat(0, zc), plain, zc, temp % 0x100);
        buffer := temp % 0x100;
      } else if temp == 0xFF {
        PendingStack(plain, zc, buffer, sc);
        sc := sc + 1;
      } else {
        SettleBuffer();
        PendingAppend(p, plain, zc, temp);
        buffer := temp % 0x100;
      }
      ByteOutRepresented(exact, p, c, a, Pending(plain, zc, buffer, sc));
      c := c % 0x8_0000;
      ct := ct + 8;
    }

    /** Renormalisation: shift until the interval is wide enough again, at least once. */
    method Renormalise()
      requires Linked() && 0 < ct && !Normal(exact)
      modifies this`c, this`a, this`ct, this`sc, this`zc, this`buffer, this`output, this`exact,
        this`plain
      ensures Valid() && exact == Normalise(old(exact))
    {
      hide Stuff, Pending, Represents, ToNat;
      var more := true;
      while more
        invariant Linked() && 0 < ct
        invariant more <==> !Normal(exact)
        invariant Normalise(exact) == Normalise(old(exact))
        decreases 0x10000 - a
      {
        ShiftRepresented(exact, Pending(plain, zc, buffer, sc), c, a, ct);
        exact := Double(exact);
        a := 2 * a;
        c := 2 * c;
        ct := ct - 1;
        if ct == 0 {
          ByteOut();
        }
        more := a < 0x8000;
      }
    }

    /** Encode one binary decision. */
    method Encode(k: Context, val: Bit)
      requires Valid() && InBounds(k)
      modifies this`c, this`a, this`ct, this`sc, this`zc, this`buffer, this`stats, this`output,
        this`exact, this`plain
      ensures Valid() && exact == IntervalCoder.Encode(old(exact), Decision(k, val))
    {
      hide Lookup, Stuff, Pending, Represents, Narrow, ToNat, Mps, AfterLps, AfterMps, BinAt;
      var sv := BinAt(stats, k);
      var r := Lookup(sv % 128);
      var qe := r.qe;
      ghost var narrowed := Narrow(exact, Decision(k, val));
      NarrowIs(exact, Decision(k, val));
      NarrowRepresented(exact, Pending(plain, zc, buffer, sc), c, a, ct, Choose(a, sv, r, val).offset, narrowed);
      exact := narrowed;

      a := a - qe;
      if val != Mps(sv) {
        if a >= qe {
          c := c + a;
          a := qe;
        }
        stats := Store(stats, k, AfterLps(sv, r));
      } else {
        if a >= 0x8000 {
          return;
        }
        if a < qe {
          c := c + a;
          a := qe;
        }
        stats := Store(stats, k, AfterMps(sv, r));
      }
      Renormalise();
    }

    /** Finish the segment: choose a value in the interval and write what is left of it, dropping trailing zero
        bytes.  No shorter byte string denotes a value in the interval. */
    method FinishPass()
      requires Valid()
      modifies this`c, this`sc, this`zc, this`output, this`plain
      ensures output == before + Stuff(plain) && Trimmed()
      ensures Contains(65536.0 * Fraction(plain), exact)
      ensures Shortest(plain, exact)
    {
      hide Stuff, Pending, Represents, ToNat, Pow2, FinalCode, Fraction, Contains, MostAligned, Denotes;
      ghost var p := Pending(plain, zc, buffer, sc);
      FinalShift(exact, p, c, a, ct);
      FinalAligned(exact, p, c, a, ct);
      ghost var c0, f, point := c, FinalCode(c, a), exact.low + FinalCode(c, a) - c;

      c := FinalCode(c, a);
      c := c * Pow2(ct);
      ResolveLast(c >= 0x800_0000);

      FinalTop(c);
      var top := c % 0x800_0000;
      FinalBytes(plain + Repeat(0, zc), top);
      FinalPoint(exact, p, c0, a, ct, f, plain + Repeat(0, zc) + [top / 0x8_0000, top / 0x800 % 0x100]);
      DataDenotes(plain, zc, top, |p|, 11 - ct, point);
      WriteTop(top);
      Inside(plain, point, exact);
      ShortestOfAll(exact, plain, point);
    }

    /** Handle the final overflow of the code register, or settle the buffered byte. */
    method ResolveLast(carry: bool)
      requires Emission() && Trimmed()
      requires var p := Pending(plain, zc, buffer, sc); carry ==> ToNat(p) + 1 < Pow2(8 * |p|)
      modifies this`sc, this`zc, this`output, this`plain
      ensures output == before + Stuff(plain) && Trimmed()
      ensures var p := Pending(old(plain), old(zc), buffer, old(sc));
        var q := plain + Repeat(0, zc);
        |q| == |p| && ToNat(q) == ToNat(p) + if carry then 1 else 0
    {
      hide Stuff, ToNat;
      if carry {
        if buffer < 0 {
          NothingBuffered(sc);
          assert false;
        }
        CarryDecided(plain, zc, buffer, sc);
        PropagateCarry();
      } else {
        SettleBuffer();
      }
    }

    /** Write the final bytes only if they are not zero. */
    method WriteTop(top: int)
      requires 0 <= top < 0x800_0000
      requires output == before + Stuff(plain) && Trimmed()
      modifies this`zc, this`output, this`plain
      ensures output == before + Stuff(plain) && Trimmed()
      ensures plain == FinalData(old(plain), old(zc), top)
    {
      hide Stuff;
      if top / 0x800 != 0 {
        FlushZeros();
        EmitData(top / 0x8_0000);
        if top / 0x800 % 0x100 != 0 {
          EmitData(top / 0x800 % 0x100);
          assert plain == old(plain) + Repeat(0, old(zc)) + [top / 0x8_0000, top / 0x800 % 0x100];
        }
      }
    }

    /** Write a marker behind a finished segment. */
    method WriteMarker(marker: byte)
      modifies this`output
      ensures output == old(output) + [0xFF, marker]
    {
      output := output + [0xFF];
      output := output + [marker];
    }

    /** Start a new segment with the given statistics. */
    method BeginSegment(initial: Stats)
      modifies this`c, this`a, this`sc, this`zc, this`ct, this`buffer, this`stats, this`exact, this`before, this`plain
      ensures Valid() && exact == Start(initial) && before == output
    {
      hide Represents, Pending;
      c, a, sc, zc, ct, buffer := 0, 0x10000, 0, 0, 11, -1;
      stats := initial;
      exact, before, plain := Start(initial), output, [];
      StartRepresented(initial);
      NothingPending();
    }
  }
}
