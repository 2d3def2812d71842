/** Entropy-coded segments as byte sequences: the number a segment denotes, zero stuffing after
    0xFF, and how a reader finds the end of a segment. */
module ByteStream {
  import opened Powers

  type byte = b: int | 0 <= b < 256

  const EOI: byte := 0xD9
  const RST0: byte := 0xD0

  // ----- numbers -----

  /** Big-endian value, base 256. */
  function ToNat(p: seq<byte>): nat {
    if p == [] then 0 else 256 * ToNat(p[..|p| - 1]) + p[|p| - 1]
  }

  lemma ToNatEmpty()
    ensures ToNat([]) == 0
  {
  }

  lemma ToNatAppend(p: seq<byte>, b: byte)
    ensures ToNat(p + [b]) == 256 * ToNat(p) + b
  {
    assert (p + [b])[..|p|] == p;
  }

  lemma {:induction false} ToNatPrepend(b: byte, p: seq<byte>)
    ensures ToNat([b] + p) == b * Pow2(8 * |p|) + ToNat(p)
  {
    hide ToNat;
    if p == [] {
      assert [b] + p == [] + [b];
      ToNatAppend([], b);
      ToNatEmpty();
    } else {
      var q, z := p[..|p| - 1], p[|p| - 1];
      ToNatPrepend(b, q);
      assert [b] + p == ([b] + q) + [z] && p == q + [z];
      ToNatAppend([b] + q, z);
      ToNatAppend(q, z);
      Pow2Plus8(8 * |q|);
    }
  }

  function Repeat(b: byte, n: nat): (p: seq<byte>)
    ensures |p| == n && forall i :: 0 <= i < n ==> p[i] == b
  {
    seq(n, _ => b)
  }

  /** Carrying into a byte turns the 0xFF bytes behind it into 0x00. */
  lemma {:induction false} Carry(p: seq<byte>, b: byte, n: nat)
    requires b < 255
    ensures ToNat(p + [b] + Repeat(0xFF, n)) + 1 == ToNat(p + [b + 1] + Repeat(0, n))
  {
    if n == 0 {
      assert p + [b] + Repeat(0xFF, n) == p + [b];
      assert p + [b + 1] + Repeat(0, n) == p + [b + 1];
      ToNatAppend(p, b);
      ToNatAppend(p, b + 1);
    } else {
      Carry(p, b, n - 1);
      assert p + [b] + Repeat(0xFF, n) == (p + [b] + Repeat(0xFF, n - 1)) + [0xFF];
      assert p + [b + 1] + Repeat(0, n) == (p + [b + 1] + Repeat(0, n - 1)) + [0];
      ToNatAppend(p + [b] + Repeat(0xFF, n - 1), 0xFF);
      ToNatAppend(p + [b + 1] + Repeat(0, n - 1), 0);
    }
  }

  lemma {:induction false} AllOnes(n: nat)
    ensures ToNat(Repeat(0xFF, n)) + 1 == Pow2(8 * n)
  {
    if n > 0 {
      assert Repeat(0xFF, n) == Repeat(0xFF, n - 1) + [0xFF];
      ToNatAppend(Repeat(0xFF, n - 1), 0xFF);
      AllOnes(n - 1);
      Pow2Plus8(8 * (n - 1));
    }
  }

  /** The segment read as a base-256 fraction in [0, 1). */
  ghost function Fraction(p: seq<byte>): real {
    ToNat(p) as real / Pow2(8 * |p|) as real
  }

  lemma FractionAppendZero(p: seq<byte>)
    ensures Fraction(p + [0]) == Fraction(p)
  {
    hide ToNat, Pow2;
    ToNatAppend(p, 0);
    Pow2Plus8(8 * |p|);
    CancelFactor(ToNat(p) as real, Pow2(8 * |p|) as real);
  }

  lemma CancelFactor(v: real, w: real)
    requires w > 0.0
    ensures (256.0 * v) / (256.0 * w) == v / w
  {
  }

  /** A reader that finds nothing but zeros behind the segment reads the same number. */
  lemma {:induction false} FractionZeros(p: seq<byte>, n: nat)
    ensures Fraction(p + Repeat(0, n)) == Fraction(p)
  {
    if n == 0 {
      assert p + Repeat(0, n) == p;
    } else {
      assert p + Repeat(0, n) == (p + Repeat(0, n - 1)) + [0];
      FractionAppendZero(p + Repeat(0, n - 1));
      FractionZeros(p, n - 1);
    }
  }

  lemma {:induction false} ToNatBound(p: seq<byte>)
    ensures ToNat(p) < Pow2(8 * |p|)
  {
    if p != [] {
      ToNatBound(p[..|p| - 1]);
      Pow2Plus8(8 * (|p| - 1));
    }
  }

  lemma FractionRange(p: seq<byte>)
    ensures 0.0 <= Fraction(p) < 1.0
  {
    ToNatBound(p);
    QuotientBelowOne(ToNat(p) as real, Pow2(8 * |p|) as real);
  }

  lemma QuotientBelowOne(v: real, w: real)
    requires 0.0 <= v < w
    ensures 0.0 <= v / w < 1.0
  {
    var f := v / w;
    assert v == f * w;
    assert (f - 1.0) * w == v - w;
    NegativeFactor(f - 1.0, w);
  }

  lemma NegativeFactor(x: real, w: real)
    requires w > 0.0 && x * w < 0.0
    ensures x < 0.0
  {
  }

  /** Taking the first byte off. */
  lemma FractionFirst(p: seq<byte>)
    requires p != []
    ensures 256.0 * Fraction(p) == p[0] as real + Fraction(p[1..])
  {
    hide ToNat, Pow2;
    var q := p[1..];
    assert p == [p[0]] + q;
    ToNatPrepend(p[0], q);
    Pow2Plus8(8 * |q|);
    ScaledQuotient(p[0], ToNat(q), Pow2(8 * |q|));
  }

  lemma ScaledQuotient(b: int, v: int, w: int)
    requires w > 0
    ensures 256.0 * ((b * w + v) as real / (256 * w) as real) == b as real + v as real / w as real
  {
    var br, vr, wr := b as real, v as real, w as real;
    var t := vr / wr;
    assert vr == t * wr;
    assert (b * w + v) as real == br * wr + vr == (br + t) * wr;
    assert (256 * w) as real == 256.0 * wr;
    assert (br + t) * wr == ((br + t) / 256.0) * (256.0 * wr);
    QuotientUnique((br + t) / 256.0, 256.0 * wr);
  }

  lemma QuotientUnique(t: real, w: real)
    requires w != 0.0
    ensures (t * w) / w == t
  {
  }

  // ----- stuffing -----

  /** A data byte as it is written. */
  function StuffByte(b: byte): seq<byte> {
    if b == 0xFF then [0xFF, 0x00] else [b]
  }

  /** The data bytes of a segment as they are written: every 0xFF is followed by 0x00. */
  function Stuff(p: seq<byte>): seq<byte> {
    if p == [] then [] else StuffByte(p[0]) + Stuff(p[1..])
  }

  /** No marker can be found in stuffed data: every 0xFF is followed by 0x00. */
  lemma {:induction false} StuffedPairs(p: seq<byte>, i: nat)
    requires i < |Stuff(p)| && Stuff(p)[i] == 0xFF
    ensures i + 1 < |Stuff(p)| && Stuff(p)[i + 1] == 0x00
    decreases |p|
  {
    if i >= |StuffByte(p[0])| {
      StuffedPairs(p[1..], i - |StuffByte(p[0])|);
    }
  }

  lemma {:induction false} StuffAppend(p: seq<byte>, b: byte)
    ensures Stuff(p + [b]) == Stuff(p) + StuffByte(b)
  {
    if p == [] {
      assert p + [b] == [b];
    } else {
      assert (p + [b])[1..] == p[1..] + [b];
      StuffAppend(p[1..], b);
    }
  }

  /** A segment as a reader sees it: its data bytes, the marker that ends it, what follows. */
  datatype Segment = Segment(data: seq<byte>, marker: byte, rest: seq<byte>)

  /** Read up to the next marker.  A source that runs dry supplies an end-of-image marker. */
  function ReadSegment(input: seq<byte>): (s: Segment)
    ensures s.marker != 0 && s.marker != 0xFF
  {
    if input == [] then Segment([], EOI, [])
    else if input[0] != 0xFF then
      var s := ReadSegment(input[1..]);
      Segment([input[0]] + s.data, s.marker, s.rest)
    else if |input| == 1 then Segment([], EOI, [])
    else if input[1] == 0xFF then ReadSegment(input[1..])
    else if input[1] == 0x00 then
      var s := ReadSegment(input[2..]);
      Segment([0xFF] + s.data, s.marker, s.rest)
    else Segment([], input[1], input[2..])
  }

  lemma ReadByte(b: byte, t: seq<byte>)
    ensures var s := ReadSegment(t);
      ReadSegment(StuffByte(b) + t) == Segment([b] + s.data, s.marker, s.rest)
  {
    var input := StuffByte(b) + t;
    assert input[|StuffByte(b)|..] == t;
  }

  lemma ReadMarker(marker: byte, rest: seq<byte>)
    requires marker != 0 && marker != 0xFF
    ensures ReadSegment([0xFF, marker] + rest) == Segment([], marker, rest)
    ensures ReadSegment([]) == Segment([], EOI, [])
  {
    assert ([0xFF, marker] + rest)[2..] == rest;
  }

  /** Reading inverts stuffing: whatever data was written, the reader recovers it and stops at
      the marker behind it, or at the end of the input. */
  lemma {:induction false} ReadStuffed(p: seq<byte>, marker: byte, rest: seq<byte>)
    requires marker != 0 && marker != 0xFF
    ensures ReadSegment(Stuff(p) + [0xFF, marker] + rest) == Segment(p, marker, rest)
    ensures ReadSegment(Stuff(p)) == Segment(p, EOI, [])
  {
    var t := [0xFF, marker] + rest;
    assert Stuff(p) + [0xFF, marker] + rest == Stuff(p) + t;
    if p == [] {
      ReadMarker(marker, rest);
      hide ReadSegment;
      assert Stuff(p) == [] && [] + t == t;
    } else {
      var u := Stuff(p[1..]);
      assert Stuff(p) == StuffByte(p[0]) + u;
      hide ReadSegment, Stuff, StuffByte;
      ReadStuffed(p[1..], marker, rest);
      assert u + t == u + [0xFF, marker] + rest;
      assert Stuff(p) + t == StuffByte(p[0]) + (u + t);
      ReadByte(p[0], u + t);
      ReadByte(p[0], u);
      assert p == [p[0]] + p[1..];
    }
  }
}
