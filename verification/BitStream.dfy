/** Bit sequences: numbers as bits, packing into bytes, and a reader's view of the bits to come. */
module BitStream {
  import opened Powers
  import opened ByteStream

  // ----- numbers -----

  /** The low n bits of v, high bit first. */
  function ToBits(v: nat, n: nat): (b: seq<Bit>)
    ensures |b| == n
    decreases n
  {
    if n == 0 then [] else ToBits(v / 2, n - 1) + [v % 2]
  }

  function FromBits(b: seq<Bit>): (v: nat)
    ensures v < Pow2(|b|)
  {
    if b == [] then 0 else 2 * FromBits(b[..|b| - 1]) + b[|b| - 1]
  }

  lemma {:induction false} FromToBits(v: nat, n: nat)
    requires v < Pow2(n)
    ensures FromBits(ToBits(v, n)) == v
    decreases n
  {
    if n > 0 {
      FromToBits(v / 2, n - 1);
      var b := ToBits(v, n);
      assert b[..n - 1] == ToBits(v / 2, n - 1);
    }
  }

  /** Higher bits do not matter. */
  lemma {:induction false} ToBitsMod(v: nat, n: nat)
    ensures ToBits(v % Pow2(n), n) == ToBits(v, n)
    decreases n
  {
    if n > 0 {
      HalfMod(v, Pow2(n - 1));
      ToBitsMod(v / 2, n - 1);
    }
  }

  lemma HalfMod(v: nat, p: nat)
    requires p > 0
    ensures v % (2 * p) / 2 == v / 2 % p && v % (2 * p) % 2 == v % 2
  {
    var q, r := v / 2 / p, v / 2 % p;
    assert v / 2 == q * p + r;
    assert v == q * (2 * p) + (2 * r + v % 2) by {
      assert v == 2 * (q * p + r) + v % 2;
    }
    Remainder(q * (2 * p) + (2 * r + v % 2), 2 * p, q, 2 * r + v % 2);
  }

  lemma {:induction false} ToFromBits(b: seq<Bit>)
    ensures ToBits(FromBits(b), |b|) == b
    decreases |b|
  {
    if b != [] {
      var n := |b| - 1;
      ToFromBits(b[..n]);
      var v := FromBits(b);
      assert v / 2 == FromBits(b[..n]) && v % 2 == b[n];
      assert b == b[..n] + [b[n]];
    }
  }

  lemma {:induction false} FromBitsConcat(a: seq<Bit>, b: seq<Bit>)
    ensures FromBits(a + b) == FromBits(a) * Pow2(|b|) + FromBits(b)
    decreases |b|
  {
    if b == [] {
      assert a + b == a;
    } else {
      var n := |b| - 1;
      assert (a + b)[..|a + b| - 1] == a + b[..n];
      FromBitsConcat(a, b[..n]);
      Associate(FromBits(a), 2, Pow2(n));
      assert FromBits(a) * 2 == 2 * FromBits(a);
      Associate(2, FromBits(a), Pow2(n));
    }
  }

  /** The leading bits of a number. */
  lemma HighBits(a: seq<Bit>, b: seq<Bit>)
    ensures FromBits(a + b) / Pow2(|b|) == FromBits(a) && FromBits(a + b) % Pow2(|b|) == FromBits(b)
  {
    hide Pow2, FromBits;
    FromBitsConcat(a, b);
    Remainder(FromBits(a) * Pow2(|b|) + FromBits(b), Pow2(|b|), FromBits(a), FromBits(b));
  }

  // ----- bytes -----

  /** Bytes of eight bits each; a last incomplete group is left out. */
  function Pack(bits: seq<Bit>): (p: seq<byte>)
    ensures |p| == |bits| / 8
    decreases |bits|
  {
    if |bits| < 8 then []
    else if |bits| % 8 != 0 then Pack(bits[..|bits| - |bits| % 8])
    else
      Pow2Eight();
      Pack(bits[..|bits| - 8]) + [FromBits(bits[|bits| - 8..])]
  }

  function Unpack(p: seq<byte>): (bits: seq<Bit>)
    ensures |bits| == 8 * |p|
  {
    if p == [] then [] else Unpack(p[..|p| - 1]) + ToBits(p[|p| - 1], 8)
  }

  /** Packing whole bytes loses nothing. */
  lemma {:induction false} UnpackPack(bits: seq<Bit>)
    requires |bits| % 8 == 0
    ensures Unpack(Pack(bits)) == bits
    decreases |bits|
  {
    hide ToBits, FromBits;
    if |bits| >= 8 {
      var front, last := bits[..|bits| - 8], bits[|bits| - 8..];
      UnpackPack(front);
      ToFromBits(last);
      assert bits == front + last;
      var p := Pack(bits);
      assert p[..|p| - 1] == Pack(front);
    } else {
      assert bits == [];
    }
  }

  lemma {:induction false} UnpackAppend(p: seq<byte>, b: byte)
    ensures Unpack(p + [b]) == Unpack(p) + ToBits(b, 8)
  {
    assert (p + [b])[..|p|] == p;
  }

  lemma {:induction false} UnpackFirst(b: byte, p: seq<byte>)
    ensures Unpack([b] + p) == ToBits(b, 8) + Unpack(p)
    decreases |p|
  {
    hide ToBits;
    if p == [] {
      assert [b] + p == [] + [b];
      UnpackAppend([], b);
    } else {
      var n := |p| - 1;
      assert ([b] + p)[..n + 1] == [b] + p[..n];
      UnpackFirst(b, p[..n]);
    }
  }

  /** One more byte. */
  lemma PackAppend(bits: seq<Bit>, last: seq<Bit>)
    requires |bits| % 8 == 0 && |last| == 8
    ensures FromBits(last) < 256
    ensures Pack(bits + last) == Pack(bits) + [FromBits(last)]
  {
    Pow2Eight();
    assert (bits + last)[..|bits|] == bits && (bits + last)[|bits|..] == last;
  }

  /** The bits of a segment are filled up to whole bytes with ones. */
  function Flushed(bits: seq<Bit>): (r: seq<Bit>)
    ensures |r| % 8 == 0
  {
    bits + seq(if |bits| % 8 == 0 then 0 else 8 - |bits| % 8, _ => 1)
  }

  // ----- a reader's view -----

  /** The bits to come, and whether more have been asked for than there were.  Behind the last bit a reader
      finds zeros. */
  datatype Source = Source(bits: seq<Bit>, dry: bool)

  function Zeros(n: nat): (b: seq<Bit>)
    ensures |b| == n
  {
    seq(n, _ => 0)
  }

  /** The next n bits. */
  function Next(s: Source, n: nat): (b: seq<Bit>)
    ensures |b| == n
  {
    if n <= |s.bits| then s.bits[..n] else s.bits + Zeros(n - |s.bits|)
  }

  function Drop(s: Source, n: nat): Source {
    if n <= |s.bits| then Source(s.bits[n..], s.dry) else Source([], true)
  }

  /** Taking n bits. */
  function Take(s: Source, n: nat): (nat, Source) {
    (FromBits(Next(s, n)), Drop(s, n))
  }

  lemma NextPrefix(s: Source, m: nat, n: nat)
    requires m <= n
    ensures Next(s, n)[..m] == Next(s, m)
    ensures m <= |s.bits| ==> Next(s, n)[m..] == Next(Drop(s, m), n - m)
  {
  }

  /** Reading a number just written. */
  lemma TakeWritten(v: nat, n: nat, rest: seq<Bit>, dry: bool)
    requires v < Pow2(n)
    ensures Take(Source(ToBits(v, n) + rest, dry), n) == (v, Source(rest, dry))
  {
    hide ToBits, FromBits;
    FromToBits(v, n);
    var s := Source(ToBits(v, n) + rest, dry);
    assert Next(s, n) == ToBits(v, n);
    assert s.bits[n..] == rest;
  }

  // ----- the order of bits -----

  /** Bits are sent from the highest down. */
  lemma {:induction false} HighestFirst(v: nat, n: nat, i: nat)
    requires i < n
    ensures ToBits(v, n)[i] == v / Pow2(n - 1 - i) % 2
    decreases n
  {
    if i == n - 1 {
      assert Pow2(0) == 1;
    } else {
      HighestFirst(v / 2, n - 1, i);
      Pow2Successor(n - 2 - i);
      hide Pow2;
      HalfTwice(v, Pow2(n - 2 - i));
    }
  }

  lemma HalfTwice(v: nat, p: nat)
    requires p > 0
    ensures v / 2 / p == v / (2 * p)
  {
    var q, r := v / 2 / p, v / 2 % p;
    assert v == 2 * (p * q + r) + v % 2;
    assert 2 * (p * q) == (2 * p) * q;
    Remainder(v, 2 * p, q, 2 * r + v % 2);
  }

  /** Eight bits make a byte, the first of them its highest. */
  lemma FirstIsHighest(bits: seq<Bit>, j: nat, i: nat)
    requires j < |bits| / 8 && i < 8
    ensures bits[8 * j + i] == Pack(bits)[j] / Pow2(7 - i) % 2
  {
    hide Pow2;
    var whole := bits[..|bits| - |bits| % 8];
    assert |bits| % 8 == 0 ==> whole == bits;
    assert Pack(bits) == Pack(whole);
    hide Pack;
    UnpackPack(whole);
    UnpackAt(Pack(whole), j, i);
  }

  lemma {:induction false} UnpackAt(p: seq<byte>, j: nat, i: nat)
    requires j < |p| && i < 8
    ensures Unpack(p)[8 * j + i] == p[j] / Pow2(7 - i) % 2
    decreases |p|
  {
    hide Pow2;
    if j < |p| - 1 {
      UnpackAt(p[..|p| - 1], j, i);
    } else {
      HighestFirst(p[j], 8, i);
    }
  }
}
