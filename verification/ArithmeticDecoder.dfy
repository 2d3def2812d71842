/** The register-level arithmetic decoder: code base and look-ahead bits share one register with
    a floating cut point, and input bytes are fetched only when the interval is renormalised. */
module ArithmeticDecoder {
  import opened Powers
  import opened ProbabilityTable
  import opened Decisions
  import opened IntervalCoder
  import opened ByteStream
  import opened MarkerReading

  // ----- what the registers mean -----

  /** The registers c and ct with the data bytes still ahead stand for the exact offset.  The
      shift count is -16 before the first byte, -8 after it, and 0..7 when running. */
  ghost predicate Represents(d: Decoder, ahead: seq<byte>, c: int, a: int, ct: int) {
    && 0 <= c
    && if ct == -16 then
         a == 0 && c == 0 && d.width == 0x10000 && d.offset == 65536.0 * Fraction(ahead)
       else if ct == -8 then
         a == 0 && d.width == 0x10000 && d.offset == 256.0 * (c as real + Fraction(ahead))
       else
         && 0 <= ct <= 7 && d.width == a
         && d.offset * Pow2(ct) as real == c as real + Fraction(ahead)
  }

  /** The data bytes left after one is fetched; a reader past the end fetches zeros. */
  function Fetched(ahead: seq<byte>): (byte, seq<byte>) {
    if ahead == [] then (0, []) else (ahead[0], ahead[1..])
  }

  lemma FetchFraction(ahead: seq<byte>)
    ensures var (b, rest) := Fetched(ahead); 256.0 * Fraction(ahead) == b as real + Fraction(rest)
  {
    if ahead != [] {
      FractionFirst(ahead);
    }
  }

  /** Fetching a byte while the decoder starts up. */
  lemma FirstBytes(d: Decoder, ahead: seq<byte>, c: int, ct: int)
    requires Represents(d, ahead, c, 0, ct) && ct < 0
    ensures var (b, rest) := Fetched(ahead);
      Represents(d, rest, 256 * c + b, if ct == -16 then 0 else 0x10000, if ct == -16 then -8 else 0)
  {
    hide Fraction;
    FetchFraction(ahead);
  }

  /** The exact decoder after one doubling. */
  ghost function DoubleDecoder(d: Decoder): Decoder
    requires d.width < 0x8000
  {
    Decoder(2.0 * d.offset, 2 * d.width, d.stats)
  }

  /** One renormalisation shift, with and without a byte fetched. */
  lemma ShiftRepresented(d: Decoder, ahead: seq<byte>, c: int, a: int, ct: int)
    requires Represents(d, ahead, c, a, ct) && 0 <= ct && a < 0x8000
    ensures 0 < ct ==> Represents(DoubleDecoder(d), ahead, c, 2 * a, ct - 1)
    ensures ct == 0 ==>
      var (b, rest) := Fetched(ahead); Represents(DoubleDecoder(d), rest, 256 * c + b, 2 * a, 7)
  {
    hide Fraction, Pow2;
    FetchFraction(ahead);
    if 0 < ct {
      Pow2Successor(ct - 1);
      Regroup(d.offset, Pow2(ct - 1) as real);
    } else {
      Pow2Small();
      Regroup(d.offset, 128.0);
    }
  }

  lemma Regroup(x: real, p: real)
    ensures (2.0 * x) * p == x * (2.0 * p)
  {
  }

  lemma Pow2Small()
    ensures Pow2(0) == 1 && Pow2(7) == 128
  {
    assert Pow2(2) == 4;
    assert Pow2(4) == 16;
    assert Pow2(6) == 64;
  }

  /** Comparing the register with the shifted threshold compares the exact offset with it. */
  lemma ThresholdAgrees(x: real, p: int, c: int, f: real, rest: int)
    requires p > 0 && 0.0 <= f < 1.0 && x * p as real == c as real + f
    ensures x >= rest as real <==> c >= rest * p
    ensures (x - rest as real) * p as real == (c - rest * p) as real + f
  {
    var y, q := rest as real, p as real;
    assert (rest * p) as real == y * q;
    assert (x - y) * q == x * q - y * q;
    SameSign(x - y, q);
  }

  lemma SameSign(x: real, q: real)
    requires q > 0.0
    ensures x >= 0.0 <==> x * q >= 0.0
  {
  }

  /** Taking the upper or the lower sub-interval. */
  lemma SplitRepresented(n: Decoder, ahead: seq<byte>, c: int, a: int, ct: int, rest: int, next: Decoder)
    requires Represents(n, ahead, c, a, ct) && 0 <= ct
    ensures n.offset >= rest as real <==> c >= rest * Pow2(ct)
    ensures c >= rest * Pow2(ct) && next.offset == n.offset - rest as real ==>
      Represents(next, ahead, c - rest * Pow2(ct), next.width, ct)
    ensures next.offset == n.offset ==> Represents(next, ahead, c, next.width, ct)
  {
    hide Fraction, Pow2;
    FractionRange(ahead);
    ThresholdAgrees(n.offset, Pow2(ct), c, Fraction(ahead), rest);
  }

  /** Whatever bytes arrive, the register stays below the shifted interval, and in 23 bits. */
  lemma RegisterBound(d: Decoder, ahead: seq<byte>, c: int, a: int, ct: int)
    requires Represents(d, ahead, c, a, ct) && 0 <= ct
    ensures c < a * Pow2(ct) <= 0x80_0000
  {
    hide Fraction, Pow2;
    FractionRange(ahead);
    Pow2Monotone(ct, 7);
    Pow2Small();
    BelowThreshold(d.offset, a, Pow2(ct), c, Fraction(ahead));
    BoundProduct(a, Pow2(ct));
  }

  lemma BelowThreshold(x: real, a: int, p: int, c: int, f: real)
    requires p > 0 && x < a as real && 0.0 <= f && x * p as real == c as real + f
    ensures c < a * p
  {
    var w, q := a as real, p as real;
    assert (a * p) as real == w * q;
    Below(x, w, q);
  }

  lemma Below(x: real, w: real, q: real)
    requires x < w && q > 0.0
    ensures x * q < w * q
  {
  }

  lemma BoundProduct(a: int, p: int)
    requires 0 <= a <= 0x10000 && 0 < p <= 128
    ensures a * p <= 0x80_0000
  {
    assert a * p <= 0x10000 * p;
  }

  // ----- the decoder object -----

  class DecoderObject {
    var c: int                 // code base and look-ahead bits
    var a: int                 // interval width
    var ct: int                // number of look-ahead bits; -1 after an error
    var stats: Stats
    var source: seq<byte>      // input not yet read
    var unreadMarker: byte     // marker that ended the segment, or 0

    ghost var exact: Decoder   // what the registers stand for

    ghost predicate Valid()
      reads this
    {
      && Represents(exact, AheadOf(source, unreadMarker).data, c, a, ct)
      && exact.stats == stats
      && ct != -8 && ct != -1
      && (0 <= ct ==> exact.width == a)
    }

    /** Start a segment of the given input. */
    constructor (input: seq<byte>)
      ensures Valid() && source == input && unreadMarker == 0 && stats == map[]
      ensures exact == Decoder(65536.0 * Fraction(ReadSegment(input).data), 0x10000, map[])
    {
      c, a, ct := 0, 0, -16;
      stats, source, unreadMarker := map[], input, 0;
      FractionRange(ReadSegment(input).data);
      exact := Decoder(65536.0 * Fraction(ReadSegment(input).data), 0x10000, map[]);
    }

    /** Fetch one data byte, discarding stuffed zeros; zero once a marker has been met. */
    method FetchData() returns (data: byte)
      modifies this`source, this`unreadMarker
      ensures var was, now := AheadOf(old(source), old(unreadMarker)), AheadOf(source, unreadMarker);
        && (data, now.data) == Fetched(was.data)
        && now.marker == was.marker && now.rest == was.rest
    {
      hide ReadSegment;
      data := 0;
      if unreadMarker == 0 {
        unreadMarker, data, source := ReadData(source);
        if unreadMarker != 0 {
          data := 0;
        }
      }
    }

    /** What every step leaves alone: where the segment ends and what follows it. */
    twostate predicate SameSegment()
      reads this
    {
      var was, now := old(AheadOf(source, unreadMarker)), AheadOf(source, unreadMarker);
      now.marker == was.marker && now.rest == was.rest
    }

    /** One shift of the registers, with a byte fetched when the look-ahead bits are used up. */
    method Shift()
      requires Represents(exact, AheadOf(source, unreadMarker).data, c, a, ct) && a < 0x8000
      modifies this`c, this`a, this`ct, this`source, this`unreadMarker
      ensures old(ct) < 0 ==>
        Represents(exact, AheadOf(source, unreadMarker).data, c, a, ct) && a == if ct < 0 then 0 else 0x10000
      ensures old(ct) >= 0 ==>
        && Represents(DoubleDecoder(exact), AheadOf(source, unreadMarker).data, c, a, ct)
        && 0 <= ct && a == 2 * old(a)
      ensures old(ct) == -16 ==> ct == -8
      ensures old(ct) == -8 ==> ct == 0
      ensures SameSegment()
    {
      hide Fraction, ReadSegment, Pow2, AheadOf;
      ghost var ahead := AheadOf(source, unreadMarker).data;
      if ct < 0 {
        FirstBytes(exact, ahead, c, ct);
      } else {
        ShiftRepresented(exact, ahead, c, a, ct);
      }
      ct := ct - 1;
      if ct < 0 {
        var data := FetchData();
        c := c * 256 + data;
        ct := ct + 8;
        if ct < 0 {
          ct := ct + 1;
          if ct == 0 {
            a := 0x8000;
          }
        }
      }
      a := 2 * a;
    }

    /** Renormalisation, fetching bytes as needed; two bytes are needed to start a segment. */
    method Renormalise()
      requires Valid()
      modifies this`c, this`a, this`ct, this`source, this`unreadMarker, this`exact
      ensures Valid() && 0 <= ct && 0x8000 <= a && exact == NormaliseDecoder(old(exact))
      ensures SameSegment()
    {
      hide Fraction, ReadSegment, Pow2, AheadOf;
      while a < 0x8000
        invariant Represents(exact, AheadOf(source, unreadMarker).data, c, a, ct)
        invariant exact.stats == stats
        invariant NormaliseDecoder(exact) == NormaliseDecoder(old(exact))
        invariant SameSegment()
        invariant ct < 0 ==> a == 0
        decreases if ct < 0 then -ct else 0, 0x10000 - a
      {
        ghost var starting := ct < 0;
        Shift();
        if !starting {
          exact := DoubleDecoder(exact);
        }
      }
    }

    /** Decode one binary decision. */
    method Decode(k: Context) returns (bit: Bit)
      requires Valid() && Standard(k)
      modifies this`c, this`a, this`ct, this`source, this`unreadMarker, this`stats, this`exact
      ensures Valid() && 0 <= ct
      ensures (bit, exact) == IntervalCoder.Decode(old(exact), k)
      ensures SameSegment()
    {
      hide Lookup, Represents, Pow2, ReadSegment, AheadOf, BinAt, Mps, AfterLps, AfterMps;
      Renormalise();
      var sv := BinAt(stats, k);
      var r := Lookup(sv % 128);
      var qe := r.qe;
      ghost var next := IntervalCoder.Decode(old(exact), k).1;
      SplitRepresented(exact, AheadOf(source, unreadMarker).data, c, a, ct, a - qe, next);
      exact := next;

      var temp := a - qe;
      a := temp;
      temp := temp * Pow2(ct);
      var mps := Mps(sv);
      if c >= temp {
        c := c - temp;
        if a < qe {
          a := qe;
          stats := Store(stats, k, AfterMps(sv, r));
        } else {
          a := qe;
          stats := Store(stats, k, AfterLps(sv, r));
          mps := 1 - mps;
        }
      } else if a < 0x8000 {
        if a < qe {
          stats := Store(stats, k, AfterLps(sv, r));
          mps := 1 - mps;
        } else {
          stats := Store(stats, k, AfterMps(sv, r));
        }
      }
      bit := mps;
    }

    /** Reset the registers to start reading a segment. */
    method BeginSegment(initial: Stats)
      modifies this`c, this`a, this`ct, this`stats, this`exact
      ensures Valid()
      ensures exact == Decoder(65536.0 * Fraction(AheadOf(source, unreadMarker).data), 0x10000, initial)
    {
      c, a, ct := 0, 0, -16;
      stats := initial;
      FractionRange(AheadOf(source, unreadMarker).data);
      exact := Decoder(65536.0 * Fraction(AheadOf(source, unreadMarker).data), 0x10000, initial);
    }
  }
}
