/** The Huffman decoder's bit buffer: bytes are fetched ahead of need, and zeros are supplied when a segment
    turns out to be too short. */
module BitReader {
  import opened Powers
  import opened ByteStream
  import opened BitStream
  import opened MarkerReading
  import opened CodeLengths
  import opened CanonicalCode
  import opened DerivedTables
  import opened HuffmanSymbols
  import KraftInequality

  const MIN_GET_BITS := 25

  /** The low bits of the buffer with one byte more. */
  lemma PushByte(buffer: nat, n: nat, c: byte)
    requires n <= 24
    ensures ToBits((buffer * 256 + c) % 0x1_0000_0000, n + 8) == ToBits(buffer, n) + ToBits(c, 8)
  {
    var x := buffer * 256 + c;
    Pow2Eight();
    assert Pow2(32) == 0x1_0000_0000 by { Pow2Plus8(24); }
    hide Pow2, ToBits;
    ModTwice(x, n + 8);
    ToBitsSplit(x, n, 8);
    assert x / 256 == buffer && x % 256 == c;
    ToBitsMod(x, 8);
  }

  /** Bits of a remainder. */
  lemma ModTwice(x: nat, n: nat)
    requires n <= 32
    ensures ToBits(x % Pow2(32), n) == ToBits(x, n)
  {
    hide Pow2, ToBits;
    Pow2Sum(n, 32 - n);
    ModMod(x, Pow2(n), Pow2(32 - n));
    ToBitsMod(x, n);
    ToBitsMod(x % Pow2(32), n);
  }

  lemma ModMod(x: nat, p: nat, q: nat)
    requires p > 0 && q > 0
    ensures p * q > 0 && x % (p * q) % p == x % p
  {
    var d, r := x / (p * q), x % (p * q);
    assert x == d * (p * q) + r;
    Swap(d, p, q);
    AddMultiple(d * q, p, r);
  }

  lemma Swap(d: nat, p: nat, q: nat)
    ensures d * (p * q) == d * q * p
  {
  }

  lemma AddMultiple(u: nat, p: nat, r: nat)
    requires p > 0
    ensures (u * p + r) % p == r % p
  {
    var k := r / p;
    assert r == k * p + r % p;
    assert u * p + k * p == (u + k) * p;
    Remainder((u + k) * p + r % p, p, u + k, r % p);
  }

  /** A number without its low n bits. */
  function High(x: nat, n: nat): nat {
    NotNegative(x, Pow2(n));
    x / Pow2(n)
  }

  lemma NotNegative(x: nat, p: nat)
    requires p > 0
    ensures 0 <= x / p
  {
  }

  /** The high and the low bits. */
  lemma {:induction false} ToBitsSplit(x: nat, m: nat, n: nat)
    ensures ToBits(x, m + n) == ToBits(High(x, n), m) + ToBits(x, n)
    decreases n
  {
    if n == 0 {
      assert High(x, 0) == x;
      assert ToBits(x, m) + [] == ToBits(x, m);
    } else {
      ToBitsSplit(x / 2, m, n - 1);
      KraftInequality.QuotientTwice(x, 2, Pow2(n - 1));
      assert High(x / 2, n - 1) == High(x, n);
      assert ToBits(x, m + n) == ToBits(x / 2, m + n - 1) + [x % 2];
    }
  }

  /** Taking n bits off the front of the buffer's. */
  lemma TakeFront(buffer: nat, n: nat, k: nat)
    requires n <= k
    ensures ToBits(buffer, k) == ToBits(High(buffer, k - n), n) + ToBits(buffer, k - n)
    ensures FromBits(ToBits(buffer, k)[..n]) == High(buffer, k - n) % Pow2(n)
  {
    hide Pow2, ToBits, FromBits, High;
    ToBitsSplit(buffer, n, k - n);
    var v := High(buffer, k - n);
    ToBitsMod(v, n);
    FromToBits(v % Pow2(n), n);
    assert ToBits(buffer, k)[..n] == ToBits(v, n);
  }

  /** The same with more bits behind the buffer's. */
  lemma TakeHeld(buffer: nat, n: nat, k: nat, tail: seq<Bit>)
    requires n <= k
    ensures var held := ToBits(buffer, k) + tail;
      FromBits(held[..n]) == High(buffer, k - n) % Pow2(n) && held[n..] == ToBits(buffer, k - n) + tail
  {
    hide Pow2, ToBits, FromBits, High;
    TakeFront(buffer, n, k);
    var held := ToBits(buffer, k) + tail;
    assert held[..n] == ToBits(buffer, k)[..n];
  }

  class BitSource {
    var source: seq<byte>
    var unreadMarker: byte
    var getBuffer: nat           // a 32-bit register, of which the low bitsLeft bits count
    var bitsLeft: nat
    var insufficient: bool       // zeros have been supplied in this segment

    ghost var coming: Source     // the bits to come, as a reader should see them

    /** What is in the buffer and still to be fetched. */
    ghost function Held(): seq<Bit>
      reads this
    {
      ToBits(getBuffer, bitsLeft) + Unpack(AheadOf(source, unreadMarker).data)
    }

    ghost predicate Valid()
      reads this
    {
      && bitsLeft <= 32 && coming.dry == insufficient
      && if insufficient then coming.bits == [] && Held() == Zeros(|Held()|) else Held() == coming.bits
    }

    /** What fetching leaves alone: where the segment ends. */
    twostate predicate SameSegment()
      reads this
    {
      var was, now := old(AheadOf(source, unreadMarker)), AheadOf(source, unreadMarker);
      now.marker == was.marker && now.rest == was.rest
    }

    constructor (input: seq<byte>)
      ensures Valid() && source == input && unreadMarker == 0
      ensures coming == Source(Unpack(ReadSegment(input).data), false)
    {
      source, unreadMarker, getBuffer, bitsLeft, insufficient := input, 0, 0, 0, false;
      coming := Source(Unpack(ReadSegment(input).data), false);
      new;
      assert ToBits(getBuffer, 0) == [];
      assert Held() == coming.bits;
    }

    /** Load the buffer to at least nbits bits; zeros are supplied only if there are too few. */
    method FillBitBuffer(nbits: nat)
      requires bitsLeft <= 32 && nbits <= MIN_GET_BITS
      modifies this`source, this`unreadMarker, this`getBuffer, this`bitsLeft, this`insufficient
      ensures bitsLeft <= 32 && SameSegment()
      ensures nbits <= bitsLeft
      ensures nbits <= |old(Held())| ==> Held() == old(Held()) && insufficient == old(insufficient)
      ensures nbits > |old(Held())| ==>
        insufficient && Held() == old(Held()) + Zeros(MIN_GET_BITS - |old(Held())|)
      ensures bitsLeft >= MIN_GET_BITS || bitsLeft == |Held()|
    {
      hide ReadSegment, ToBits, Pow2, Unpack;
      ghost var held := Held();
      while bitsLeft < MIN_GET_BITS && unreadMarker == 0
        invariant bitsLeft <= 32 && SameSegment() && Held() == held && insufficient == old(insufficient)
        decreases unreadMarker == 0, |source|
      {
        ghost var before := source;
        var marker, c;
        marker, c, source := ReadData(source);
        if marker != 0 {
          unreadMarker := marker;
        } else {
          PushByte(getBuffer, bitsLeft, c);
          UnpackFirst(c, ReadSegment(source).data);
          ghost var b0 := getBuffer;
          getBuffer := (getBuffer * 256 + c) % 0x1_0000_0000;
          bitsLeft := bitsLeft + 8;
          assert Held() == ToBits(b0, bitsLeft - 8) + (ToBits(c, 8) + Unpack(ReadSegment(source).data));
        }
      }
      if unreadMarker != 0 {
        assert Unpack(AheadOf(source, unreadMarker).data) == [] by { UnpackNothing(); }
        if nbits > bitsLeft {
          insufficient := true;
          ZeroFill(getBuffer, bitsLeft, MIN_GET_BITS - bitsLeft);
          getBuffer := (getBuffer * Pow2(MIN_GET_BITS - bitsLeft)) % 0x1_0000_0000;
          bitsLeft := MIN_GET_BITS;
        }
      }
    }

    static lemma UnpackNothing()
      ensures Unpack([]) == []
    {
    }

    /** Shifting zeros in. */
    static lemma ZeroFill(buffer: nat, n: nat, k: nat)
      requires n + k <= 32
      ensures ToBits((buffer * Pow2(k)) % 0x1_0000_0000, n + k) == ToBits(buffer, n) + Zeros(k)
    {
      assert Pow2(32) == 0x1_0000_0000 by { Pow2Eight(); Pow2Plus8(24); }
      hide Pow2, ToBits;
      var p := Pow2(k);
      var shifted: nat := buffer * p;
      ModTwice(shifted, n + k);
      ToBitsSplit(shifted, n, k);
      Remainder(shifted, p, buffer, 0);
      ToBitsMod(shifted, k);
      ZeroBits(k);
    }

    static lemma {:induction false} ZeroBits(k: nat)
      ensures ToBits(0, k) == Zeros(k)
    {
      if k > 0 {
        ZeroBits(k - 1);
      }
    }

    /** Take n bits. */
    method GetBits(n: nat) returns (v: nat)
      requires Valid() && n <= 16
      modifies this
      ensures Valid() && SameSegment()
      ensures (v, coming) == Take(old(coming), n)
    {
      hide ReadSegment, ToBits, FromBits, Pow2, Unpack;
      ghost var held := Held();
      if bitsLeft < n {
        FillBitBuffer(n);
      }
      TakeHeld(getBuffer, n, bitsLeft, Unpack(AheadOf(source, unreadMarker).data));
      FrontOf(coming, held, Held(), n, insufficient);
      v := High(getBuffer, bitsLeft - n) % Pow2(n);
      bitsLeft := bitsLeft - n;
      coming := Drop(coming, n);
    }

    /** The bits in the buffer are those to come, or zeros where there are none. */
    static lemma FrontOf(s: Source, held: seq<Bit>, now: seq<Bit>, n: nat, dry: bool)
      requires if s.dry then s.bits == [] && held == Zeros(|held|) else held == s.bits
      requires n <= |now|
      requires n <= |held| ==> now == held && dry == s.dry
      requires n > |held| ==> dry && |held| <= |now| && now == held + Zeros(|now| - |held|)
      ensures now[..n] == Next(s, n) && Drop(s, n).dry == (dry || (s.dry && n == 0))
      ensures if Drop(s, n).dry then Drop(s, n).bits == [] && now[n..] == Zeros(|now| - n)
              else now[n..] == Drop(s, n).bits
    {
    }

    /** Look at the next eight bits. */
    method Peek() returns (look: nat)
      requires Valid() && HUFF_LOOKAHEAD <= bitsLeft
      ensures look == Code(coming, 8) < 256
    {
      hide ToBits, Unpack, ReadSegment, FromBits;
      Pow2Eight();
      look := High(getBuffer, bitsLeft - 8) % 256;
      TakeFront(getBuffer, 8, bitsLeft);
      FrontOf(coming, Held(), Held(), 8, insufficient);
      assert Held()[..8] == ToBits(getBuffer, bitsLeft)[..8];
    }

    /** Drop bits that are in the buffer. */
    method DropBits(n: nat)
      requires Valid() && n <= bitsLeft && 0 < n
      modifies this`bitsLeft, this`coming
      ensures Valid() && SameSegment() && coming == Drop(old(coming), n)
    {
      hide ToBits, Unpack, ReadSegment, FromBits, Pow2;
      TakeHeld(getBuffer, n, bitsLeft, Unpack(AheadOf(source, unreadMarker).data));
      FrontOf(coming, Held(), Held(), n, insufficient);
      bitsLeft := bitsLeft - n;
      coming := Drop(coming, n);
    }

    /** Collect a code word bit by bit (figure F.16), when it is known to have at least minBits bits. */
    method SlowDecode(d: Decoder, minBits: nat) returns (symbol: nat)
      requires Valid() && ValidDecoder(d) && 1 <= minBits <= 16
      requires forall k :: 1 <= k < minBits ==> Code(coming, k) >= Scaled(d.t.bits, k)
      modifies this
      ensures Valid() && SameSegment() && (symbol, coming) == ReadSymbol(d.t, old(coming))
    {
      hide ToBits, Unpack, ReadSegment, FromBits, Pow2, Scaled, Total, LeavesRoom, DecoderLookahead, Code, Drop, Next,
        FindLength;
      ghost var s := coming;
      var l := minBits;
      var code: int := GetBits(l);
      CodeTaken(s, l);
      StartLater(d.t.bits, s, l);
      while code > d.maxcode[l]
        invariant Valid() && SameSegment() && 1 <= l <= 17 && code == Code(s, l) && coming == Drop(s, l)
        invariant FindLength(d.t.bits, s, 1) == FindLength(d.t.bits, s, l)
        invariant forall k :: 1 <= k < l ==> Code(s, k) >= Scaled(d.t.bits, k)
        decreases 17 - l
      {
        CodeSmall(s, l);
        LimitFails(d, s, l);
        code := 2 * code;
        var bit := GetBits(1);
        OneMoreBit(s, l);
        code := code + bit;
        l := l + 1;
      }
      if l > 16 {
        Sentinel(d.t.bits, s);
        return 0;
      }
      FoundHere(d, s, l);
      symbol := d.t.values[code + d.valoffset[l]];
    }

    /** Decode one symbol, by lookahead if eight bits can be had. */
    method HuffDecode(d: Decoder) returns (symbol: nat)
      requires Valid() && ValidDecoder(d)
      modifies this
      ensures Valid() && SameSegment() && (symbol, coming) == ReadSymbol(d.t, old(coming))
    {
      hide ToBits, Unpack, ReadSegment, FromBits, Pow2, Scaled, Total, LeavesRoom, Drop, Next, FindLength, Match,
        LookedUp;
      if bitsLeft < HUFF_LOOKAHEAD {
        Prefetch();
        if bitsLeft < HUFF_LOOKAHEAD {
          symbol := SlowDecode(d, 1);
          return;
        }
      }
      var look := Peek();
      var nb := d.lookNbits[look];
      LookaheadSays(d, coming, look);
      if nb != 0 {
        DropBits(nb);
        symbol := d.lookSym[look];
      } else {
        symbol := SlowDecode(d, HUFF_LOOKAHEAD + 1);
      }
    }

    /** Throw away what is left in the buffer and get past a restart marker.  If that leaves the source at
        another marker, the segment is empty and stays short. */
    method Restart(expected: nat)
      requires Valid() && expected < 8
      modifies this
      ensures Valid()
      ensures var g := old(AheadOf(source, unreadMarker));
        g.marker == RST0 + expected ==>
          unreadMarker == 0 && source == g.rest && coming == Source(Unpack(ReadSegment(g.rest).data), false)
    {
      hide ReadSegment, Unpack, Resynced;
      bitsLeft := 0;
      unreadMarker, source := ReadRestartMarker(source, unreadMarker, expected);
      if unreadMarker == 0 {
        insufficient := false;
      }
      coming := Source(Unpack(AheadOf(source, unreadMarker).data), insufficient);
      UnpackNothing();
      assert ToBits(getBuffer, 0) == [];
      assert Held() == coming.bits;
    }

    /** Fetch ahead without need. */
    method Prefetch()
      requires Valid()
      modifies this
      ensures Valid() && SameSegment() && coming == old(coming)
    {
      hide ToBits, Unpack, ReadSegment;
      FillBitBuffer(0);
    }
  }

  lemma CodeTaken(s: Source, l: nat)
    ensures Take(s, l) == (Code(s, l), Drop(s, l))
  {
  }

  lemma CodeSmall(s: Source, l: nat)
    ensures Code(s, l) < Pow2(l)
  {
  }

  /** The limit of a code length. */
  lemma LimitAt(d: Decoder, l: nat)
    requires ValidDecoder(d) && 1 <= l <= 17
    ensures |d.maxcode| == 18
    ensures d.maxcode[l] == if l == 17 then 0xF_FFFF else if d.t.bits[l] == 0 then -1 else Scaled(d.t.bits, l) - 1
  {
    hide LeavesRoom, DecoderLookahead, Scaled, Total;
  }

  lemma Pow2Seventeen()
    ensures Pow2(17) == 0x2_0000
  {
    Pow2Values();
  }

  /** The code so far is not below the end of the codes of its length. */
  lemma LimitFails(d: Decoder, s: Source, l: nat)
    requires ValidDecoder(d) && 1 <= l <= 17 && Code(s, l) < Pow2(l) && Code(s, l) > d.maxcode[l]
    requires forall k :: 1 <= k < l ==> Code(s, k) >= Scaled(d.t.bits, k)
    ensures l <= 16 && Code(s, l) >= Scaled(d.t.bits, l)
    ensures FindLength(d.t.bits, s, l) == FindLength(d.t.bits, s, l + 1)
  {
    LimitAt(d, l);
    Pow2Seventeen();
    hide Code, ValidDecoder, Pow2, DecoderLimits, DecoderLookahead;
    assert l <= 16;
    if d.t.bits[l] == 0 && l > 1 {
      StaysBelow(d.t.bits, s, l - 1);
    }
  }

  lemma OneMoreBit(s: Source, l: nat)
    ensures Take(Drop(s, l), 1).0 + 2 * Code(s, l) == Code(s, l + 1)
    ensures Take(Drop(s, l), 1).1 == Drop(s, l + 1)
  {
    CodeNext(s, l);
    var b := Next(Drop(s, l), 1);
    assert b[..0] == [];
    assert FromBits(b) == b[0];
    NextPrefix(s, l, l + 1);
  }

  /** Sixteen bits without a code word. */
  lemma Sentinel(bits: Counts, s: Source)
    requires |bits| == 17 && forall k :: 1 <= k < 17 ==> Code(s, k) >= Scaled(bits, k)
    ensures FindLength(bits, s, 1) == 17
  {
    hide Code, Scaled;
    StartLater(bits, s, 17);
  }

  /** A code within the limit of its length is that of a code word. */
  lemma FoundHere(d: Decoder, s: Source, l: nat)
    requires ValidDecoder(d) && 1 <= l <= 16 && Code(s, l) <= d.maxcode[l]
    requires forall k :: 1 <= k < l ==> Code(s, k) >= Scaled(d.t.bits, k)
    ensures FindLength(d.t.bits, s, l) == l && Code(s, l) < Scaled(d.t.bits, l)
    ensures Match(d.t.bits, Code(s, l), l) == Code(s, l) + d.valoffset[l] < 256
  {
    hide Code, ValidDecoder, Scaled, Total, Match;
    OffsetAt(d, l);
    LimitAt(d, l);
    if l > 1 {
      StaysBelow(d.t.bits, s, l - 1);
      MatchHere(d.t.bits, Code(s, l), l);
    } else {
      FirstMatch(d.t.bits, Code(s, l));
    }
  }

  /** What leads from a code word to its symbol. */
  lemma OffsetAt(d: Decoder, l: nat)
    requires ValidDecoder(d) && 1 <= l <= 16 && 0 <= d.maxcode[l]
    ensures d.valoffset[l] == Total(d.t.bits, l - 1) - 2 * Scaled(d.t.bits, l - 1)
    ensures Total(d.t.bits, l) == Total(d.t.bits, l - 1) + d.t.bits[l] <= 256
  {
    hide LeavesRoom, DecoderLookahead, Scaled, Total;
    TotalStep(d.t.bits, l);
  }

  lemma MatchHere(bits: Counts, code: nat, l: nat)
    requires |bits| == 17 && 1 < l <= 16 && 2 * Scaled(bits, l - 1) <= code < Scaled(bits, l)
    ensures Match(bits, code, l) == Total(bits, l - 1) + code - 2 * Scaled(bits, l - 1)
  {
    hide Scaled, Total;
  }

  lemma FirstMatch(bits: Counts, code: nat)
    requires |bits| == 17 && code < Scaled(bits, 1)
    ensures Match(bits, code, 1) == code && Total(bits, 0) == Scaled(bits, 0) == 0
  {
  }

  /** What an entry of the lookahead says. */
  lemma LookaheadSays(d: Decoder, s: Source, look: nat)
    requires ValidDecoder(d) && look == Code(s, 8) < 256
    ensures var nb := d.lookNbits[look];
      && nb <= 8
      && (nb != 0 ==> (d.lookSym[look], Drop(s, nb)) == ReadSymbol(d.t, s))
      && (nb == 0 ==> forall k :: 1 <= k < 9 ==> Code(s, k) >= Scaled(d.t.bits, k))
  {
    assert LookedUp(d.t, d.lookNbits, d.lookSym, look);
    if look < Scaled(d.t.bits, 8) {
      LookaheadAgrees(d.t.bits, s, 8);
    } else {
      NotShorter(d.t.bits, s, 9);
    }
  }
}
