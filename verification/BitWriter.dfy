/** The bit accumulator of the Huffman encoder, and its working state while an MCU is written: output
    room may run out, in which case the MCU is abandoned. */
module BitWriter {
  import opened Powers
  import opened ByteStream
  import opened BitStream

  // ----- arithmetic of the accumulator -----

  lemma CancelFactor(x: nat, p: nat, q: nat)
    requires p > 0 && q > 0
    ensures p * q > 0 && (x * p) / (q * p) == x / q && (x * p) % (q * p) == (x % q) * p
  {
    var d, r := x / q, x % q;
    assert x == d * q + r;
    assert x * p == d * (q * p) + r * p by {
      Associate(d, q, p);
      assert (d * q + r) * p == d * q * p + r * p;
    }
    Below(r, q, p);
    Remainder(d * (q * p) + r * p, q * p, d, r * p);
  }

  lemma Below(r: nat, q: nat, p: nat)
    requires r < q && p > 0
    ensures 0 <= r * p < q * p
  {
    AtMost(r + 1, q, p);
  }

  /** The accumulator's valid bits are left-justified in its low 24 bits. */
  ghost predicate Justified(buffer: nat, n: nat, pending: seq<Bit>) {
    n <= 24 && |pending| == n && buffer % 0x100_0000 == FromBits(pending) * Pow2(24 - n)
  }

  /** The byte taken out is the first eight pending bits, and the shift leaves the others. */
  lemma TakeByte(buffer: nat, n: nat, pending: seq<Bit>)
    requires Justified(buffer, n, pending) && 8 <= n
    ensures (buffer / 0x1_0000) % 256 == FromBits(pending[..8])
    ensures Justified((buffer * 256) % 0x1_0000_0000, n - 8, pending[8..])
  {
    var low, rest := buffer % 0x100_0000, pending[8..];
    assert pending == pending[..8] + rest;
    HighBits(pending[..8], rest);
    hide FromBits, Pow2;
    Pow2Eight();
    Pow2Values();
    Pow2Sum(n - 8, 24 - n);
    CancelFactor(FromBits(pending), Pow2(24 - n), Pow2(n - 8));
    assert low / 0x1_0000 == FromBits(pending[..8]) && low % 0x1_0000 == FromBits(rest) * Pow2(24 - n);
    LowPart(buffer);
    Pow2Plus8(24 - n);
    Regroup(FromBits(rest), Pow2(24 - n));
  }

  lemma Regroup(x: nat, p: nat)
    ensures x * p * 256 == x * (256 * p)
  {
  }

  lemma LowPart(buffer: nat)
    ensures (buffer / 0x1_0000) % 256 == (buffer % 0x100_0000) / 0x1_0000
    ensures ((buffer * 256) % 0x1_0000_0000) % 0x100_0000 == (buffer % 0x1_0000) * 256
    ensures buffer % 0x1_0000 == (buffer % 0x100_0000) % 0x1_0000
  {
    var high, mid, low := buffer / 0x100_0000, buffer / 0x1_0000 % 256, buffer % 0x1_0000;
    assert buffer == high * 0x100_0000 + mid * 0x1_0000 + low;
    assert buffer % 0x100_0000 == mid * 0x1_0000 + low;
    ShiftedLow(high, mid, low);
  }

  lemma ShiftedLow(high: nat, mid: nat, low: nat)
    requires mid < 256 && low < 0x1_0000
    ensures ((high * 0x100_0000 + mid * 0x1_0000 + low) * 256) % 0x1_0000_0000 % 0x100_0000 == low * 256
  {
    var x := mid * 0x100_0000 + low * 256;
    assert (high * 0x100_0000 + mid * 0x1_0000 + low) * 256 == high * 0x1_0000_0000 + x;
    assert (high * 0x1_0000_0000 + x) % 0x1_0000_0000 == x;
  }

  /** The accumulator with `size` more bits; the two operands have no bit in common. */
  function Combined(buffer: nat, n: nat, v: nat, size: nat): nat
    requires n + size <= 24
  {
    v * Pow2(24 - (n + size)) + buffer
  }

  /** New bits go in behind the pending ones. */
  lemma Insert(buffer: nat, n: nat, pending: seq<Bit>, v: nat, size: nat)
    requires Justified(buffer, n, pending) && n + size <= 24 && v < Pow2(size)
    ensures Justified(Combined(buffer, n, v, size), n + size, pending + ToBits(v, size))
    ensures v * Pow2(24 - (n + size)) < Pow2(24 - n) && buffer % Pow2(24 - n) == 0
  {
    hide FromBits, Pow2, ToBits;
    var p := Pow2(24 - (n + size));
    FromToBits(v, size);
    FromBitsConcat(pending, ToBits(v, size));
    Pow2Sum(size, 24 - (n + size));
    Below(v, Pow2(size), p);
    Pow2Eight();
    Pow2Sum(n, 24 - n);
    var x := FromBits(pending);
    assert (x * Pow2(size) + v) * p == x * (Pow2(size) * p) + v * p by { Distribute(x, Pow2(size), v, p); }
    Below(x, Pow2(n), Pow2(24 - n));
    SumBelow(x, Pow2(n), v * p, Pow2(24 - n));
    AddLow(buffer, v * p);
    MultipleOf(buffer, x, Pow2(n), Pow2(24 - n));
  }

  lemma Distribute(x: nat, s: nat, v: nat, p: nat)
    ensures (x * s + v) * p == x * (s * p) + v * p
  {
  }

  lemma SumBelow(x: nat, n: nat, y: nat, p: nat)
    requires x < n && y < p
    ensures x * p + y < n * p
  {
    AtMost(x + 1, n, p);
  }

  lemma AddLow(buffer: nat, y: nat)
    requires buffer % 0x100_0000 + y < 0x100_0000
    ensures (y + buffer) % 0x100_0000 == buffer % 0x100_0000 + y
  {
  }

  lemma MultipleOf(buffer: nat, x: nat, n: nat, p: nat)
    requires n * p == 0x100_0000 && buffer % 0x100_0000 == x * p && p > 0
    ensures buffer % p == 0
  {
    var k := buffer / 0x100_0000;
    assert buffer == k * (n * p) + x * p;
    Distribute(k, n, x, p);
    Remainder((k * n + x) * p, p, k * n + x, 0);
  }

  lemma SameRemainder(x: nat, y: nat)
    ensures x % 8 <= 7 && (x % 8 + y) % 8 == (x + y) % 8
  {
  }

  // ----- the working state -----

  datatype Emitted = Done | Suspended | MissingCode

  /** Output pointer, room and accumulator while an MCU is being written. */
  class WorkingState {
    /** Whether a full buffer can be emptied at once, to this many bytes; if not, writing is suspended. */
    const accepts: bool
    const bufferSize: nat
    var out: seq<byte>
    var room: nat
    var putBuffer: nat
    var putBits: nat
    ghost var base: seq<byte>     // output before the current segment
    ghost var bits: seq<Bit>      // bits of the segment so far

    /** All whole bytes are out, stuffed, and the accumulator holds the rest. */
    ghost predicate Valid()
      reads this
    {
      && 0 < room && 0 < bufferSize && putBits == |bits| % 8
      && Holds(base, bits, out, putBuffer, putBits)
    }

    static ghost predicate Holds(base: seq<byte>, bits: seq<Bit>, out: seq<byte>, buffer: nat, n: nat) {
      && n <= |bits| && (|bits| - n) % 8 == 0
      && out == base + Stuff(Pack(bits[..|bits| - n]))
      && Justified(buffer, n, bits[|bits| - n..])
    }

    constructor (accepts: bool, bufferSize: nat, out: seq<byte>, room: nat, putBuffer: nat, putBits: nat,
        ghost base: seq<byte>, ghost bits: seq<Bit>)
      requires 0 < room && 0 < bufferSize && putBits == |bits| % 8 && Holds(base, bits, out, putBuffer, putBits)
      ensures Valid() && this.accepts == accepts && this.bufferSize == bufferSize && this.out == out
      ensures this.room == room
      ensures this.putBuffer == putBuffer && this.putBits == putBits && this.base == base && this.bits == bits
    {
      this.accepts := accepts;
      this.bufferSize := bufferSize;
      this.out := out;
      this.room := room;
      this.putBuffer := putBuffer;
      this.putBits := putBits;
      this.base := base;
      this.bits := bits;
    }

    /** Write a byte; a buffer that is full then must be emptied. */
    method EmitByte(val: byte) returns (ok: bool)
      requires 0 < room && 0 < bufferSize
      modifies this`out, this`room
      ensures out == old(out) + [val]
      ensures ok ==> 0 < room && (!accepts ==> |out| + room == old(|out| + room))
      ensures !ok ==> !accepts && |out| == old(|out| + room)
    {
      out := out + [val];
      room := room - 1;
      if room == 0 {
        if !accepts {
          return false;
        }
        room := bufferSize;
      }
      ok := true;
    }

    /** How many bytes have been put out when all bits so far and these are. */
    static ghost function BytesOut(base: seq<byte>, bits: seq<Bit>): nat {
      |base| + |Stuff(Pack(bits[..|bits| - |bits| % 8]))|
    }

    /** Write the low `size` bits of a code; a size of zero means that there is no code. */
    method EmitBits(code: int, size: nat) returns (r: Emitted)
      requires Valid() && size <= 16
      modifies this
      ensures r == MissingCode <==> size == 0
      ensures r == MissingCode ==> unchanged(this)
      ensures r == Done ==>
        && Valid() && base == old(base) && bits == old(bits) + ToBits(code % Pow2(size), size)
        && (!accepts ==> |out| + room == old(|out| + room))
      ensures r == Suspended ==>
        !accepts && old(|out| + room) <= BytesOut(old(base), old(bits) + ToBits(code % Pow2(size), size))
    {
      hide Holds, Pow2, ToBits, BytesOut;
      if size == 0 {
        return MissingCode;
      }
      var ok := PutBits(code % Pow2(size), size);
      r := if ok then Done else Suspended;
    }

    /** Add bits to the buffer and put the whole bytes out. */
    method PutBits(v: nat, size: nat) returns (ok: bool)
      requires Valid() && 1 <= size <= 16 && v < Pow2(size)
      modifies this
      ensures ok ==> Valid() && base == old(base) && bits == old(bits) + ToBits(v, size)
      ensures ok && !accepts ==> |out| + room == old(|out| + room)
      ensures !ok ==> !accepts && old(|out| + room) <= BytesOut(old(base), old(bits) + ToBits(v, size))
    {
      hide Holds, Justified, Stuff, Pack, Combined, Pow2, ToBits, BytesOut;
      Accumulate(base, bits, out, putBuffer, putBits, v, size);
      var buffer := Combined(putBuffer, putBits, v, size);
      var n := putBits + size;
      SameRemainder(|bits|, size);
      bits := bits + ToBits(v, size);
      ok, buffer, n := PutBytes(buffer, n);
      if ok {
        putBuffer := buffer;
        putBits := n;
      }
    }

    static lemma Accumulate(base: seq<byte>, bits: seq<Bit>, out: seq<byte>, buffer: nat, n: nat, v: nat, size: nat)
      requires Holds(base, bits, out, buffer, n) && n + size <= 24 && v < Pow2(size)
      ensures Holds(base, bits + ToBits(v, size), out, Combined(buffer, n, v, size), n + size)
    {
      hide Justified, Combined, Stuff, Pack, Pow2, ToBits;
      var k := |bits| - n;
      Insert(buffer, n, bits[k..], v, size);
      var more := ToBits(v, size);
      var after := bits + more;
      assert |after| - (n + size) == k;
      assert after[..k] == bits[..k];
      assert after[k..] == bits[k..] + more;
    }

    /** Put whole bytes out, stuffing a zero byte behind every 0xFF. */
    method PutBytes(buffer0: nat, n0: nat) returns (ok: bool, buffer: nat, n: nat)
      requires 0 < room && 0 < bufferSize && n0 <= 23 && n0 % 8 == |bits| % 8 && Holds(base, bits, out, buffer0, n0)
      modifies this`out, this`room
      ensures ok ==> 0 < room && n == |bits| % 8 && Holds(base, bits, out, buffer, n)
      ensures ok && !accepts ==> |out| + room == old(|out| + room)
      ensures !ok ==> !accepts && old(|out| + room) <= BytesOut(base, bits)
    {
      hide Holds, Justified, Stuff, Pack, BytesOut;
      buffer, n := buffer0, n0;
      while n >= 8
        invariant n <= 23 && n % 8 == |bits| % 8 && 0 < room && Holds(base, bits, out, buffer, n)
        invariant !accepts ==> |out| + room == old(|out| + room)
      {
        ghost var o := out;
        ByteOut(base, bits, out, buffer, n);
        var c: byte := (buffer / 0x1_0000) % 256;
        ok := EmitByte(c);
        if !ok {
          return;
        }
        if c == 0xFF {
          ok := EmitByte(0);
          assert out == o + StuffByte(c);
          if !ok {
            return;
          }
        }
        assert out == o + StuffByte(c);
        buffer := (buffer * 256) % 0x1_0000_0000;
        n := n - 8;
      }
      ok := true;
    }

    /** The next byte out. */
    static lemma ByteOut(base: seq<byte>, bits: seq<Bit>, out: seq<byte>, buffer: nat, n: nat)
      requires Holds(base, bits, out, buffer, n) && 8 <= n
      ensures var c: byte := (buffer / 0x1_0000) % 256;
        && Holds(base, bits, out + StuffByte(c), (buffer * 256) % 0x1_0000_0000, n - 8)
        && |out + StuffByte(c)| <= BytesOut(base, bits)
    {
      hide Stuff, Pack, Justified, StuffByte;
      NextHolds(base, bits, out, buffer, n);
      var k := |bits| - n + 8;
      assert k <= |bits| - |bits| % 8;
      StuffGrows(bits, k, |bits| - |bits| % 8);
    }

    static lemma NextHolds(base: seq<byte>, bits: seq<Bit>, out: seq<byte>, buffer: nat, n: nat)
      requires Holds(base, bits, out, buffer, n) && 8 <= n
      ensures Holds(base, bits, out + StuffByte((buffer / 0x1_0000) % 256), (buffer * 256) % 0x1_0000_0000, n - 8)
    {
      var k := |bits| - n;
      var pending := bits[k..];
      TakeByte(buffer, n, pending);
      assert bits[..k + 8] == bits[..k] + pending[..8];
      assert bits[k + 8..] == pending[8..];
      PackAppend(bits[..k], pending[..8]);
      StuffAppend(Pack(bits[..k]), FromBits(pending[..8]));
      hide Stuff, Pack, Justified, FromBits;
    }

    /** More bits, no fewer bytes. */
    static lemma {:induction false} StuffGrows(bits: seq<Bit>, i: nat, j: nat)
      requires i <= j <= |bits| && i % 8 == 0 && j % 8 == 0
      ensures |Stuff(Pack(bits[..i]))| <= |Stuff(Pack(bits[..j]))|
      decreases j
    {
      if i < j {
        StuffGrows(bits, i, j - 8);
        assert bits[..j] == bits[..j - 8] + bits[j - 8..j];
        PackAppend(bits[..j - 8], bits[j - 8..j]);
        StuffAppend(Pack(bits[..j - 8]), FromBits(bits[j - 8..j]));
      }
    }

    /** Fill the last byte up with ones and empty the accumulator; the segment is complete. */
    method FlushBits() returns (ok: bool)
      requires Valid()
      modifies this
      ensures ok ==> Valid() && bits == [] && base == out == old(base) + Stuff(Pack(Flushed(old(bits))))
      ensures ok && !accepts ==> |out| + room == old(|out| + room)
      ensures !ok ==> !accepts && old(|out| + room) <= BytesOut(old(base), Flushed(old(bits)))
    {
      ghost var before := bits;
      SevenOnes(before);
      hide Justified, Stuff, Pack, Pow2, ToBits, BytesOut, Flushed;
      var r := EmitBits(0x7F, 7);
      if r != Done {
        return false;
      }
      putBuffer := 0;
      putBits := 0;
      base := out;
      bits := [];
      EmptySegment(out);
      ok := true;
    }

    /** Seven ones fill any partial byte. */
    static lemma SevenOnes(bits: seq<Bit>)
      ensures var all := bits + ToBits(0x7F % Pow2(7), 7);
        && all[..|all| - |all| % 8] == Flushed(bits)
        && forall base :: BytesOut(base, all) == BytesOut(base, Flushed(bits))
    {
      SevenBits();
      var all := bits + ToBits(0x7F % Pow2(7), 7);
      var full := Flushed(bits);
      SevenMore(|bits|);
      assert all[..|all| - |all| % 8] == full;
      assert full[..|full| - |full| % 8] == full;
    }

    static lemma SevenBits()
      ensures ToBits(0x7F % Pow2(7), 7) == [1, 1, 1, 1, 1, 1, 1]
    {
      assert Pow2(4) == 16 && Pow2(7) == 128;
      assert ToBits(0x3, 2) == [1, 1];
      assert ToBits(0xF, 4) == [1, 1, 1, 1];
      assert ToBits(0x3F, 6) == [1, 1, 1, 1, 1, 1];
    }

    static lemma SevenMore(n: nat)
      ensures var k := if n % 8 == 0 then 0 else 8 - n % 8;
        n + 7 - (n + 7) % 8 == n + k && k <= 7
    {
    }

    static lemma EmptySegment(out: seq<byte>)
      ensures Holds(out, [], out, 0, 0)
    {
      assert out + [] == out;
    }

    /** Write a marker; the next segment starts behind it. */
    method EmitMarker(code: byte) returns (ok: bool)
      requires Valid() && bits == [] && base == out
      modifies this
      ensures ok ==> Valid() && bits == [] && base == out == old(out) + [0xFF, code]
      ensures ok && !accepts ==> |out| + room == old(|out| + room)
      ensures !ok ==> !accepts && old(|out| + room) <= old(|out|) + 2
    {
      hide Justified, Stuff, Pack;
      ok := EmitByte(0xFF);
      if !ok {
        return;
      }
      ok := EmitByte(code);
      if !ok {
        return;
      }
      assert out == old(out) + [0xFF, code];
      base := out;
      EmptyMoved(old(out), out, putBuffer, putBits);
    }

    static lemma EmptyMoved(was: seq<byte>, now: seq<byte>, buffer: nat, n: nat)
      requires Holds(was, [], was, buffer, n)
      ensures Holds(now, [], now, buffer, n)
    {
      assert now + Stuff(Pack([])) == now;
    }
  }
}
