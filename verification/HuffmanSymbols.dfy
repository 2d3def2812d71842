/** Reading and writing one Huffman symbol: code words as bits, and the bit-by-bit decoding of figure
    F.16 of ITU-T T.81 with its 8-bit lookahead. */
module HuffmanSymbols {
  import opened Powers
  import opened BitStream
  import opened CodeLengths
  import opened CanonicalCode
  import opened DerivedTables

  // ----- decoding, on any bits -----

  /** The first l bits as a number. */
  function Code(s: Source, l: nat): nat { FromBits(Next(s, l)) }

  lemma CodeNext(s: Source, l: nat)
    ensures Code(s, l) == Code(s, l + 1) / 2
    ensures Code(s, l + 1) == 2 * Code(s, l) + Next(s, l + 1)[l]
  {
    NextPrefix(s, l, l + 1);
  }

  /** The length of the code word at the front: the least length from l on at which the bits read are below
      the end of the codes; 17 if there is none. */
  function FindLength(bits: Counts, s: Source, l: nat): (r: nat)
    requires |bits| == 17 && 1 <= l <= 17
    ensures l <= r <= 17
    ensures r < 17 ==> Code(s, r) < Scaled(bits, r)
    ensures forall k :: l <= k < r ==> Code(s, k) >= Scaled(bits, k)
    decreases 17 - l
  {
    if l == 17 then 17
    else if Code(s, l) < Scaled(bits, l) then l
    else FindLength(bits, s, l + 1)
  }

  /** The symbol at the front, and the bits behind it.  No code word there is read as symbol zero. */
  function ReadSymbol(t: HuffTable, s: Source): (SymbolNumber, Source)
  {
    var l := FindLength(t.bits, s, 1);
    if l == 17 then (0, Drop(s, 17))
    else
      TotalGrows(t.bits, l, 16);
      (t.values[Match(t.bits, Code(s, l), l)], Drop(s, l))
  }

  /** Bits below the end of the codes stay below it when one more is read. */
  lemma StaysBelow(bits: Counts, s: Source, l: nat)
    requires l + 1 < |bits|
    ensures Code(s, l) < Scaled(bits, l) ==> Code(s, l + 1) < Scaled(bits, l + 1)
    ensures Code(s, l) >= Scaled(bits, l) ==> Code(s, l + 1) >= 2 * Scaled(bits, l)
  {
    CodeNext(s, l);
    hide Code, Next;
  }

  /** The lookahead finds the same code word. */
  lemma {:induction false} LookaheadAgrees(bits: Counts, s: Source, l: nat)
    requires |bits| == 17 && 1 <= l <= 8 && Code(s, l) < Scaled(bits, l)
    ensures var r, m := FindLength(bits, s, 1), Match(bits, Code(s, l), l);
      && r <= l && Code(s, r) < Scaled(bits, r) && m == Match(bits, Code(s, r), r)
      && SizeAt(bits, m, l) == r
    decreases l
  {
    hide Code;
    CodeNext(s, l - 1);
    if Code(s, l - 1) < Scaled(bits, l - 1) {
      assert l - 1 > 0;
      LookaheadAgrees(bits, s, l - 1);
    } else {
      NotShorter(bits, s, l);
      FoundAt(bits, s, 1, l);
    }
  }

  /** Bits not below the end of the codes are not so at any shorter length. */
  lemma {:induction false} NotShorter(bits: Counts, s: Source, l: nat)
    requires l <= |bits| && 1 <= l && Code(s, l - 1) >= Scaled(bits, l - 1)
    ensures forall k :: 0 <= k < l ==> Code(s, k) >= Scaled(bits, k)
    decreases l
  {
    hide Code, Scaled;
    if l > 1 {
      StaysBelow(bits, s, l - 2);
      NotShorter(bits, s, l - 1);
    }
  }

  lemma {:induction false} FoundAt(bits: Counts, s: Source, k: nat, l: nat)
    requires |bits| == 17 && 1 <= k <= l <= 16 && Code(s, l) < Scaled(bits, l)
    requires forall j :: k <= j < l ==> Code(s, j) >= Scaled(bits, j)
    ensures FindLength(bits, s, k) == l
    decreases l - k
  {
    hide Code, Scaled;
    if k < l {
      FoundAt(bits, s, k + 1, l);
    }
  }

  /** Skipping lengths that are too short. */
  lemma {:induction false} StartLater(bits: Counts, s: Source, l: nat)
    requires |bits| == 17 && 1 <= l <= 17 && forall k :: 1 <= k < l ==> Code(s, k) >= Scaled(bits, k)
    ensures FindLength(bits, s, 1) == FindLength(bits, s, l)
  {
    StartFrom(bits, s, 1, l);
  }

  lemma {:induction false} StartFrom(bits: Counts, s: Source, j: nat, l: nat)
    requires |bits| == 17 && 1 <= j <= l <= 17 && forall k :: j <= k < l ==> Code(s, k) >= Scaled(bits, k)
    ensures FindLength(bits, s, j) == FindLength(bits, s, l)
    decreases l - j
  {
    hide Code, Scaled;
    if j < l {
      StartFrom(bits, s, j + 1, l);
    }
  }

  // ----- round trip -----

  /** The bits of the code word for a symbol. */
  function SymbolBits(d: Derived, symbol: nat): seq<Bit>
    requires symbol < 256
  {
    ToBits(d.code[symbol], d.size[symbol])
  }

  lemma {:induction false} ShorterCodes(bits: Counts, p: nat, s: Source, k: nat)
    requires |bits| == 17 && p < Total(bits, 16) && k < SizeAt(bits, p, 16)
    requires Code(s, SizeAt(bits, p, 16)) == CodeAt(bits, p)
    ensures Code(s, k) >= Scaled(bits, k)
    decreases SizeAt(bits, p, 16) - k
  {
    var n := SizeAt(bits, p, 16);
    CodeNext(s, n - 1);
    hide Code;
    NotShorter(bits, s, n);
  }

  /** A code word is read back as the symbol it was written for, whatever follows. */
  lemma SymbolRoundTrip(t: Table, isDc: bool, d: Derived, symbol: nat, rest: seq<Bit>, dry: bool)
    requires Accepted(t, isDc) && Derives(t, d) && symbol < 256 && d.size[symbol] > 0
    ensures ReadSymbol(t, Source(SymbolBits(d, symbol) + rest, dry)) == (symbol, Source(rest, dry))
  {
    RoomOf(t, isDc);
    hide SizeAt, CodeAt, Total, Scaled, LeavesRoom, Match, FromBits, ToBits, Next, Drop, Accepted, Code, FindLength;
    var p :| 0 <= p < Total(t.bits, 16) && t.values[p] == symbol;
    NotAllOnes(t.bits, p);
    var n := SizeAt(t.bits, p, 16);
    var s := Source(SymbolBits(d, symbol) + rest, dry);
    TakeWritten(d.code[symbol], n, rest, dry);
    assert Code(s, n) == CodeAt(t.bits, p) by { CodeIs(s, n); }
    CodeMatches(t.bits, p, s);
  }

  lemma RoomOf(t: Table, isDc: bool)
    requires Accepted(t, isDc)
    ensures LeavesRoom(t.bits) && Total(t.bits, 16) <= 256
  {
  }

  lemma CodeIs(s: Source, n: nat)
    ensures Code(s, n) == Take(s, n).0
  {
  }

  lemma CodeMatches(bits: Counts, p: nat, s: Source)
    requires |bits| == 17 && p < Total(bits, 16) && Code(s, SizeAt(bits, p, 16)) == CodeAt(bits, p)
    ensures var l := FindLength(bits, s, 1);
      l == SizeAt(bits, p, 16) && Code(s, l) < Scaled(bits, l) && Match(bits, Code(s, l), l) == p
  {
    var n := SizeAt(bits, p, 16);
    hide Code, Scaled, SizeAt, CodeAt, Match, Total;
    assert Pow2(0) == 1 && CodeAt(bits, p) / 1 == CodeAt(bits, p);
    MatchIs(bits, p, n, CodeAt(bits, p));
    forall k: nat | 1 <= k < n
      ensures Code(s, k) >= Scaled(bits, k)
    {
      ShorterCodes(bits, p, s, k);
    }
    FoundAt(bits, s, 1, n);
  }
}
