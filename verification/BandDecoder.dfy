/** The progressive Huffman decoder's loops over one AC band, writing the block in place: first pass and
    refinement, on any bits. */
module BandDecoder {
  import opened Powers
  import opened Coefficients
  import opened BitStream
  import opened CanonicalCode
  import opened CodeLengths
  import opened DerivedTables
  import opened HuffmanSymbols
  import opened HuffmanBlocks
  import opened HuffmanScanDecoder
  import opened BandItems
  import opened BandReading
  import opened BitReader
  import BlockRefinement

  /** The number of blocks an end-of-band symbol of category r stands for. */
  method DecodeRun(src: BitSource, r: nat) returns (n: nat)
    requires src.Valid() && r <= 14
    modifies src
    ensures src.Valid() && src.SameSegment() && n >= 1 && (n, src.coming) == ReadRun(old(src.coming), r)
  {
    hide Take;
    n := Pow2(r);
    if r != 0 {
      var more := src.GetBits(r);
      n := n + more;
    }
  }

  /** First pass. */
  method DecodeFirst(src: BitSource, act: Decoder, p: Band, blk: array<Coef>, eobRun0: nat) returns (eobRun: nat)
    requires src.Valid() && ValidDecoder(act) && ValidBand(p) && !p.refine && blk.Length == 64 && !src.coming.dry
    modifies src, blk
    ensures src.Valid() && src.SameSegment()
    ensures ReadBand(p, act.t, old(src.coming), eobRun0, old(blk[..])) == BandRead(blk[..], src.coming, eobRun)
  {
    if eobRun0 > 0 {
      eobRun := eobRun0 - 1;
    } else {
      eobRun := DecodeFirstCodes(src, act, p, blk);
    }
  }

  method DecodeFirstCodes(src: BitSource, act: Decoder, p: Band, blk: array<Coef>) returns (eobRun: nat)
    requires src.Valid() && ValidDecoder(act) && ValidBand(p) && !p.refine && blk.Length == 64
    modifies src, blk
    ensures src.Valid() && src.SameSegment()
    ensures ReadFirstBand(p, act.t, old(src.coming), old(blk[..]), p.ss) == BandRead(blk[..], src.coming, eobRun)
  {
    hide ReadSymbol, ReadExtra, ReadRun, DecoderLimits, DecoderLookahead, LeavesRoom, Total, Pow2, src.Valid, ToCoef;
    var k := p.ss;
    while k <= p.se
      invariant src.Valid() && src.SameSegment()
      invariant ReadFirstBand(p, act.t, old(src.coming), old(blk[..]), p.ss)
        == ReadFirstBand(p, act.t, src.coming, blk[..], k)
      decreases p.se + 1 - k
    {
      ghost var b := blk[..];
      var sym := src.HuffDecode(act);
      var r := sym / 16;
      var s := sym % 16;
      assert blk[..] == b;
      if s != 0 {
        k := k + r;
        var x := DecodeExtra(src, s);
        blk[Within(k)] := ToCoef(x * Pow2(p.al));
        assert blk[..] == b[Within(k) := ToCoef(x * Pow2(p.al))];
        k := k + 1;
      } else {
        if r != 15 {
          SymbolRun(act.t, sym);
          var n := DecodeRun(src, r);
          assert blk[..] == b;
          return n - 1;
        }
        k := k + 16;
      }
    }
    eobRun := 0;
  }

  lemma SymbolRun(t: HuffTable, sym: SymbolNumber)
    requires sym / 16 != 15
    ensures sym / 16 <= 14
  {
  }

  /** Read a correction bit and apply it, unless it has been applied already. */
  method Correct(src: BitSource, p: Band, blk: array<Coef>, k: nat)
    requires src.Valid() && blk.Length == 64 && k < 64
    modifies src, blk
    ensures src.Valid() && src.SameSegment()
    ensures var (bit, s1) := Take(old(src.coming), 1);
      src.coming == s1 && blk[..] == old(blk[..])[k := CorrectedBy(bit, old(blk[k]), p.al)]
  {
    hide Take, BlockRefinement.BitOf, Pow2;
    ghost var b := blk[..];
    var bit := src.GetBits(1);
    if bit == 1 {
      if BlockRefinement.BitOf(blk[k], p.al) == 0 {
        if blk[k] >= 0 {
          blk[k] := ToCoef(blk[k] + Pow2(p.al));
        } else {
          blk[k] := ToCoef(blk[k] - Pow2(p.al));
        }
      }
    }
    assert blk[..] == b[k := CorrectedBy(bit, b[k], p.al)];
  }

  /** Advance over nonzero coefficients and r zeros, correcting the former. */
  method SkipZeros(src: BitSource, p: Band, blk: array<Coef>, k0: nat, r0: nat) returns (k: nat)
    requires src.Valid() && ValidBand(p) && blk.Length == 64 && k0 <= p.se
    modifies src, blk
    ensures src.Valid() && src.SameSegment() && k0 <= k <= p.se + 1
    ensures Skip(p, old(src.coming), old(blk[..]), k0, r0) == Skipped(blk[..], src.coming, k)
  {
    hide Take, CorrectedBy, src.Valid;
    k := k0;
    var r := r0;
    while k <= p.se
      invariant src.Valid() && src.SameSegment() && k0 <= k <= p.se + 1
      invariant Skip(p, old(src.coming), old(blk[..]), k0, r0) == Skip(p, src.coming, blk[..], k, r)
    {
      ghost var b := blk[..];
      assert b[k] == blk[k];
      if blk[k] != 0 {
        Correct(src, p, blk, k);
      } else {
        if r == 0 {
          return;
        }
        r := r - 1;
      }
      k := k + 1;
    }
  }

  /** The correction bits of the rest of a band. */
  method DecodeCorrections(src: BitSource, p: Band, blk: array<Coef>, k0: nat)
    requires src.Valid() && ValidBand(p) && blk.Length == 64 && k0 <= p.se
    modifies src, blk
    ensures src.Valid() && src.SameSegment()
    ensures ReadCorrections(p, old(src.coming), old(blk[..]), k0) == (blk[..], src.coming)
  {
    hide Take, CorrectedBy, src.Valid;
    var k := k0;
    while k <= p.se
      invariant src.Valid() && src.SameSegment() && k0 <= k <= p.se + 1
      invariant ReadCorrections(p, old(src.coming), old(blk[..]), k0) == ReadCorrections(p, src.coming, blk[..], k)
    {
      ghost var b := blk[..];
      assert b[k] == blk[k];
      if blk[k] != 0 {
        Correct(src, p, blk, k);
      }
      k := k + 1;
    }
  }

  /** Refinement. */
  method DecodeRefine(src: BitSource, act: Decoder, p: Band, blk: array<Coef>, eobRun0: nat) returns (eobRun: nat)
    requires src.Valid() && ValidDecoder(act) && ValidBand(p) && p.refine && blk.Length == 64 && !src.coming.dry
    modifies src, blk
    ensures src.Valid() && src.SameSegment()
    ensures ReadBand(p, act.t, old(src.coming), eobRun0, old(blk[..])) == BandRead(blk[..], src.coming, eobRun)
  {
    hide ReadCorrections, ReadRefinedBand, ValidDecoder;
    eobRun := eobRun0;
    if eobRun == 0 {
      eobRun := DecodeRefinedCodes(src, act, p, blk);
    } else {
      DecodeCorrections(src, p, blk, p.ss);
      eobRun := eobRun - 1;
    }
  }

  method DecodeRefinedCodes(src: BitSource, act: Decoder, p: Band, blk: array<Coef>) returns (eobRun: nat)
    requires src.Valid() && ValidDecoder(act) && ValidBand(p) && p.refine && blk.Length == 64
    modifies src, blk
    ensures src.Valid() && src.SameSegment()
    ensures ReadRefinedBand(p, act.t, old(src.coming), old(blk[..]), p.ss) == BandRead(blk[..], src.coming, eobRun)
  {
    hide ReadSymbol, ReadCorrections, ReadRun, DecoderLimits, DecoderLookahead, LeavesRoom, Total, Pow2, Skip, Take,
      NewValue, src.Valid;
    var k := p.ss;
    while k <= p.se
      invariant src.Valid() && src.SameSegment()
      invariant ReadRefinedBand(p, act.t, old(src.coming), old(blk[..]), p.ss)
        == ReadRefinedBand(p, act.t, src.coming, blk[..], k)
      decreases p.se + 1 - k
    {
      ghost var b := blk[..];
      var sym := src.HuffDecode(act);
      var r := sym / 16;
      var s := sym % 16;
      assert blk[..] == b;
      if s != 0 {
        var bit := src.GetBits(1);
        k := SkipZeros(src, p, blk, k, r);
        ghost var b1 := blk[..];
        blk[Within(k)] := NewValue(bit, p.al);
        assert blk[..] == b1[Within(k) := NewValue(bit, p.al)];
      } else {
        if r != 15 {
          SymbolRun(act.t, sym);
          eobRun := DecodeRun(src, r);
          assert blk[..] == b;
          DecodeCorrections(src, p, blk, k);
          return eobRun - 1;
        }
        k := SkipZeros(src, p, blk, k, 15);
      }
      k := k + 1;
    }
    eobRun := 0;
  }
}
