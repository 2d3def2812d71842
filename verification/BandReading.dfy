/** Reading AC bands of progressive scans (section G.2 of ITU-T T.81): first passes with end-of-band runs,
    and refinement with its correction bits. */
module BandReading {
  import opened Powers
  import opened Coefficients
  import opened BitStream
  import opened CanonicalCode
  import opened HuffmanSymbols
  import opened HuffmanBlocks
  import opened BandItems
  import BlockRefinement

  /** A block as far as it has been read, the bits to come, and how many further blocks end here. */
  datatype BandRead = BandRead(b: Block, src: Source, run: nat)

  /** The number of blocks an end-of-band symbol stands for: its category and as many extra bits. */
  function ReadRun(src: Source, r: nat): (n: (nat, Source))
    ensures n.0 >= 1
  {
    if r == 0 then (1, src) else (Pow2(r) + Take(src, r).0, Take(src, r).1)
  }

  /** Positions behind the block, which only bad data lead to, count as its last. */
  function Within(k: nat): (at: nat)
    ensures at < 64
  {
    if k < 64 then k else 63
  }

  // ----- first pass -----

  function ReadFirstBand(p: Band, t: HuffTable, src: Source, b: Block, k: nat): BandRead
    requires ValidBand(p)
    decreases p.se + 1 - k
  {
    if k > p.se then BandRead(b, src, 0)
    else
      var (sym, s1) := ReadSymbol(t, src);
      var r, s := sym / 16, sym % 16;
      if s != 0 then
        var (x, s2) := ReadExtra(s1, s);
        ReadFirstBand(p, t, s2, b[Within(k + r) := ToCoef(x * Pow2(p.al))], k + r + 1)
      else if r != 15 then
        var (n, s2) := ReadRun(s1, r);
        BandRead(b, s2, n - 1)
      else ReadFirstBand(p, t, s1, b, k + 16)
  }

  // ----- refinement -----

  /** A coefficient after its correction bit, which is not applied twice. */
  function CorrectedBy(bit: nat, y: Coef, al: nat): Coef {
    if bit == 1 && BlockRefinement.BitOf(y, al) == 0 then BlockRefinement.Corrected(y, al) else y
  }

  /** Where skipping ended. */
  datatype Skipped = Skipped(b: Block, src: Source, k: nat)

  /** From k on, past coefficients that are nonzero already, each with its correction bit, and past r zeros. */
  function Skip(p: Band, src: Source, b: Block, k: nat, r: nat): (z: Skipped)
    requires ValidBand(p) && k <= p.se + 1
    ensures k <= z.k <= p.se + 1
    decreases p.se + 1 - k
  {
    if k == p.se + 1 then Skipped(b, src, k)
    else if b[k] != 0 then
      var (bit, s1) := Take(src, 1);
      Skip(p, s1, b[k := CorrectedBy(bit, b[k], p.al)], k + 1, r)
    else if r == 0 then Skipped(b, src, k)
    else Skip(p, src, b, k + 1, r - 1)
  }

  /** The correction bits of the rest of the band. */
  function ReadCorrections(p: Band, src: Source, b: Block, k: nat): (Block, Source)
    requires ValidBand(p) && k <= p.se + 1
    decreases p.se + 1 - k
  {
    if k == p.se + 1 then (b, src)
    else if b[k] != 0 then
      var (bit, s1) := Take(src, 1);
      ReadCorrections(p, s1, b[k := CorrectedBy(bit, b[k], p.al)], k + 1)
    else ReadCorrections(p, src, b, k + 1)
  }

  /** The value of a coefficient that becomes nonzero. */
  function NewValue(bit: nat, al: nat): Coef { BlockRefinement.NewLevel(if bit == 1 then 0 else 1, al) }

  /** A run of blocks in which nothing becomes nonzero; this block is the first of them. */
  function ReadQuiet(p: Band, src: Source, b: Block, k: nat, run: nat): BandRead
    requires ValidBand(p) && k <= p.se + 1 && run > 0
  {
    if p.refine then
      var (b1, s1) := ReadCorrections(p, src, b, k);
      BandRead(b1, s1, run - 1)
    else BandRead(b, src, run - 1)
  }

  function ReadRefinedBand(p: Band, t: HuffTable, src: Source, b: Block, k: nat): BandRead
    requires ValidBand(p) && p.refine
    decreases p.se + 1 - k
  {
    if k > p.se then BandRead(b, src, 0)
    else
      var (sym, s1) := ReadSymbol(t, src);
      var r, s := sym / 16, sym % 16;
      if s != 0 then
        var (bit, s2) := Take(s1, 1);
        var z := Skip(p, s2, b, k, r);
        ReadRefinedBand(p, t, z.src, z.b[Within(z.k) := NewValue(bit, p.al)], z.k + 1)
      else if r != 15 then
        var (n, s2) := ReadRun(s1, r);
        ReadQuiet(p, s2, b, k, n)
      else
        var z := Skip(p, s1, b, k, 15);
        ReadRefinedBand(p, t, z.src, z.b, z.k + 1)
  }

  /** One block: in the middle of a run, or with codes of its own.  Once bits have run out, blocks are left as
      they are. */
  function ReadBand(p: Band, t: HuffTable, src: Source, run: nat, b: Block): BandRead
    requires ValidBand(p)
  {
    if src.dry then BandRead(b, src, run)
    else if run > 0 then ReadQuiet(p, src, b, p.ss, run)
    else if p.refine then ReadRefinedBand(p, t, src, b, p.ss)
    else ReadFirstBand(p, t, src, b, p.ss)
  }

  /** Blocks one after the other. */
  datatype BandsRead = BandsRead(blocks: seq<Block>, src: Source, run: nat)

  function ReadBands(p: Band, t: HuffTable, src: Source, run: nat, was: seq<Block>): (r: BandsRead)
    requires ValidBand(p)
    ensures |r.blocks| == |was|
    decreases |was|
  {
    if was == [] then BandsRead([], src, run)
    else
      var x := ReadBand(p, t, src, run, was[0]);
      var y := ReadBands(p, t, x.src, x.run, was[1..]);
      BandsRead([x.b] + y.blocks, y.src, y.run)
  }
}
