/** Round trip of AC bands: whatever runs of blocks are joined under one end-of-band symbol, a reader gives
    every block its coefficients and every coefficient its own correction bit. */
module BandRoundTrip {
  import opened Powers
  import opened Coefficients
  import opened BitStream
  import opened HuffmanSymbols
  import opened HuffmanBlocks
  import opened BandItems
  import opened BandReading
  import BlockCoding
  import BlockRefinement

  // ----- what is expected and delivered -----

  /** First passes find the band clear, refinements find it down to one bit more. */
  ghost predicate Expected(p: Band, was: Block, b: Block) {
    if p.refine then BlockRefinement.HoldsBand(was, b, p.ss, p.se, p.al + 1)
    else BlockCoding.ZeroBand(was, p.ss, p.se)
  }

  /** The band down to bit al. */
  function Delivered(p: Band, was: Block, b: Block): Block { BlockCoding.WithBand(was, b, p.ss, p.se, p.al) }

  // ----- single items -----

  /** Correction bits are written as they are. */
  lemma {:induction false} CorrBits(e: Tables, c: seq<Bit>)
    ensures Bits(e, CorrItems(c)) == c
    decreases |c|
  {
    if c != [] {
      assert CorrItems(c)[1..] == CorrItems(c[1..]);
      CorrBits(e, c[1..]);
      assert ToBits(c[0] / 2, 0) == [];
      assert ToBits(c[0], 1) == [c[0]];
    }
  }

  lemma TakeOne(bit: Bit, rest: seq<Bit>, dry: bool)
    ensures Take(Source([bit] + rest, dry), 1) == (bit, Source(rest, dry))
  {
    var s := Source([bit] + rest, dry);
    assert Next(s, 1) == [bit];
    assert s.bits[1..] == rest;
    assert FromBits([bit][..0]) == 0;
  }

  /** A run is read back from its category and extra bits. */
  lemma RunBack(e: Tables, tbl: TableNumber, n: nat, more: seq<Item>, rest: seq<Bit>, dry: bool)
    requires 0 < n <= MAX_RUN && AllCodable(e, RunItems(tbl, n))
    ensures var src := Source(Bits(e, RunItems(tbl, n) + more) + rest, dry);
      var (sym, s1) := ReadSymbol(e.ac[tbl].t, src);
      && sym == 16 * Log2(n) && Log2(n) <= 14
      && ReadRun(s1, Log2(n)) == (n, Source(Bits(e, more) + rest, dry))
  {
    Log2Bound(n);
    hide ReadSymbol, Take, Bits, Codable, Log2;
    var run := RunItems(tbl, n);
    FirstCodable(e, run);
    ReadFirst(e, run + more, rest, dry);
    if Log2(n) > 0 {
      var tail := (run + more)[1..];
      assert tail[0] == run[1] && tail[1..] == more;
      ReadFirst(e, tail, rest, dry);
      RunParts(n);
    } else {
      assert (run + more)[1..] == more;
      assert Pow2(0) == 1;
    }
  }

  lemma RunParts(n: nat)
    requires n > 0
    ensures Pow2(Log2(n)) + n % Pow2(Log2(n)) == n
  {
    var p := Pow2(Log2(n));
    hide Log2, Pow2;
    Remainder(n, p, 1, n - p);
  }

  lemma Log2Bound(n: nat)
    requires 0 < n <= MAX_RUN
    ensures Log2(n) <= 14
  {
    Pow2Values();
    if Log2(n) >= 15 {
      Pow2Monotone(15, Log2(n));
    }
  }

  // ----- counting from the front -----

  lemma {:induction false} CountFirst(p: Band, b: Block, h: nat, k: nat)
    requires h < k <= 64
    ensures ZerosIn(p, b, h, k) == (if Mag(p, b, h) == 0 then 1 else 0) + ZerosIn(p, b, h + 1, k)
    ensures CorrIn(p, b, h, k) == (if Mag(p, b, h) > 1 then [Mag(p, b, h) % 2] else []) + CorrIn(p, b, h + 1, k)
    decreases k
  {
    hide Mag;
    if h + 1 < k {
      CountFirst(p, b, h, k - 1);
    }
  }

  lemma {:induction false} CountSplit(p: Band, b: Block, h: nat, q: nat, k: nat)
    requires h <= q <= k <= 64
    ensures CorrIn(p, b, h, k) == CorrIn(p, b, h, q) + CorrIn(p, b, q, k)
    decreases k
  {
    hide Mag;
    if q < k {
      CountSplit(p, b, h, q, k - 1);
    }
  }

  // ----- refinement: one stretch of coefficients -----

  /** Nothing from h to k - 1 becomes nonzero. */
  ghost predicate NoneNew(p: Band, b: Block, h: nat, k: nat)
    requires k <= 64
  {
    forall j :: h <= j < k ==> Mag(p, b, j) != 1
  }

  /** The band from h on is down to one bit more. */
  ghost predicate Holds(p: Band, now: Block, b: Block, h: nat) {
    BlockRefinement.HoldsBand(now, b, h, p.se, p.al + 1)
  }

  function Refined(p: Band, now: Block, b: Block, h: nat, k: nat): Block {
    BlockCoding.WithBand(now, b, h, k - 1, p.al)
  }

  lemma RefinedNone(p: Band, now: Block, b: Block, h: nat)
    ensures Refined(p, now, b, h, h) == now
  {
    hide AcLevel;
  }

  /** One coefficient that does not become nonzero, refined in place. */
  lemma OneOld(p: Band, now: Block, b: Block, h: nat) returns (next: Block)
    requires ValidBand(p) && h <= p.se && Holds(p, now, b, h) && Mag(p, b, h) != 1
    ensures now[h] != 0 <==> Mag(p, b, h) > 1
    ensures next == if now[h] != 0 then now[h := CorrectedBy(Mag(p, b, h) % 2, now[h], p.al)] else now
    ensures Holds(p, next, b, h + 1)
    ensures forall k :: h < k ==> Refined(p, next, b, h + 1, k) == Refined(p, now, b, h, k)
  {
    var y := AcLevel(b[h], p.al);
    Level(p, b, h);
    hide Mag, AcLevel, CorrectedBy;
    next := now[h := y];
    assert next == if now[h] != 0 then now[h := CorrectedBy(Mag(p, b, h) % 2, now[h], p.al)] else now;
  }

  /** What refinement does to a coefficient at h. */
  lemma Level(p: Band, b: Block, h: nat)
    requires h < 64
    ensures var y := AcLevel(b[h], p.al + 1);
      && (y != 0 <==> Mag(p, b, h) > 1)
      && (Mag(p, b, h) == 0 ==> AcLevel(b[h], p.al) == 0)
      && (y != 0 ==> AcLevel(b[h], p.al) == CorrectedBy(Mag(p, b, h) % 2, y, p.al))
      && (Mag(p, b, h) == 1 ==> AcLevel(b[h], p.al) == NewValue(if Trunc(b[h], p.al) < 0 then 0 else 1, p.al))
  {
    BlockRefinement.RefinedLevel(b[h], p.al);
    BitClear(b[h], p.al);
    hide AcLevel, Trunc, BlockRefinement.Corrected, BlockRefinement.NewLevel, BlockRefinement.BitOf;
  }

  /** The bit to be refined is clear so far. */
  lemma BitClear(x: Coef, al: nat)
    ensures BlockRefinement.BitOf(AcLevel(x, al + 1), al) == 0
  {
    hide Pow2;
    Pow2Successor(al);
    BlockRefinement.EvenShift(Trunc(x, al + 1), Pow2(al));
  }

  /** Skipping r zeros reads the correction bits of the coefficients passed and stops at the next zero. */
  lemma {:induction false} SkipRoundTrip(p: Band, b: Block, now: Block, h: nat, k: nat, more: seq<Bit>, dry: bool)
    requires ValidBand(p) && h <= k <= p.se && Holds(p, now, b, h) && NoneNew(p, b, h, k) && now[k] == 0
    ensures Skip(p, Source(CorrIn(p, b, h, k) + more, dry), now, h, ZerosIn(p, b, h, k))
      == Skipped(Refined(p, now, b, h, k), Source(more, dry), k)
    decreases k - h
  {
    hide Mag, CorrectedBy, Refined, Take;
    if h == k {
      RefinedNone(p, now, b, h);
      assert CorrIn(p, b, h, k) + more == more;
    } else {
      CountFirst(p, b, h, k);
      var next := OneOld(p, now, b, h);
      assert next[k] == now[k];
      SkipRoundTrip(p, b, next, h + 1, k, more, dry);
      var c := CorrIn(p, b, h + 1, k) + more;
      if Mag(p, b, h) > 1 {
        var bit := Mag(p, b, h) % 2;
        assert CorrIn(p, b, h, k) + more == [bit] + c;
        TakeOne(bit, c, dry);
      } else {
        assert CorrIn(p, b, h, k) + more == c;
      }
    }
  }

  /** The rest of a band in which nothing more becomes nonzero. */
  lemma {:induction false} CorrectionsRoundTrip(p: Band, b: Block, now: Block, h: nat, more: seq<Bit>, dry: bool)
    requires ValidBand(p) && h <= p.se + 1 && Holds(p, now, b, h) && NoneNew(p, b, h, p.se + 1)
    ensures ReadCorrections(p, Source(CorrIn(p, b, h, p.se + 1) + more, dry), now, h)
      == (Refined(p, now, b, h, p.se + 1), Source(more, dry))
    decreases p.se + 1 - h
  {
    hide Mag, CorrectedBy, Refined, Take;
    if h == p.se + 1 {
      RefinedNone(p, now, b, h);
      assert CorrIn(p, b, h, p.se + 1) + more == more;
    } else {
      CountFirst(p, b, h, p.se + 1);
      var next := OneOld(p, now, b, h);
      CorrectionsRoundTrip(p, b, next, h + 1, more, dry);
      var c := CorrIn(p, b, h + 1, p.se + 1) + more;
      if Mag(p, b, h) > 1 {
        var bit := Mag(p, b, h) % 2;
        assert CorrIn(p, b, h, p.se + 1) + more == [bit] + c;
        TakeOne(bit, c, dry);
      } else {
        assert CorrIn(p, b, h, p.se + 1) + more == c;
      }
    }
  }

  // ----- the end of a band -----

  /** The end-of-band symbol for n blocks with the correction bits of the first, if there is one. */
  function EndItems(p: Band, tail: Pending, n: nat): seq<Item> {
    if tail.run == 0 || n == 0 then [] else RunItems(p.tbl, n) + CorrItems(tail.corr)
  }

  /** Blocks left in the run behind this one. */
  function Left(tail: Pending, n: nat): nat {
    if tail.run == 0 || n == 0 then 0 else n - 1
  }

  /** Reading a symbol at the front of some items. */
  lemma ReadOne(e: Tables, tbl: TableNumber, s: nat, items: seq<Item>, rest: seq<Bit>, dry: bool)
    requires Codable(e, Symbol(true, tbl, s))
    ensures ReadSymbol(e.ac[tbl].t, Source(Bits(e, [Symbol(true, tbl, s)] + items) + rest, dry))
      == (s, Source(Bits(e, items) + rest, dry))
  {
    hide Bits, ReadSymbol, Codable;
    var all := [Symbol(true, tbl, s)] + items;
    assert all[1..] == items;
    ReadFirst(e, all, rest, dry);
  }

  /** Correction bits among the items to come. */
  lemma CorrFront(e: Tables, c: seq<Bit>, items: seq<Item>, rest: seq<Bit>)
    ensures Bits(e, CorrItems(c) + items) + rest == c + (Bits(e, items) + rest)
  {
    hide Bits;
    CorrBits(e, c);
    BitsConcat(e, CorrItems(c), items);
  }

  // ----- first pass -----

  function FirstAt(e: Tables, p: Band, items: seq<Item>, rest: seq<Bit>, dry: bool, now: Block, h: nat): BandRead
    requires ValidBand(p)
  {
    ReadFirstBand(p, e.ac[p.tbl].t, Source(Bits(e, items) + rest, dry), now, h)
  }

  /** Every coefficient of the band has at most 10 bits. */
  predicate BandFits(p: Band, b: Block)
    requires ValidBand(p)
  {
    p.refine || forall j :: p.ss <= j <= p.se ==> Size(Mag(p, b, j)) <= MAX_COEF_BITS
  }

  lemma {:induction false} FirstLongRuns(e: Tables, p: Band, r: nat, more: seq<Item>, rest: seq<Bit>, dry: bool,
      now: Block, h: nat)
    requires ValidBand(p) && AllCodable(e, LongRuns(p.tbl, r)) && h + r <= p.se
    ensures FirstAt(e, p, LongRuns(p.tbl, r) + more, rest, dry, now, h)
      == FirstAt(e, p, more, rest, dry, now, h + Whole(r))
    decreases r
  {
    hide ReadSymbol, Take, Bits, Codable;
    if r < 16 {
      assert LongRuns(p.tbl, r) + more == more;
    } else {
      FirstCodable(e, LongRuns(p.tbl, r));
      var items := LongRuns(p.tbl, r - 16) + more;
      assert LongRuns(p.tbl, r)[1..] == LongRuns(p.tbl, r - 16);
      assert LongRuns(p.tbl, r) + more == [Symbol(true, p.tbl, 0xF0)] + items;
      ReadOne(e, p.tbl, 0xF0, items, rest, dry);
      FirstLongRuns(e, p, r - 16, more, rest, dry, now, h + 16);
    }
  }

  /** One nonzero value behind fewer than sixteen zeros. */
  lemma FirstValue(e: Tables, p: Band, run: nat, x: int, b: Block, k: nat, more: seq<Item>, rest: seq<Bit>, dry: bool,
      now: Block,
      next: Block, h: nat)
    requires ValidBand(p) && run < 16 && h + run == k <= p.se && x == Trunc(b[k], p.al) != 0
    requires Size(Abs(x)) <= MAX_COEF_BITS
    requires AllCodable(e, Value(true, p.tbl, run, x)) && next == now[k := AcLevel(b[k], p.al)]
    ensures FirstAt(e, p, Value(true, p.tbl, run, x) + more, rest, dry, now, h)
      == FirstAt(e, p, more, rest, dry, next, k + 1)
  {
    hide ReadSymbol, ReadExtra, Bits, Codable, Size, Value, Trunc, Pow2;
    ReadValue(e, true, p.tbl, run, x, more, rest, dry);
    SizePositive(Abs(x));
    var n := Size(Abs(x));
    assert (16 * run + n) / 16 == run && (16 * run + n) % 16 == n;
    LevelBound(b[k], p.al);
    assert ToCoef(x * Pow2(p.al)) == AcLevel(b[k], p.al);
  }

  /** Zeros passed over are delivered already. */
  lemma ZerosDelivered(p: Band, now: Block, b: Block, h: nat, k: nat)
    requires ValidBand(p) && h <= k <= p.se + 1 && BlockCoding.ZeroBand(now, h, p.se)
    requires forall j :: h <= j < k ==> Trunc(b[j], p.al) == 0
    ensures BlockCoding.WithBand(now, b, h, p.se, p.al) == BlockCoding.WithBand(now, b, k, p.se, p.al)
    ensures k == p.se + 1 ==> BlockCoding.WithBand(now, b, k, p.se, p.al) == now
  {
    hide Trunc, AcLevel;
    forall j | h <= j < k
      ensures AcLevel(b[j], p.al) == 0
    {
      BlockCoding.ZeroLevel(b[j], p.al);
    }
  }

  /** The end of a band in a first pass. */
  lemma FirstEnd(e: Tables, p: Band, tail: Pending, n: nat, more: seq<Item>, rest: seq<Bit>, dry: bool, now: Block,
      h: nat)
    requires ValidBand(p) && tail.corr == [] && h <= p.se + 1 && (tail.run == 0 <==> h == p.se + 1) && 0 < n <= MAX_RUN
    requires AllCodable(e, EndItems(p, tail, n))
    ensures FirstAt(e, p, EndItems(p, tail, n) + more, rest, dry, now, h)
      == BandRead(now, Source(Bits(e, more) + rest, dry), Left(tail, n))
  {
    hide ReadSymbol, Bits, Codable, ReadRun, Log2;
    if tail.run == 0 {
      assert EndItems(p, tail, n) + more == more;
    } else {
      assert EndItems(p, tail, n) == RunItems(p.tbl, n);
      RunBack(e, p.tbl, n, more, rest, dry);
      var l := Log2(n);
      assert (16 * l) / 16 == l && (16 * l) % 16 == 0;
    }
  }

  lemma {:induction false} FirstRoundTrip(e: Tables, p: Band, b: Block, k: nat, r: nat, n: nat, now: Block,
      more: seq<Item>, rest: seq<Bit>, dry: bool)
    requires ValidBand(p) && p.ss <= k <= p.se + 1 && r <= k - p.ss && !p.refine && BandFits(p, b) && 0 < n <= MAX_RUN
    requires forall j :: k - r <= j < k ==> Trunc(b[j], p.al) == 0
    requires BlockCoding.ZeroBand(now, k - r, p.se)
    requires AllCodable(e, FirstBody(p, b, k, r) + EndItems(p, Ended(FirstTail(p, b, k, r)), n))
    ensures var tail := Ended(FirstTail(p, b, k, r));
      FirstAt(e, p, FirstBody(p, b, k, r) + EndItems(p, tail, n) + more, rest, dry, now, k - r)
      == BandRead(BlockCoding.WithBand(now, b, k - r, p.se, p.al), Source(Bits(e, more) + rest, dry), Left(tail, n))
    decreases p.se + 1 - k
  {
    hide FirstAt, Codable, LongRuns, Value, EndItems, Left, Trunc, Mag, AcLevel, BlockCoding.WithBand;
    var tail := Ended(FirstTail(p, b, k, r));
    var end := EndItems(p, tail, n);
    ZerosDelivered(p, now, b, k - r, k);
    if k == p.se + 1 {
      assert FirstBody(p, b, k, r) + end == end;
      FirstEnd(e, p, tail, n, more, rest, dry, now, k - r);
    } else if Trunc(b[k], p.al) == 0 {
      FirstRoundTrip(e, p, b, k + 1, r + 1, n, now, more, rest, dry);
    } else {
      var x := Trunc(b[k], p.al);
      var runs, value, later := LongRuns(p.tbl, r), Value(true, p.tbl, r % 16, x), FirstBody(p, b, k + 1, 0);
      assert FirstBody(p, b, k, r) + end == runs + (value + (later + end));
      CodableParts(e, runs, value + (later + end));
      CodableParts(e, value, later + end);
      var behind := later + end + more;
      assert FirstBody(p, b, k, r) + end + more == runs + (value + behind);
      FirstLongRuns(e, p, r, value + behind, rest, dry, now, k - r);
      FitsAt(p, b, k);
      var next := now[k := AcLevel(b[k], p.al)];
      FirstValue(e, p, r % 16, x, b, k, behind, rest, dry, now, next, k - r + Whole(r));
      BlockCoding.BandStep(now, b, k, p.se, p.al);
      FirstRoundTrip(e, p, b, k + 1, 0, n, next, more, rest, dry);
    }
  }

  lemma FitsAt(p: Band, b: Block, k: nat)
    requires ValidBand(p) && BandFits(p, b) && !p.refine && p.ss <= k <= p.se
    ensures Size(Abs(Trunc(b[k], p.al))) <= MAX_COEF_BITS
  {
    assert Mag(p, b, k) == Abs(Trunc(b[k], p.al));
  }

  /** An end of band behind trailing zeros. */
  function Ended(zeros: nat): Pending { if zeros > 0 then Pending(1, []) else NONE }

  // ----- refinement -----

  function RefineAt(e: Tables, p: Band, items: seq<Item>, rest: seq<Bit>, dry: bool, now: Block, h: nat): BandRead
    requires ValidBand(p) && p.refine
  {
    ReadRefinedBand(p, e.ac[p.tbl].t, Source(Bits(e, items) + rest, dry), now, h)
  }

  /** Coefficients behind the last that becomes nonzero start here. */
  function EndStart(p: Band, last: nat): nat { if last == 0 then p.ss else last + 1 }

  /** Sixteen zeros from h on have been noticed at the first nonzero coefficient behind them. */
  ghost predicate Noticed(p: Band, b: Block, h: nat, k: nat)
    requires k <= 64
  {
    forall j :: h <= j < k && Mag(p, b, j) > 1 ==> ZerosIn(p, b, h, j) < 16
  }

  lemma {:induction false} ZerosGrow(p: Band, b: Block, h: nat, q: nat, k: nat)
    requires h <= q <= k <= 64
    ensures ZerosIn(p, b, h, q) <= ZerosIn(p, b, h, k)
    decreases k
  {
    hide Mag;
    if q < k {
      ZerosGrow(p, b, h, q, k - 1);
    }
  }

  /** No correction bits lie between the sixteenth zero and the place where it was noticed. */
  lemma NothingBetween(p: Band, b: Block, h: nat, q: nat, k: nat)
    requires h <= q <= k <= 64 && Noticed(p, b, h, k) && ZerosIn(p, b, h, q) >= 16
    ensures CorrIn(p, b, q, k) == [] && CorrIn(p, b, h, k) == CorrIn(p, b, h, q)
    ensures Noticed(p, b, q, k)
  {
    forall j | q <= j < k
      ensures Mag(p, b, j) <= 1
    {
      ZerosGrow(p, b, h, q, j);
    }
    hide Mag;
    NoCorrections(p, b, q, k);
    CountSplit(p, b, h, q, k);
  }

  lemma {:induction false} NoCorrections(p: Band, b: Block, h: nat, k: nat)
    requires h <= k <= 64 && forall j :: h <= j < k ==> Mag(p, b, j) <= 1
    ensures CorrIn(p, b, h, k) == []
    decreases k
  {
    hide Mag;
    if h < k {
      NoCorrections(p, b, h, k - 1);
    }
  }

  /** Stretches of refined coefficients join. */
  lemma RefinedJoin(p: Band, now: Block, b: Block, h: nat, q: nat, k: nat)
    requires h <= q <= k <= 64
    ensures Refined(p, Refined(p, now, b, h, q), b, q, k) == Refined(p, now, b, h, k)
  {
    hide AcLevel;
  }

  lemma RefinedHolds(p: Band, now: Block, b: Block, h: nat, q: nat)
    requires h <= q && Holds(p, now, b, h)
    ensures Holds(p, Refined(p, now, b, h, q), b, q)
  {
    hide AcLevel;
  }

  /** Sixteen zeros, read from h, with the correction bits among them. */
  lemma ReadZrl(e: Tables, p: Band, b: Block, h: nat, q: nat, items: seq<Item>, rest: seq<Bit>, dry: bool, now: Block)
    requires ValidBand(p) && p.refine && h < q <= p.se + 1 && Holds(p, now, b, h) && NoneNew(p, b, h, q)
    requires ZerosIn(p, b, h, q) == 16 && Mag(p, b, q - 1) == 0 && Codable(e, Symbol(true, p.tbl, 0xF0))
    ensures RefineAt(e, p, [Symbol(true, p.tbl, 0xF0)] + CorrItems(CorrIn(p, b, h, q)) + items, rest, dry, now, h)
      == RefineAt(e, p, items, rest, dry, Refined(p, now, b, h, q), q)
  {
    hide ReadSymbol, Bits, Codable, Mag, Skip, AcLevel;
    var corr := CorrIn(p, b, h, q);
    assert [Symbol(true, p.tbl, 0xF0)] + CorrItems(corr) + items
      == [Symbol(true, p.tbl, 0xF0)] + (CorrItems(corr) + items);
    ReadOne(e, p.tbl, 0xF0, CorrItems(corr) + items, rest, dry);
    CorrFront(e, corr, items, rest);
    Level(p, b, q - 1);
    var src := Source(corr + (Bits(e, items) + rest), dry);
    assert corr == CorrIn(p, b, h, q - 1) && ZerosIn(p, b, h, q - 1) == 15;
    SkipRoundTrip(p, b, now, h, q - 1, Bits(e, items) + rest, dry);
    assert Refined(p, now, b, h, q - 1) == Refined(p, now, b, h, q);
  }

  /** A coefficient that becomes nonzero at k, read from h. */
  lemma ReadNew(e: Tables, p: Band, b: Block, h: nat, k: nat, items: seq<Item>, rest: seq<Bit>, dry: bool, now: Block)
    requires ValidBand(p) && p.refine && h <= k <= p.se && Holds(p, now, b, h) && NoneNew(p, b, h, k)
    requires ZerosIn(p, b, h, k) < 16 && Mag(p, b, k) == 1 && AllCodable(e, NewItems(p, b, h, k))
    ensures RefineAt(e, p, NewItems(p, b, h, k) + CorrItems(CorrIn(p, b, h, k)) + items, rest, dry, now, h)
      == RefineAt(e, p, items, rest, dry, Refined(p, now, b, h, k + 1), k + 1)
  {
    hide ReadSymbol, Bits, Codable, Mag, Skip, AcLevel, NewValue, Trunc, Take;
    var corr := CorrIn(p, b, h, k);
    var two := NewItems(p, b, h, k);
    var z := ZerosIn(p, b, h, k);
    var tail := CorrItems(corr) + items;
    FirstCodable(e, two);
    assert two + CorrItems(corr) + items == [two[0]] + ([two[1]] + tail);
    ReadOne(e, p.tbl, 16 * z + 1, [two[1]] + tail, rest, dry);
    var more := [two[1]] + tail;
    assert more[1..] == tail;
    ReadFirst(e, more, rest, dry);
    CorrFront(e, corr, items, rest);
    Level(p, b, k);
    SkipRoundTrip(p, b, now, h, k, Bits(e, items) + rest, dry);
    assert (16 * z + 1) / 16 == z && (16 * z + 1) % 16 == 1;
    assert Refined(p, now, b, h, k)[k := AcLevel(b[k], p.al)] == Refined(p, now, b, h, k + 1);
  }

  lemma RefineEnd(e: Tables, p: Band, b: Block, n: nat, h: nat, more: seq<Item>, rest: seq<Bit>, dry: bool, now: Block)
    requires ValidBand(p) && p.refine && h == EndStart(p, LastNew(p, b, p.se)) && h <= p.se + 1 && 0 < n <= MAX_RUN
    requires Holds(p, now, b, h) && NoneNew(p, b, h, p.se + 1) && AllCodable(e, EndItems(p, Tail(p, b), n))
    ensures RefineAt(e, p, EndItems(p, Tail(p, b), n) + more, rest, dry, now, h)
      == BandRead(Refined(p, now, b, h, p.se + 1), Source(Bits(e, more) + rest, dry), Left(Tail(p, b), n))
  {
    hide ReadSymbol, Bits, Codable, ReadRun, Log2, ReadCorrections, CorrIn, Mag;
    var tail := Tail(p, b);
    if tail.run == 0 {
      assert EndItems(p, tail, n) + more == more;
      RefinedNone(p, now, b, h);
    } else {
      var run, corr := RunItems(p.tbl, n), CorrItems(tail.corr);
      CodableParts(e, run, corr);
      assert EndItems(p, tail, n) + more == run + (corr + more);
      RunBack(e, p.tbl, n, corr + more, rest, dry);
      CorrFront(e, tail.corr, more, rest);
      CorrectionsRoundTrip(p, b, now, h, Bits(e, more) + rest, dry);
      var l := Log2(n);
      assert (16 * l) / 16 == l && (16 * l) % 16 == 0;
    }
  }

  /** Standing at k with everything from h on unread. */
  ghost predicate Standing(p: Band, b: Block, last: nat, h: nat, k: nat)
    requires ValidBand(p)
  {
    && p.ss <= h <= k <= p.se + 1 && last == LastNew(p, b, p.se) && NoneNew(p, b, h, k)
    && (if k <= last then Noticed(p, b, h, k) else h == EndStart(p, last))
  }

  /** The ways of going on from k. */
  lemma StandingNext(p: Band, b: Block, last: nat, h: nat, k: nat)
    requires ValidBand(p) && p.refine && Standing(p, b, last, h, k) && k <= p.se
    ensures Mag(p, b, k) == 0 ==> Standing(p, b, last, h, k + 1)
    ensures Mag(p, b, k) > 1 && (ZerosIn(p, b, h, k) < 16 || k > last) ==> Standing(p, b, last, h, k + 1)
    ensures Mag(p, b, k) == 1 ==> k <= last && Standing(p, b, last, k + 1, k + 1)
  {
    hide Mag, ZerosIn;
  }

  lemma StandingBehind(p: Band, b: Block, last: nat, h: nat, k: nat)
    requires ValidBand(p) && Standing(p, b, last, h, k) && k <= last && ZerosIn(p, b, h, k) >= 16
    ensures var q := Behind(p, b, h, k, 16);
      Standing(p, b, last, q, k) && NoneNew(p, b, h, q) && CorrIn(p, b, h, k) == CorrIn(p, b, h, q)
  {
    hide Mag, Noticed;
    NothingBetween(p, b, h, Behind(p, b, h, k, 16), k);
  }

  /** Refinement of a band from k on. */
  lemma {:induction false} RefineRoundTrip(e: Tables, p: Band, b: Block, last: nat, h: nat, k: nat, n: nat, now: Block,
      more: seq<Item>,
      rest: seq<Bit>, dry: bool)
    requires ValidBand(p) && p.refine && Standing(p, b, last, h, k) && Holds(p, now, b, h) && 0 < n <= MAX_RUN
    requires AllCodable(e, RefineBody(p, b, last, h, k) + EndItems(p, Tail(p, b), n))
    ensures RefineAt(e, p, RefineBody(p, b, last, h, k) + EndItems(p, Tail(p, b), n) + more, rest, dry, now, h)
      == BandRead(Refined(p, now, b, h, p.se + 1), Source(Bits(e, more) + rest, dry), Left(Tail(p, b), n))
    decreases p.se + 1 - k, k - h
  {
    hide RefineAt, Codable, EndItems, Left, Mag, Refined, CorrIn, CorrItems, Tail, Noticed, LastNew, NewItems, ZerosIn,
      Holds;
    var end := EndItems(p, Tail(p, b), n);
    if k == p.se + 1 {
      assert RefineBody(p, b, last, h, k) + end == end;
      RefineEnd(e, p, b, n, h, more, rest, dry, now);
    } else {
      StandingNext(p, b, last, h, k);
      if Mag(p, b, k) == 0 {
        RefineRoundTrip(e, p, b, last, h, k + 1, n, now, more, rest, dry);
      } else if ZerosIn(p, b, h, k) >= 16 && k <= last {
        StandingBehind(p, b, last, h, k);
        var q := Behind(p, b, h, k, 16);
        var zrl, corr, later := [Symbol(true, p.tbl, 0xF0)], CorrItems(CorrIn(p, b, h, q)),
          RefineBody(p, b, last, q, k);
        assert RefineBody(p, b, last, h, k) + end == zrl + (corr + (later + end));
        CodableParts(e, zrl, corr + (later + end));
        CodableParts(e, corr, later + end);
        FirstCodable(e, zrl);
        assert RefineBody(p, b, last, h, k) + end + more == zrl + corr + (later + end + more);
        ReadZrl(e, p, b, h, q, later + end + more, rest, dry, now);
        RefinedHolds(p, now, b, h, q);
        RefinedJoin(p, now, b, h, q, p.se + 1);
        RefineRoundTrip(e, p, b, last, q, k, n, Refined(p, now, b, h, q), more, rest, dry);
      } else if Mag(p, b, k) > 1 {
        RefineRoundTrip(e, p, b, last, h, k + 1, n, now, more, rest, dry);
      } else {
        var two, corr, later := NewItems(p, b, h, k), CorrItems(CorrIn(p, b, h, k)),
          RefineBody(p, b, last, k + 1, k + 1);
        assert RefineBody(p, b, last, h, k) + end == two + (corr + (later + end));
        CodableParts(e, two, corr + (later + end));
        CodableParts(e, corr, later + end);
        assert RefineBody(p, b, last, h, k) + end + more == two + corr + (later + end + more);
        ReadNew(e, p, b, h, k, later + end + more, rest, dry, now);
        RefinedHolds(p, now, b, h, k + 1);
        RefinedJoin(p, now, b, h, k + 1, p.se + 1);
        RefineRoundTrip(e, p, b, last, k + 1, k + 1, n, Refined(p, now, b, h, k + 1), more, rest, dry);
      }
    }
  }
}
