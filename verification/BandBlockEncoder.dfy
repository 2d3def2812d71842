/** Writing, or counting, one block of an AC band in a progressive scan: the first pass (figure G.3 of ITU-T
    T.81) and refinement (figure G.7), against the items that the block and the run before it come to. */
module BandBlockEncoder {
  import opened Powers
  import opened Coefficients
  import opened HuffmanBlocks
  import opened BandItems
  import opened EobRuns
  import opened BitWriter
  import opened BandEncoder
  import opened BandRoundTrip
  import H = HuffmanBlockEncoder

  datatype Outcome = Coded | NoCode | BadCoefficient

  // ----- first pass -----

  /** Symbols for whole runs of sixteen zeros. */
  method EmitLongRuns(c: EntropyEncoder, tbl: TableNumber, run: nat, ghost m: Point, ghost done: seq<Item>)
    returns (ok: bool, left: nat)
    requires c.Wrote(m, done, true)
    modifies c`items, c.w, c.dcCounts, c.acCounts
    ensures c.Wrote(m, done + LongRuns(tbl, run), ok) && (ok ==> left == run % 16)
  {
    hide c.Wrote;
    ok, left := true, run;
    ghost var now := done;
    while left > 15
      invariant ok && left % 16 == run % 16 && c.Wrote(m, now, true)
      invariant now + LongRuns(tbl, left) == done + LongRuns(tbl, run)
      decreases left
    {
      ghost var zrl := [Symbol(true, tbl, 0xF0)];
      assert now + LongRuns(tbl, left) == now + zrl + LongRuns(tbl, left - 16);
      ok := c.EmitSymbol(true, tbl, 0xF0, m, now);
      if !ok {
        c.FailureStays(m, now + zrl, LongRuns(tbl, left - 16));
        return;
      }
      now := now + zrl;
      left := left - 16;
    }
    assert now + LongRuns(tbl, left) == now;
  }

  /** A nonzero value behind fewer than sixteen zeros, from its magnitude and the bits to put out. */
  method EmitValue(c: EntropyEncoder, tbl: TableNumber, run: nat, x: int, ghost m: Point, ghost done: seq<Item>)
    returns (r: Outcome)
    requires c.Wrote(m, done, true) && run < 16 && x != 0
    modifies c`items, c.w, c.dcCounts, c.acCounts
    ensures r == BadCoefficient <==> Size(Abs(x)) > MAX_COEF_BITS
    ensures r != BadCoefficient ==> c.Wrote(m, done + Value(true, tbl, run, x), r == Coded)
  {
    hide c.Wrote, Size, ExtraOf;
    var temp, temp2 := x, x;
    if x < 0 {
      temp := -x;
      temp2 := -temp - 1;
    }
    var nbits := H.BitCount(temp);
    if nbits > MAX_COEF_BITS {
      return BadCoefficient;
    }
    SizePositive(temp);
    ghost var symbol, extra := [Symbol(true, tbl, 16 * run + nbits)], [Extra(ExtraOf(x), nbits)];
    assert done + Value(true, tbl, run, x) == done + symbol + extra;
    var ok := c.EmitSymbol(true, tbl, 16 * run + nbits, m, done);
    if !ok {
      c.FailureStays(m, done + symbol, extra);
      return NoCode;
    }
    H.MaskIsExtra(x);
    c.EmitBits(temp2, nbits, m, done + symbol);
    r := Coded;
  }

  /** Room for the bits of one more block, and a run that may grow by one. */
  ghost predicate Ready(c: EntropyEncoder)
    reads c
  {
    c.bitBuffer.Length == MAX_CORR_BITS && c.be <= MAX_CORR_BITS - DCTSIZE2 + 1 && c.eobRun < MAX_RUN
      && (c.eobRun == 0 ==> c.be == 0)
  }

  /** One coefficient that is nonzero after the point transform: the pending run goes out first. */
  method EncodeNonzero(c: EntropyEncoder, tbl: TableNumber, run: nat, x: int, ghost m: Point, ghost done: seq<Item>,
      ghost more: seq<Item>)
    returns (r: Outcome)
    requires c.Wrote(m, done, true) && x != 0 && Ready(c)
    modifies c`items, c`eobRun, c`be, c.w, c.dcCounts, c.acCounts
    ensures r == BadCoefficient ==> Size(Abs(x)) > MAX_COEF_BITS
    ensures var items := EobItems(tbl, old(c.St())) + LongRuns(tbl, run) + Value(true, tbl, run % 16, x);
      && (r == Coded ==> c.Wrote(m, done + items, true) && c.eobRun == 0 && c.be == 0 && Size(Abs(x)) <= MAX_COEF_BITS)
      && (r == NoCode ==> c.Wrote(m, done + items + more, false))
  {
    hide c.Wrote, Size, EobItems, LongRuns, Value;
    ghost var eob, runs, value := EobItems(tbl, c.St()), LongRuns(tbl, run), Value(true, tbl, run % 16, x);
    assert done + (eob + runs + value) == done + eob + runs + value;
    var ok := c.EmitEobrun(tbl, m, done);
    if !ok {
      assert done + (eob + runs + value) + more == done + eob + (runs + value + more);
      c.FailureStays(m, done + eob, runs + value + more);
      return NoCode;
    }
    var left;
    ok, left := EmitLongRuns(c, tbl, run, m, done + eob);
    if !ok {
      assert done + (eob + runs + value) + more == done + eob + runs + (value + more);
      c.FailureStays(m, done + eob + runs, value + more);
      return NoCode;
    }
    r := EmitValue(c, tbl, left, x, m, done + eob + runs);
    if r == NoCode {
      c.FailureStays(m, done + eob + runs + value, more);
    }
  }

  /** One block of a first pass. */
  method EncodeFirst(c: EntropyEncoder, p: Band, b: Block, ghost m: Point) returns (r: Outcome)
    requires ValidBand(p) && !p.refine && c.Wrote(m, [], true) && Ready(c) && c.be == 0
    modifies c`items, c`eobRun, c`be, c.w, c.dcCounts, c.acCounts
    ensures r == BadCoefficient ==> !BandFits(p, b)
    ensures var (items, next) := StepItems(p, old(c.St()), b);
      && (r == Coded ==> c.Wrote(m, items, true) && Ready(c) && c.be == 0 && c.St() == next && BandFits(p, b))
      && (r == NoCode ==> c.Wrote(m, items, false))
  {
    hide c.Wrote, Size, EobItems, LongRuns, Value, Trunc;
    ghost var st := c.St();
    ghost var all := EobItems(p.tbl, st) + FirstBody(p, b, p.ss, 0);
    ghost var done: seq<Item>, flushed := [], false;
    var run: nat := 0;
    for k := p.ss to p.se + 1
      invariant c.Wrote(m, done, true) && Ready(c) && c.be == 0
      invariant run <= k - p.ss && FirstTail(p, b, k, run) == FirstTail(p, b, p.ss, 0)
      invariant forall j :: p.ss <= j < k ==> Size(Mag(p, b, j)) <= MAX_COEF_BITS
      invariant flushed ==> c.eobRun == 0 && !Quiet(p, b) && done + FirstBody(p, b, k, run) == all
      invariant !flushed ==>
        done == [] && c.St() == st && run == k - p.ss && FirstBody(p, b, k, run) == FirstBody(p, b, p.ss, 0)
      invariant !flushed ==> forall j :: p.ss <= j < k ==> Trunc(b[j], p.al) == 0
    {
      var x := Trunc(b[k], p.al);
      H.SizeOfZero(0);
      if x == 0 {
        run := run + 1;
      } else {
        ghost var more := FirstBody(p, b, k + 1, 0);
        ghost var items := EobItems(p.tbl, c.St()) + LongRuns(p.tbl, run) + Value(true, p.tbl, run % 16, x);
        EobNone(p.tbl);
        assert c.St().corr == [];
        assert done + items + more == all;
        r := EncodeNonzero(c, p.tbl, run, x, m, done, more);
        if r != Coded {
          if BandFits(p, b) {
            FitsAt(p, b, k);
          }
          return;
        }
        done := done + items;
        flushed := true;
        run := 0;
      }
    }
    assert FirstBody(p, b, p.se + 1, run) == [];
    assert done + [] == done;
    r := EndBand(c, p, b, run, 0, m, done, st, flushed);
  }

  /** Count an end of band if anything is left; force the run out before it can overflow. */
  method EndBand(c: EntropyEncoder, p: Band, b: Block, run: nat, br: nat, ghost m: Point, ghost done: seq<Item>,
      ghost st: Pending,
      ghost flushed: bool) returns (r: Outcome)
    requires ValidBand(p) && c.Wrote(m, done, true) && Ready(c) && br <= 63
    requires flushed <==> !Quiet(p, b)
    requires !flushed ==>
      done == [] && c.St() == st && (run > 0 || br > 0) && c.bitBuffer[c.be..c.be + br] == QuietCorr(p, b)
    requires flushed ==> c.eobRun == 0 && done == EobItems(p.tbl, st) + Body(p, b)
    requires flushed ==> Tail(p, b) == if run > 0 || br > 0 then Pending(1, c.bitBuffer[c.be..c.be + br]) else NONE
    modifies c`items, c`eobRun, c`be, c.w, c.dcCounts, c.acCounts
    ensures r != BadCoefficient
    ensures var (items, next) := StepItems(p, st, b);
      && (r == Coded ==> c.Wrote(m, items, true) && Ready(c) && c.St() == next)
      && (r == NoCode ==> c.Wrote(m, items, false))
  {
    hide c.Wrote, EobItems, Body, Tail, Quiet;
    if !flushed {
      QuietTail(p, b);
    } else {
      TailBounded(p, b);
    }
    r := Coded;
    if run > 0 || br > 0 {
      ghost var corr := c.bitBuffer[c.be..c.be + br];
      assert c.bitBuffer[..c.be + br] == c.bitBuffer[..c.be] + corr;
      c.eobRun := c.eobRun + 1;
      c.be := c.be + br;
      if c.eobRun == 0x7FFF || c.be > MAX_CORR_BITS - DCTSIZE2 + 1 {
        ghost var next := c.St();
        assert done + EobItems(p.tbl, next) == EobItems(p.tbl, next);
        var ok := c.EmitEobrun(p.tbl, m, done);
        r := if ok then Coded else NoCode;
      }
    }
  }

  // ----- refinement -----

  /** Magnitudes after the point transform, and the last coefficient that becomes nonzero. */
  method PrePass(p: Band, b: Block, absvalues: array<nat>) returns (eob: nat)
    requires ValidBand(p) && absvalues.Length == 64
    modifies absvalues
    ensures eob == LastNew(p, b, p.se) && forall k :: p.ss <= k <= p.se ==> absvalues[k] == Mag(p, b, k)
  {
    hide Trunc, Pow2;
    eob := 0;
    for k := p.ss to p.se + 1
      invariant eob == LastNew(p, b, k - 1) && forall j :: p.ss <= j < k ==> absvalues[j] == Mag(p, b, j)
    {
      var temp: int := b[k];
      if temp < 0 {
        temp := -temp;
      }
      MagnitudeOf(p, b, k);
      temp := temp / Pow2(p.al);
      absvalues[k] := temp;
      if temp == 1 {
        eob := k;
      }
    }
  }

  lemma MagnitudeOf(p: Band, b: Block, k: nat)
    requires k < 64
    ensures Mag(p, b, k) == Abs(b[k]) / Pow2(p.al)
  {
    hide Pow2;
    QuotientBelow(Abs(b[k]), Pow2(p.al));
  }

  /** A symbol for sixteen zeros or a coefficient that becomes nonzero, behind the pending run, with the correction
      bits that belong to it. */
  method EmitWithBits(c: EntropyEncoder, p: Band, s: nat, start: nat, br: nat, isNew: bool, negative: bool,
      ghost m: Point, ghost done: seq<Item>, ghost more: seq<Item>) returns (ok: bool)
    requires c.Wrote(m, done, true) && s < 256 && Ready(c) && start + br <= c.bitBuffer.Length
    modifies c`items, c`eobRun, c`be, c.w, c.dcCounts, c.acCounts
    ensures var items := EobItems(p.tbl, old(c.St())) + WithSign(p.tbl, s, isNew, negative)
        + CorrItems(c.bitBuffer[start..start + br]);
      if ok then c.Wrote(m, done + items, true) && c.eobRun == 0 && c.be == 0
      else c.Wrote(m, done + items + more, false)
  {
    hide c.Wrote, EobItems, CorrItems;
    ghost var eob, symbol, corr := EobItems(p.tbl, c.St()), WithSign(p.tbl, s, isNew, negative),
      CorrItems(c.bitBuffer[start..start + br]);
    ghost var first := [Symbol(true, p.tbl, s)];
    assert done + (eob + symbol + corr) == done + eob + symbol + corr;
    ok := c.EmitEobrun(p.tbl, m, done);
    if !ok {
      assert done + (eob + symbol + corr) + more == done + eob + (symbol + corr + more);
      c.FailureStays(m, done + eob, symbol + corr + more);
      return;
    }
    ok := c.EmitSymbol(true, p.tbl, s, m, done + eob);
    if !ok {
      assert done + (eob + symbol + corr) + more == done + eob + first + (symbol[1..] + corr + more);
      c.FailureStays(m, done + eob + first, symbol[1..] + corr + more);
      return;
    }
    if isNew {
      var temp := if negative then 0 else 1;
      c.BitMod(temp);
      c.EmitBits(temp, 1, m, done + eob + first);
      assert done + eob + symbol == done + eob + first + [Extra(temp, 1)];
    } else {
      assert done + eob + symbol == done + eob + first;
    }
    c.EmitBufferedBits(start, br, m, done + eob + symbol);
  }

  /** A symbol, with the sign of a coefficient that becomes nonzero. */
  function WithSign(tbl: TableNumber, s: nat, isNew: bool, negative: bool): seq<Item> {
    [Symbol(true, tbl, s)] + if isNew then [Extra(if negative then 0 else 1, 1)] else []
  }

  /** Every coefficient that does not become nonzero is a zero or has a correction bit. */
  lemma {:induction false} ZeroOrBit(p: Band, b: Block, h: nat, k: nat)
    requires h <= k <= 64 && NoneNew(p, b, h, k)
    ensures ZerosIn(p, b, h, k) + |CorrIn(p, b, h, k)| == k - h
    decreases k
  {
    hide Mag;
    if h < k {
      ZeroOrBit(p, b, h, k - 1);
    }
  }

  /** How far refinement has got: items are written up to h, where the run of zeros and the correction bits from h
      to k are kept aside. */
  ghost predicate Refining(c: EntropyEncoder, p: Band, b: Block, st: Pending, m: Point, done: seq<Item>, h: nat, k: nat,
      run: nat, br: nat, flushed: bool)
    requires ValidBand(p) && p.refine
    reads c, c.w, c.dcCounts, c.acCounts, c.bitBuffer
  {
    && c.Wrote(m, done, true) && Ready(c) && Standing(p, b, LastNew(p, b, p.se), h, k)
    && run == ZerosIn(p, b, h, k) && br == |CorrIn(p, b, h, k)| && c.bitBuffer[c.be..c.be + br] == CorrIn(p, b, h, k)
    && if flushed then
         c.eobRun == 0 && LastNew(p, b, p.se) > 0
         && done + RefineBody(p, b, LastNew(p, b, p.se), h, k) == EobItems(p.tbl, st) + Body(p, b)
       else
         done == [] && c.St() == st && h == p.ss && RefineBody(p, b, LastNew(p, b, p.se), h, k) == Body(p, b)
  }

  /** Going past a coefficient that stays zero, or keeps one more correction bit aside. */
  method KeepAside(c: EntropyEncoder, p: Band, b: Block, temp: nat, ghost st: Pending, ghost m: Point,
      ghost done: seq<Item>, ghost h: nat,
      k: nat, run0: nat, br0: nat, ghost flushed: bool) returns (run: nat, br: nat)
    requires ValidBand(p) && p.refine && k <= p.se && Refining(c, p, b, st, m, done, h, k, run0, br0, flushed)
    requires temp == Mag(p, b, k) != 1 && (temp > 1 ==> run0 < 16 || k > LastNew(p, b, p.se))
    modifies c.bitBuffer
    ensures Refining(c, p, b, st, m, done, h, k + 1, run, br, flushed)
  {
    hide c.Wrote, EobItems, Mag, Standing, Body, LastNew;
    run, br := run0, br0;
    StandingNext(p, b, LastNew(p, b, p.se), h, k);
    assert p.ss <= h <= k by { StandingWithin(p, b, LastNew(p, b, p.se), h, k); }
    if temp == 0 {
      run := run + 1;
    } else {
      c.bitBuffer[c.be + br] := temp % 2;
      br := br + 1;
    }
  }

  lemma StandingWithin(p: Band, b: Block, last: nat, h: nat, k: nat)
    requires ValidBand(p) && Standing(p, b, last, h, k)
    ensures p.ss <= h <= k
  {
  }

  /** All items of the block, when it is not joined to a run: the pending one, and its own. */
  ghost function Whole(p: Band, st: Pending, b: Block): seq<Item>
    requires ValidBand(p)
  {
    EobItems(p.tbl, st) + Body(p, b)
  }

  /** What remains of them after the items written next. */
  lemma WholeSplit(c: EntropyEncoder, p: Band, b: Block, st: Pending, m: Point, done: seq<Item>, h: nat, k: nat,
      run: nat, br: nat, flushed: bool, next: seq<Item>, later: seq<Item>)
    requires ValidBand(p) && p.refine && Refining(c, p, b, st, m, done, h, k, run, br, flushed)
    requires RefineBody(p, b, LastNew(p, b, p.se), h, k) == next + later
    ensures Whole(p, st, b) == done + (EobItems(p.tbl, c.St()) + next) + later
  {
    hide c.Wrote, RefineBody, Body, Standing, EobItems, Ready;
    EobNone(p.tbl);
    assert Ready(c) ==> c.be <= c.bitBuffer.Length by { ReadyRoom(c); }
    if flushed {
      assert c.St() == NONE by { ReadyRoom(c); assert c.bitBuffer[..0] == []; }
      assert done + ([] + next) + later == done + (next + later);
    } else {
      assert [] + (EobItems(p.tbl, st) + next) + later == EobItems(p.tbl, st) + (next + later);
    }
  }

  lemma ReadyRoom(c: EntropyEncoder)
    requires Ready(c)
    ensures c.be <= c.bitBuffer.Length && (c.eobRun == 0 ==> c.be == 0)
  {
  }

  /** Sixteen zeros that cannot be left to the end of band. */
  method FlushZeros(c: EntropyEncoder, p: Band, b: Block, ghost st: Pending, ghost m: Point, ghost done: seq<Item>,
      ghost h: nat, k: nat,
      run: nat, br: nat, ghost flushed: bool) returns (ok: bool, ghost done1: seq<Item>, ghost h1: nat)
    requires ValidBand(p) && p.refine && Refining(c, p, b, st, m, done, h, k, run, br, flushed)
    requires run > 15 && k <= LastNew(p, b, p.se) && Mag(p, b, k) != 0
    modifies c`items, c`eobRun, c`be, c.w, c.dcCounts, c.acCounts
    ensures ok ==> Refining(c, p, b, st, m, done1, h1, k, run - 16, 0, true)
    ensures !ok ==> c.Wrote(m, Whole(p, st, b), false)
  {
    hide c.Wrote, EobItems, Mag, Standing, Body, CorrItems;
    ghost var last := LastNew(p, b, p.se);
    StandingWithin(p, b, last, h, k);
    StandingBehind(p, b, last, h, k);
    h1 := Behind(p, b, h, k, 16);
    BehindEmpty(p, b, h, h1, k);
    ghost var corr := CorrItems(CorrIn(p, b, h, k));
    ghost var items, later := WithSign(p.tbl, 0xF0, false, false) + corr, RefineBody(p, b, last, h1, k);
    assert RefineBody(p, b, last, h, k) == items + later;
    WholeSplit(c, p, b, st, m, done, h, k, run, br, flushed, items, later);
    assert EobItems(p.tbl, c.St()) + WithSign(p.tbl, 0xF0, false, false) + corr == EobItems(p.tbl, c.St()) + items;
    done1 := done + (EobItems(p.tbl, c.St()) + items);
    ok := EmitWithBits(c, p, 0xF0, c.be, br, false, false, m, done, later);
  }

  /** No correction bits are left behind the sixteenth zero. */
  lemma BehindEmpty(p: Band, b: Block, h: nat, q: nat, k: nat)
    requires h <= q <= k <= 64 && CorrIn(p, b, h, k) == CorrIn(p, b, h, q)
    ensures CorrIn(p, b, q, k) == []
  {
    CountSplit(p, b, h, q, k);
  }

  /** A coefficient that becomes nonzero. */
  method FlushNew(c: EntropyEncoder, p: Band, b: Block, ghost st: Pending, ghost m: Point, ghost done: seq<Item>,
      ghost h: nat, k: nat,
      run: nat, br: nat, ghost flushed: bool) returns (ok: bool, ghost done1: seq<Item>)
    requires ValidBand(p) && p.refine && k <= p.se && Refining(c, p, b, st, m, done, h, k, run, br, flushed)
    requires run <= 15 && Mag(p, b, k) == 1
    modifies c`items, c`eobRun, c`be, c.w, c.dcCounts, c.acCounts
    ensures ok ==> Refining(c, p, b, st, m, done1, k + 1, k + 1, 0, 0, true)
    ensures !ok ==> c.Wrote(m, Whole(p, st, b), false)
  {
    hide c.Wrote, EobItems, Standing, Body, CorrItems;
    ghost var last := LastNew(p, b, p.se);
    StandingWithin(p, b, last, h, k);
    StandingNext(p, b, last, h, k);
    SignKept(p, b, k);
    hide Mag;
    ghost var corr := CorrItems(CorrIn(p, b, h, k));
    ghost var two := WithSign(p.tbl, 16 * run + 1, true, b[k] < 0);
    ghost var items, later := two + corr, RefineBody(p, b, last, k + 1, k + 1);
    assert two == NewItems(p, b, h, k);
    assert RefineBody(p, b, last, h, k) == items + later;
    WholeSplit(c, p, b, st, m, done, h, k, run, br, flushed, items, later);
    assert EobItems(p.tbl, c.St()) + two + corr == EobItems(p.tbl, c.St()) + items;
    done1 := done + (EobItems(p.tbl, c.St()) + items);
    ok := EmitWithBits(c, p, 16 * run + 1, c.be, br, true, b[k] < 0, m, done, later);
  }

  lemma SignKept(p: Band, b: Block, k: nat)
    requires k < 64 && Mag(p, b, k) == 1
    ensures Trunc(b[k], p.al) < 0 <==> b[k] < 0
  {
    LevelBound(b[k], p.al);
  }

  /** Where refinement stands at the end of the band. */
  lemma RefiningEnd(c: EntropyEncoder, p: Band, b: Block, st: Pending, m: Point, done: seq<Item>, h: nat, run: nat,
      br: nat, flushed: bool)
    requires ValidBand(p) && p.refine && Refining(c, p, b, st, m, done, h, p.se + 1, run, br, flushed)
    ensures br <= 63 && (flushed <==> !Quiet(p, b))
    ensures !flushed ==>
      done == [] && c.St() == st && (run > 0 || br > 0) && c.bitBuffer[c.be..c.be + br] == QuietCorr(p, b)
    ensures flushed ==> c.eobRun == 0 && done == EobItems(p.tbl, st) + Body(p, b)
    ensures flushed ==> Tail(p, b) == if run > 0 || br > 0 then Pending(1, c.bitBuffer[c.be..c.be + br]) else NONE
  {
    hide c.Wrote, EobItems, Mag, Body, Noticed, CorrIn, ZerosIn;
    ZeroOrBit(p, b, h, p.se + 1);
    assert done + RefineBody(p, b, LastNew(p, b, p.se), h, p.se + 1) == done;
    assert LastNew(p, b, p.se) == 0 <==> Quiet(p, b);
  }

  /** One coefficient that is not zero: runs of sixteen zeros before it, unless they belong to the end of band;
      then a correction bit, or the coefficient itself if it becomes nonzero. */
  method RefineNonzero(c: EntropyEncoder, p: Band, b: Block, temp: nat, eob: nat, ghost st: Pending, ghost m: Point,
      ghost done0: seq<Item>,
      ghost h0: nat, k: nat, run0: nat, br0: nat, ghost flushed0: bool)
    returns (ok: bool, run: nat, br: nat, ghost done: seq<Item>, ghost h: nat, ghost flushed: bool)
    requires ValidBand(p) && p.refine && p.ss <= k <= p.se
    requires Refining(c, p, b, st, m, done0, h0, k, run0, br0, flushed0)
    requires temp == Mag(p, b, k) != 0 && eob == LastNew(p, b, p.se)
    modifies c`items, c`eobRun, c`be, c.w, c.dcCounts, c.acCounts, c.bitBuffer
    ensures ok ==> Refining(c, p, b, st, m, done, h, k + 1, run, br, flushed)
    ensures !ok ==> c.Wrote(m, StepItems(p, st, b).0, false)
  {
    hide c.Wrote, StepItems, LastNew, Mag, Refining, Whole;
    run, br, done, h, flushed := run0, br0, done0, h0, flushed0;
    while run > 15 && k <= eob
      invariant Refining(c, p, b, st, m, done, h, k, run, br, flushed)
      decreases run
    {
      ok, done, h := FlushZeros(c, p, b, st, m, done, h, k, run, br, flushed);
      if !ok {
        LoudItems(p, st, b, k);
        return;
      }
      run, br, flushed := run - 16, 0, true;
    }
    if temp > 1 {
      ok := true;
      run, br := KeepAside(c, p, b, temp, st, m, done, h, k, run, br, flushed);
    } else {
      NewBeforeEnd(p, b, k);
      ok, done := FlushNew(c, p, b, st, m, done, h, k, run, br, flushed);
      if !ok {
        LoudItems(p, st, b, k);
        return;
      }
      run, br, h, flushed := 0, 0, k + 1, true;
    }
  }

  /** One block of a refinement. */
  method EncodeRefine(c: EntropyEncoder, p: Band, b: Block, ghost m: Point) returns (ok: bool)
    requires ValidBand(p) && p.refine && c.Wrote(m, [], true) && Ready(c)
    modifies c`items, c`eobRun, c`be, c.w, c.dcCounts, c.acCounts, c.bitBuffer
    ensures var (items, next) := StepItems(p, old(c.St()), b);
      if ok then c.Wrote(m, items, true) && Ready(c) && c.St() == next else c.Wrote(m, items, false)
  {
    hide c.Wrote, LastNew, Mag, StepItems;
    var absvalues := new nat[64](_ => 0);
    var eob := PrePass(p, b, absvalues);
    var run: nat, br: nat := 0, 0;
    ghost var h: nat := p.ss;
    ghost var st, done: seq<Item>, flushed := c.St(), [], false;
    StartRefining(c, p, b, m);
    hide Refining, Ready;
    for k := p.ss to p.se + 1
      invariant Refining(c, p, b, st, m, done, h, k, run, br, flushed)
      invariant forall j :: p.ss <= j <= p.se ==> absvalues[j] == Mag(p, b, j)
    {
      var temp := absvalues[k];
      if temp == 0 {
        run, br := KeepAside(c, p, b, temp, st, m, done, h, k, run, br, flushed);
      } else {
        ok, run, br, done, h, flushed := RefineNonzero(c, p, b, temp, eob, st, m, done, h, k, run, br, flushed);
        if !ok {
          return;
        }
      }
    }
    RefiningEnd(c, p, b, st, m, done, h, run, br, flushed);
    FromRefining(c, p, b, st, m, done, h, p.se + 1, run, br, flushed);
    var r := EndBand(c, p, b, run, br, m, done, st, flushed);
    ok := r == Coded;
  }

  lemma StartRefining(c: EntropyEncoder, p: Band, b: Block, m: Point)
    requires ValidBand(p) && p.refine && c.Wrote(m, [], true) && Ready(c)
    ensures Refining(c, p, b, c.St(), m, [], p.ss, p.ss, 0, 0, false)
  {
    hide c.Wrote, Mag;
  }

  lemma FromRefining(c: EntropyEncoder, p: Band, b: Block, st: Pending, m: Point, done: seq<Item>, h: nat, k: nat,
      run: nat, br: nat, flushed: bool)
    requires ValidBand(p) && p.refine && Refining(c, p, b, st, m, done, h, k, run, br, flushed)
    ensures c.Wrote(m, done, true) && Ready(c)
  {
    hide c.Wrote;
  }

  /** A block with something new in it is written in full. */
  lemma LoudItems(p: Band, st: Pending, b: Block, k: nat)
    requires ValidBand(p) && p.refine && p.ss <= k <= LastNew(p, b, p.se)
    ensures StepItems(p, st, b).0 == Whole(p, st, b)
  {
    hide EobItems, Body, Mag;
    var e := LastNew(p, b, p.se);
    assert Mag(p, b, e) == 1;
  }

  lemma NewBeforeEnd(p: Band, b: Block, k: nat)
    requires ValidBand(p) && p.ss <= k <= p.se && Mag(p, b, k) == 1
    ensures k <= LastNew(p, b, p.se)
  {
    hide Mag;
  }
}
