/** The symbols of Huffman coding as tables F.1 and F.2 of ITU-T T.81 number them: categories, extra bits, runs
    of zeros and the end of the block. */
module WireSymbols {
  import opened Powers
  import opened Coefficients
  import opened HuffmanBlocks
  import BandItems
  import OptimalTable

  /** A value x of category n, with 2^(n-1) <= |x| < 2^n: the low four bits of the symbol are n, the high four
      the run before it; the extra bits are x itself if positive, else x + 2^n - 1. */
  predicate Category(x: int, n: nat) { if x == 0 then n == 0 else n > 0 && Pow2(n - 1) <= Abs(x) < Pow2(n) }

  function Coded(ac: bool, tbl: TableNumber, run: nat, x: int, n: nat): seq<Item>
    requires Category(x, n)
  {
    if x == 0 then [Symbol(ac, tbl, 16 * run)]
    else if x > 0 then [Symbol(ac, tbl, 16 * run + n), Extra(x, n)]
    else [Symbol(ac, tbl, 16 * run + n), Extra(x + Pow2(n) - 1, n)]
  }

  lemma {:induction false} SizeIs(v: nat, n: nat)
    requires Category(v, n)
    ensures Size(v) == n
    decreases n
  {
    if n > 1 {
      SizeIs(v / 2, n - 1);
    } else if n == 1 {
      assert Pow2(0) == 1;
      assert v == 1;
    }
  }

  lemma ValueIs(ac: bool, tbl: TableNumber, run: nat, x: int, n: nat)
    requires Category(x, n)
    ensures Value(ac, tbl, run, x) == Coded(ac, tbl, run, x, n)
  {
    SizeIs(Abs(x), n);
    hide Size;
  }

  /** The ranges of values that can be coded: differences below 2048, AC coefficients below 1024. */
  lemma RangesAre(diff: int, b: Block, se: nat)
    requires se < 64
    ensures DcFits(diff) <==> -2048 < diff < 2048
    ensures AcFits(b, 1, se) <==> forall k :: 1 <= k <= se ==> -1024 < b[k] < 1024
  {
    hide Size;
    TenAndEleven();
    SizeAtMost(Abs(diff), 11);
    forall k | 1 <= k <= se
      ensures Size(Abs(b[k])) <= 10 <==> -1024 < b[k] < 1024
    {
      SizeAtMost(Abs(b[k]), 10);
    }
  }

  lemma TenAndEleven()
    ensures Pow2(10) == 1024 && Pow2(11) == 2048
  {
    assert Pow2(3) == 8 && Pow2(6) == 8 * Pow2(3) && Pow2(9) == 8 * Pow2(6);
  }

  lemma SizeAtMost(v: nat, n: nat)
    ensures Size(v) <= n <==> v < Pow2(n)
  {
    if v > 0 {
      if Size(v) <= n {
        Pow2Monotone(Size(v), n);
      } else {
        Pow2Monotone(n, Size(v) - 1);
      }
    }
  }

  // ----- runs of zeros -----

  /** The category of a value. */
  function CategoryOf(x: int): (n: nat)
    ensures Category(x, n)
  {
    Size(Abs(x))
  }

  /** Code 0xF0 for every sixteen zeros. */
  function Sixteens(tbl: TableNumber, n: nat): (r: seq<Item>)
    ensures |r| == n
  {
    seq(n, _ => Symbol(true, tbl, 0xF0))
  }

  /** Coefficient k behind the last nonzero one before it: the zeros between, sixteen at a time, and the rest of
      them with the coefficient. */
  function Group(tbl: TableNumber, x: seq<int>, before: nat, k: nat): seq<Item>
    requires before < k < |x|
  {
    Sixteens(tbl, (k - before - 1) / 16) + Coded(true, tbl, (k - before - 1) % 16, x[k], CategoryOf(x[k]))
  }

  /** The nonzero coefficients at the indexes `at`. */
  function Nonzeros(tbl: TableNumber, x: seq<int>, before: nat, at: seq<nat>): seq<Item>
    requires Indexes(x, before, at)
    decreases |at|
  {
    if at == [] then [] else Group(tbl, x, before, at[0]) + Nonzeros(tbl, x, at[0], at[1..])
  }

  /** Indexes behind `before`, ascending. */
  predicate Indexes(x: seq<int>, before: nat, at: seq<nat>) {
    && (forall i :: 0 <= i < |at| ==> before < at[i] < |x|)
    && forall i, j :: 0 <= i < j < |at| ==> at[i] < at[j]
  }

  /** Indexes of just the nonzero values behind `before` and up to `last`. */
  predicate Lists(x: seq<int>, before: nat, last: nat, at: seq<nat>) {
    && last < |x| && Indexes(x, before, at)
    && forall k :: before < k <= last ==> (x[k] != 0 <==> k in at)
  }

  lemma {:induction false} LongRunsAre(tbl: TableNumber, r: nat)
    ensures LongRuns(tbl, r) == Sixteens(tbl, r / 16)
    decreases r
  {
    if r >= 16 {
      LongRunsAre(tbl, r - 16);
      assert Sixteens(tbl, r / 16) == [Symbol(true, tbl, 0xF0)] + Sixteens(tbl, (r - 16) / 16);
    }
  }

  lemma GroupIs(tbl: TableNumber, x: seq<int>, before: nat, k: nat)
    requires before < k < |x|
    ensures Group(tbl, x, before, k)
      == LongRuns(tbl, k - before - 1) + Value(true, tbl, (k - before - 1) % 16, x[k])
  {
    hide Value, LongRuns, Coded, Sixteens;
    LongRunsAre(tbl, k - before - 1);
    ValueIs(true, tbl, (k - before - 1) % 16, x[k], CategoryOf(x[k]));
  }

  /** The last of the indexes, or the one before them. */
  function End(before: nat, at: seq<nat>): nat { if at == [] then before else at[|at| - 1] }

  /** All indexes lie from k on. */
  predicate From(at: seq<nat>, k: nat, last: nat) {
    (k > last ==> at == []) && forall i :: 0 <= i < |at| ==> k <= at[i] <= last
  }

  /** A zero is not in the list; a nonzero value comes first. */
  lemma ListStep(x: seq<int>, before: nat, k: nat, last: nat, at: seq<nat>)
    requires Lists(x, before, last, at) && From(at, k, last) && before < k <= last
    ensures x[k] == 0 ==> From(at, k + 1, last)
    ensures x[k] != 0 ==>
      && at != [] && at[0] == k && Lists(x, k, last, at[1..]) && From(at[1..], k + 1, last)
      && End(before, at) == End(k, at[1..])
  {
    if x[k] != 0 {
      assert k in at;
      assert at[0] == k;
      var rest := at[1..];
      assert |at| > 1 ==> k < at[1] <= last;
      forall i | k < i <= last
        ensures i in at <==> i in rest
      {
      }
    }
  }

  lemma ListsIndexes(x: seq<int>, before: nat, last: nat, at: seq<nat>)
    requires Lists(x, before, last, at)
    ensures Indexes(x, before, at)
  {
  }

  /** The nonzero coefficients, and code 0 if the last of them is not the last of the block. */
  function WithEnd(tbl: TableNumber, x: seq<int>, before: nat, at: seq<nat>, last: nat): seq<Item>
    requires Indexes(x, before, at)
    decreases |at|
  {
    if at != [] then Group(tbl, x, before, at[0]) + WithEnd(tbl, x, at[0], at[1..], last)
    else if before < last then [Symbol(true, tbl, 0)]
    else []
  }

  lemma AcStep(tbl: TableNumber, b: Block, before: nat, k: nat, se: nat)
    requires before < k <= se < 64
    ensures AcItems(tbl, b, k, k - before - 1, se)
      == if b[k] == 0 then AcItems(tbl, b, k + 1, k - before, se)
         else Group(tbl, b, before, k) + AcItems(tbl, b, k + 1, 0, se)
  {
    GroupIs(tbl, b, before, k);
    hide Value, LongRuns, Group;
  }

  /** The AC symbols of a block from index k on, `before` being the last nonzero coefficient before k. */
  lemma {:induction false} AcItemsFrom(tbl: TableNumber, b: Block, before: nat, k: nat, se: nat, at: seq<nat>)
    requires se < 64 && before < k <= se + 1 && Lists(b, before, se, at) && From(at, k, se)
    ensures Indexes(b, before, at)
    ensures AcItems(tbl, b, k, k - before - 1, se) == WithEnd(tbl, b, before, at, se)
    decreases se + 1 - k
  {
    hide Group, Lists, Indexes;
    ListsIndexes(b, before, se, at);
    if k <= se {
      AcStep(tbl, b, before, k, se);
      ListStep(b, before, k, se, at);
      hide AcItems;
      if b[k] == 0 {
        AcItemsFrom(tbl, b, before, k + 1, se, at);
      } else {
        AcItemsFrom(tbl, b, k, k + 1, se, at[1..]);
      }
    }
  }

  /** A block: the difference of its DC coefficient from the prediction, its nonzero AC coefficients in order,
      and code 0 if the last one is not the last of the block. */
  lemma BlockItemsAre(dcTbl: TableNumber, acTbl: TableNumber, pred: int, b: Block, se: nat, at: seq<nat>)
    requires se < 64 && Lists(b, 0, se, at) && From(at, 1, se)
    ensures BlockItems(dcTbl, acTbl, pred, b, se)
      == Coded(false, dcTbl, 0, b[0] - pred, CategoryOf(b[0] - pred)) + WithEnd(acTbl, b, 0, at, se)
  {
    hide Value, Coded, WithEnd, AcItems;
    ValueIs(false, dcTbl, 0, b[0] - pred, CategoryOf(b[0] - pred));
    AcItemsFrom(acTbl, b, 0, 1, se, at);
  }

  // ----- progressive first passes -----

  /** The coefficients of a block cut down to bit al. */
  function Cut(b: Block, al: nat): (x: seq<int>)
    ensures |x| == 64
  {
    seq(64, k requires 0 <= k < 64 => Trunc(b[k], al))
  }

  /** The AC symbols of a first pass are those of the coefficients cut down; what is left of the band belongs to
      the end-of-band run. */
  lemma FirstStep(p: BandItems.Band, b: Block, before: nat, k: nat)
    requires BandItems.ValidBand(p) && before < k <= p.se
    ensures BandItems.FirstBody(p, b, k, k - before - 1)
      == if Cut(b, p.al)[k] == 0 then BandItems.FirstBody(p, b, k + 1, k - before)
         else Group(p.tbl, Cut(b, p.al), before, k) + BandItems.FirstBody(p, b, k + 1, 0)
    ensures BandItems.FirstTail(p, b, k, k - before - 1)
      == BandItems.FirstTail(p, b, k + 1, if Cut(b, p.al)[k] == 0 then k - before else 0)
  {
    GroupIs(p.tbl, Cut(b, p.al), before, k);
    hide Value, LongRuns, Group, Trunc;
  }

  lemma FirstDone(p: BandItems.Band, b: Block, r: nat)
    requires BandItems.ValidBand(p)
    ensures BandItems.FirstBody(p, b, p.se + 1, r) == [] && BandItems.FirstTail(p, b, p.se + 1, r) == r
  {
  }

  lemma {:induction false} FirstBodyFrom(p: BandItems.Band, b: Block, before: nat, k: nat, at: seq<nat>)
    requires BandItems.ValidBand(p) && before < k <= p.se + 1
    requires Lists(Cut(b, p.al), before, p.se, at) && From(at, k, p.se)
    ensures Indexes(Cut(b, p.al), before, at)
    ensures BandItems.FirstBody(p, b, k, k - before - 1) == Nonzeros(p.tbl, Cut(b, p.al), before, at)
    ensures BandItems.FirstTail(p, b, k, k - before - 1) + End(before, at) == p.se
    decreases p.se + 1 - k
  {
    hide Group, Lists, Indexes, Cut, BandItems.FirstBody, BandItems.FirstTail;
    var x := Cut(b, p.al);
    ListsIndexes(x, before, p.se, at);
    if k <= p.se {
      FirstStep(p, b, before, k);
      ListStep(x, before, k, p.se, at);
      if x[k] == 0 {
        FirstBodyFrom(p, b, before, k + 1, at);
      } else {
        FirstBodyFrom(p, b, k, k + 1, at[1..]);
      }
    } else {
      FirstDone(p, b, k - before - 1);
      assert End(before, []) == before;
    }
  }

  lemma FirstBodyIs(p: BandItems.Band, b: Block, at: seq<nat>)
    requires BandItems.ValidBand(p) && !p.refine
    requires Lists(Cut(b, p.al), p.ss - 1, p.se, at) && From(at, p.ss, p.se)
    ensures BandItems.Body(p, b) == Nonzeros(p.tbl, Cut(b, p.al), p.ss - 1, at)
    ensures BandItems.Tail(p, b).run == if End(p.ss - 1, at) < p.se then 1 else 0
  {
    hide Lists, Nonzeros, BandItems.FirstBody, BandItems.FirstTail, Cut;
    FirstBodyFrom(p, b, p.ss - 1, p.ss, at);
  }

  // ----- progressive refinement -----

  /** The extra bits behind symbols for newly nonzero coefficients, whose low four bits are 1. */
  function NewSigns(items: seq<Item>): seq<nat> {
    if items == [] then []
    else if items[0].Symbol? && items[0].s % 16 == 1 && |items| > 1 && items[1].Extra? then
      [items[1].v] + NewSigns(items[2..])
    else NewSigns(items[1..])
  }

  /** The symbols of a refinement: sixteen zeros, or fewer with a newly nonzero coefficient behind them. */
  predicate RefineSymbols(items: seq<Item>) {
    forall i :: 0 <= i < |items| && items[i].Symbol? ==>
      items[i].s == 0xF0 || (items[i].s <= 0xF1 && items[i].s % 16 == 1)
  }

  /** One bit for each coefficient from k on that becomes nonzero: 1 if it is positive. */
  function Signs(p: BandItems.Band, b: Block, k: nat): seq<nat>
    requires BandItems.ValidBand(p) && k <= p.se + 1
    decreases p.se + 1 - k
  {
    if k == p.se + 1 then []
    else (if Trunc(b[k], p.al) == 1 then [1] else if Trunc(b[k], p.al) == -1 then [0] else []) + Signs(p, b, k + 1)
  }

  lemma {:induction false} CorrectionsAreNoSigns(c: seq<Bit>, rest: seq<Item>)
    ensures NewSigns(BandItems.CorrItems(c) + rest) == NewSigns(rest)
    ensures RefineSymbols(rest) ==> RefineSymbols(BandItems.CorrItems(c) + rest)
    decreases |c|
  {
    if c == [] {
      assert BandItems.CorrItems(c) + rest == rest;
    } else {
      var items := BandItems.CorrItems(c) + rest;
      assert items[1..] == BandItems.CorrItems(c[1..]) + rest;
      CorrectionsAreNoSigns(c[1..], rest);
      assert items[0] == Extra(c[0], 1);
      assert forall i :: 0 < i < |items| ==> items[i] == items[1..][i - 1];
    }
  }

  lemma SixteenZeros(tbl: TableNumber, c: seq<Bit>, rest: seq<Item>)
    ensures NewSigns([Symbol(true, tbl, 0xF0)] + BandItems.CorrItems(c) + rest) == NewSigns(rest)
    ensures RefineSymbols(rest) ==> RefineSymbols([Symbol(true, tbl, 0xF0)] + BandItems.CorrItems(c) + rest)
  {
    CorrectionsAreNoSigns(c, rest);
    var items, tail := [Symbol(true, tbl, 0xF0)] + BandItems.CorrItems(c) + rest, BandItems.CorrItems(c) + rest;
    assert items[1..] == tail;
    assert forall i :: 0 < i < |items| ==> items[i] == tail[i - 1];
  }

  lemma OneNew(tbl: TableNumber, zeros: nat, sign: Bit, c: seq<Bit>, rest: seq<Item>)
    requires zeros < 16
    ensures var items := [Symbol(true, tbl, 16 * zeros + 1), Extra(sign, 1)] + BandItems.CorrItems(c) + rest;
      NewSigns(items) == [sign] + NewSigns(rest) && (RefineSymbols(rest) ==> RefineSymbols(items))
  {
    CorrectionsAreNoSigns(c, rest);
    var items, tail := [Symbol(true, tbl, 16 * zeros + 1), Extra(sign, 1)] + BandItems.CorrItems(c) + rest,
      BandItems.CorrItems(c) + rest;
    assert items[2..] == tail;
    assert forall i :: 1 < i < |items| ==> items[i] == tail[i - 2];
  }

  /** The symbols and signs of a refinement from coefficient k on. */
  lemma {:induction false} RefineBodyFrom(p: BandItems.Band, b: Block, last: nat, h: nat, k: nat)
    requires BandItems.ValidBand(p) && h <= k <= p.se + 1
    requires forall j :: k <= j <= p.se && BandItems.Mag(p, b, j) == 1 ==> j <= last
    ensures NewSigns(BandItems.RefineBody(p, b, last, h, k)) == Signs(p, b, k)
    ensures RefineSymbols(BandItems.RefineBody(p, b, last, h, k))
    decreases p.se + 1 - k, k - h
  {
    hide Trunc, BandItems.CorrItems, BandItems.CorrIn, BandItems.ZerosIn, NewSigns, RefineSymbols;
    if k == p.se + 1 {
      Nothing();
    } else if BandItems.Mag(p, b, k) == 0 {
      RefineBodyFrom(p, b, last, h, k + 1);
    } else if BandItems.ZerosIn(p, b, h, k) >= 16 && k <= last {
      var q := BandItems.Behind(p, b, h, k, 16);
      RefineBodyFrom(p, b, last, q, k);
      SixteenZeros(p.tbl, BandItems.CorrIn(p, b, h, k), BandItems.RefineBody(p, b, last, q, k));
    } else if BandItems.Mag(p, b, k) > 1 {
      RefineBodyFrom(p, b, last, h, k + 1);
    } else {
      RefineBodyFrom(p, b, last, k + 1, k + 1);
      OneNew(p.tbl, BandItems.ZerosIn(p, b, h, k), if Trunc(b[k], p.al) < 0 then 0 else 1, BandItems.CorrIn(p, b, h, k),
        BandItems.RefineBody(p, b, last, k + 1, k + 1));
    }
  }

  lemma Nothing()
    ensures NewSigns([]) == [] && RefineSymbols([])
  {
  }

  /** A refinement of a block is coded with these symbols only, and the signs of the coefficients that become
      nonzero follow in order. */
  lemma RefineBodyIs(p: BandItems.Band, b: Block)
    requires BandItems.ValidBand(p) && p.refine
    ensures NewSigns(BandItems.Body(p, b)) == Signs(p, b, p.ss) && RefineSymbols(BandItems.Body(p, b))
  {
    hide BandItems.Mag;
    RefineBodyFrom(p, b, BandItems.LastNew(p, b, p.se), p.ss, p.ss);
  }

  // ----- code lengths -----

  /** Building a table fails just when Huffman's procedure makes some code longer than 32 bits. */
  lemma TooLongIs(freq: seq<nat>)
    requires OptimalTable.ValidCounts(freq)
    ensures OptimalTable.Build(freq).TooLong? <==> exists s :: 0 <= s < 257 && OptimalTable.CodeSizes(freq)[s] > 32
  {
    hide OptimalTable.CodeSizes;
  }
}
