/** The statistics pass of a sequential scan: it counts exactly the symbols the output pass will write, so
    tables built from its counts have a code for every one of them. */
module HuffmanStatistics {
  import opened Coefficients
  import opened RestartIntervals
  import opened HuffmanBlocks
  import opened HuffmanScan
  import opened HuffmanBlockEncoder
  import opened HuffmanScanEncoder

  /** The items of all intervals. */
  function AllItems(s: Scan, chunks: seq<Chunk>): seq<Item>
    requires ValidScan(s) && ValidChunks(s, chunks)
  {
    if chunks == [] then [] else AllItems(s, chunks[..|chunks| - 1]) + ChunkItems(s, Zero(s), chunks[|chunks| - 1])
  }

  lemma AllItemsMore(s: Scan, chunks: seq<Chunk>, c: Chunk, mcu: Mcu)
    requires ValidScan(s) && ValidChunks(s, chunks) && ValidChunk(s, c) && ValidMcu(s, mcu)
    ensures ValidChunks(s, chunks + [c]) && ValidChunks(s, chunks + [c + [mcu]])
    ensures AllItems(s, chunks + [c + [mcu]])
      == AllItems(s, chunks + [c]) + McuItems(s, ChunkPreds(s, Zero(s), c), mcu, 0)
    ensures AllItems(s, chunks + [c] + [[]]) == AllItems(s, chunks + [c])
  {
    hide ChunkItems, McuItems, ChunkPreds;
    assert (chunks + [c + [mcu]])[..|chunks|] == chunks && (chunks + [c])[..|chunks|] == chunks;
    assert (chunks + [c] + [[]])[..|chunks| + 1] == chunks + [c];
    ChunkAppend(s, Zero(s), c, mcu);
    EmptyChunk(s, NoTables());
  }

  function NoTables(): Tables {
    Tables(seq(NUM_HUFF_TBLS, _ => NoEntry()), seq(NUM_HUFF_TBLS, _ => NoEntry()))
  }

  // ----- counters of every table -----

  type Counters = c: seq<seq<nat>> | |c| == NUM_HUFF_TBLS witness seq(NUM_HUFF_TBLS, _ => [])

  /** All counters have grown by the symbols of the items. */
  ghost predicate AllCounted(dc: Counters, ac: Counters, dc0: Counters, ac0: Counters, items: seq<Item>) {
    forall tbl: TableNumber ::
      Counted(dc[tbl], dc0[tbl], items, false, tbl) && Counted(ac[tbl], ac0[tbl], items, true, tbl)
  }

  lemma AllCountedMore(dc: Counters, ac: Counters, dc1: Counters, ac1: Counters, dc0: Counters, ac0: Counters,
      a: seq<Item>, b: seq<Item>)
    requires AllCounted(dc1, ac1, dc0, ac0, a) && AllCounted(dc, ac, dc1, ac1, b)
    ensures AllCounted(dc, ac, dc0, ac0, a + b)
  {
    hide Counted;
    forall tbl: TableNumber
      ensures Counted(dc[tbl], dc0[tbl], a + b, false, tbl) && Counted(ac[tbl], ac0[tbl], a + b, true, tbl)
    {
      CountedMore(dc[tbl], dc1[tbl], dc0[tbl], a, b, false, tbl);
      CountedMore(ac[tbl], ac1[tbl], ac0[tbl], a, b, true, tbl);
    }
  }

  /** One block's symbols are all in the two tables it uses. */
  lemma OneBlockCounted(dc: Counters, ac: Counters, dc0: Counters, ac0: Counters, b: Block, pred: int,
      dcTbl: TableNumber, acTbl: TableNumber, se: nat)
    requires se < 64 && forall tbl: TableNumber :: |dc0[tbl]| == |ac0[tbl]| == 257
    requires forall tbl: TableNumber :: (tbl != dcTbl ==> dc[tbl] == dc0[tbl]) && (tbl != acTbl ==> ac[tbl] == ac0[tbl])
    requires Counted(dc[dcTbl], dc0[dcTbl], BlockItems(dcTbl, acTbl, pred, b, se), false, dcTbl)
    requires Counted(ac[acTbl], ac0[acTbl], BlockItems(dcTbl, acTbl, pred, b, se), true, acTbl)
    ensures AllCounted(dc, ac, dc0, ac0, BlockItems(dcTbl, acTbl, pred, b, se))
  {
    hide Counted, BlockItems;
    forall tbl: TableNumber
      ensures Counted(dc[tbl], dc0[tbl], BlockItems(dcTbl, acTbl, pred, b, se), false, tbl)
      ensures Counted(ac[tbl], ac0[tbl], BlockItems(dcTbl, acTbl, pred, b, se), true, tbl)
    {
      if tbl != dcTbl {
        OtherTables(dc0[tbl], b, pred, dcTbl, acTbl, se, false, tbl);
      }
      if tbl != acTbl {
        OtherTables(ac0[tbl], b, pred, dcTbl, acTbl, se, true, tbl);
      }
    }
  }

  /** The statistics arrays: one of each kind for every table, all different. */
  ghost predicate ValidArrays(dc: seq<array<nat>>, ac: seq<array<nat>>) {
    && |dc| == |ac| == NUM_HUFF_TBLS
    && (forall i :: 0 <= i < NUM_HUFF_TBLS ==> dc[i].Length == ac[i].Length == 257)
    && (forall i, j :: 0 <= i < NUM_HUFF_TBLS && 0 <= j < NUM_HUFF_TBLS ==> dc[i] != ac[j])
    && forall i, j :: 0 <= i < j < NUM_HUFF_TBLS ==> dc[i] != dc[j] && ac[i] != ac[j]
  }

  ghost function Snapshot(a: seq<array<nat>>): (c: Counters)
    requires |a| == NUM_HUFF_TBLS
    reads a
  {
    seq(NUM_HUFF_TBLS, i requires 0 <= i < NUM_HUFF_TBLS reads a => a[i][..])
  }

  /** Count the symbols of the blocks of an MCU. */
  method CountBlocks(s: Scan, dcs0: seq<int>, mcu: Mcu, dc: seq<array<nat>>, ac: seq<array<nat>>)
    returns (ok: bool, dcs: seq<int>)
    requires ValidScan(s) && |dcs0| == |s.comps| && ValidMcu(s, mcu) && ValidArrays(dc, ac)
    modifies dc, ac
    ensures ok <==> McuFits(s, dcs0, mcu, 0)
    ensures ok ==> dcs == McuPreds(s, dcs0, mcu, 0)
    ensures ok ==>
      AllCounted(Snapshot(dc), Snapshot(ac), old(Snapshot(dc)), old(Snapshot(ac)), McuItems(s, dcs0, mcu, 0))
  {
    hide AllCounted, Counted, BlockItems, DcFits, AcFits;
    dcs := dcs0;
    ghost var done: seq<Item> := [];
    NothingCountedYet(Snapshot(dc), Snapshot(ac));
    assert done + McuItems(s, dcs0, mcu, 0) == McuItems(s, dcs0, mcu, 0);
    for blkn := 0 to |mcu|
      invariant |dcs| == |dcs0|
      invariant AllCounted(Snapshot(dc), Snapshot(ac), old(Snapshot(dc)), old(Snapshot(ac)), done)
      invariant done + McuItems(s, dcs, mcu, blkn) == McuItems(s, dcs0, mcu, 0)
      invariant McuFits(s, dcs, mcu, blkn) <==> McuFits(s, dcs0, mcu, 0)
      invariant McuPreds(s, dcs, mcu, blkn) == McuPreds(s, dcs0, mcu, 0)
    {
      var ci := s.membership[blkn];
      var comp := s.comps[ci];
      ghost var items := BlockItems(comp.dcTbl, comp.acTbl, dcs[ci], mcu[blkn], s.se);
      ghost var more := McuItems(s, dcs[ci := mcu[blkn][0]], mcu, blkn + 1);
      assert done + McuItems(s, dcs, mcu, blkn) == done + items + more;
      ghost var dc1, ac1 := Snapshot(dc), Snapshot(ac);
      ok := CountOneBlock(mcu[blkn], dcs[ci], dc[comp.dcTbl], ac[comp.acTbl], comp.dcTbl, comp.acTbl, s.se);
      if !ok {
        return;
      }
      OneBlockCounted(Snapshot(dc), Snapshot(ac), dc1, ac1, mcu[blkn], dcs[ci], comp.dcTbl, comp.acTbl, s.se);
      AllCountedMore(Snapshot(dc), Snapshot(ac), dc1, ac1, old(Snapshot(dc)), old(Snapshot(ac)), done, items);
      done := done + items;
      dcs := dcs[ci := mcu[blkn][0]];
    }
    assert done + [] == done;
    ok := true;
  }

  lemma NothingCountedYet(dc: Counters, ac: Counters)
    requires forall tbl: TableNumber :: |dc[tbl]| == |ac[tbl]| == 257
    ensures AllCounted(dc, ac, dc, ac, [])
  {
  }

  function NoCounts(): Counters { seq(NUM_HUFF_TBLS, _ => seq(257, _ => 0)) }

  lemma NoItemsYet(s: Scan)
    requires ValidScan(s)
    ensures ValidChunks(s, [[]]) && AllItems(s, [[]]) == []
  {
    var none: Chunk := [];
    assert [none][..0] == [];
    EmptyChunk(s, NoTables());
  }

  method ClearCounters(dc: seq<array<nat>>, ac: seq<array<nat>>)
    requires ValidArrays(dc, ac)
    modifies dc, ac
    ensures Snapshot(dc) == NoCounts() && Snapshot(ac) == NoCounts()
  {
    for tbl := 0 to NUM_HUFF_TBLS
      invariant forall i :: 0 <= i < tbl ==> dc[i][..] == seq(257, _ => 0) && ac[i][..] == seq(257, _ => 0)
    {
      forall k | 0 <= k < 257 {
        dc[tbl][k] := 0;
      }
      forall k | 0 <= k < 257 {
        ac[tbl][k] := 0;
      }
      assert dc[tbl][..] == seq(257, _ => 0) && ac[tbl][..] == seq(257, _ => 0);
    }
  }

  /** Every interval so far fits the coder's range. */
  ghost predicate AllFit(s: Scan, p: Progress)
    requires ValidProgress(s, p)
  {
    (forall j :: 0 <= j < |p.chunks| ==> ChunkFits(s, Zero(s), p.chunks[j])) && ChunkFits(s, Zero(s), p.current)
  }

  class StatisticsGatherer {
    const scan: Scan
    const interval: nat
    const dcCounts: seq<array<nat>>
    const acCounts: seq<array<nat>>
    var lastDc: seq<int>
    var restartsToGo: nat

    ghost var p: Progress

    ghost predicate Valid()
      reads this, dcCounts, acCounts
    {
      && ValidArrays(dcCounts, acCounts) && ValidProgress(scan, p) && AllFit(scan, p)
      && Chunked(interval, p.chunks + [p.current]) && (0 < interval ==> restartsToGo + |p.current| == interval)
      && lastDc == ChunkPreds(scan, Zero(scan), p.current)
      && ValidChunks(scan, p.chunks + [p.current])
      && AllCounted(Snapshot(dcCounts), Snapshot(acCounts), NoCounts(), NoCounts(),
        AllItems(scan, p.chunks + [p.current]))
    }

    /** Start a scan with all counters at zero. */
    constructor (scan: Scan, interval: nat, dc: seq<array<nat>>, ac: seq<array<nat>>)
      requires ValidScan(scan) && ValidArrays(dc, ac)
      modifies dc, ac
      ensures Valid() && this.scan == scan && this.interval == interval && p == Progress([], [])
      ensures dcCounts == dc && acCounts == ac
    {
      this.scan, this.interval, dcCounts, acCounts := scan, interval, dc, ac;
      lastDc, restartsToGo := Zero(scan), interval;
      p := Progress([], []);
      new;
      hide AllCounted;
      ClearCounters(dc, ac);
      NothingCountedYet(NoCounts(), NoCounts());
      EmptyChunk(scan, NoTables());
      NoItemsYet(scan);
      assert p.chunks + [p.current] == [[]];
    }

    /** Trial-encode one MCU. */
    method EncodeMcu(mcu: Mcu) returns (ok: bool)
      requires Valid() && ValidMcu(scan, mcu)
      modifies this, dcCounts, acCounts
      ensures ok ==> Valid() && p == With(Turned(interval, old(p)), mcu)
      ensures ok <==> AllFitAfter(scan, With(Turned(interval, old(p)), mcu))
    {
      hide AllCounted, ChunkItems, ChunkPreds, ChunkFits, McuFits, McuItems, McuPreds, AllItems;
      ghost var turned := Turned(interval, p);
      TurnedCounts(scan, interval, p, mcu);
      CountersKept(interval, p, turned, mcu);
      if 0 < interval {
        if restartsToGo == 0 {
          lastDc := Zero(scan);
          restartsToGo := interval;
        }
        restartsToGo := restartsToGo - 1;
      }
      ghost var dc0, ac0 := Snapshot(dcCounts), Snapshot(acCounts);
      var dcs;
      ok, dcs := CountBlocks(scan, lastDc, mcu, dcCounts, acCounts);
      if ok {
        lastDc := dcs;
        AllCountedMore(Snapshot(dcCounts), Snapshot(acCounts), dc0, ac0, NoCounts(), NoCounts(),
          AllItems(scan, turned.chunks + [turned.current]),
          McuItems(scan, ChunkPreds(scan, Zero(scan), turned.current), mcu, 0));
        p := With(turned, mcu);
      }
    }
  }

  ghost predicate AllFitAfter(s: Scan, p: Progress) { ValidProgress(s, p) && AllFit(s, p) }

  /** Starting a new interval changes neither the symbols counted nor what fits; one more MCU adds its own. */
  lemma TurnedCounts(s: Scan, interval: nat, p: Progress, mcu: Mcu)
    requires ValidProgress(s, p) && AllFit(s, p) && ValidChunks(s, p.chunks + [p.current]) && ValidMcu(s, mcu)
    ensures var t := Turned(interval, p);
      && ValidProgress(s, t) && AllFit(s, t) && ValidChunks(s, t.chunks + [t.current])
      && AllItems(s, t.chunks + [t.current]) == AllItems(s, p.chunks + [p.current])
      && (0 < interval == |p.current| ==> ChunkPreds(s, Zero(s), t.current) == Zero(s))
      && var next := With(t, mcu);
         && ValidProgress(s, next) && ValidChunks(s, next.chunks + [next.current])
         && AllItems(s, next.chunks + [next.current])
            == AllItems(s, t.chunks + [t.current]) + McuItems(s, ChunkPreds(s, Zero(s), t.current), mcu, 0)
         && ChunkPreds(s, Zero(s), next.current) == McuPreds(s, ChunkPreds(s, Zero(s), t.current), mcu, 0)
         && (AllFit(s, next) <==> McuFits(s, ChunkPreds(s, Zero(s), t.current), mcu, 0))
  {
    hide ChunkItems, McuItems, ChunkPreds, ChunkFits, McuFits, McuPreds, AllItems;
    var t := Turned(interval, p);
    EmptyChunk(s, NoTables());
    AllItemsMore(s, p.chunks, p.current, mcu);
    AllItemsMore(s, t.chunks, t.current, mcu);
    ChunkAppend(s, Zero(s), t.current, mcu);
  }
}
