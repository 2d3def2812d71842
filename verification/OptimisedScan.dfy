/** A sequential scan in two passes: statistics are gathered, tables built and derived from them, and the data put
    out.  The tables can always be built unless a code word would need more than 32 bits, and then no symbol of
    the output pass lacks a code. */
module OptimisedScan {
  import opened Coefficients
  import opened ByteStream
  import opened RestartIntervals
  import opened SegmentedReading
  import opened CodeLengths
  import opened TableBuilder
  import opened HuffmanBlocks
  import opened HuffmanScan
  import opened HuffmanScanEncoder
  import opened HuffmanStatistics
  import opened CodedMcus
  import opened OptimisedCoding
  import opened BitWriter
  import H = HuffmanBlockEncoder

  // ----- every table needed has a symbol -----

  lemma {:induction false} AcHasSymbol(tbl: TableNumber, b: Block, k: nat, r: nat, se: nat)
    requires k <= se + 1 <= 64 && (0 < r || k <= se)
    ensures HasSymbol(AcItems(tbl, b, k, r, se), true, tbl)
    decreases se + 1 - k
  {
    hide HasSymbol, Value, LongRuns;
    if k == se + 1 {
      SymbolAlone(true, tbl, 0);
    } else if b[k] == 0 {
      AcHasSymbol(tbl, b, k + 1, r + 1, se);
    } else {
      ValueHasSymbol(true, tbl, r % 16, b[k]);
      HasSymbolConcat(LongRuns(tbl, r), Value(true, tbl, r % 16, b[k]), true, tbl);
      HasSymbolConcat(LongRuns(tbl, r) + Value(true, tbl, r % 16, b[k]), AcItems(tbl, b, k + 1, 0, se), true, tbl);
    }
  }

  lemma SymbolAlone(ac: bool, tbl: TableNumber, sym: nat)
    ensures HasSymbol([Symbol(ac, tbl, sym)], ac, tbl)
  {
    assert [Symbol(ac, tbl, sym)][0].Symbol?;
  }

  /** Each block has a DC symbol, and an AC symbol if there are AC coefficients to code. */
  lemma BlockHasSymbols(dcTbl: TableNumber, acTbl: TableNumber, pred: int, b: Block, se: nat)
    requires se < 64
    ensures HasSymbol(BlockItems(dcTbl, acTbl, pred, b, se), false, dcTbl)
    ensures 0 < se ==> HasSymbol(BlockItems(dcTbl, acTbl, pred, b, se), true, acTbl)
  {
    hide HasSymbol, Value, AcItems;
    var dc, ac := Value(false, dcTbl, 0, b[0] - pred), AcItems(acTbl, b, 1, 0, se);
    ValueHasSymbol(false, dcTbl, 0, b[0] - pred);
    HasSymbolConcat(dc, ac, false, dcTbl);
    if 0 < se {
      AcHasSymbol(acTbl, b, 1, 0, se);
      HasSymbolConcat(dc, ac, true, acTbl);
    }
  }

  /** The items include symbols of both tables of a component. */
  ghost predicate Covers(s: Scan, items: seq<Item>, c: nat)
    requires c < |s.comps|
  {
    HasSymbol(items, false, s.comps[c].dcTbl) && (0 < s.se ==> HasSymbol(items, true, s.comps[c].acTbl))
  }

  lemma CoversConcat(s: Scan, a: seq<Item>, b: seq<Item>, c: nat)
    requires c < |s.comps|
    ensures Covers(s, a, c) || Covers(s, b, c) ==> Covers(s, a + b, c)
  {
    hide HasSymbol;
    HasSymbolConcat(a, b, false, s.comps[c].dcTbl);
    HasSymbolConcat(a, b, true, s.comps[c].acTbl);
  }

  lemma {:induction false} McuCovers(s: Scan, preds: seq<int>, mcu: Mcu, i: nat, j: nat)
    requires ValidScan(s) && |preds| == |s.comps| && ValidMcu(s, mcu) && i <= j < |mcu|
    ensures Covers(s, McuItems(s, preds, mcu, i), s.membership[j])
    decreases j - i
  {
    hide HasSymbol, BlockItems;
    var c, d := s.membership[i], s.membership[j];
    var items := BlockItems(s.comps[c].dcTbl, s.comps[c].acTbl, preds[c], mcu[i], s.se);
    if i == j {
      BlockHasSymbols(s.comps[c].dcTbl, s.comps[c].acTbl, preds[c], mcu[i], s.se);
    } else {
      McuCovers(s, preds[c := mcu[i][0]], mcu, i + 1, j);
    }
    CoversConcat(s, items, McuItems(s, preds[c := mcu[i][0]], mcu, i + 1), d);
  }

  /** Every component has a block in the MCU. */
  predicate EveryComponentCoded(s: Scan) { forall c :: 0 <= c < |s.comps| ==> c in s.membership }

  lemma ChunkCovers(s: Scan, chunk: Chunk, c: nat)
    requires ValidScan(s) && EveryComponentCoded(s) && ValidChunk(s, chunk) && chunk != [] && c < |s.comps|
    ensures Covers(s, ChunkItems(s, Zero(s), chunk), c)
  {
    assert c in s.membership;
    var j :| 0 <= j < |s.membership| && s.membership[j] == c;
    hide Covers, McuItems;
    McuCovers(s, Zero(s), chunk[0], 0, j);
    CoversConcat(s, McuItems(s, Zero(s), chunk[0], 0), ChunkItems(s, McuPreds(s, Zero(s), chunk[0], 0), chunk[1..]), c);
  }

  lemma {:induction false} ScanCovers(s: Scan, chunks: seq<Chunk>, n: nat, c: nat)
    requires ValidScan(s) && EveryComponentCoded(s) && ValidChunks(s, chunks) && n < |chunks| && chunks[n] != []
    requires c < |s.comps|
    ensures Covers(s, AllItems(s, chunks), c)
    decreases |chunks|
  {
    hide Covers, ChunkItems;
    var last := |chunks| - 1;
    if n == last {
      ChunkCovers(s, chunks[n], c);
    } else {
      ScanCovers(s, chunks[..last], n, c);
    }
    CoversConcat(s, AllItems(s, chunks[..last]), ChunkItems(s, Zero(s), chunks[last]), c);
  }

  /** The counts of a statistics pass over at least one MCU are fit to build all tables from. */
  lemma GatheredCountsReady(s: Scan, chunks: seq<Chunk>, n: nat, dc: Counters, ac: Counters)
    requires ValidScan(s) && EveryComponentCoded(s) && ValidChunks(s, chunks) && ChunksFit(s, chunks)
    requires n < |chunks| && chunks[n] != [] && |AllItems(s, chunks)| < MAX_COUNT
    requires AllCounted(dc, ac, NoCounts(), NoCounts(), AllItems(s, chunks))
    ensures forall c :: 0 <= c < |s.comps| ==> CountsReady(CoverageOf(s), dc, ac, c)
    ensures DcInRange(CoverageOf(s), dc)
  {
    hide AllItems, AllProper, HasSymbol, H.Counted, Buildable, ChunksFit;
    var items, u := AllItems(s, chunks), CoverageOf(s);
    ScanProper(s, chunks);
    ProperInRange(u, dc, ac, items);
    forall c | 0 <= c < |s.comps|
      ensures CountsReady(u, dc, ac, c)
    {
      ScanCovers(s, chunks, n, c);
      var d, a := s.comps[c].dcTbl, s.comps[c].acTbl;
      assert H.Counted(dc[d], NoCounts()[d], items, false, d) && H.Counted(ac[a], NoCounts()[a], items, true, a);
      CountsBuildable(u, dc[d], items, false, d);
      if 0 < s.se {
        CountsBuildable(u, ac[a], items, true, a);
      }
    }
  }

  // ----- what holds of all MCUs holds of the first ones -----

  lemma HeldBefore(s: Scan, e: Tables, interval: nat, p: Progress, mcu: Mcu)
    requires ValidProgress(s, p) && ValidMcu(s, mcu)
    ensures var next := With(Turned(interval, p), mcu);
      && ValidProgress(s, next)
      && (AllFit(s, next) ==> AllFit(s, p)) && (Sound(s, e, next) ==> Sound(s, e, p))
  {
    hide ChunkFits, ChunkItems, H.HasCodes, McuFits, McuItems, ChunkPreds;
    var t := Turned(interval, p);
    var next := With(t, mcu);
    ChunkAppend(s, Zero(s), t.current, mcu);
    H.HasCodesConcat(e, ChunkItems(s, Zero(s), t.current), McuItems(s, ChunkPreds(s, Zero(s), t.current), mcu, 0));
    if 0 < interval && |p.current| == interval {
      assert next.chunks[|p.chunks|] == p.current && forall j :: 0 <= j < |p.chunks| ==> next.chunks[j] == p.chunks[j];
    }
  }

  lemma {:induction false} HeldEarlier(s: Scan, e: Tables, interval: nat, mcus: seq<Mcu>, i: nat)
    requires ValidScan(s) && i <= |mcus| && forall i :: 0 <= i < |mcus| ==> ValidMcu(s, mcus[i])
    ensures ValidProgress(s, Coded(interval, mcus)) && ValidProgress(s, Coded(interval, mcus[..i]))
    ensures AllFit(s, Coded(interval, mcus)) ==> AllFit(s, Coded(interval, mcus[..i]))
    ensures Sound(s, e, Coded(interval, mcus)) ==> Sound(s, e, Coded(interval, mcus[..i]))
    decreases |mcus|
  {
    hide AllFit, Sound, ValidMcu;
    CodedValid(s, interval, mcus);
    CodedValid(s, interval, mcus[..i]);
    var n := |mcus| - 1;
    if i <= n {
      HeldEarlier(s, e, interval, mcus[..n], i);
      assert mcus[..n][..i] == mcus[..i];
      HeldBefore(s, e, interval, Coded(interval, mcus[..n]), mcus[n]);
    } else {
      assert mcus[..i] == mcus;
    }
  }

  /** Writable intervals are sound. */
  lemma WritableSound(s: Scan, e: Tables, p: Progress)
    requires ValidProgress(s, p) && ValidChunks(s, p.chunks + [p.current]) && AllWritable(s, e, p.chunks + [p.current])
    ensures Sound(s, e, p)
  {
    hide ChunkFits, ChunkItems, H.HasCodes, AllCodable;
    var all := p.chunks + [p.current];
    forall j | 0 <= j < |all|
      ensures ChunkFits(s, Zero(s), all[j]) && H.HasCodes(e, ChunkItems(s, Zero(s), all[j]))
    {
      CodableHasCodes(e, ChunkItems(s, Zero(s), all[j]));
    }
    assert all[|p.chunks|] == p.current && forall j :: 0 <= j < |p.chunks| ==> all[j] == p.chunks[j];
  }

  lemma CodableHasCodes(e: Tables, items: seq<Item>)
    requires AllCodable(e, items)
    ensures H.HasCodes(e, items)
  {
    hide Ready;
    forall i | 0 <= i < |items| && items[i].Symbol?
      ensures items[i].s < 256 && EntryOf(e, items[i].ac, items[i].tbl).d.size[items[i].s] > 0
    {
      assert Codable(e, items[i]);
    }
  }

  /** Fits as the statistics pass and as the scan lemmas have it. */
  lemma FitsAlike(s: Scan, p: Progress)
    requires ValidProgress(s, p) && ValidChunks(s, p.chunks + [p.current])
    ensures AllFit(s, p) <==> ChunksFit(s, p.chunks + [p.current])
  {
    hide ChunkFits;
    var all := p.chunks + [p.current];
    assert all[|p.chunks|] == p.current && forall j :: 0 <= j < |p.chunks| ==> all[j] == p.chunks[j];
  }

  // ----- the two passes -----

  /** How coding with optimised tables ends: complete, with a coefficient out of range, or with a code word that
      would need more than 32 bits. */
  datatype Ending = Complete | OutOfRange | CodeTooLong

  /** The MCUs of a scan, fewer symbols and extra bits than the counters allow for. */
  ghost predicate ValidJob(s: Scan, interval: nat, mcus: seq<Mcu>) {
    && ValidScan(s) && EveryComponentCoded(s) && mcus != [] && (forall i :: 0 <= i < |mcus| ==> ValidMcu(s, mcus[i]))
    && ValidChunks(s, Intervals(interval, mcus)) && |AllItems(s, Intervals(interval, mcus))| < MAX_COUNT
  }

  /** The statistics pass. */
  method Gather(s: Scan, interval: nat, mcus: seq<Mcu>, dc: seq<array<nat>>, ac: seq<array<nat>>) returns (ok: bool)
    requires ValidJob(s, interval, mcus) && ValidArrays(dc, ac)
    modifies dc, ac
    ensures ok <==> ChunksFit(s, Intervals(interval, mcus))
    ensures ok ==>
      AllCounted(Snapshot(dc), Snapshot(ac), NoCounts(), NoCounts(), AllItems(s, Intervals(interval, mcus)))
  {
    hide AllCounted, AllItems, ChunksFit, AllFit, Chunked, Coded;
    CodedValid(s, interval, mcus);
    FitsAlike(s, Coded(interval, mcus));
    var g := new StatisticsGatherer(s, interval, dc, ac);
    StartCoded(interval, mcus);
    for i := 0 to |mcus|
      invariant g.Valid() && g.p == Coded(interval, mcus[..i]) && g.scan == s && g.interval == interval
      invariant g.dcCounts == dc && g.acCounts == ac
    {
      NextCoded(interval, mcus, i);
      ok := g.EncodeMcu(mcus[i]);
      if !ok {
        HeldEarlier(s, NoTables(), interval, mcus, i + 1);
        return false;
      }
    }
    assert mcus[..|mcus|] == mcus;
    ok := true;
  }

  /** The output pass, with tables that have all codes. */
  method PutOut(s: Scan, interval: nat, mcus: seq<Mcu>, e: Tables, bufferSize: nat, room: nat, out: seq<byte>)
    returns (bytes: seq<byte>)
    requires ValidScan(s) && (forall i :: 0 <= i < |mcus| ==> ValidMcu(s, mcus[i])) && 0 < bufferSize && 0 < room
    requires ValidChunks(s, Intervals(interval, mcus)) && AllWritable(s, e, Intervals(interval, mcus))
    ensures bytes == out + Wire(0, Plains(s, e, Intervals(interval, mcus)))
  {
    hide AllWritable, Sound, Chunked, Coded, Plains, Wire;
    var c := new SequentialEncoder(s, interval, e, true, bufferSize, out, room);
    CodedValid(s, interval, mcus);
    WritableSound(s, e, Coded(interval, mcus));
    StartCoded(interval, mcus);
    for i := 0 to |mcus|
      invariant c.Valid() && c.p == Coded(interval, mcus[..i])
    {
      NextCoded(interval, mcus, i);
      HeldEarlier(s, e, interval, mcus, i + 1);
      var r := c.EncodeMcu(mcus[i]);
    }
    assert mcus[..|mcus|] == mcus;
    var ok := c.FinishPass();
    bytes := c.out;
  }

  /** Code a scan with tables made for it.  Only a coefficient out of range or a code word of more than 32 bits
      stands in the way: no symbol is ever found without a code, and a decoder can read what is written. */
  method CodeOptimised(s: Scan, interval: nat, mcus: seq<Mcu>, dc: seq<array<nat>>, ac: seq<array<nat>>, was: TableSet,
      bufferSize: nat, room: nat, out: seq<byte>) returns (r: Ending, bytes: seq<byte>, e: Tables)
    requires ValidJob(s, interval, mcus) && ValidArrays(dc, ac) && ValidTableSet(was) && 0 < bufferSize && 0 < room
    modifies dc, ac
    ensures r == OutOfRange <==> !ChunksFit(s, Intervals(interval, mcus))
    ensures r == CodeTooLong <==>
      ChunksFit(s, Intervals(interval, mcus)) && LongCodeFor(CoverageOf(s), AllItems(s, Intervals(interval, mcus)))
    ensures r == Complete ==> AllWritable(s, e, Intervals(interval, mcus))
    ensures r == Complete ==> bytes == out + Wire(0, Plains(s, e, Intervals(interval, mcus)))
  {
    hide AllCounted, AllItems, ChunksFit, Intervals, AllWritable, CountsReady, BuiltFrom, NeedsLongCode, LongCodeFor,
      Optimised,
      Plains, Wire;
    bytes, e := out, NoTables();
    var ok := Gather(s, interval, mcus, dc, ac);
    if !ok {
      return OutOfRange, bytes, e;
    }
    ghost var chunks, dc1, ac1 := Intervals(interval, mcus), Snapshot(dc), Snapshot(ac);
    LastInterval(interval, mcus);
    GatheredCountsReady(s, chunks, |chunks| - 1, dc1, ac1);
    LongCodeIs(CoverageOf(s), dc1, ac1, AllItems(s, chunks));
    var t;
    ok, t := FinishPassGather(CoverageOf(s), dc, ac, was);
    if !ok {
      return CodeTooLong, bytes, e;
    }
    e := DeriveTables(CoverageOf(s), t, dc1, ac1);
    OptimisedTablesSuffice(s, e, chunks, dc1, ac1);
    bytes := PutOut(s, interval, mcus, e, bufferSize, room, out);
    r := Complete;
  }

  /** What is written with such tables, followed by a marker, reads back as the MCUs that were coded. */
  lemma OutputReadsBack(s: Scan, e: Tables, interval: nat, mcus: seq<Mcu>, ending: seq<byte>, was: seq<Chunk>)
    requires ValidScan(s) && ValidChunks(s, Intervals(interval, mcus)) && AllWritable(s, e, Intervals(interval, mcus))
    requires CleanEnding(ending) && Blank(s, was, Intervals(interval, mcus))
    ensures Flatten(Intervals(interval, mcus)) == mcus
    ensures var p, plains := Decoding(s, e), Plains(s, e, Intervals(interval, mcus));
      Recovers(p, interval, StartReader(p, interval, Initially(s), Wire(0, plains) + ending), Flatten(was),
        Flatten(Delivery(s, was, Intervals(interval, mcus))), LastState(p, Initially(s), plains, was))
  {
    CodedIs(interval, mcus);
    hide *;
    HuffmanRoundTrip(s, e, interval, Intervals(interval, mcus), ending, was);
  }
}
