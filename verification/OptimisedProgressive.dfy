/** A progressive scan in two passes: with the tables built from the statistics, which include the last end-of-band
    run of every interval, no symbol of the output pass lacks a code. */
module OptimisedProgressive {
  import opened Coefficients
  import opened ByteStream
  import opened RestartIntervals
  import opened CodeLengths
  import opened TableBuilder
  import opened HuffmanBlocks
  import opened HuffmanStatistics
  import opened CodedMcus
  import opened OptimisedCoding
  import opened BandItems
  import opened EobRuns
  import opened ProgressiveCoding
  import McuCoding
  import E = HuffmanScanEncoder
  import H = HuffmanBlockEncoder
  import P = ProgressiveEncoder
  import BandBlockEncoder
  import S = ProgressiveStatistics
  import O = OptimisedScan

  // ----- every table needed has a symbol -----

  lemma RunHasSymbol(tbl: TableNumber, st: Pending)
    requires st.run > 0
    ensures HasSymbol(EobItems(tbl, st), true, tbl)
  {
    hide Log2, CorrItems;
    assert EobItems(tbl, st)[0] == Symbol(true, tbl, 16 * Log2(st.run));
  }

  lemma {:induction false} FirstHasSymbol(p: Band, b: Block, k: nat, r: nat, j: nat)
    requires ValidBand(p) && k <= j <= p.se && Trunc(b[j], p.al) != 0
    ensures HasSymbol(FirstBody(p, b, k, r), true, p.tbl)
    decreases j - k
  {
    hide HasSymbol, Value, LongRuns, Trunc;
    var x := Trunc(b[k], p.al);
    if x == 0 {
      FirstHasSymbol(p, b, k + 1, r + 1, j);
    } else {
      ValueHasSymbol(true, p.tbl, r % 16, x);
      HasSymbolConcat(LongRuns(p.tbl, r), Value(true, p.tbl, r % 16, x), true, p.tbl);
      HasSymbolConcat(LongRuns(p.tbl, r) + Value(true, p.tbl, r % 16, x), FirstBody(p, b, k + 1, 0), true, p.tbl);
    }
  }

  lemma {:induction false} RefineHasSymbol(p: Band, b: Block, last: nat, h: nat, k: nat, j: nat)
    requires ValidBand(p) && h <= k <= j <= p.se && Mag(p, b, j) == 1
    ensures HasSymbol(RefineBody(p, b, last, h, k), true, p.tbl)
    decreases j - k
  {
    hide Mag, ZerosIn, CorrItems, CorrIn;
    if Mag(p, b, k) == 0 {
      RefineHasSymbol(p, b, last, h, k + 1, j);
    } else if ZerosIn(p, b, h, k) >= 16 && k <= last {
      assert RefineBody(p, b, last, h, k)[0] == Symbol(true, p.tbl, 0xF0);
    } else if Mag(p, b, k) > 1 {
      RefineHasSymbol(p, b, last, h, k + 1, j);
    } else {
      assert RefineBody(p, b, last, h, k)[0] == Symbol(true, p.tbl, 16 * ZerosIn(p, b, h, k) + 1);
    }
  }

  /** A block leaves a symbol written or a run pending. */
  lemma StepHasSymbol(p: Band, st: Pending, b: Block)
    requires ValidBand(p)
    ensures HasSymbol(StepItems(p, st, b).0, true, p.tbl) || StepItems(p, st, b).1.run > 0
  {
    hide HasSymbol, EobItems, Body, Trunc, Mag;
    if Quiet(p, b) {
      QuietTail(p, b);
      RunHasSymbol(p.tbl, Join(st, Tail(p, b)));
    } else {
      NoisyHasSymbol(p, b);
      HasSymbolConcat(EobItems(p.tbl, st), Body(p, b), true, p.tbl);
    }
  }

  lemma NoisyHasSymbol(p: Band, b: Block)
    requires ValidBand(p) && !Quiet(p, b)
    ensures HasSymbol(Body(p, b), true, p.tbl)
  {
    hide HasSymbol, RefineBody, FirstBody, Trunc, Mag;
    if p.refine {
      var j :| p.ss <= j <= p.se && Mag(p, b, j) == 1;
      RefineHasSymbol(p, b, LastNew(p, b, p.se), p.ss, p.ss, j);
    } else {
      var j :| p.ss <= j <= p.se && Trunc(b[j], p.al) != 0;
      FirstHasSymbol(p, b, p.ss, 0, j);
    }
  }

  lemma {:induction false} DcHasSymbol(s: Scan, preds: seq<int>, mcu: Mcu, i: nat, j: nat)
    requires ValidScan(s) && s.kind == McuCoding.DcFirst && |preds| == |s.comps| && ValidMcu(s, mcu) && i <= j < |mcu|
    ensures HasSymbol(DcItems(s, preds, mcu, i), false, DcTableOf(s, s.membership[j]))
    decreases j - i
  {
    hide HasSymbol, Value, Shift;
    var c, x := s.membership[i], Shift(mcu[i][0], s.al);
    var tbl := DcTableOf(s, s.membership[j]);
    if i == j {
      ValueHasSymbol(false, tbl, 0, x - preds[c]);
    } else {
      DcHasSymbol(s, preds[c := x], mcu, i + 1, j);
    }
    HasSymbolConcat(Value(false, DcTableOf(s, c), 0, x - preds[c]), DcItems(s, preds[c := x], mcu, i + 1), false, tbl);
  }

  /** AC blocks leave a symbol written or a run pending, however many there are. */
  lemma {:induction false} BandHasSymbol(s: Scan, c: Coding, chunk: Chunk)
    requires ValidScan(s) && !IsDc(s) && |c.preds| == |s.comps| && ValidChunk(s, chunk) && (chunk != [] || c.st.run > 0)
    ensures var (items, last) := ChunkCoded(s, c, chunk);
      HasSymbol(items + EobItems(AcTableOf(s), last.st), true, AcTableOf(s))
    decreases |chunk|
  {
    hide HasSymbol, EobItems, StepItems, McuCoded;
    var tbl := AcTableOf(s);
    if chunk == [] {
      RunHasSymbol(tbl, c.st);
      HasSymbolConcat([], EobItems(tbl, c.st), true, tbl);
    } else {
      var (items, next) := McuCoded(s, c, chunk[0]);
      var (more, last) := ChunkCoded(s, next, chunk[1..]);
      BandMcuHasSymbol(s, c, chunk[0]);
      if chunk[1..] != [] || next.st.run > 0 {
        BandHasSymbol(s, next, chunk[1..]);
      }
      HasSymbolConcat(items, more + EobItems(tbl, last.st), true, tbl);
      assert items + (more + EobItems(tbl, last.st)) == items + more + EobItems(tbl, last.st);
    }
  }

  lemma BandMcuHasSymbol(s: Scan, c: Coding, mcu: Mcu)
    requires ValidScan(s) && !IsDc(s) && |c.preds| == |s.comps| && ValidMcu(s, mcu)
    ensures var (items, next) := McuCoded(s, c, mcu); HasSymbol(items, true, AcTableOf(s)) || next.st.run > 0
  {
    hide HasSymbol, StepItems;
    StepHasSymbol(BandOf(s), c.st, mcu[0]);
  }

  /** The items of an interval with something in it include symbols of every table its scan needs. */
  ghost predicate Covers(s: Scan, items: seq<Item>, c: nat)
    requires ValidScan(s) && c < |s.comps|
  {
    && (s.kind == McuCoding.DcFirst ==> HasSymbol(items, false, DcTableOf(s, c)))
    && (!IsDc(s) ==> HasSymbol(items, true, AcTableOf(s)))
  }

  lemma CoversConcat(s: Scan, a: seq<Item>, b: seq<Item>, c: nat)
    requires ValidScan(s) && c < |s.comps|
    ensures Covers(s, a, c) || Covers(s, b, c) ==> Covers(s, a + b, c)
  {
    hide HasSymbol;
    HasSymbolConcat(a, b, false, DcTableOf(s, c));
    HasSymbolConcat(a, b, true, AcTableOf(s));
  }

  /** Every component has a block in the MCU. */
  predicate EveryComponentCoded(s: Scan) { |s.comps| > 0 && forall c :: 0 <= c < |s.comps| ==> c in s.membership }

  lemma ChunkCovers(s: Scan, chunk: Chunk, c: nat)
    requires ValidScan(s) && EveryComponentCoded(s) && ValidChunk(s, chunk) && chunk != [] && c < |s.comps|
    ensures Covers(s, ChunkItems(s, chunk), c)
  {
    assert c in s.membership;
    var j :| 0 <= j < |s.membership| && s.membership[j] == c;
    hide HasSymbol, ChunkCoded, EobItems, DcItems, DcPreds;
    if s.kind == McuCoding.DcFirst {
      DcHasSymbol(s, Fresh(s).preds, chunk[0], 0, j);
      FirstItems(s, chunk);
      var items := ChunkItems(s, chunk);
      var first := DcItems(s, Fresh(s).preds, chunk[0], 0);
      HasSymbolConcat(first, items[|first|..], false, DcTableOf(s, c));
      assert items == first + items[|first|..];
    } else if !IsDc(s) {
      BandHasSymbol(s, Fresh(s), chunk);
    }
  }

  lemma FirstItems(s: Scan, chunk: Chunk)
    requires ValidScan(s) && s.kind == McuCoding.DcFirst && ValidChunk(s, chunk) && chunk != []
    ensures DcItems(s, Fresh(s).preds, chunk[0], 0) <= ChunkItems(s, chunk)
  {
    hide EobItems, DcItems, DcPreds;
  }

  lemma {:induction false} ScanCovers(s: Scan, chunks: seq<Chunk>, n: nat, c: nat)
    requires ValidScan(s) && EveryComponentCoded(s) && ValidChunks(s, chunks) && n < |chunks| && chunks[n] != []
    requires c < |s.comps|
    ensures Covers(s, P.ScanItems(s, chunks), c)
    decreases |chunks|
  {
    hide Covers, ChunkItems;
    var last := |chunks| - 1;
    if n == last {
      ChunkCovers(s, chunks[n], c);
    } else {
      ScanCovers(s, chunks[..last], n, c);
    }
    CoversConcat(s, P.ScanItems(s, chunks[..last]), ChunkItems(s, chunks[last]), c);
  }

  /** The counts of a statistics pass over at least one MCU are fit to build all tables from. */
  lemma GatheredCountsReady(s: Scan, chunks: seq<Chunk>, n: nat, dc: Counters, ac: Counters)
    requires ValidScan(s) && EveryComponentCoded(s) && ValidChunks(s, chunks) && S.ChunksFit(s, chunks)
    requires n < |chunks| && chunks[n] != [] && |P.ScanItems(s, chunks)| < MAX_COUNT
    requires AllCounted(dc, ac, NoCounts(), NoCounts(), P.ScanItems(s, chunks))
    ensures forall c :: 0 <= c < |s.comps| ==> CountsReady(S.CoverageFor(s), dc, ac, c)
    ensures DcInRange(S.CoverageFor(s), dc)
  {
    hide P.ScanItems, AllProper, HasSymbol, H.Counted, Buildable, S.ChunksFit;
    var items, u := P.ScanItems(s, chunks), S.CoverageFor(s);
    S.ScanProper(s, chunks);
    ProperInRange(u, dc, ac, items);
    forall c | 0 <= c < |s.comps|
      ensures CountsReady(u, dc, ac, c)
    {
      ScanCovers(s, chunks, n, c);
      var d, a := u.comps[c].dcTbl, u.comps[c].acTbl;
      assert H.Counted(dc[d], NoCounts()[d], items, false, d) && H.Counted(ac[a], NoCounts()[a], items, true, a);
      if u.dc {
        CountsBuildable(u, dc[d], items, false, d);
      }
      if u.ac {
        CountsBuildable(u, ac[a], items, true, a);
      }
    }
  }

  // ----- what holds of all MCUs holds of the first ones -----

  lemma {:induction false} CodedValid(s: Scan, interval: nat, mcus: seq<Mcu>)
    requires ValidScan(s) && forall i :: 0 <= i < |mcus| ==> ValidMcu(s, mcus[i])
    ensures P.ValidProgress(s, Coded(interval, mcus)) && ValidChunks(s, Intervals(interval, mcus))
  {
    hide ValidMcu;
    if mcus != [] {
      CodedValid(s, interval, mcus[..|mcus| - 1]);
    }
  }

  lemma HeldBefore(s: Scan, e: Tables, interval: nat, p: E.Progress, mcu: Mcu)
    requires P.ValidProgress(s, p) && ValidMcu(s, mcu)
    ensures var next := E.With(E.Turned(interval, p), mcu);
      && P.ValidProgress(s, next)
      && (P.Fits(s, next) ==> P.Fits(s, p)) && (P.HasAllCodes(s, e, next) ==> P.HasAllCodes(s, e, p))
  {
    var t := E.Turned(interval, p);
    P.Grown(s, e, t, mcu);
    WithoutLast(s, e, t, mcu);
    hide P.Fits, P.HasAllCodes;
    if 0 < interval && |p.current| == interval {
      BeforeTurn(s, e, p);
    }
  }

  lemma WithoutLast(s: Scan, e: Tables, t: E.Progress, mcu: Mcu)
    requires P.ValidProgress(s, t) && ValidMcu(s, mcu)
    ensures P.ValidProgress(s, E.With(t, mcu))
    ensures P.HasAllCodes(s, e, E.With(t, mcu)) ==> P.HasAllCodes(s, e, t)
  {
    P.Grown(s, e, t, mcu);
    hide McuCoded, ChunkItems, H.HasCodes, P.Current;
    var (done, k) := P.Current(s, t);
    H.HasCodesConcat(e, done, McuCoded(s, k, mcu).0);
  }

  lemma BeforeTurn(s: Scan, e: Tables, p: E.Progress)
    requires P.ValidProgress(s, p)
    ensures var t := E.Progress(p.chunks + [p.current], []);
      && P.ValidProgress(s, t)
      && (P.Fits(s, t) ==> P.Fits(s, p)) && (P.HasAllCodes(s, e, t) ==> P.HasAllCodes(s, e, p))
  {
    hide ChunkCoded, ChunkFits, EobItems, H.HasCodes;
    var t := E.Progress(p.chunks + [p.current], []);
    var (done, last) := P.Current(s, p);
    H.HasCodesConcat(e, done, EobItems(AcTableOf(s), last.st));
    assert t.chunks[|p.chunks|] == p.current && forall j :: 0 <= j < |p.chunks| ==> t.chunks[j] == p.chunks[j];
  }

  lemma {:induction false} HeldEarlier(s: Scan, e: Tables, interval: nat, mcus: seq<Mcu>, i: nat)
    requires ValidScan(s) && i <= |mcus| && forall i :: 0 <= i < |mcus| ==> ValidMcu(s, mcus[i])
    ensures P.ValidProgress(s, Coded(interval, mcus)) && P.ValidProgress(s, Coded(interval, mcus[..i]))
    ensures P.Fits(s, Coded(interval, mcus)) ==> P.Fits(s, Coded(interval, mcus[..i]))
    ensures P.HasAllCodes(s, e, Coded(interval, mcus)) ==> P.HasAllCodes(s, e, Coded(interval, mcus[..i]))
    decreases |mcus|
  {
    hide P.Fits, P.HasAllCodes, ValidMcu;
    CodedValid(s, interval, mcus);
    CodedValid(s, interval, mcus[..i]);
    var n := |mcus| - 1;
    if i <= n {
      HeldEarlier(s, e, interval, mcus[..n], i);
      assert mcus[..n][..i] == mcus[..i];
      HeldBefore(s, e, interval, Coded(interval, mcus[..n]), mcus[n]);
    } else {
      assert mcus[..i] == mcus;
    }
  }

  /** Writable intervals fit and have all codes. */
  lemma WritableHeld(s: Scan, e: Tables, p: E.Progress)
    requires P.ValidProgress(s, p) && ValidChunks(s, p.chunks + [p.current])
    requires AllWritable(s, e, p.chunks + [p.current])
    ensures P.Fits(s, p) && P.HasAllCodes(s, e, p) && H.HasCodes(e, ChunkItems(s, p.current))
  {
    hide ChunkFits, ChunkCoded, EobItems, H.HasCodes, AllCodable;
    var all := p.chunks + [p.current];
    forall j | 0 <= j < |all|
      ensures ChunkFits(s, Fresh(s), all[j]) && H.HasCodes(e, ChunkItems(s, all[j]))
    {
      O.CodableHasCodes(e, ChunkItems(s, all[j]));
    }
    assert all[|p.chunks|] == p.current && forall j :: 0 <= j < |p.chunks| ==> all[j] == p.chunks[j];
    var (done, last) := P.Current(s, p);
    H.HasCodesConcat(e, done, EobItems(AcTableOf(s), last.st));
  }

  lemma FitsAlike(s: Scan, p: E.Progress)
    requires P.ValidProgress(s, p) && ValidChunks(s, p.chunks + [p.current])
    ensures P.Fits(s, p) <==> S.ChunksFit(s, p.chunks + [p.current])
  {
    hide ChunkFits;
    var all := p.chunks + [p.current];
    assert all[|p.chunks|] == p.current && forall j :: 0 <= j < |p.chunks| ==> all[j] == p.chunks[j];
  }

  // ----- the two passes -----

  /** The MCUs of a scan, fewer symbols and extra bits than the counters allow for. */
  ghost predicate ValidJob(s: Scan, interval: nat, mcus: seq<Mcu>) {
    && ValidScan(s) && EveryComponentCoded(s) && mcus != [] && (forall i :: 0 <= i < |mcus| ==> ValidMcu(s, mcus[i]))
    && ValidChunks(s, Intervals(interval, mcus)) && |P.ScanItems(s, Intervals(interval, mcus))| < MAX_COUNT
  }

  /** The statistics pass. */
  method Gather(s: Scan, interval: nat, mcus: seq<Mcu>, dc: seq<array<nat>>, ac: seq<array<nat>>) returns (ok: bool)
    requires ValidJob(s, interval, mcus) && ValidArrays(dc, ac)
    modifies dc, ac
    ensures ok <==> S.ChunksFit(s, Intervals(interval, mcus))
    ensures ok ==>
      AllCounted(Snapshot(dc), Snapshot(ac), NoCounts(), NoCounts(), P.ScanItems(s, Intervals(interval, mcus)))
  {
    hide AllCounted, P.ScanItems, S.ChunksFit, P.Fits, Coded, P.ProgressiveEncoder.Valid, P.ValidProgress, Snapshot,
      NoCounts, ValidChunks;
    CodedValid(s, interval, mcus);
    FitsAlike(s, Coded(interval, mcus));
    var g := new P.ProgressiveEncoder(s, interval, true, NoTables(), [], 1, 1, dc, ac);
    StartCoded(interval, mcus);
    for i := 0 to |mcus|
      invariant g.Valid() && g.p == Coded(interval, mcus[..i]) && g.scan == s && g.interval == interval && g.c.gather
      invariant g.c.dcCounts == dc && g.c.acCounts == ac && fresh(g) && fresh(g.c) && fresh(g.c.w)
      invariant fresh(g.c.bitBuffer)
    {
      NextCoded(interval, mcus, i);
      var r := g.EncodeMcu(mcus[i]);
      if r != BandBlockEncoder.Coded {
        HeldEarlier(s, NoTables(), interval, mcus, i + 1);
        return false;
      }
    }
    assert mcus[..|mcus|] == mcus;
    WhatFits(g);
    g.FinishCounting();
    ok := true;
  }

  lemma WhatFits(g: P.ProgressiveEncoder)
    requires g.Valid()
    ensures P.ValidProgress(g.scan, g.p) && P.Fits(g.scan, g.p)
  {
  }

  /** The output pass, with tables that have all codes. */
  method PutOut(s: Scan, interval: nat, mcus: seq<Mcu>, e: Tables, bufferSize: nat, room: nat, out: seq<byte>,
      dc: seq<array<nat>>, ac: seq<array<nat>>) returns (bytes: seq<byte>)
    requires ValidScan(s) && (forall i :: 0 <= i < |mcus| ==> ValidMcu(s, mcus[i])) && 0 < bufferSize && 0 < room
    requires ValidArrays(dc, ac)
    requires ValidChunks(s, Intervals(interval, mcus)) && AllWritable(s, e, Intervals(interval, mcus))
    modifies dc, ac
    ensures bytes == out + Wire(0, Plains(s, e, Intervals(interval, mcus)))
  {
    hide AllWritable, P.Fits, P.HasAllCodes, Coded, Plains, Wire, P.ProgressiveEncoder.Valid, P.ValidProgress,
      H.HasCodes, ChunkItems,
      ValidChunks;
    var c := new P.ProgressiveEncoder(s, interval, false, e, out, room, bufferSize, dc, ac);
    CodedValid(s, interval, mcus);
    WritableHeld(s, e, Coded(interval, mcus));
    StartCoded(interval, mcus);
    for i := 0 to |mcus|
      invariant c.Valid() && c.p == Coded(interval, mcus[..i]) && c.scan == s && c.interval == interval && !c.c.gather
      invariant c.c.tables == e && c.start == out && c.c.dcCounts == dc && c.c.acCounts == ac
      invariant fresh(c) && fresh(c.c) && fresh(c.c.w) && fresh(c.c.bitBuffer)
    {
      NextCoded(interval, mcus, i);
      HeldEarlier(s, e, interval, mcus, i + 1);
      var r := c.EncodeMcu(mcus[i]);
    }
    assert mcus[..|mcus|] == mcus;
    var ok := c.FinishPass();
    bytes := c.c.w.out;
  }

  /** Code a scan with tables made for it.  Only a coefficient out of range or a code word of more than 32 bits
      stands in the way: no symbol is ever found without a code, and a decoder can read what is written. */
  method CodeOptimised(s: Scan, interval: nat, mcus: seq<Mcu>, dc: seq<array<nat>>, ac: seq<array<nat>>, was: TableSet,
      bufferSize: nat, room: nat, out: seq<byte>) returns (r: O.Ending, bytes: seq<byte>, e: Tables)
    requires ValidJob(s, interval, mcus) && ValidArrays(dc, ac) && ValidTableSet(was) && 0 < bufferSize && 0 < room
    modifies dc, ac
    ensures r == O.OutOfRange <==> !S.ChunksFit(s, Intervals(interval, mcus))
    ensures r == O.CodeTooLong <==>
      S.ChunksFit(s, Intervals(interval, mcus))
        && LongCodeFor(S.CoverageFor(s), P.ScanItems(s, Intervals(interval, mcus)))
    ensures r == O.Complete ==> AllWritable(s, e, Intervals(interval, mcus))
    ensures r == O.Complete ==> bytes == out + Wire(0, Plains(s, e, Intervals(interval, mcus)))
  {
    hide AllCounted, P.ScanItems, S.ChunksFit, S.CoverageFor, Intervals, AllWritable, CountsReady, BuiltFrom,
      NeedsLongCode,
      LongCodeFor, Optimised, Plains, Wire;
    bytes, e := out, NoTables();
    var ok := Gather(s, interval, mcus, dc, ac);
    if !ok {
      return O.OutOfRange, bytes, e;
    }
    ghost var chunks, dc1, ac1 := Intervals(interval, mcus), Snapshot(dc), Snapshot(ac);
    LastInterval(interval, mcus);
    GatheredReady(s, chunks, dc1, ac1);
    LongCodeIs(S.CoverageFor(s), dc1, ac1, P.ScanItems(s, chunks));
    var t;
    ok, t := FinishPassGather(S.CoverageFor(s), dc, ac, was);
    if !ok {
      return O.CodeTooLong, bytes, e;
    }
    e := DeriveTables(S.CoverageFor(s), t, dc1, ac1);
    S.OptimisedTablesSuffice(s, e, chunks, dc1, ac1);
    bytes := PutOut(s, interval, mcus, e, bufferSize, room, out, dc, ac);
    r := O.Complete;
  }

  lemma GatheredReady(s: Scan, chunks: seq<Chunk>, dc: Counters, ac: Counters)
    requires ValidScan(s) && EveryComponentCoded(s) && ValidChunks(s, chunks) && S.ChunksFit(s, chunks)
    requires chunks != [] && chunks[|chunks| - 1] != [] && |P.ScanItems(s, chunks)| < MAX_COUNT
    requires AllCounted(dc, ac, NoCounts(), NoCounts(), P.ScanItems(s, chunks))
    ensures forall c :: 0 <= c < |S.CoverageFor(s).comps| ==> CountsReady(S.CoverageFor(s), dc, ac, c)
    ensures DcInRange(S.CoverageFor(s), dc)
  {
    hide AllCounted, P.ScanItems, S.ChunksFit, CountsReady;
    GatheredCountsReady(s, chunks, |chunks| - 1, dc, ac);
  }
}
