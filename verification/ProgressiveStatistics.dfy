/** The statistics pass of a progressive scan: tables built from its counts, which include the last end-of-band
    run, have a code for every symbol of the output pass. */
module ProgressiveStatistics {
  import opened Powers
  import opened Coefficients
  import opened BitStream
  import opened RestartIntervals
  import opened HuffmanBlocks
  import opened HuffmanStatistics
  import opened OptimisedCoding
  import opened BandItems
  import opened EobRuns
  import opened ProgressiveCoding
  import BandRoundTrip
  import McuCoding
  import HuffmanScan
  import H = HuffmanBlockEncoder
  import P = ProgressiveEncoder

  /** The tables a progressive scan needs: DC tables for a first DC scan only, AC tables for AC scans. */
  function CoverageFor(s: Scan): Coverage
    requires ValidScan(s)
  {
    Coverage(seq(|s.comps|, c requires 0 <= c < |s.comps| => HuffmanScan.Component(s.comps[c].dcTbl, s.comps[c].acTbl)),
             s.kind == McuCoding.DcFirst, !IsDc(s))
  }

  // ----- AC bands -----

  lemma CorrProper(u: Coverage, bits: seq<Bit>)
    ensures AllProper(u, CorrItems(bits))
  {
    assert Pow2(1) == 2;
  }

  lemma RunProper(u: Coverage, tbl: TableNumber, n: nat)
    requires 0 < n <= MAX_RUN && Uses(u, true, tbl) && u.ac
    ensures AllProper(u, RunItems(tbl, n))
  {
    BandRoundTrip.Log2Bound(n);
    hide Log2, Uses;
    assert (16 * Log2(n)) % 16 == 0;
  }

  lemma EobProper(u: Coverage, tbl: TableNumber, st: Pending)
    requires st.run <= MAX_RUN && Uses(u, true, tbl) && u.ac
    ensures AllProper(u, EobItems(tbl, st))
  {
    hide AllProper, RunItems, CorrItems, Uses;
    if st.run == 0 {
      NothingProper(u);
    } else {
      RunProper(u, tbl, st.run);
      CorrProper(u, st.corr);
      ProperConcat(u, RunItems(tbl, st.run), CorrItems(st.corr));
    }
  }

  lemma {:induction false} FirstProper(u: Coverage, p: Band, b: Block, k: nat, r: nat)
    requires ValidBand(p) && p.ss <= k <= p.se + 1 && !p.refine && BandRoundTrip.BandFits(p, b)
    requires Uses(u, true, p.tbl) && u.ac
    ensures AllProper(u, FirstBody(p, b, k, r))
    decreases p.se + 1 - k
  {
    hide Size, Value, LongRuns, Uses, Trunc, AllProper;
    if k == p.se + 1 {
      NothingProper(u);
    } else if Trunc(b[k], p.al) == 0 {
      FirstProper(u, p, b, k + 1, r + 1);
    } else {
      var x := Trunc(b[k], p.al);
      FirstProper(u, p, b, k + 1, 0);
      RunsProper(u, p.tbl, r);
      BandRoundTrip.FitsAt(p, b, k);
      ValueProper(u, true, p.tbl, r % 16, x);
      ProperConcat(u, LongRuns(p.tbl, r), Value(true, p.tbl, r % 16, x));
      ProperConcat(u, LongRuns(p.tbl, r) + Value(true, p.tbl, r % 16, x), FirstBody(p, b, k + 1, 0));
    }
  }

  /** Runs before coefficients that become nonzero have at most 15 zeros. */
  lemma NewProper(u: Coverage, p: Band, b: Block, h: nat, k: nat)
    requires h <= k < 64 && ZerosIn(p, b, h, k) <= 15 && Uses(u, true, p.tbl) && u.ac
    ensures AllProper(u, NewItems(p, b, h, k))
  {
    hide Uses, ZerosIn, Trunc;
    var z := ZerosIn(p, b, h, k);
    assert (16 * z + 1) % 16 == 1;
    assert Pow2(1) == 2;
  }

  lemma {:induction false} RefineProper(u: Coverage, p: Band, b: Block, last: nat, h: nat, k: nat)
    requires ValidBand(p) && p.refine && BandRoundTrip.Standing(p, b, last, h, k) && Uses(u, true, p.tbl) && u.ac
    ensures AllProper(u, RefineBody(p, b, last, h, k))
    decreases p.se + 1 - k, k - h
  {
    hide AllProper, Uses, Mag, ZerosIn, CorrItems, CorrIn, NewItems, LastNew, BandRoundTrip.Noticed;
    if k == p.se + 1 {
      NothingProper(u);
    } else {
      BandRoundTrip.StandingNext(p, b, last, h, k);
      var corr := CorrItems(CorrIn(p, b, h, k));
      CorrProper(u, CorrIn(p, b, h, k));
      if Mag(p, b, k) == 0 {
        RefineProper(u, p, b, last, h, k + 1);
      } else if ZerosIn(p, b, h, k) >= 16 && k <= last {
        BandRoundTrip.StandingBehind(p, b, last, h, k);
        var q := Behind(p, b, h, k, 16);
        RefineProper(u, p, b, last, q, k);
        ZrlProper(u, p.tbl);
        ProperConcat(u, [Symbol(true, p.tbl, 0xF0)], corr);
        ProperConcat(u, [Symbol(true, p.tbl, 0xF0)] + corr, RefineBody(p, b, last, q, k));
      } else if Mag(p, b, k) > 1 {
        RefineProper(u, p, b, last, h, k + 1);
      } else {
        NewProper(u, p, b, h, k);
        RefineProper(u, p, b, last, k + 1, k + 1);
        ProperConcat(u, NewItems(p, b, h, k), corr);
        ProperConcat(u, NewItems(p, b, h, k) + corr, RefineBody(p, b, last, k + 1, k + 1));
      }
    }
  }

  lemma ZrlProper(u: Coverage, tbl: TableNumber)
    requires Uses(u, true, tbl) && u.ac
    ensures AllProper(u, [Symbol(true, tbl, 0xF0)])
  {
    hide Uses;
  }

  /** The items of a block, after any run within bounds. */
  lemma StepProper(u: Coverage, p: Band, st: Pending, b: Block)
    requires ValidBand(p) && Bounded(st) && BandRoundTrip.BandFits(p, b) && Uses(u, true, p.tbl) && u.ac
    ensures AllProper(u, StepItems(p, st, b).0) && Bounded(StepItems(p, st, b).1)
  {
    hide AllProper, Uses, EobItems, Quiet, RefineBody, FirstBody, Tail, BandRoundTrip.BandFits;
    StaysBounded(p, st, b);
    EobProper(u, p.tbl, st);
    if Quiet(p, b) {
      QuietTail(p, b);
      NothingProper(u);
      EobProper(u, p.tbl, Join(st, Tail(p, b)));
    } else {
      if p.refine {
        RefineProper(u, p, b, LastNew(p, b, p.se), p.ss, p.ss);
      } else {
        FirstProper(u, p, b, p.ss, 0);
      }
      ProperConcat(u, EobItems(p.tbl, st), Body(p, b));
    }
  }

  // ----- DC scans -----

  lemma {:induction false} DcProper(s: Scan, preds: seq<int>, mcu: Mcu, i: nat)
    requires ValidScan(s) && s.kind == McuCoding.DcFirst && |preds| == |s.comps| && ValidMcu(s, mcu) && i <= |mcu|
    requires DcMcuFits(s, preds, mcu, i)
    ensures AllProper(CoverageFor(s), DcItems(s, preds, mcu, i))
    decreases |mcu| - i
  {
    hide AllProper, Value, DcFits, Shift;
    var u := CoverageFor(s);
    if i == |mcu| {
      NothingProper(u);
    } else {
      var c, x := s.membership[i], Shift(mcu[i][0], s.al);
      assert u.comps[c].dcTbl == DcTableOf(s, c) && Uses(u, false, DcTableOf(s, c));
      DcProper(s, preds[c := x], mcu, i + 1);
      FitsSize(x - preds[c]);
      ValueProper(u, false, DcTableOf(s, c), 0, x - preds[c]);
      ProperConcat(u, Value(false, DcTableOf(s, c), 0, x - preds[c]), DcItems(s, preds[c := x], mcu, i + 1));
    }
  }

  lemma {:induction false} BitsProper(u: Coverage, s: Scan, mcu: Mcu, i: nat)
    requires i <= |mcu|
    ensures AllProper(u, RefineItems(s, mcu, i))
    decreases |mcu| - i
  {
    hide Shift;
    if i < |mcu| {
      assert Pow2(1) == 2;
      BitsProper(u, s, mcu, i + 1);
    }
  }

  // ----- scans -----

  lemma {:induction false} ChunkProper(s: Scan, c: Coding, chunk: Chunk)
    requires ValidScan(s) && |s.comps| > 0 && |c.preds| == |s.comps| && ValidChunk(s, chunk) && Bounded(c.st)
    requires ChunkFits(s, c, chunk)
    ensures AllProper(CoverageFor(s), ChunkCoded(s, c, chunk).0) && Bounded(ChunkCoded(s, c, chunk).1.st)
    decreases |chunk|
  {
    hide AllProper, DcItems, DcPreds, RefineItems, StepItems, DcMcuFits, BandRoundTrip.BandFits;
    var u := CoverageFor(s);
    if chunk == [] {
      NothingProper(u);
    } else {
      McuProper(s, c, chunk[0]);
      var (items, next) := McuCoded(s, c, chunk[0]);
      ChunkProper(s, next, chunk[1..]);
      ProperConcat(u, items, ChunkCoded(s, next, chunk[1..]).0);
    }
  }

  lemma McuProper(s: Scan, c: Coding, mcu: Mcu)
    requires ValidScan(s) && |s.comps| > 0 && |c.preds| == |s.comps| && ValidMcu(s, mcu) && Bounded(c.st)
    requires McuFits(s, c, mcu)
    ensures AllProper(CoverageFor(s), McuCoded(s, c, mcu).0) && Bounded(McuCoded(s, c, mcu).1.st)
  {
    hide AllProper, DcItems, DcPreds, RefineItems, StepItems, DcMcuFits, BandRoundTrip.BandFits;
    if s.kind == McuCoding.DcFirst {
      DcProper(s, c.preds, mcu, 0);
    } else if s.kind == McuCoding.DcRefine {
      BitsProper(CoverageFor(s), s, mcu, 0);
    } else {
      UsesAc(s);
      StepProper(CoverageFor(s), BandOf(s), c.st, mcu[0]);
    }
  }

  lemma UsesAc(s: Scan)
    requires ValidScan(s) && |s.comps| > 0
    ensures Uses(CoverageFor(s), true, AcTableOf(s))
  {
    assert CoverageFor(s).comps[0].acTbl == AcTableOf(s);
  }

  /** The items of an interval, with its last run. */
  lemma IntervalProper(s: Scan, chunk: Chunk)
    requires ValidScan(s) && |s.comps| > 0 && ValidChunk(s, chunk) && ChunkFits(s, Fresh(s), chunk)
    ensures AllProper(CoverageFor(s), ChunkItems(s, chunk))
  {
    hide AllProper, EobItems, ChunkCoded, ChunkFits;
    var u := CoverageFor(s);
    ChunkProper(s, Fresh(s), chunk);
    var (items, last) := ChunkCoded(s, Fresh(s), chunk);
    if IsDc(s) {
      DcLeavesNothing(s, Fresh(s), chunk);
      EobNone(AcTableOf(s));
      assert items + [] == items;
    } else {
      UsesAc(s);
      EobProper(u, AcTableOf(s), last.st);
      ProperConcat(u, items, EobItems(AcTableOf(s), last.st));
    }
  }

  ghost predicate ChunksFit(s: Scan, chunks: seq<Chunk>)
    requires ValidScan(s) && ValidChunks(s, chunks)
  {
    forall j :: 0 <= j < |chunks| ==> ChunkFits(s, Fresh(s), chunks[j])
  }

  lemma {:induction false} ScanProper(s: Scan, chunks: seq<Chunk>)
    requires ValidScan(s) && |s.comps| > 0 && ValidChunks(s, chunks) && ChunksFit(s, chunks)
    ensures AllProper(CoverageFor(s), P.ScanItems(s, chunks))
    decreases |chunks|
  {
    hide AllProper, ChunkItems, ChunkFits;
    if chunks == [] {
      NothingProper(CoverageFor(s));
    } else {
      var n := |chunks| - 1;
      ScanProper(s, chunks[..n]);
      IntervalProper(s, chunks[n]);
      ProperConcat(CoverageFor(s), P.ScanItems(s, chunks[..n]), ChunkItems(s, chunks[n]));
    }
  }

  /** A symbol of one interval counts among those of all. */
  lemma {:induction false} OccursInScan(s: Scan, chunks: seq<Chunk>, j: nat, ac: bool, tbl: TableNumber, sym: nat)
    requires ValidScan(s) && ValidChunks(s, chunks) && j < |chunks|
    requires H.Occurrences(ChunkItems(s, chunks[j]), ac, tbl, sym) > 0
    ensures H.Occurrences(P.ScanItems(s, chunks), ac, tbl, sym) > 0
    decreases |chunks|
  {
    hide H.Occurrences, ChunkItems;
    var n := |chunks| - 1;
    H.CountConcat(P.ScanItems(s, chunks[..n]), ChunkItems(s, chunks[n]), ac, tbl, sym);
    if j < n {
      OccursInScan(s, chunks[..n], j, ac, tbl, sym);
    }
  }

  /** The statistics pass agrees with the output pass: with the tables built from its counts every symbol of every
      interval has a code, so the output pass never meets one without, and what it writes can be read back. */
  lemma OptimisedTablesSuffice(s: Scan, e: Tables, chunks: seq<Chunk>, dc: Counters, ac: Counters)
    requires ValidScan(s) && |s.comps| > 0 && ValidChunks(s, chunks) && ChunksFit(s, chunks)
    requires AllCounted(dc, ac, NoCounts(), NoCounts(), P.ScanItems(s, chunks)) && Optimised(CoverageFor(s), e, dc, ac)
    ensures AllWritable(s, e, chunks)
  {
    hide AllCounted, Codable, ChunkItems, ChunkFits, EntryBuilt, H.Occurrences, P.ScanItems, Proper, CoverageFor;
    ScanProper(s, chunks);
    forall j | 0 <= j < |chunks|
      ensures AllCodable(e, ChunkItems(s, chunks[j]))
    {
      var items := ChunkItems(s, chunks[j]);
      IntervalProper(s, chunks[j]);
      forall i | 0 <= i < |items| && items[i].Symbol?
        ensures H.Occurrences(P.ScanItems(s, chunks), items[i].ac, items[i].tbl, items[i].s) > 0
      {
        OccursCounted(items, i);
        OccursInScan(s, chunks, j, items[i].ac, items[i].tbl, items[i].s);
      }
      CountedCodable(CoverageFor(s), e, dc, ac, P.ScanItems(s, chunks), items);
    }
  }
}
