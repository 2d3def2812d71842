/** The progressive Huffman encoder over a scan: the output pass puts every interval's bits on the wire, the
    statistics pass runs the same code and counts exactly the symbols the output pass will write. */
module ProgressiveEncoder {
  import opened Powers
  import opened Coefficients
  import opened ByteStream
  import opened BitStream
  import opened RestartIntervals
  import opened HuffmanBlocks
  import opened HuffmanStatistics
  import opened BandItems
  import opened BandEncoder
  import opened BandBlockEncoder
  import opened ProgressiveCoding
  import opened BitWriter
  import BandRoundTrip
  import BlockRefinement
  import McuCoding
  import E = HuffmanScanEncoder
  import H = HuffmanBlockEncoder

  type Progress = E.Progress

  ghost predicate ValidProgress(s: Scan, p: Progress) {
    ValidScan(s) && ValidChunks(s, p.chunks) && ValidChunk(s, p.current)
  }

  /** The items of the interval under way that are written, and what is kept for later. */
  ghost function Current(s: Scan, p: Progress): (seq<Item>, Coding)
    requires ValidProgress(s, p)
  {
    ChunkCoded(s, Fresh(s), p.current)
  }

  /** Everything so far fits the coder's range. */
  ghost predicate Fits(s: Scan, p: Progress)
    requires ValidProgress(s, p)
  {
    (forall j :: 0 <= j < |p.chunks| ==> ChunkFits(s, Fresh(s), p.chunks[j])) && ChunkFits(s, Fresh(s), p.current)
  }

  /** Everything written so far has codes. */
  ghost predicate HasAllCodes(s: Scan, e: Tables, p: Progress)
    requires ValidProgress(s, p)
  {
    && (forall j :: 0 <= j < |p.chunks| ==> H.HasCodes(e, ChunkItems(s, p.chunks[j])))
    && H.HasCodes(e, Current(s, p).0)
  }

  /** The items of all intervals. */
  ghost function ScanItems(s: Scan, chunks: seq<Chunk>): seq<Item>
    requires ValidScan(s) && ValidChunks(s, chunks)
  {
    if chunks == [] then [] else ScanItems(s, chunks[..|chunks| - 1]) + ChunkItems(s, chunks[|chunks| - 1])
  }

  /** The bytes put out for complete intervals, with their markers. */
  ghost function Before(s: Scan, e: Tables, start: seq<byte>, chunks: seq<Chunk>): seq<byte>
    requires ValidScan(s) && ValidChunks(s, chunks)
  {
    start + Marked(0, Plains(s, e, chunks))
  }

  lemma {:induction false} PlainsAppend(s: Scan, e: Tables, chunks: seq<Chunk>, c: Chunk)
    requires ValidScan(s) && ValidChunks(s, chunks) && ValidChunk(s, c)
    ensures ValidChunks(s, chunks + [c]) && Plains(s, e, chunks + [c]) == Plains(s, e, chunks) + [ChunkBytes(s, e, c)]
    decreases |chunks|
  {
    hide ChunkBytes;
    if chunks == [] {
      assert chunks + [c] == [c] && [c][1..] == [];
    } else {
      assert (chunks + [c])[1..] == chunks[1..] + [c];
      PlainsAppend(s, e, chunks[1..], c);
    }
  }

  /** Finishing an interval. */
  lemma BeforeGrows(s: Scan, e: Tables, start: seq<byte>, p: Progress)
    requires ValidProgress(s, p)
    ensures ValidChunks(s, p.chunks + [p.current])
    ensures var out := Before(s, e, start, p.chunks) + Stuff(Pack(Flushed(Bits(e, ChunkItems(s, p.current)))));
      && out == start + Wire(0, Plains(s, e, p.chunks + [p.current]))
      && out + [0xFF, RST0 + |p.chunks| % 8] == Before(s, e, start, p.chunks + [p.current])
  {
    hide Stuff, Pack, Flushed, Bits, Marked, Wire, ChunkItems;
    PlainsAppend(s, e, p.chunks, p.current);
    WireGrows(start, Plains(s, e, p.chunks), ChunkBytes(s, e, p.current));
  }

  lemma ScanItemsGrow(s: Scan, p: Progress)
    requires ValidProgress(s, p)
    ensures ValidChunks(s, p.chunks + [p.current])
    ensures ScanItems(s, p.chunks + [p.current]) == ScanItems(s, p.chunks) + ChunkItems(s, p.current)
  {
    hide ChunkItems;
    assert (p.chunks + [p.current])[..|p.chunks|] == p.chunks;
  }

  // ----- one MCU -----

  /** A DC difference. */
  method EmitDifference(c: EntropyEncoder, tbl: TableNumber, diff: int, ghost m: Point, ghost done: seq<Item>)
    returns (r: Outcome)
    requires c.Wrote(m, done, true)
    modifies c`items, c.w, c.dcCounts, c.acCounts
    ensures r == BadCoefficient <==> !DcFits(diff)
    ensures r != BadCoefficient ==> c.Wrote(m, done + Value(false, tbl, 0, diff), r == Coded)
  {
    hide c.Wrote, Size, ExtraOf;
    var temp, temp2 := diff, diff;
    if temp < 0 {
      temp := -temp;
      temp2 := temp2 - 1;
    }
    var nbits := H.BitCount(temp);
    if nbits > MAX_COEF_BITS + 1 {
      return BadCoefficient;
    }
    H.SizeOfZero(diff);
    ghost var symbol, value := [Symbol(false, tbl, nbits)], Value(false, tbl, 0, diff);
    assert done + value == done + symbol + value[1..];
    var ok := c.EmitSymbol(false, tbl, nbits, m, done);
    if !ok {
      c.FailureStays(m, done + symbol, value[1..]);
      return NoCode;
    }
    if nbits != 0 {
      H.MaskIsExtra(diff);
      c.EmitBits(temp2, nbits, m, done + symbol);
      assert done + value == done + symbol + [Extra(ExtraOf(diff), nbits)];
    } else {
      assert value == symbol;
    }
    r := Coded;
  }

  /** An MCU of a first DC scan. */
  method EncodeDcFirst(c: EntropyEncoder, s: Scan, preds0: seq<int>, mcu: Mcu, ghost m: Point)
    returns (r: Outcome, preds: seq<int>)
    requires ValidScan(s) && s.kind == McuCoding.DcFirst && |preds0| == |s.comps| && ValidMcu(s, mcu)
    requires c.Wrote(m, [], true)
    modifies c`items, c.w, c.dcCounts, c.acCounts
    ensures r == BadCoefficient ==> !DcMcuFits(s, preds0, mcu, 0)
    ensures r != BadCoefficient ==> c.Wrote(m, DcItems(s, preds0, mcu, 0), r == Coded)
    ensures r == Coded ==> DcMcuFits(s, preds0, mcu, 0) && preds == DcPreds(s, preds0, mcu, 0)
  {
    hide c.Wrote, Value, DcFits, Shift;
    r, preds := Coded, preds0;
    ghost var done: seq<Item> := [];
    assert done + DcItems(s, preds0, mcu, 0) == DcItems(s, preds0, mcu, 0);
    for blkn := 0 to |mcu|
      invariant r == Coded && c.Wrote(m, done, true) && |preds| == |preds0|
      invariant done + DcItems(s, preds, mcu, blkn) == DcItems(s, preds0, mcu, 0)
      invariant DcMcuFits(s, preds, mcu, blkn) <==> DcMcuFits(s, preds0, mcu, 0)
      invariant DcPreds(s, preds, mcu, blkn) == DcPreds(s, preds0, mcu, 0)
    {
      var ci := s.membership[blkn];
      var x := Shift(mcu[blkn][0], s.al);
      ghost var value := Value(false, DcTableOf(s, ci), 0, x - preds[ci]);
      ghost var more := DcItems(s, preds[ci := x], mcu, blkn + 1);
      assert done + DcItems(s, preds, mcu, blkn) == done + value + more;
      r := EmitDifference(c, DcTableOf(s, ci), x - preds[ci], m, done);
      if r != Coded {
        if r == NoCode {
          c.FailureStays(m, done + value, more);
        }
        return;
      }
      done := done + value;
      preds := preds[ci := x];
    }
    assert done + [] == done;
  }

  /** An MCU of a DC refinement scan. */
  method EncodeDcRefine(c: EntropyEncoder, s: Scan, mcu: Mcu, ghost m: Point)
    requires c.Wrote(m, [], true)
    modifies c`items, c.w
    ensures c.Wrote(m, RefineItems(s, mcu, 0), true)
  {
    hide c.Wrote, Shift;
    ghost var done: seq<Item> := [];
    assert done + RefineItems(s, mcu, 0) == RefineItems(s, mcu, 0);
    for blkn := 0 to |mcu|
      invariant c.Wrote(m, done, true)
      invariant done + RefineItems(s, mcu, blkn) == RefineItems(s, mcu, 0)
    {
      assert Pow2(1) == 2;
      ghost var bit := [Extra(BlockRefinement.BitOf(mcu[blkn][0], s.al), 1)];
      assert done + RefineItems(s, mcu, blkn) == done + bit + RefineItems(s, mcu, blkn + 1);
      c.EmitBits(Shift(mcu[blkn][0], s.al), 1, m, done);
      done := done + bit;
    }
    assert done + [] == done;
  }

  /** What is kept between MCUs. */
  ghost predicate Keeps(c: EntropyEncoder, s: Scan, preds: seq<int>, k: Coding)
    requires ValidScan(s)
    reads c, c.bitBuffer
  {
    && BandBlockEncoder.Ready(c) && |preds| == |s.comps| && k == Coding(preds, c.St())
    && (s.kind != McuCoding.AcRefine ==> c.be == 0)
  }

  /** One MCU of any progressive scan. */
  method EncodeBlocks(c: EntropyEncoder, s: Scan, preds0: seq<int>, mcu: Mcu, ghost k: Coding, ghost m: Point)
    returns (r: Outcome, preds: seq<int>)
    requires ValidScan(s) && ValidMcu(s, mcu) && c.Wrote(m, [], true) && Keeps(c, s, preds0, k)
    modifies c`items, c`eobRun, c`be, c.w, c.dcCounts, c.acCounts, c.bitBuffer
    ensures r == BadCoefficient ==> !McuFits(s, k, mcu)
    ensures var (items, next) := McuCoded(s, k, mcu);
      && (r == Coded ==> McuFits(s, k, mcu) && c.Wrote(m, items, true) && Keeps(c, s, preds, next))
      && (r == NoCode ==> c.Wrote(m, items, false))
  {
    hide c.Wrote, DcItems, DcPreds, RefineItems, StepItems, DcMcuFits, BandRoundTrip.BandFits;
    preds := preds0;
    if s.kind == McuCoding.DcFirst {
      r, preds := EncodeDcFirst(c, s, preds0, mcu, m);
    } else if s.kind == McuCoding.DcRefine {
      EncodeDcRefine(c, s, mcu, m);
      r := Coded;
    } else if s.kind == McuCoding.AcFirst {
      r := EncodeFirst(c, BandOf(s), mcu[0], m);
    } else {
      var ok := EncodeRefine(c, BandOf(s), mcu[0], m);
      r := if ok then Coded else NoCode;
      assert BandRoundTrip.BandFits(BandOf(s), mcu[0]) by { RefinementFits(BandOf(s), mcu[0]); }
    }
  }

  lemma RefinementFits(p: Band, b: Block)
    requires ValidBand(p) && p.refine
    ensures BandRoundTrip.BandFits(p, b)
  {
  }

  // ----- the scan -----

  class ProgressiveEncoder {
    const scan: Scan
    const interval: nat
    const c: EntropyEncoder
    var lastDc: seq<int>
    var restartsToGo: nat
    var nextRestartNum: nat

    ghost const start: seq<byte>
    ghost var p: Progress

    ghost predicate Counters()
      reads this
    {
      && Chunked(interval, p.chunks + [p.current]) && nextRestartNum == |p.chunks| % 8
      && (0 < interval ==> restartsToGo + |p.current| == interval)
    }

    /** The items of this interval are written or counted, and so are those of the intervals before. */
    ghost predicate Recorded(q: Progress)
      requires ValidProgress(scan, q)
      reads this, c, c.w, c.dcCounts, c.acCounts
    {
      && c.Valid() && c.items == Current(scan, q).0
      && (c.gather ==> c.earlier == ScanItems(scan, q.chunks))
      && (!c.gather ==> c.w.base == Before(scan, c.tables, start, q.chunks) && HasAllCodes(scan, c.tables, q))
    }

    ghost predicate Valid()
      reads this, c, c.w, c.dcCounts, c.acCounts, c.bitBuffer
    {
      && ValidProgress(scan, p) && Counters() && Fits(scan, p) && Recorded(p)
      && Keeps(c, scan, lastDc, Current(scan, p).1)
    }

    /** Start a scan. */
    constructor (scan: Scan, interval: nat, gather: bool, tables: Tables, out: seq<byte>, room: nat, bufferSize: nat,
        dc: seq<array<nat>>, ac: seq<array<nat>>)
      requires ValidScan(scan) && 0 < room && 0 < bufferSize && ValidArrays(dc, ac)
      modifies dc, ac
      ensures Valid() && this.scan == scan && this.interval == interval && p == E.Progress([], []) && start == out
      ensures fresh(c) && fresh(c.w) && fresh(c.bitBuffer)
      ensures c.gather == gather && c.tables == tables && c.dcCounts == dc && c.acCounts == ac
    {
      this.scan, this.interval, start := scan, interval, out;
      lastDc, restartsToGo, nextRestartNum, p := Fresh(scan).preds, interval, 0, E.Progress([], []);
      c := new EntropyEncoder(gather, tables, out, room, bufferSize, dc, ac);
      new;
      hide *;
      Started();
    }

    /** A new encoder has nothing written and nothing kept. */
    lemma Started()
      requires c.Valid() && c.items == [] && c.earlier == [] && c.eobRun == 0 && c.be == 0
      requires c.bitBuffer.Length == MAX_CORR_BITS
      requires c.w.base == start && ValidScan(scan) && p == E.Progress([], [])
      requires lastDc == Fresh(scan).preds && restartsToGo == interval && nextRestartNum == 0
      ensures Valid()
    {
      hide c.Valid, ChunkCoded, ChunkFits, ChunkItems, Before, ScanItems, H.HasCodes, Current, Fits, HasAllCodes,
        Keeps, Chunked, Fresh;
      NothingYet(scan, c.tables, start);
      NothingKept(c, scan);
      FirstChunk(interval);
    }

    /** Code one MCU, preceded by a restart marker when the interval is used up. */
    method EncodeMcu(mcu: Mcu) returns (r: Outcome)
      requires Valid() && ValidMcu(scan, mcu)
      modifies this, c, c.w, c.dcCounts, c.acCounts, c.bitBuffer
      ensures ValidProgress(scan, E.With(E.Turned(interval, old(p)), mcu))
      ensures r == Coded ==> Valid() && p == E.With(E.Turned(interval, old(p)), mcu)
      ensures r == NoCode ==> !c.gather && !HasAllCodes(scan, c.tables, E.With(E.Turned(interval, old(p)), mcu))
      ensures r == BadCoefficient ==> !Fits(scan, E.With(E.Turned(interval, old(p)), mcu))
    {
      hide Marked, Plains, ChunkItems, ChunkCoded, ChunkFits, H.HasCodes, Chunked, Before, ScanItems, c.Valid,
        McuCoded, McuFits,
        Current, HasAllCodes, Fits, Keeps;
      ghost var turned, was := E.Turned(interval, p), p;
      TurnedValid(scan, interval, p, mcu);
      r := Coded;
      if 0 < interval && restartsToGo == 0 {
        var ok := Restart();
        if !ok {
          CodesBefore(scan, c.tables, was, mcu);
          return NoCode;
        }
      }
      r := EncodeCurrent(mcu, turned);
      if r == Coded {
        CountMcu(mcu);
      }
    }

    /** Write what is pending, and the restart marker. */
    method Restart() returns (ok: bool)
      requires Valid()
      modifies `lastDc, c`items, c`earlier, c`eobRun, c`be, c.w, c.dcCounts, c.acCounts
      ensures var next := E.Progress(p.chunks + [p.current], []);
        && ValidProgress(scan, next)
        && (ok ==> Recorded(next) && Fits(scan, next) && Keeps(c, scan, lastDc, Current(scan, next).1))
        && (!ok ==> !c.gather && !H.HasCodes(c.tables, ChunkItems(scan, p.current)))
    {
      hide Marked, Plains, ChunkFits, H.HasCodes, Chunked, Before, ScanItems, c.Valid, EobItems, ChunkCoded, AllCounted;
      ok := WritePending();
      if !ok {
        return;
      }
      RestartCodes(scan, c.tables, p);
      BeforeGrows(scan, c.tables, start, p);
      ScanItemsGrow(scan, p);
      PredsKept(scan, p.current);
      ghost var items := c.items;
      c.EmitRestart(nextRestartNum);
      assert c.bitBuffer[..0] == [];
      if IsDc(scan) {
        lastDc := Fresh(scan).preds;
      }
    }

    /** Write the pending run: the items of the interval are then complete. */
    method WritePending() returns (ok: bool)
      requires Valid()
      modifies c`items, c`eobRun, c`be, c.w, c.dcCounts, c.acCounts
      ensures ok ==>
        c.Valid() && c.items == ChunkItems(scan, p.current) && c.earlier == old(c.earlier) && c.w.base == old(c.w.base)
      ensures ok ==> c.eobRun == 0 && c.be == 0 && (!c.gather ==> H.HasCodes(c.tables, c.items))
      ensures !ok ==> !c.gather && !H.HasCodes(c.tables, ChunkItems(scan, p.current))
    {
      hide H.HasCodes, EobItems, ChunkCoded, AllCounted, WorkingState.Holds, Chunked, Before, ScanItems, HasAllCodes,
        Fits;
      ghost var m := Point(c.items, c.earlier, c.w.base);
      assert c.items + [] == c.items;
      ghost var eob := EobItems(AcTableOf(scan), c.St());
      assert m.items + ([] + eob) == ChunkItems(scan, p.current);
      ok := c.EmitEobrun(AcTableOf(scan), m, []);
    }

    /** Code an MCU of the current interval. */
    method EncodeCurrent(mcu: Mcu, ghost q: Progress) returns (r: Outcome)
      requires ValidProgress(scan, q) && Fits(scan, q) && Recorded(q) && Keeps(c, scan, lastDc, Current(scan, q).1)
      requires ValidMcu(scan, mcu)
      modifies `lastDc, c`items, c`eobRun, c`be, c.w, c.dcCounts, c.acCounts, c.bitBuffer
      ensures var next := E.With(q, mcu);
        && ValidProgress(scan, next)
        && (r == Coded ==> Recorded(next) && Fits(scan, next) && Keeps(c, scan, lastDc, Current(scan, next).1))
        && (r == NoCode ==> !c.gather && !HasAllCodes(scan, c.tables, next))
        && (r == BadCoefficient ==> !Fits(scan, next))
    {
      hide Marked, Plains, ChunkItems, ChunkCoded, ChunkFits, H.HasCodes, Before, ScanItems, McuCoded, McuFits,
        Current, HasAllCodes, Fits, Keeps, AllCounted, WorkingState.Holds;
      ghost var k := Current(scan, q).1;
      ghost var m := Point(c.items, c.earlier, c.w.base);
      Grown(scan, c.tables, q, mcu);
      assert c.items + [] == c.items;
      var preds;
      r, preds := EncodeBlocks(c, scan, lastDc, mcu, k, m);
      if r == Coded {
        lastDc := preds;
      }
    }

    /** Update the restart-interval state. */
    method CountMcu(mcu: Mcu)
      requires Counters()
      modifies `restartsToGo, `nextRestartNum, `p
      ensures Counters() && p == E.With(E.Turned(interval, old(p)), mcu)
    {
      E.CountersKept(interval, p, E.Turned(interval, p), mcu);
      if 0 < interval {
        if restartsToGo == 0 {
          restartsToGo := interval;
          nextRestartNum := (nextRestartNum + 1) % 8;
        }
        restartsToGo := restartsToGo - 1;
      }
      p := E.With(E.Turned(interval, p), mcu);
    }

    /** Complete the output pass: every interval is on the wire. */
    method FinishPass() returns (ok: bool)
      requires Valid() && !c.gather
      modifies c`items, c`earlier, c`eobRun, c`be, c.w, c.dcCounts, c.acCounts
      ensures ValidChunks(scan, p.chunks + [p.current])
      ensures ok ==> c.w.out == start + Wire(0, Plains(scan, c.tables, p.chunks + [p.current]))
      ensures ok ==> forall j :: 0 <= j < |p.chunks + [p.current]| ==>
        H.HasCodes(c.tables, ChunkItems(scan, (p.chunks + [p.current])[j]))
      ensures !ok ==> !H.HasCodes(c.tables, ChunkItems(scan, p.current))
    {
      hide Marked, Plains, ChunkFits, H.HasCodes, Chunked, Before, ScanItems, c.Valid, EobItems, ChunkCoded, Wire,
        Stuff, Pack, Flushed,
        Bits, ChunkItems;
      ok := WritePending();
      BeforeGrows(scan, c.tables, start, p);
      if ok {
        c.FlushBits();
      }
    }

    /** Complete the statistics pass: the counters hold the numbers of all symbols, with those of the last run. */
    method FinishCounting()
      requires Valid() && c.gather
      modifies c`items, c`eobRun, c`be, c.w, c.dcCounts, c.acCounts
      ensures ValidChunks(scan, p.chunks + [p.current])
      ensures AllCounted(Snapshot(c.dcCounts), Snapshot(c.acCounts), NoCounts(), NoCounts(),
        ScanItems(scan, p.chunks + [p.current]))
    {
      hide ChunkFits, H.HasCodes, Chunked, Before, ScanItems, EobItems, ChunkCoded, ChunkItems, AllCounted;
      ScanItemsGrow(scan, p);
      var ok := WritePending();
    }
  }

  lemma NothingYet(s: Scan, e: Tables, start: seq<byte>)
    requires ValidScan(s)
    ensures var p := E.Progress([], []);
      && ValidProgress(s, p) && Current(s, p) == ([], Fresh(s)) && Fits(s, p) && HasAllCodes(s, e, p)
      && Before(s, e, start, []) == start && ScanItems(s, []) == []
  {
  }

  lemma NothingKept(c: EntropyEncoder, s: Scan)
    requires ValidScan(s) && c.eobRun == 0 && c.be == 0 && c.bitBuffer.Length == MAX_CORR_BITS
    ensures Keeps(c, s, Fresh(s).preds, Fresh(s))
  {
    assert c.bitBuffer[..0] == [];
  }

  lemma FirstChunk(interval: nat)
    ensures Chunked(interval, [] + [[]])
  {
  }

  lemma TurnedValid(s: Scan, interval: nat, p: Progress, mcu: Mcu)
    requires ValidProgress(s, p) && ValidMcu(s, mcu)
    ensures ValidProgress(s, E.Turned(interval, p)) && ValidProgress(s, E.With(E.Turned(interval, p), mcu))
  {
  }

  /** An interval whose items lack a code is among those before the next MCU. */
  lemma CodesBefore(s: Scan, e: Tables, p: Progress, mcu: Mcu)
    requires ValidProgress(s, p) && ValidMcu(s, mcu) && !H.HasCodes(e, ChunkItems(s, p.current))
    ensures var next := E.With(E.Progress(p.chunks + [p.current], []), mcu);
      ValidProgress(s, next) && !HasAllCodes(s, e, next)
  {
    hide H.HasCodes, ChunkItems, Current;
    var next := E.With(E.Progress(p.chunks + [p.current], []), mcu);
    assert next.chunks[|p.chunks|] == p.current;
  }

  /** A new interval starts with nothing in it. */
  lemma RestartCodes(s: Scan, e: Tables, p: Progress)
    requires ValidProgress(s, p)
    ensures var next := E.Progress(p.chunks + [p.current], []);
      && ValidProgress(s, next) && Current(s, next) == ([], Fresh(s))
      && (Fits(s, p) ==> Fits(s, next))
      && (HasAllCodes(s, e, p) && H.HasCodes(e, ChunkItems(s, p.current)) ==> HasAllCodes(s, e, next))
  {
    hide ChunkItems;
    EntropyEncoder.NothingWritten(e);
    hide H.HasCodes;
  }

  /** AC scans leave the predictions alone. */
  lemma PredsKept(s: Scan, chunk: Chunk)
    requires ValidScan(s) && ValidChunk(s, chunk)
    ensures !IsDc(s) ==> ChunkCoded(s, Fresh(s), chunk).1.preds == Fresh(s).preds
  {
    hide ChunkCoded;
    if !IsDc(s) {
      ChunkIsBlocks(s, Fresh(s), chunk);
    }
  }

  /** One more MCU. */
  lemma Grown(s: Scan, e: Tables, p: Progress, mcu: Mcu)
    requires ValidProgress(s, p) && ValidMcu(s, mcu)
    ensures var next := E.With(p, mcu);
      var (done, k) := Current(s, p);
      var (items, k1) := McuCoded(s, k, mcu);
      && ValidProgress(s, next) && Current(s, next) == (done + items, k1)
      && (Fits(s, next) <==> Fits(s, p) && McuFits(s, k, mcu))
      && (HasAllCodes(s, e, next) ==> H.HasCodes(e, done + items))
      && (HasAllCodes(s, e, p) && H.HasCodes(e, done + items) ==> HasAllCodes(s, e, next))
  {
    hide ChunkCoded, ChunkFits, McuCoded, McuFits, H.HasCodes, ChunkItems;
    ChunkAppend(s, Fresh(s), p.current, mcu);
  }
}
