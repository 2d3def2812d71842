/** The arithmetic entropy encoder of a scan: MCU loops, restart markers and the end of the scan. */
module ArithmeticScanEncoder {
  import opened Decisions
  import opened Coefficients
  import opened BlockCoding
  import opened BlockRefinement
  import opened McuCoding
  import opened IntervalCoder
  import opened ByteStream
  import opened RestartIntervals
  import opened ScanCoding
  import opened ArithmeticEncoder
  import opened ShortestCode
  import opened ArithmeticBlockEncoder

  class ScanEncoder {
    const scan: Scan
    const interval: nat
    const coder: Encoder
    var dcs: seq<DcState>       // prediction and context of each component
    var restartsToGo: nat       // MCUs left in this restart interval
    var nextRestartNum: nat     // next restart number to write, 0..7

    ghost const start: seq<byte>       // the destination when the scan began
    ghost const initial: Stats         // statistics when the scan began
    ghost var chunks: seq<Chunk>       // finished restart intervals
    ghost var plains: seq<seq<byte>>   // their data bytes
    ghost var current: Chunk           // MCUs of the interval being coded

    ghost predicate Counters()
      reads this
    {
      && Chunked(interval, chunks + [current])
      && nextRestartNum == |chunks| % 8
      && (0 < interval ==> restartsToGo + |current| == interval)
    }

    /** Room for another MCU in the interval. */
    ghost predicate Open()
      reads this
    {
      && (interval == 0 ==> chunks == [])
      && (0 < interval ==> (forall j :: 0 <= j < |chunks| ==> |chunks[j]| == interval) && 0 < restartsToGo)
      && (0 < interval ==> restartsToGo + |current| == interval)
      && nextRestartNum == |chunks| % 8
    }

    ghost predicate Coding()
      reads `chunks, `plains, `current, `dcs, coder
    {
      && ValidScan(scan) && coder.Valid()
      && ValidChunks(scan, chunks) && ValidChunk(scan, current)
      && CodesAll(scan, initial, chunks, plains)
      && coder.before == start + Marked(0, plains)
      && coder.exact == ChunkCoder(scan, StatsAfter(scan, initial, chunks), current)
      && dcs == ChunkStates(scan, FreshStates(scan), current)
      && ValidStates(scan, dcs)
    }

    ghost predicate Valid()
      reads this, coder
    {
      Coding() && Counters()
    }

    /** The MCUs coded so far. */
    ghost function Mcus(): seq<Mcu>
      reads this
    {
      Flatten(chunks + [current])
    }

    /** Start a scan; the statistics it uses are zeroed. */
    constructor (scan: Scan, interval: nat, coder: Encoder)
      requires ValidScan(scan)
      modifies coder
      ensures Valid() && this.scan == scan && this.interval == interval && this.coder == coder
      ensures chunks == [] && current == [] && start == old(coder.output)
      ensures initial == Reset(scan, old(coder.stats))
    {
      this.scan, this.interval, this.coder := scan, interval, coder;
      dcs, restartsToGo, nextRestartNum := FreshStates(scan), interval, 0;
      start, initial := coder.output, Reset(scan, coder.stats);
      chunks, plains, current := [], [], [];
      new;
      coder.BeginSegment(Reset(scan, coder.stats));
      assert start + Marked(0, plains) == start;
    }

    /** Finish the segment, write a restart marker and resynchronise. */
    method EmitRestart()
      requires Valid() && 0 < interval && restartsToGo == 0
      modifies this, coder
      ensures ValidScan(scan) && coder.Valid()
      ensures ValidChunks(scan, chunks) && CodesAll(scan, initial, chunks, plains)
      ensures chunks == old(chunks) + [old(current)] && current == []
      ensures coder.before == start + Marked(0, plains)
      ensures coder.exact == Start(StatsAfter(scan, initial, chunks))
      ensures dcs == FreshStates(scan) && nextRestartNum == old(nextRestartNum)
    {
      hide Marked, CodesAll, ChunkCoder, Reset, Represents, ChunkDecisions, ChunkStates, Stuff, FreshStates, Contains,
        Shortest;
      coder.FinishPass();
      CodesAppend(scan, initial, chunks, plains, current, coder.plain);
      WireGrows(start, plains, coder.plain);
      ghost var p, count := coder.plain, |chunks|;
      assert RestartMarker(count) == RST0 + nextRestartNum;
      coder.WriteMarker(RST0 + nextRestartNum);
      coder.BeginSegment(Reset(scan, coder.stats));
      dcs := FreshStates(scan);
      chunks, plains, current := chunks + [current], plains + [p], [];
    }

    /** Write a restart marker if the interval is used up. */
    method RestartIfDue()
      requires Valid()
      modifies this, coder
      ensures Coding() && Open()
      ensures (chunks == old(chunks) && current == old(current))
        || (chunks == old(chunks) + [old(current)] && current == [])
    {
      hide Marked, CodesAll, ChunkCoder, Reset, Represents, ChunkDecisions, ChunkStates, Stuff, FreshStates, StatsAfter;
      ChunkLengths(interval, chunks, current);
      if interval > 0 {
        if restartsToGo == 0 {
          EmitRestart();
          StartingChunk(scan, StatsAfter(scan, initial, chunks));
          restartsToGo := interval;
          nextRestartNum := nextRestartNum + 1;
          nextRestartNum := nextRestartNum % 8;
        }
      }
    }

    /** Code one MCU, preceded by a restart marker when the interval is used up. */
    method EncodeMcu(mcu: Mcu)
      requires Valid() && ValidMcu(scan, mcu)
      modifies this, coder
      ensures Valid() && Mcus() == old(Mcus()) + [mcu]
    {
      hide Coding, Flatten, Chunked;
      RestartIfDue();
      if interval > 0 {
        restartsToGo := restartsToGo - 1;
      }
      EncodeCurrent(mcu);
      StillChunked(interval, chunks, current);
      FlattenAppend(old(chunks), old(current), chunks, current[..|current| - 1], mcu);
    }

    /** Code an MCU of the current interval. */
    method EncodeCurrent(mcu: Mcu)
      requires Coding() && ValidMcu(scan, mcu)
      modifies this`dcs, this`current, coder
      ensures Coding() && current == old(current) + [mcu]
    {
      hide Marked, CodesAll, ChunkCoder, Reset, Represents, ChunkDecisions, ChunkStates, Stuff, McuStates, McuDecisions,
        FreshStates, StatsAfter;
      ChunkGrows(scan, StatsAfter(scan, initial, chunks), current, mcu);
      dcs := EncodeMcuData(coder, scan, dcs, mcu);
      current := current + [mcu];
    }

    /** Finish the scan.  Together with the segments before it, what was written codes all MCUs. */
    method Finish()
      requires Valid()
      modifies this`plains, this`chunks, coder
      ensures chunks == old(chunks) + [current] && Chunked(interval, chunks)
      ensures ValidScan(scan) && ValidChunks(scan, chunks) && CodesAll(scan, initial, chunks, plains)
      ensures coder.output == start + Wire(0, plains) && plains != []
      ensures coder.stats == FinalStats(scan, initial, chunks)
    {
      hide Marked, CodesAll, ChunkCoder, Reset, Represents, ChunkDecisions, ChunkStates, Stuff, FreshStates, Wire,
        Contains,
        Shortest;
      coder.FinishPass();
      CodesAppend(scan, initial, chunks, plains, current, coder.plain);
      WireGrows(start, plains, coder.plain);
      chunks, plains := chunks + [current], plains + [coder.plain];
    }
  }

  /** Full intervals and one under way. */
  lemma StillChunked(interval: nat, chunks: seq<Chunk>, current: Chunk)
    requires interval == 0 ==> chunks == []
    requires 0 < interval ==> (forall j :: 0 <= j < |chunks| ==> |chunks[j]| == interval) && 0 < |current| <= interval
    ensures Chunked(interval, chunks + [current])
  {
  }

  /** An empty chunk leaves the coder where the segment started. */
  lemma StartingChunk(s: Scan, stats: Stats)
    requires ValidScan(s)
    ensures ChunkCoder(s, stats, []) == Start(stats)
    ensures ChunkStates(s, FreshStates(s), []) == FreshStates(s) && ValidStates(s, FreshStates(s))
  {
  }

  lemma ChunkGrows(s: Scan, stats: Stats, chunk: Chunk, mcu: Mcu)
    requires ValidScan(s) && ValidChunk(s, chunk) && ValidMcu(s, mcu)
    ensures var dcs := ChunkStates(s, FreshStates(s), chunk);
      && ChunkCoder(s, stats, chunk + [mcu]) == EncodeAll(ChunkCoder(s, stats, chunk), McuDecisions(s, dcs, mcu))
      && ChunkStates(s, FreshStates(s), chunk + [mcu]) == McuStates(s, dcs, mcu)
  {
    hide McuDecisions, McuStates, FreshStates;
    ChunkAppend(s, FreshStates(s), chunk, mcu);
    EncodeAllSplit(Start(stats), ChunkDecisions(s, FreshStates(s), chunk),
      McuDecisions(s, ChunkStates(s, FreshStates(s), chunk), mcu));
  }

  /** The MCU loop proper, for each kind of scan. */
  method EncodeMcuData(e: Encoder, s: Scan, dcs0: seq<DcState>, mcu: Mcu) returns (dcs: seq<DcState>)
    requires e.Valid() && ValidScan(s) && ValidStates(s, dcs0) && ValidMcu(s, mcu)
    modifies e
    ensures e.Coded(McuDecisions(s, dcs0, mcu))
    ensures dcs == McuStates(s, dcs0, mcu) && ValidStates(s, dcs)
  {
    hide EncodeAll, BandDecisions, RefineDecisions, DcBlocks, DcStates, RefineBits, IntervalCoder.Encode;
    dcs := dcs0;
    match s.kind {
      case Sequential => dcs := EncodeDcBlocks(e, s, dcs0, mcu);
      case DcFirst => dcs := EncodeDcBlocks(e, s, dcs0, mcu);
      case DcRefine => EncodeRefineBits(e, s, mcu);
      case AcFirst => EncodeBand(e, BandOf(s, 0), mcu[0]);
      case AcRefine => EncodeRefine(e, BandOf(s, 0), mcu[0]);
    }
  }

  method EncodeDcBlocks(e: Encoder, s: Scan, dcs0: seq<DcState>, mcu: Mcu) returns (dcs: seq<DcState>)
    requires e.Valid() && ValidScan(s) && CodesDc(s) && ValidStates(s, dcs0) && ValidMcu(s, mcu)
    modifies e
    ensures e.Coded(DcBlocks(s, dcs0, mcu, 0))
    ensures dcs == DcStates(s, dcs0, mcu, 0) && ValidStates(s, dcs)
  {
    hide EncodeAll, BandDecisions, IntervalCoder.Encode, DcDecisions, Shift, NextContext;
    dcs := dcs0;
    EncodeAllFirst(e.exact, Decision(Fixed, 0), []);
    for blkn := 0 to |mcu|
      invariant e.Valid() && e.before == old(e.before) && ValidStates(s, dcs)
      invariant EncodeAll(e.exact, DcBlocks(s, dcs, mcu, blkn)) == EncodeAll(old(e.exact), DcBlocks(s, dcs0, mcu, 0))
      invariant DcStates(s, dcs, mcu, blkn) == DcStates(s, dcs0, mcu, 0)
    {
      var c := s.membership[blkn];
      var t, m := TableOf(s, c), Shift(mcu[blkn][0], s.al);
      ShiftRange(mcu[blkn][0], s.al);
      ghost var band := if CodesAc(s) then BandDecisions(BandOf(s, c), mcu[blkn]) else [];
      ghost var rest := DcBlocks(s, dcs[c := DcNext(t, dcs[c], m)], mcu, blkn + 1);
      assert DcBlocks(s, dcs, mcu, blkn) == DcDecisions(t, dcs[c], m) + band + rest;
      EncodeAllSplit(e.exact, DcDecisions(t, dcs[c], m) + band, rest);
      EncodeAllSplit(e.exact, DcDecisions(t, dcs[c], m), band);
      var st := EncodeDc(e, t, dcs[c], m);
      dcs := dcs[c := st];
      if CodesAc(s) {
        EncodeBand(e, BandOf(s, c), mcu[blkn]);
      } else {
        EncodeAllFirst(e.exact, Decision(Fixed, 0), []);
      }
    }
    EncodeAllFirst(e.exact, Decision(Fixed, 0), []);
  }

  method EncodeRefineBits(e: Encoder, s: Scan, mcu: Mcu)
    requires e.Valid()
    modifies e
    ensures e.Coded(RefineBits(s, mcu, 0))
  {
    hide EncodeAll, IntervalCoder.Encode, BitOf;
    for blkn := 0 to |mcu|
      invariant e.Valid() && e.before == old(e.before)
      invariant EncodeAll(e.exact, RefineBits(s, mcu, blkn)) == EncodeAll(old(e.exact), RefineBits(s, mcu, 0))
    {
      EncodeAllFirst(e.exact, Decision(Fixed, BitOf(mcu[blkn][0], s.al)), RefineBits(s, mcu, blkn + 1));
      e.Encode(Fixed, BitOf(mcu[blkn][0], s.al));
    }
    EncodeAllFirst(e.exact, Decision(Fixed, 0), []);
  }
}
