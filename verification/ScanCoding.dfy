/** Arithmetic coding of a whole scan with restart intervals: what an encoder may put on the wire,
    what a decoder reads off it, and the round trip between the two. */
module ScanCoding {
  import opened Powers
  import opened Decisions
  import opened Coefficients
  import opened BlockCoding
  import opened McuCoding
  import opened IntervalCoder
  import opened ByteStream
  import opened RestartIntervals
  import opened SegmentedReading

  // ----- resets -----

  /** The statistics areas zeroed at the start of a scan and at every restart. */
  predicate Cleared(s: Scan, k: Context) {
    match k
    case Dc(tbl, _) => CodesDc(s) && exists c :: 0 <= c < |s.comps| && s.comps[c].dcTbl == tbl
    case Ac(tbl, _) => CodesAc(s) && exists c :: 0 <= c < |s.comps| && s.comps[c].acTbl == tbl
    case Fixed => false
  }

  function Reset(s: Scan, stats: Stats): Stats {
    map k | k in stats && !Cleared(s, k) :: stats[k]
  }

  function FreshStates(s: Scan): (dcs: seq<DcState>)
    ensures |dcs| == |s.comps|
  {
    seq(|s.comps|, _ => FRESH)
  }

  // ----- what is coded -----

  predicate ValidChunk(s: Scan, chunk: Chunk) { forall i :: 0 <= i < |chunk| ==> ValidMcu(s, chunk[i]) }

  function ChunkDecisions(s: Scan, dcs: seq<DcState>, chunk: Chunk): seq<Decision>
    requires ValidScan(s) && |dcs| == |s.comps| && ValidChunk(s, chunk)
    decreases |chunk|
  {
    if chunk == [] then []
    else McuDecisions(s, dcs, chunk[0]) + ChunkDecisions(s, McuStates(s, dcs, chunk[0]), chunk[1..])
  }

  function ChunkStates(s: Scan, dcs: seq<DcState>, chunk: Chunk): (r: seq<DcState>)
    requires ValidScan(s) && |dcs| == |s.comps| && ValidChunk(s, chunk)
    ensures |r| == |dcs|
    decreases |chunk|
  {
    if chunk == [] then dcs else ChunkStates(s, McuStates(s, dcs, chunk[0]), chunk[1..])
  }

  /** Every DC difference of the chunk is at most 2^15 in magnitude. */
  predicate ChunkFits(s: Scan, dcs: seq<DcState>, chunk: Chunk)
    requires ValidScan(s) && |dcs| == |s.comps| && ValidChunk(s, chunk)
    decreases |chunk|
  {
    chunk == [] || (DcFits(s, dcs, chunk[0]) && ChunkFits(s, McuStates(s, dcs, chunk[0]), chunk[1..]))
  }

  lemma {:induction false} ChunkAppend(s: Scan, dcs: seq<DcState>, chunk: Chunk, mcu: Mcu)
    requires ValidScan(s) && |dcs| == |s.comps| && ValidChunk(s, chunk) && ValidMcu(s, mcu)
    ensures ChunkDecisions(s, dcs, chunk + [mcu])
      == ChunkDecisions(s, dcs, chunk) + McuDecisions(s, ChunkStates(s, dcs, chunk), mcu)
    ensures ChunkStates(s, dcs, chunk + [mcu]) == McuStates(s, ChunkStates(s, dcs, chunk), mcu)
    decreases |chunk|
  {
    hide McuDecisions, McuStates;
    if chunk == [] {
      assert ([mcu])[1..] == [];
      assert chunk + [mcu] == [mcu];
    } else {
      assert (chunk + [mcu])[1..] == chunk[1..] + [mcu];
      ChunkAppend(s, McuStates(s, dcs, chunk[0]), chunk[1..], mcu);
    }
  }

  /** The encoder's interval after a chunk coded from the statistics given. */
  function ChunkCoder(s: Scan, stats: Stats, chunk: Chunk): (e: Coder)
    requires ValidScan(s) && ValidChunk(s, chunk)
    ensures Normal(e)
  {
    EncodeAll(Start(stats), ChunkDecisions(s, FreshStates(s), chunk))
  }

  /** The data bytes p code the chunk: they denote a value in the interval the chunk leads to. */
  ghost predicate SegmentCodes(s: Scan, stats: Stats, chunk: Chunk, p: seq<byte>)
    requires ValidScan(s) && ValidChunk(s, chunk)
  {
    Contains(65536.0 * Fraction(p), ChunkCoder(s, stats, chunk))
  }

  ghost predicate ValidChunks(s: Scan, chunks: seq<Chunk>) {
    forall j :: 0 <= j < |chunks| ==> ValidChunk(s, chunks[j])
  }

  /** Statistics after the chunks and the restart behind each. */
  function StatsAfter(s: Scan, stats: Stats, chunks: seq<Chunk>): Stats
    requires ValidScan(s) && ValidChunks(s, chunks)
    decreases |chunks|
  {
    if chunks == [] then stats
    else StatsAfter(s, Reset(s, ChunkCoder(s, stats, chunks[0]).stats), chunks[1..])
  }

  /** Statistics at the end of the last chunk. */
  function FinalStats(s: Scan, stats: Stats, chunks: seq<Chunk>): Stats
    requires ValidScan(s) && ValidChunks(s, chunks) && chunks != []
    decreases |chunks|
  {
    var now := ChunkCoder(s, stats, chunks[0]).stats;
    if |chunks| == 1 then now else FinalStats(s, Reset(s, now), chunks[1..])
  }

  /** Segment by segment, the data bytes code the chunks. */
  ghost predicate CodesAll(s: Scan, stats: Stats, chunks: seq<Chunk>, plains: seq<seq<byte>>)
    requires ValidScan(s) && ValidChunks(s, chunks)
    decreases |chunks|
  {
    && |chunks| == |plains|
    && (chunks != [] ==>
          && SegmentCodes(s, stats, chunks[0], plains[0])
          && CodesAll(s, Reset(s, ChunkCoder(s, stats, chunks[0]).stats), chunks[1..], plains[1..]))
  }

  lemma {:induction false} CodesAppend(s: Scan, stats: Stats, chunks: seq<Chunk>, plains: seq<seq<byte>>,
      c: Chunk, p: seq<byte>)
    requires ValidScan(s) && ValidChunks(s, chunks) && ValidChunk(s, c)
    requires CodesAll(s, stats, chunks, plains) && SegmentCodes(s, StatsAfter(s, stats, chunks), c, p)
    ensures CodesAll(s, stats, chunks + [c], plains + [p]) && |plains| == |chunks|
    ensures StatsAfter(s, stats, chunks + [c]) == Reset(s, ChunkCoder(s, StatsAfter(s, stats, chunks), c).stats)
    ensures FinalStats(s, stats, chunks + [c]) == ChunkCoder(s, StatsAfter(s, stats, chunks), c).stats
    decreases |chunks|
  {
    hide SegmentCodes, ChunkCoder, Reset;
    if chunks == [] {
      assert chunks + [c] == [c] && plains + [p] == [p];
      assert [c][1..] == [] && [p][1..] == [];
    } else {
      var next := Reset(s, ChunkCoder(s, stats, chunks[0]).stats);
      assert (chunks + [c])[1..] == chunks[1..] + [c];
      assert (plains + [p])[1..] == plains[1..] + [p];
      CodesAppend(s, next, chunks[1..], plains[1..], c, p);
    }
  }

  // ----- what a decoder reads -----

  /** A decoder's state between MCUs of a segment: the exact decoder, predictions and contexts, and whether the
      code has been good since the segment began. */
  datatype State = State(d: Decoder, dcs: seq<DcState>, good: bool)

  ghost function OpenSegment(data: seq<byte>, stats: Stats): Decoder {
    FractionRange(data);
    Decoder(65536.0 * Fraction(data), 0x10000, stats)
  }

  /** Read one MCU into the blocks `was`; after a bad code MCUs are left as they are until the next segment. */
  ghost function ReadInto(s: Scan, st: State, was: Mcu): (Mcu, State)
    requires ValidScan(s)
  {
    if !st.good || |st.dcs| != |s.comps| || !ValidMcu(s, was) then (was, st)
    else
      var m := ReadMcu(Decode, st.d, s, st.dcs, was);
      (m.mcu, State(m.d, m.dcs, m.ok))
  }

  /** The decoding process.  Statistics the scan does not use carry over from segment to segment. */
  ghost function Decoding(s: Scan): Process<State>
    requires ValidScan(s)
  {
    Process((st: State, data: seq<byte>) => State(OpenSegment(data, Reset(s, st.d.stats)), FreshStates(s), true),
            (st: State, was: Mcu) => ReadInto(s, st, was))
  }

  /** A decoder's state before a scan. */
  function Initially(stats: Stats): State { State(Decoder(0.0, 0x10000, stats), [], true) }

  // ----- round trip -----

  ghost predicate ExpectedAll(s: Scan, was: seq<Mcu>, mcus: seq<Mcu>) {
    |was| == |mcus| && forall i :: 0 <= i < |mcus| ==> ExpectedMcu(s, was[i], mcus[i])
  }

  function DeliveredAll(s: Scan, was: seq<Mcu>, mcus: seq<Mcu>): (r: seq<Mcu>)
    requires |was| == |mcus| && forall i :: 0 <= i < |mcus| ==> |was[i]| == |mcus[i]|
    ensures |r| == |mcus|
  {
    seq(|mcus|, i requires 0 <= i < |mcus| => DeliveredFrom(s, was[i], mcus[i], 0))
  }

  /** One MCU. */
  lemma ReadIntoMcu(s: Scan, st: State, was: Mcu, mcu: Mcu)
    requires ValidScan(s) && st.good && |st.dcs| == |s.comps| && ValidMcu(s, mcu)
    requires ExpectedMcu(s, was, mcu) && Yields(Decode, st.d, McuDecisions(s, st.dcs, mcu)) && DcFits(s, st.dcs, mcu)
    ensures ReadInto(s, st, was) == (DeliveredFrom(s, was, mcu, 0),
      State(After(Decode, st.d, McuDecisions(s, st.dcs, mcu)), McuStates(s, st.dcs, mcu), true))
  {
    hide McuDecisions, McuStates, ReadMcu, DcFits, DeliveredFrom, Expected, Decode;
    McuRoundTrip(Decode, st.d, s, st.dcs, was, mcu);
  }

  /** The MCUs of one restart interval. */
  lemma {:induction false} ChunkRoundTrip(s: Scan, st: State, was: seq<Mcu>, chunk: Chunk)
    requires ValidScan(s) && st.good && |st.dcs| == |s.comps| && ValidChunk(s, chunk)
    requires ExpectedAll(s, was, chunk) && Yields(Decode, st.d, ChunkDecisions(s, st.dcs, chunk))
    requires ChunkFits(s, st.dcs, chunk)
    ensures ReadChunk(Decoding(s), st, was)
      == (DeliveredAll(s, was, chunk),
          State(After(Decode, st.d, ChunkDecisions(s, st.dcs, chunk)), ChunkStates(s, st.dcs, chunk), true))
    decreases |chunk|
  {
    hide McuDecisions, McuStates, ReadInto, DcFits, DeliveredFrom, Expected, Decode;
    if chunk != [] {
      var ds, rest := McuDecisions(s, st.dcs, chunk[0]), ChunkDecisions(s, McuStates(s, st.dcs, chunk[0]), chunk[1..]);
      Split(Decode, st.d, ds, rest);
      ReadIntoMcu(s, st, was[0], chunk[0]);
      ChunkRoundTrip(s, ReadInto(s, st, was[0]).1, was[1..], chunk[1..]);
      DeliveredFirst(s, was, chunk);
    }
  }

  lemma DeliveredFirst(s: Scan, was: seq<Mcu>, chunk: Chunk)
    requires chunk != [] && |was| == |chunk| && forall i :: 0 <= i < |chunk| ==> |was[i]| == |chunk[i]|
    ensures DeliveredAll(s, was, chunk)
      == [DeliveredFrom(s, was[0], chunk[0], 0)] + DeliveredAll(s, was[1..], chunk[1..])
  {
    hide DeliveredFrom;
  }

  /** Every DC difference of every chunk is at most 2^15 in magnitude; predictions restart with
      each chunk. */
  ghost predicate AllFit(s: Scan, chunks: seq<Chunk>)
    requires ValidScan(s) && ValidChunks(s, chunks)
  {
    forall j :: 0 <= j < |chunks| ==> ChunkFits(s, FreshStates(s), chunks[j])
  }

  /** A decoder opened on data that code a chunk replays the chunk's decisions and ends with the
      encoder's statistics. */
  lemma SegmentRoundTrip(s: Scan, stats: Stats, chunk: Chunk, p: seq<byte>)
    requires ValidScan(s) && ValidChunk(s, chunk) && SegmentCodes(s, stats, chunk, p)
    ensures var d, ds := OpenSegment(p, stats), ChunkDecisions(s, FreshStates(s), chunk);
      Yields(Decode, d, ds) && After(Decode, d, ds).stats == ChunkCoder(s, stats, chunk).stats
  {
    hide ChunkDecisions, Decode, Fraction;
    FractionRange(p);
    var d, ds := OpenSegment(p, stats), ChunkDecisions(s, FreshStates(s), chunk);
    Pow2Zero();
    ExactRoundTrip(65536.0 * Fraction(p), Start(stats), d, ds);
  }

  /** The data bytes of one interval read back, with the encoder's statistics. */
  lemma IntervalRoundTrip(s: Scan, st: State, stats: Stats, chunk: Chunk, plain: seq<byte>, was: seq<Mcu>)
    returns (next: State)
    requires ValidScan(s) && ValidChunk(s, chunk) && ChunkFits(s, FreshStates(s), chunk)
    requires stats == Reset(s, st.d.stats)
    requires SegmentCodes(s, stats, chunk, plain) && ExpectedAll(s, was, chunk)
    ensures var p := Decoding(s);
      ReadChunk(p, p.open(st, plain), was) == (DeliveredAll(s, was, chunk), next)
    ensures next.good && next.d.stats == ChunkCoder(s, stats, chunk).stats
  {
    hide ChunkDecisions, ChunkStates, ChunkCoder, SegmentCodes, Decode, OpenSegment, Expected, DeliveredAll, ChunkFits,
      ReadChunk, ReadInto, Reset;
    SegmentRoundTrip(s, stats, chunk, plain);
    var open := State(OpenSegment(plain, stats), FreshStates(s), true);
    ChunkRoundTrip(s, open, was, chunk);
    next := State(After(Decode, open.d, ChunkDecisions(s, open.dcs, chunk)), ChunkStates(s, open.dcs, chunk), true);
  }

  /** Interval by interval, blocks hold what is expected. */
  ghost predicate ExpectedChunks(s: Scan, was: seq<Chunk>, chunks: seq<Chunk>) {
    |was| == |chunks| && forall j :: 0 <= j < |chunks| ==> ExpectedAll(s, was[j], chunks[j])
  }

  function Delivery(s: Scan, was: seq<Chunk>, chunks: seq<Chunk>): (r: seq<Chunk>)
    requires |was| == |chunks|
    requires forall j :: 0 <= j < |chunks| ==>
      |was[j]| == |chunks[j]| && forall i :: 0 <= i < |chunks[j]| ==> |was[j][i]| == |chunks[j][i]|
    ensures |r| == |chunks|
  {
    seq(|chunks|, j requires 0 <= j < |chunks| => DeliveredAll(s, was[j], chunks[j]))
  }

  lemma {:induction false} AllIntervals(s: Scan, st: State, chunks: seq<Chunk>, plains: seq<seq<byte>>, was: seq<Chunk>)
    requires ValidScan(s) && ValidChunks(s, chunks) && AllFit(s, chunks) && ExpectedChunks(s, was, chunks)
    requires chunks != []
    requires CodesAll(s, Reset(s, st.d.stats), chunks, plains)
    ensures AllRead(Decoding(s), st, plains, was, Delivery(s, was, chunks))
    ensures LastState(Decoding(s), st, plains, was).good
    ensures LastState(Decoding(s), st, plains, was).d.stats == FinalStats(s, Reset(s, st.d.stats), chunks)
    decreases |chunks|
  {
    DeliveryFirst(s, was, chunks);
    assert ChunkFits(s, FreshStates(s), chunks[0]);
    hide ReadChunk, DeliveredAll, ChunkFits, SegmentCodes, ChunkCoder, Reset, ExpectedAll, ExpectedChunks, Delivery;
    var stats := Reset(s, st.d.stats);
    var next := IntervalRoundTrip(s, st, stats, chunks[0], plains[0], was[0]);
    if |chunks| > 1 {
      AllIntervals(s, next, chunks[1..], plains[1..], was[1..]);
    }
  }

  lemma DeliveryFirst(s: Scan, was: seq<Chunk>, chunks: seq<Chunk>)
    requires ExpectedChunks(s, was, chunks) && chunks != []
    ensures ExpectedAll(s, was[0], chunks[0]) && ExpectedChunks(s, was[1..], chunks[1..]) && |was| == |chunks|
    ensures Delivery(s, was, chunks)[0] == DeliveredAll(s, was[0], chunks[0])
    ensures Delivery(s, was, chunks)[1..] == Delivery(s, was[1..], chunks[1..])
  {
    hide DeliveredAll, Expected;
  }

  lemma SameChunks(interval: nat, s: Scan, was: seq<Chunk>, chunks: seq<Chunk>)
    requires Chunked(interval, chunks) && ExpectedChunks(s, was, chunks)
    ensures Chunked(interval, was)
  {
    hide ExpectedMcu;
  }

  /** Scan round trip: for every sequence of MCUs, any component-to-table assignment and any restart
      interval, a decoder that starts from the same statistics delivers exactly what was coded and
      ends with the encoder's statistics. */
  lemma ArithmeticRoundTrip(s: Scan, interval: nat, stats: Stats, chunks: seq<Chunk>, plains: seq<seq<byte>>,
      ending: seq<byte>, was: seq<Chunk>) returns (last: State)
    requires ValidScan(s) && ValidChunks(s, chunks) && Chunked(interval, chunks) && AllFit(s, chunks)
    requires CodesAll(s, Reset(s, stats), chunks, plains) && CleanEnding(ending) && ExpectedChunks(s, was, chunks)
    ensures plains != [] && var p := Decoding(s);
      Recovers(p, interval, StartReader(p, interval, Initially(stats), Wire(0, plains) + ending), Flatten(was),
               Flatten(Delivery(s, was, chunks)), last)
    ensures last.good && last.d.stats == FinalStats(s, Reset(s, stats), chunks)
  {
    hide Wire, Delivery, AllRead, LastState, Recovers, StartReader, CodesAll, Reset, AllFit;
    AllIntervals(s, Initially(stats), chunks, plains, was);
    SameChunks(interval, s, was, chunks);
    ScanRoundTrip(Decoding(s), interval, Initially(stats), plains, ending, was, Delivery(s, was, chunks));
    last := LastState(Decoding(s), Initially(stats), plains, was);
  }

  lemma {:induction false} FlattenValid(s: Scan, chunks: seq<Chunk>)
    requires ValidChunks(s, chunks)
    ensures ValidChunk(s, Flatten(chunks))
    decreases |chunks|
  {
    if chunks != [] {
      FlattenValid(s, chunks[1..]);
    }
  }

  /** MCU by MCU instead of interval by interval. */
  lemma {:induction false} ExpectedFlat(s: Scan, was: seq<Mcu>, chunks: seq<Chunk>)
    requires ExpectedAll(s, was, Flatten(chunks))
    ensures ExpectedChunks(s, Rechunked(was, chunks), chunks)
    ensures Flatten(Delivery(s, Rechunked(was, chunks), chunks)) == DeliveredAll(s, was, Flatten(chunks))
    decreases |chunks|
  {
    hide Expected, DeliveredFrom, ExpectedMcu;
    if chunks == [] {
      assert Delivery(s, Rechunked(was, chunks), chunks) == [];
    } else {
      var c, later := chunks[0], Flatten(chunks[1..]);
      var wasC, wasL := was[..|c|], was[|c|..];
      ExpectedSplit(s, was, c, later);
      ExpectedFlat(s, wasL, chunks[1..]);
      var r := Rechunked(was, chunks);
      assert r[0] == wasC && r[1..] == Rechunked(wasL, chunks[1..]);
      RechunkedExpected(s, r, chunks);
      DeliveryFirst(s, r, chunks);
    }
  }

  lemma RechunkedExpected(s: Scan, r: seq<Chunk>, chunks: seq<Chunk>)
    requires |r| == |chunks| > 0 && ExpectedAll(s, r[0], chunks[0]) && ExpectedChunks(s, r[1..], chunks[1..])
    ensures ExpectedChunks(s, r, chunks)
  {
    hide ExpectedAll;
    forall j | 0 <= j < |chunks|
      ensures ExpectedAll(s, r[j], chunks[j])
    {
      if j > 0 {
        assert r[1..][j - 1] == r[j] && chunks[1..][j - 1] == chunks[j];
      }
    }
  }

  lemma ExpectedSplit(s: Scan, was: seq<Mcu>, xs: seq<Mcu>, ys: seq<Mcu>)
    requires ExpectedAll(s, was, xs + ys)
    ensures ExpectedAll(s, was[..|xs|], xs) && ExpectedAll(s, was[|xs|..], ys)
    ensures DeliveredAll(s, was, xs + ys) == DeliveredAll(s, was[..|xs|], xs) + DeliveredAll(s, was[|xs|..], ys)
  {
    hide Expected, DeliveredFrom;
    assert forall i :: 0 <= i < |xs| ==> xs[i] == (xs + ys)[i];
    assert forall i :: 0 <= i < |ys| ==> ys[i] == (xs + ys)[|xs| + i];
  }

  /** The same for the scan's MCUs as one sequence. */
  lemma McusRoundTrip(s: Scan, interval: nat, stats: Stats, chunks: seq<Chunk>, plains: seq<seq<byte>>,
      ending: seq<byte>, was: seq<Mcu>)
    requires ValidScan(s) && ValidChunks(s, chunks) && Chunked(interval, chunks) && AllFit(s, chunks)
    requires CodesAll(s, Reset(s, stats), chunks, plains) && CleanEnding(ending) && ExpectedAll(s, was, Flatten(chunks))
    ensures plains != [] && var p := Decoding(s);
      var (mcus, r) := ReadAll(p, interval, StartReader(p, interval, Initially(stats), Wire(0, plains) + ending), was);
      mcus == DeliveredAll(s, was, Flatten(chunks)) && r.ok && r.st.good
        && r.st.d.stats == FinalStats(s, Reset(s, stats), chunks)
  {
    assert |was| == |Flatten(chunks)|;
    hide Wire, Delivery, StartReader, CodesAll, Reset, AllFit, ReadAll, ExpectedAll;
    ExpectedFlat(s, was, chunks);
    RechunkedFlat(was, chunks);
    var last := ArithmeticRoundTrip(s, interval, stats, chunks, plains, ending, Rechunked(was, chunks));
  }
}
