/** Progressive coding of a whole image, scan after scan: what a decompressor has reconstructed after
    any number of scans of a legal script. */
module ProgressiveRun {
  import opened Powers
  import opened Coefficients
  import opened BlockCoding
  import opened BlockRefinement
  import opened McuCoding
  import opened IntervalCoder
  import opened ByteStream
  import opened RestartIntervals
  import opened SegmentedReading
  import opened ScanCoding
  import opened ScanScript

  /** Coefficient blocks of every component. */
  type Image = seq<seq<Block>>

  type Position = (nat, nat)

  /** For each MCU of a scan, the component and block number of each of its blocks. */
  type Visits = seq<seq<Position>>

  predicate Inside(img: Image, p: Position) { p.0 < |img| && p.1 < |img[p.0]| }

  ghost predicate VisitsInside(img: Image, v: Visits) {
    forall m, i :: 0 <= m < |v| && 0 <= i < |v[m]| ==> Inside(img, v[m][i])
  }

  /** No block is visited twice in a scan. */
  ghost predicate Distinct(v: Visits) {
    forall m, i, m',
      i' :: 0 <= m < |v| && 0 <= i < |v[m]| && 0 <= m' < |v| && 0 <= i' < |v[m']| && v[m][i] == v[m'][i'] ==>
      m == m' && i == i'
  }

  function Gather(img: Image, v: Visits): (mcus: seq<Mcu>)
    requires VisitsInside(img, v)
    ensures |mcus| == |v| && forall m :: 0 <= m < |v| ==> |mcus[m]| == |v[m]|
  {
    seq(|v|, m requires 0 <= m < |v| =>
      seq(|v[m]|, i requires 0 <= i < |v[m]| => img[v[m][i].0][v[m][i].1]))
  }

  ghost predicate SameShape(a: Image, b: Image) {
    |a| == |b| && forall c :: 0 <= c < |a| ==> |a[c]| == |b[c]|
  }

  ghost predicate Visited(v: Visits, p: Position) {
    exists m, i :: 0 <= m < |v| && 0 <= i < |v[m]| && v[m][i] == p
  }

  /** `after` is `img` with the visited blocks replaced by those of mcus. */
  ghost predicate Stores(img: Image, v: Visits, mcus: seq<Mcu>, after: Image) {
    && SameShape(img, after)
    && |mcus| == |v| && (forall m :: 0 <= m < |v| ==> |mcus[m]| == |v[m]|)
    && VisitsInside(img, v)
    && (forall m, i :: 0 <= m < |v| && 0 <= i < |v[m]| ==> after[v[m][i].0][v[m][i].1] == mcus[m][i])
    && forall c, b :: 0 <= c < |img| && 0 <= b < |img[c]| && !Visited(v, (c, b)) ==> after[c][b] == img[c][b]
  }

  // ----- one block -----

  /** What is known of coefficient k once it has been sent down to bit `last`. */
  function LevelAt(x: Coef, k: int, last: int): int {
    if last < 0 then 0 else if k == 0 then DcLevel(x, last) else AcLevel(x, last)
  }

  ghost predicate Levels(was: Block, b: Block, row: seq<int>)
    requires |row| == 64
  {
    forall k :: 0 <= k < 64 ==> was[k] == LevelAt(b[k], k, row[k])
  }

  /** The coder's parameters are those of the script entry. */
  predicate Matches(info: ScanInfo, s: Scan) {
    && ValidScan(s) && ParametersOk(info)
    && |s.comps| == |info.comps|
    && s.ss == info.ss && s.se == info.se && s.al == info.al
    && s.kind == (if info.ss == 0 then (if info.ah == 0 then DcFirst else DcRefine)
                  else if info.ah == 0 then AcFirst else AcRefine)
  }

  function AdvanceRow(row: seq<int>, info: ScanInfo): (r: seq<int>)
    requires |row| == 64
    ensures |r| == 64
  {
    seq(64, k requires 0 <= k < 64 => if info.ss <= k <= info.se then info.al else row[k])
  }

  lemma DcLevelRange(x: Coef, al: nat)
    requires al <= 15
    ensures -0x8000 <= DcLevel(x, al) < 0x8000
  {
    hide Pow2;
    var p := Pow2(al);
    QuotientProduct(x, p);
    Pow2Values();
    Pow2Sum(al, 15 - al);
    ShiftedRange(x, x / p, p, Pow2(15 - al));
  }

  lemma ShiftedRange(x: Coef, y: int, p: int, q: int)
    requires p > 0 && p * q == 0x8000 && x - p < y * p <= x
    ensures -0x8000 <= y * p < 0x8000
  {
    assert (-q) * p == -(p * q);
    if y < -q {
      LessBy(y, -q, p);
    }
  }

  lemma LessBy(x: int, y: int, p: int)
    requires p > 0 && x < y
    ensures x * p <= y * p - p
  {
    assert (x + 1) * p <= y * p;
  }

  /** Before a legal scan, a block holds what the coder expects. */
  lemma BlockExpected(info: ScanInfo, s: Scan, row: seq<int>, was: Block, b: Block)
    requires Matches(info, s) && |row| == 64 && ComponentOk(row, info) && Levels(was, b, row)
    ensures Expected(s, was, b)
  {
    hide AcLevel, DcLevel;
    forall k | s.ss <= k <= s.se
      ensures CoefficientOk(row[k], info) && was[k] == LevelAt(b[k], k, row[k])
    {
    }
  }

  /** After a legal scan, it holds what the script says has been sent. */
  lemma BlockAdvanced(info: ScanInfo, s: Scan, row: seq<int>, was: Block, b: Block)
    requires Matches(info, s) && |row| == 64 && ComponentOk(row, info) && Levels(was, b, row)
    ensures Levels(Delivered(s, was, b), b, AdvanceRow(row, info))
  {
    hide AcLevel, DcLevel, SetBit, BitOf;
    if info.ss == 0 {
      assert CoefficientOk(row[0], info);
      DcLevelRange(b[0], s.al);
      if info.ah != 0 {
        DcRefined(b[0], s.al);
        assert was[0] == DcLevel(b[0], s.al + 1);
      }
    }
  }

  // ----- one scan -----

  /** Every live block holds what has been sent of it. */
  ghost predicate HoldsLevels(orig: Image, img: Image, live: set<Position>, bits: Progress) {
    && SameShape(orig, img) && ValidProgress(|orig|, bits)
    && forall p :: p in live ==> Inside(orig, p) && Levels(img[p.0][p.1], orig[p.0][p.1], bits[p.0])
  }

  /** The scan's MCUs are made of blocks of its components.  Every live block of those components is
      visited, no block twice; blocks that are not live are padding, which only DC scans visit. */
  ghost predicate Tours(orig: Image, live: set<Position>, info: ScanInfo, s: Scan, v: Visits) {
    && VisitsInside(orig, v) && Distinct(v)
    && (forall m :: 0 <= m < |v| ==> |v[m]| == |s.membership|)
    && (forall m, i :: 0 <= m < |v| && 0 <= i < |v[m]| ==> v[m][i].0 in info.comps)
    && (forall p :: p in live && p.0 in info.comps ==> Visited(v, p))
    && (info.ss != 0 ==> forall m, i :: 0 <= m < |v| && 0 <= i < |v[m]| ==> v[m][i] in live)
  }

  lemma ScanExpected(n: nat, orig: Image, img: Image, live: set<Position>, bits: Progress, info: ScanInfo, s: Scan,
      v: Visits)
    requires |orig| == n && HoldsLevels(orig, img, live, bits)
    requires StepOk(n, bits, info) && Matches(info, s) && Tours(orig, live, info, s, v)
    ensures VisitsInside(img, v) && ValidChunk(s, Gather(img, v)) && ValidChunk(s, Gather(orig, v))
    ensures ExpectedAll(s, Gather(img, v), Gather(orig, v))
  {
    hide Levels, Expected, ComponentOk;
    forall m, i | 0 <= m < |v| && 0 <= i < |v[m]|
      ensures Inside(img, v[m][i])
      ensures Expected(s, img[v[m][i].0][v[m][i].1], orig[v[m][i].0][v[m][i].1])
    {
      var p := v[m][i];
      assert Inside(orig, p);
      if info.ss != 0 {
        var j :| 0 <= j < |info.comps| && info.comps[j] == p.0;
        BlockExpected(info, s, bits[p.0], img[p.0][p.1], orig[p.0][p.1]);
      } else {
        DcExpectsNothing(s, img[p.0][p.1], orig[p.0][p.1]);
      }
    }
  }

  lemma DcExpectsNothing(s: Scan, was: Block, b: Block)
    requires s.kind == DcFirst || s.kind == DcRefine
    ensures Expected(s, was, b)
  {
  }

  /** Blocks that are not visited stay as they are. */
  lemma Restored(orig: Image, img: Image, s: Scan, v: Visits, after: Image)
    requires SameShape(orig, img) && VisitsInside(img, v) && VisitsInside(orig, v)
    requires Stores(img, v, DeliveredAll(s, Gather(img, v), Gather(orig, v)), after)
    ensures SameShape(img, after)
    ensures forall p: Position :: Inside(img, p) && !Visited(v, p) ==> after[p.0][p.1] == img[p.0][p.1]
  {
    hide Gather, DeliveredAll, Visited;
    forall p: Position | Inside(img, p) && !Visited(v, p)
      ensures after[p.0][p.1] == img[p.0][p.1]
    {
      assert p == (p.0, p.1);
    }
  }

  /** What is stored at a visit. */
  lemma StoredAt(orig: Image, img: Image, s: Scan, v: Visits, after: Image, m: nat, i: nat)
    requires SameShape(orig, img) && VisitsInside(img, v) && VisitsInside(orig, v) && m < |v| && i < |v[m]|
    requires Stores(img, v, DeliveredAll(s, Gather(img, v), Gather(orig, v)), after)
    ensures var p := v[m][i];
      Inside(after, p) && after[p.0][p.1] == Delivered(s, img[p.0][p.1], orig[p.0][p.1])
  {
    hide Delivered;
    assert after[v[m][i].0][v[m][i].1] == DeliveredAll(s, Gather(img, v), Gather(orig, v))[m][i];
  }

  /** A decoded scan, stored, makes every live block hold what the script has sent so far. */
  lemma ScanAdvances(n: nat, orig: Image, img: Image, live: set<Position>, bits: Progress, info: ScanInfo, s: Scan,
      v: Visits, after: Image)
    requires |orig| == n && HoldsLevels(orig, img, live, bits)
    requires StepOk(n, bits, info) && Matches(info, s) && Tours(orig, live, info, s, v)
    requires VisitsInside(img, v) && Stores(img, v, DeliveredAll(s, Gather(img, v), Gather(orig, v)), after)
    ensures HoldsLevels(orig, after, live, Advance(bits, info))
  {
    hide Levels, Expected, ComponentOk, Delivered, Gather, DeliveredAll, Stores;
    var next := Advance(bits, info);
    Restored(orig, img, s, v, after);
    forall p | p in live
      ensures Inside(orig, p) && Levels(after[p.0][p.1], orig[p.0][p.1], next[p.0])
    {
      if p.0 in info.comps {
        var m, i :| 0 <= m < |v| && 0 <= i < |v[m]| && v[m][i] == p;
        var j :| 0 <= j < |info.comps| && info.comps[j] == p.0;
        StoredAt(orig, img, s, v, after, m, i);
        assert next[p.0] == AdvanceRow(bits[p.0], info);
        BlockAdvanced(info, s, bits[p.0], img[p.0][p.1], orig[p.0][p.1]);
      } else {
        assert !Visited(v, p);
        assert next[p.0] == bits[p.0];
        assert after[p.0][p.1] == img[p.0][p.1];
      }
    }
  }

  // ----- whole runs -----

  /** One scan as transmitted: the script entry, the coder's parameters, the order of blocks, and the
      restart intervals with their data bytes. */
  datatype Pass = Pass(info: ScanInfo, scan: Scan, interval: nat, visits: Visits,
                       chunks: seq<Chunk>, plains: seq<seq<byte>>, ending: seq<byte>)

  /** What the compressor does in a pass: code the original blocks, from the statistics left by the
      pass before. */
  ghost predicate Sent(orig: Image, live: set<Position>, stats: Stats, p: Pass) {
    && Matches(p.info, p.scan) && Tours(orig, live, p.info, p.scan, p.visits)
    && ValidChunks(p.scan, p.chunks) && Chunked(p.interval, p.chunks)
    && AllFit(p.scan, p.chunks) && CleanEnding(p.ending)
    && Flatten(p.chunks) == Gather(orig, p.visits)
    && CodesAll(p.scan, Reset(p.scan, stats), p.chunks, p.plains)
  }

  /** The statistics a pass leaves behind. */
  ghost function StatsLeft(orig: Image, live: set<Position>, stats: Stats, p: Pass): Stats
    requires Sent(orig, live, stats, p)
  {
    FinalStats(p.scan, Reset(p.scan, stats), p.chunks)
  }

  /** Compressing passes one after the other; sent[i] are the statistics before pass i. */
  ghost predicate AllSent(orig: Image, live: set<Position>, sent: seq<Stats>, passes: seq<Pass>)
    requires |sent| == |passes| + 1
  {
    forall i :: 0 <= i < |passes| ==>
      Sent(orig, live, sent[i], passes[i]) && sent[i + 1] == StatsLeft(orig, live, sent[i], passes[i])
  }

  /** What decoding a pass into the blocks of img comes to. */
  ghost function Decoded(img: Image, stats: Stats, p: Pass): (seq<Mcu>, Reader<State>)
    requires ValidScan(p.scan) && VisitsInside(img, p.visits) && p.plains != []
  {
    var d := Decoding(p.scan);
    ReadAll(d, p.interval, StartReader(d, p.interval, Initially(stats), Wire(0, p.plains) + p.ending),
      Gather(img, p.visits))
  }

  /** What the decompressor does in a pass: read every MCU into the blocks as they are, and store the
      result.  The code must be good. */
  ghost predicate Received(img: Image, stats: Stats, p: Pass, after: Image, left: Stats)
  {
    && ValidScan(p.scan) && VisitsInside(img, p.visits) && p.plains != []
    && ValidChunk(p.scan, Gather(img, p.visits))
    && var (mcus, r) := Decoded(img, stats, p);
       r.ok && r.st.good && left == r.st.d.stats && Stores(img, p.visits, mcus, after)
  }

  /** The same without the demand that the code be good. */
  ghost predicate Attempted(img: Image, stats: Stats, p: Pass, after: Image, left: Stats)
  {
    && ValidScan(p.scan) && VisitsInside(img, p.visits) && p.plains != []
    && ValidChunk(p.scan, Gather(img, p.visits))
    && var (mcus, r) := Decoded(img, stats, p);
       left == r.st.d.stats && Stores(img, p.visits, mcus, after)
  }

  /** Decompressing passes one after the other. */
  ghost predicate AllAttempted(images: seq<Image>, left: seq<Stats>, passes: seq<Pass>)
    requires |images| == |left| == |passes| + 1
  {
    forall i :: 0 <= i < |passes| ==> Attempted(images[i], left[i], passes[i], images[i + 1], left[i + 1])
  }

  /** One pass of the run. */
  lemma PassRoundTrip(n: nat, orig: Image, img: Image, live: set<Position>, bits: Progress, stats: Stats, p: Pass,
      after: Image, left: Stats)
    requires |orig| == n && HoldsLevels(orig, img, live, bits) && StepOk(n, bits, p.info)
    requires Sent(orig, live, stats, p) && Attempted(img, stats, p, after, left)
    ensures Received(img, stats, p, after, left)
    ensures left == StatsLeft(orig, live, stats, p)
    ensures HoldsLevels(orig, after, live, Advance(bits, p.info))
  {
    hide Levels, Expected, ComponentOk, Delivered, ReadAll, StartReader, Wire, CodesAll, AllFit, StepOk, Stores,
      DeliveredAll, Advance, HoldsLevels, Tours, Reset;
    assert SameShape(orig, img) by { ShapeOf(orig, img, live, bits); }
    ScanExpected(n, orig, img, live, bits, p.info, p.scan, p.visits);
    McusRoundTrip(p.scan, p.interval, stats, p.chunks, p.plains, p.ending, Gather(img, p.visits));
    ScanAdvances(n, orig, img, live, bits, p.info, p.scan, p.visits, after);
  }

  lemma ShapeOf(orig: Image, img: Image, live: set<Position>, bits: Progress)
    requires HoldsLevels(orig, img, live, bits)
    ensures SameShape(orig, img)
  {
  }

  function ScriptOf(passes: seq<Pass>): (script: seq<ScanInfo>)
    ensures |script| == |passes|
  {
    seq(|passes|, i requires 0 <= i < |passes| => passes[i].info)
  }

  /** After i passes of a legal run every pass so far has been good code, the decompressor's statistics
      are the compressor's, and every live block holds what has been sent of it. */
  lemma {:induction false} RunSoFar(n: nat, orig: Image, live: set<Position>, passes: seq<Pass>,
      sent: seq<Stats>, images: seq<Image>, left: seq<Stats>, i: nat)
    requires |orig| == n && StepsOk(n, ScriptOf(passes)) && i <= |passes|
    requires |sent| == |images| == |left| == |passes| + 1 && left[0] == sent[0]
    requires AllSent(orig, live, sent, passes) && AllAttempted(images, left, passes)
    requires HoldsLevels(orig, images[0], live, NothingSent(n))
    ensures forall j :: 0 <= j < i ==> Received(images[j], left[j], passes[j], images[j + 1], left[j + 1])
    ensures left[i] == sent[i]
    ensures HoldsLevels(orig, images[i], live, AdvanceAll(NothingSent(n), ScriptOf(passes)[..i]))
    decreases i
  {
    hide HoldsLevels, Sent, Received, Attempted, StepOk, Advance, StepsOk, StatsLeft;
    var script := ScriptOf(passes);
    if i > 0 {
      RunSoFar(n, orig, live, passes, sent, images, left, i - 1);
      StepsPrefix(n, script, i);
      StepsExtend(n, script, i - 1);
      var bits := AdvanceAll(NothingSent(n), script[..i - 1]);
      PassRoundTrip(n, orig, images[i - 1], live, bits, sent[i - 1], passes[i - 1], images[i], left[i]);
    }
  }

  /** Nothing is known of a block of zeros. */
  lemma ZeroHoldsNothing(orig: Image, img: Image, live: set<Position>)
    requires SameShape(orig, img) && forall p :: p in live ==> Inside(orig, p) && img[p.0][p.1] == seq(64, _ => 0)
    ensures HoldsLevels(orig, img, live, NothingSent(|orig|))
  {
  }

  /** Every coefficient of every live block is as the last scan that sent it says: exact if that was down
      to bit 0, zero if none did, which happens to no DC coefficient. */
  ghost predicate Reconstructed(orig: Image, img: Image, live: set<Position>, script: seq<ScanInfo>) {
    && SameShape(orig, img)
    && forall p, k :: p in live && 0 <= k < 64 ==>
         Inside(orig, p) && CoefficientDone(orig[p.0][p.1][k], img[p.0][p.1][k], k, LastSent(script, p.0, k))
  }

  predicate CoefficientDone(x: Coef, y: Coef, k: int, last: int) {
    y == LevelAt(x, k, last) && (last == 0 ==> y == x) && (last < 0 ==> y == 0 && k != 0)
  }

  /** Progressive reconstruction: when the passes follow a legal script and the decompressor starts from
      zeros, every pass is good code, the statistics agree, and the image is reconstructed. */
  lemma ProgressiveReconstruction(n: nat, orig: Image, live: set<Position>, passes: seq<Pass>,
      sent: seq<Stats>, images: seq<Image>, left: seq<Stats>)
    requires |orig| == n && LegalProgressive(n, ScriptOf(passes))
    requires |sent| == |images| == |left| == |passes| + 1 && left[0] == sent[0]
    requires AllSent(orig, live, sent, passes) && AllAttempted(images, left, passes)
    requires SameShape(orig, images[0])
    requires forall p :: p in live ==> Inside(orig, p) && images[0][p.0][p.1] == seq(64, _ => 0)
    ensures forall j :: 0 <= j < |passes| ==> Received(images[j], left[j], passes[j], images[j + 1], left[j + 1])
    ensures left == sent
    ensures Reconstructed(orig, images[|passes|], live, ScriptOf(passes))
  {
    hide HoldsLevels, Sent, Received, Attempted, AllSent, AllAttempted, StepsOk, LastSent, ScriptOf, CoefficientDone;
    var script := ScriptOf(passes);
    ZeroHoldsNothing(orig, images[0], live);
    forall i | 0 <= i <= |passes|
      ensures left[i] == sent[i]
    {
      RunSoFar(n, orig, live, passes, sent, images, left, i);
    }
    RunSoFar(n, orig, live, passes, sent, images, left, |passes|);
    assert script[..|passes|] == script;
    ShapeOf(orig, images[|passes|], live, AdvanceAll(NothingSent(n), script));
    forall p, k | p in live && 0 <= k < 64
      ensures Inside(orig, p) && Inside(images[|passes|], p)
      ensures CoefficientDone(orig[p.0][p.1][k], images[|passes|][p.0][p.1][k], k, LastSent(script, p.0, k))
    {
      CoefficientLevel(n, orig, images[|passes|], live, script, p, k);
    }
  }

  lemma CoefficientLevel(n: nat, orig: Image, img: Image, live: set<Position>, script: seq<ScanInfo>, p: Position,
      k: nat)
    requires |orig| == n && p in live && k < 64 && LegalProgressive(n, script)
    requires HoldsLevels(orig, img, live, AdvanceAll(NothingSent(n), script))
    ensures Inside(orig, p) && Inside(img, p)
    ensures CoefficientDone(orig[p.0][p.1][k], img[p.0][p.1][k], k, LastSent(script, p.0, k))
  {
    hide StepsOk, LastSent, AcLevel, DcLevel, AdvanceAll;
    assert Inside(orig, p) && Levels(img[p.0][p.1], orig[p.0][p.1], AdvanceAll(NothingSent(n), script)[p.0]);
    ProgressIsLastSent(n, script, p.0, k);
    LevelZero(orig[p.0][p.1][k]);
  }

  // ----- when differences fit -----

  /** The DC coefficient of every block is at most 2^14 in magnitude. */
  predicate SmallDc(chunk: Chunk) {
    forall m, i :: 0 <= m < |chunk| && 0 <= i < |chunk[m]| ==> -0x4000 <= chunk[m][i][0] <= 0x4000
  }

  predicate SmallStates(dcs: seq<DcState>) { forall c :: 0 <= c < |dcs| ==> -0x4000 <= dcs[c].pred <= 0x4000 }

  lemma SmallShift(x: Coef, al: nat)
    requires -0x4000 <= x <= 0x4000
    ensures -0x4000 <= Shift(x, al) <= 0x4000
  {
    hide Pow2;
    var p := Pow2(al);
    var q := x / p;
    assert x == p * q + x % p && 0 <= x % p < p;
    if q >= 1 {
      Grow(p, q);
    } else if q < -1 {
      Grow(p, -q - 1);
      assert p * (-q - 1) == -(p * q) - p;
    }
  }

  lemma {:induction false} SmallDcFitsFrom(s: Scan, dcs: seq<DcState>, mcu: Mcu, i: nat)
    requires ValidScan(s) && CodesDc(s) && ValidMcu(s, mcu) && |dcs| == |s.comps| && i <= |mcu|
    requires SmallStates(dcs) && forall j :: 0 <= j < |mcu| ==> -0x4000 <= mcu[j][0] <= 0x4000
    ensures DcFitsFrom(s, dcs, mcu, i) && SmallStates(DcStates(s, dcs, mcu, i))
    decreases |mcu| - i
  {
    hide Shift, NextContext;
    if i < |mcu| {
      var c := s.membership[i];
      var m := Shift(mcu[i][0], s.al);
      SmallShift(mcu[i][0], s.al);
      SmallDcFitsFrom(s, dcs[c := DcNext(TableOf(s, c), dcs[c], m)], mcu, i + 1);
    }
  }

  /** Blocks with DC coefficients of at most 2^14 always fit, as those of 8-bit images do. */
  lemma {:induction false} SmallDcFits(s: Scan, dcs: seq<DcState>, chunk: Chunk)
    requires ValidScan(s) && ValidChunk(s, chunk) && |dcs| == |s.comps| && SmallDc(chunk) && SmallStates(dcs)
    ensures ChunkFits(s, dcs, chunk)
    decreases |chunk|
  {
    hide DcFitsFrom, DcStates;
    if chunk != [] {
      assert forall j :: 0 <= j < |chunk[0]| ==> -0x4000 <= chunk[0][j][0] <= 0x4000;
      if CodesDc(s) {
        SmallDcFitsFrom(s, dcs, chunk[0], 0);
      }
      SmallDcFits(s, McuStates(s, dcs, chunk[0]), chunk[1..]);
    }
  }
}
