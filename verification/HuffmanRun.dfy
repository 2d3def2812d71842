/** Progressive coding of a whole image with Huffman codes: after the scans of a legal script the decompressor
    has reconstructed exactly what was sent. */
module HuffmanRun {
  import opened Coefficients
  import opened ByteStream
  import opened RestartIntervals
  import opened SegmentedReading
  import opened HuffmanBlocks
  import opened ProgressiveCoding
  import opened ScanScript
  import ScanCoding
  import Run = ProgressiveRun

  type Image = Run.Image
  type Position = Run.Position

  /** One scan as transmitted: the script entry, the coder's parameters, the order of blocks, the restart
      intervals, and the tables sent with it. */
  datatype Pass = Pass(info: ScanInfo, scan: Scan, interval: nat, visits: Run.Visits, chunks: seq<Chunk>,
    tables: Tables,
                       ending: seq<byte>)

  /** What the compressor does in a pass: code the original blocks. */
  ghost predicate Sent(orig: Image, live: set<Position>, p: Pass) {
    && Run.Matches(p.info, p.scan) && Run.Tours(orig, live, p.info, p.scan, p.visits)
    && ValidScan(p.scan) && ValidChunks(p.scan, p.chunks) && Chunked(p.interval, p.chunks)
    && AllWritable(p.scan, p.tables, p.chunks) && CleanEnding(p.ending)
    && Flatten(p.chunks) == Run.Gather(orig, p.visits)
  }

  ghost predicate AllSent(orig: Image, live: set<Position>, passes: seq<Pass>) {
    forall i :: 0 <= i < |passes| ==> Sent(orig, live, passes[i])
  }

  /** What decoding a pass into the blocks of img comes to. */
  ghost function Decoded(img: Image, p: Pass): (seq<Mcu>, Reader<State>)
    requires ValidScan(p.scan) && ValidChunks(p.scan, p.chunks) && Run.VisitsInside(img, p.visits) && p.chunks != []
  {
    var d := Decoding(p.scan, p.tables);
    ReadAll(d, p.interval, StartReader(d, p.interval, Initially(p.scan),
      Wire(0, Plains(p.scan, p.tables, p.chunks)) + p.ending),
            Run.Gather(img, p.visits))
  }

  /** The decompressor reads every MCU into the blocks as they are, and stores the result. */
  ghost predicate Attempted(img: Image, p: Pass, after: Image) {
    && ValidScan(p.scan) && ValidChunks(p.scan, p.chunks) && Run.VisitsInside(img, p.visits) && p.chunks != []
    && Run.Stores(img, p.visits, Decoded(img, p).0, after)
  }

  /** It met every restart marker, and did not run out of bits. */
  ghost predicate WentWell(img: Image, p: Pass)
    requires ValidScan(p.scan) && ValidChunks(p.scan, p.chunks) && Run.VisitsInside(img, p.visits) && p.chunks != []
  {
    Decoded(img, p).1.ok && !Decoded(img, p).1.st.src.dry
  }

  ghost predicate AllAttempted(images: seq<Image>, passes: seq<Pass>)
    requires |images| == |passes| + 1
  {
    forall i :: 0 <= i < |passes| ==> Attempted(images[i], passes[i], images[i + 1])
  }

  /** One pass of the run. */
  lemma PassRoundTrip(n: nat, orig: Image, img: Image, live: set<Position>, bits: Progress, p: Pass, after: Image)
    requires |orig| == n && Run.HoldsLevels(orig, img, live, bits) && StepOk(n, bits, p.info)
    requires Sent(orig, live, p) && Attempted(img, p, after)
    ensures WentWell(img, p) && Run.HoldsLevels(orig, after, live, Advance(bits, p.info))
  {
    hide Run.Levels, ComponentOk, ReadAll, StartReader, Wire, AllWritable, StepOk, Run.Stores, Run.HoldsLevels,
      Run.Tours,
      Advance, ScanCoding.DeliveredAll, ScanCoding.ExpectedAll, Plains;
    Run.ShapeOf(orig, img, live, bits);
    Run.ScanExpected(n, orig, img, live, bits, p.info, p.scan, p.visits);
    ProgressiveRoundTrip(p.scan, p.tables, p.interval, p.chunks, p.ending, Run.Gather(img, p.visits));
    Run.ScanAdvances(n, orig, img, live, bits, p.info, p.scan, p.visits, after);
  }

  function ScriptOf(passes: seq<Pass>): (script: seq<ScanInfo>)
    ensures |script| == |passes|
  {
    seq(|passes|, i requires 0 <= i < |passes| => passes[i].info)
  }

  /** After i passes of a legal run, every live block holds what has been sent of it. */
  lemma {:induction false} RunSoFar(n: nat, orig: Image, live: set<Position>, passes: seq<Pass>, images: seq<Image>,
      i: nat)
    requires |orig| == n && StepsOk(n, ScriptOf(passes)) && i <= |passes| && |images| == |passes| + 1
    requires AllSent(orig, live, passes) && AllAttempted(images, passes)
    requires Run.HoldsLevels(orig, images[0], live, NothingSent(n))
    ensures forall j :: 0 <= j < i ==> Attempted(images[j], passes[j], images[j + 1]) && WentWell(images[j], passes[j])
    ensures Run.HoldsLevels(orig, images[i], live, AdvanceAll(NothingSent(n), ScriptOf(passes)[..i]))
    decreases i
  {
    hide Run.HoldsLevels, Sent, StepOk, Advance, StepsOk, Decoded, Run.Stores;
    var script := ScriptOf(passes);
    if i > 0 {
      RunSoFar(n, orig, live, passes, images, i - 1);
      StepsPrefix(n, script, i);
      StepsExtend(n, script, i - 1);
      var bits := AdvanceAll(NothingSent(n), script[..i - 1]);
      PassRoundTrip(n, orig, images[i - 1], live, bits, passes[i - 1], images[i]);
    }
  }

  /** Progressive reconstruction: when the passes follow a legal script and the decompressor starts from zeros,
      every pass goes well and the image is reconstructed. */
  lemma HuffmanReconstruction(n: nat, orig: Image, live: set<Position>, passes: seq<Pass>, images: seq<Image>)
    requires |orig| == n && LegalProgressive(n, ScriptOf(passes)) && |images| == |passes| + 1
    requires AllSent(orig, live, passes) && AllAttempted(images, passes)
    requires Run.SameShape(orig, images[0])
    requires forall p :: p in live ==> Run.Inside(orig, p) && images[0][p.0][p.1] == seq(64, _ => 0)
    ensures forall j :: 0 <= j < |passes| ==>
      Attempted(images[j], passes[j], images[j + 1]) && WentWell(images[j], passes[j])
    ensures Run.Reconstructed(orig, images[|passes|], live, ScriptOf(passes))
  {
    hide Run.HoldsLevels, Sent, Attempted, AllSent, AllAttempted, StepsOk, LastSent, ScriptOf, Run.CoefficientDone,
      WentWell;
    var script := ScriptOf(passes);
    Run.ZeroHoldsNothing(orig, images[0], live);
    RunSoFar(n, orig, live, passes, images, |passes|);
    assert script[..|passes|] == script;
    Run.ShapeOf(orig, images[|passes|], live, AdvanceAll(NothingSent(n), script));
    forall p, k | p in live && 0 <= k < 64
      ensures Run.Inside(orig, p) && Run.Inside(images[|passes|], p)
      ensures Run.CoefficientDone(orig[p.0][p.1][k], images[|passes|][p.0][p.1][k], k, LastSent(script, p.0, k))
    {
      Run.CoefficientLevel(n, orig, images[|passes|], live, script, p, k);
    }
  }
}
