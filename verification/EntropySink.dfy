/** The entropy coder as the coefficient controllers see it: it takes an MCU or refuses it. */
module EntropySink {
  import opened Coefficients
  import opened RestartIntervals
  import opened HuffmanScan
  import opened HuffmanBlocks
  import opened HuffmanBlockEncoder
  import opened HuffmanScanEncoder
  import opened CodedMcus

  class McuSink {
    const coder: SequentialEncoder?   // the sequential Huffman encoder; without it the answers are given
    var sent: seq<Mcu>
    var answers: seq<bool>
    var failed: bool                  // the encoder has met an MCU that it cannot code at all

    /** The encoder has coded exactly what was sent. */
    ghost predicate Valid()
      reads this, coder
    {
      coder != null ==> coder.Valid() && coder.p == Coded(coder.interval, sent)
    }

    predicate Takes(mcu: Mcu) { coder == null || ValidMcu(coder.scan, mcu) }

    /** Any coder, which refuses MCUs as it likes. */
    constructor (answers: seq<bool>)
      ensures Valid() && coder == null && sent == [] && this.answers == answers && !failed
    {
      coder, sent, this.answers, failed := null, [], answers, false;
    }

    /** The sequential Huffman encoder, at the start of a scan. */
    constructor Over(coder: SequentialEncoder)
      requires coder.Valid() && coder.p == Progress([], [])
      ensures Valid() && this.coder == coder && sent == [] && answers == [] && !failed
    {
      this.coder, sent, answers, failed := coder, [], [], false;
    }

    /** The application makes room in the output buffer. */
    method SupplyRoom(n: nat)
      requires Valid() && coder != null && 0 < n
      modifies coder
      ensures Valid()
    {
      hide Coded;
      coder.Refill(n);
    }

    method EncodeMcu(mcu: Mcu) returns (ok: bool)
      requires Valid() && Takes(mcu)
      modifies this, coder
      ensures Valid() && sent == if ok then old(sent) + [mcu] else old(sent)
      ensures coder == null ==> (ok <==> old(answers) == [] || old(answers)[0]) && failed == old(failed)
      ensures answers == if coder != null || old(answers) == [] then old(answers) else old(answers)[1..]
      ensures coder != null ==>
        && (ok ==> failed == old(failed))
        && (failed && !old(failed) ==> Unsound(coder.scan, coder.tables, Coded(coder.interval, sent + [mcu])))
    {
      hide Coded, Unsound, SequentialEncoder.Valid;
      if coder == null {
        ok := answers == [] || answers[0];
        if answers != [] {
          answers := answers[1..];
        }
        if ok {
          sent := sent + [mcu];
        }
      } else {
        ok := Forward(mcu);
      }
    }

    /** Hand the MCU to the encoder. */
    method Forward(mcu: Mcu) returns (ok: bool)
      requires Valid() && coder != null && Takes(mcu)
      modifies `sent, `failed, coder
      ensures Valid() && sent == if ok then old(sent) + [mcu] else old(sent)
      ensures ok ==> failed == old(failed)
      ensures failed && !old(failed) ==> Unsound(coder.scan, coder.tables, Coded(coder.interval, sent + [mcu]))
    {
      hide coder.Valid, Sound, Coded, BytesNeeded, Flatten;
      NextCoded(coder.interval, sent + [mcu], |sent|);
      assert (sent + [mcu])[..|sent|] == sent && (sent + [mcu])[..|sent| + 1] == sent + [mcu];
      var r := coder.EncodeMcu(mcu);
      ok := r == Written;
      failed := failed || r == NoCode || r == BadCoefficient;
      if ok {
        sent := sent + [mcu];
      }
    }
  }

  /** Some MCU does not fit or has a symbol without a code. */
  ghost predicate Unsound(s: Scan, e: Tables, p: Progress) { ValidProgress(s, p) && !Sound(s, e, p) }
}
