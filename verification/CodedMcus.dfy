/** What an encoder has coded after any number of MCUs, and the restart intervals they fall into. */
module CodedMcus {
  import opened Coefficients
  import opened RestartIntervals
  import opened HuffmanScan
  import opened HuffmanScanEncoder

  /** What an encoder has coded after the MCUs. */
  function Coded(interval: nat, mcus: seq<Mcu>): Progress {
    if mcus == [] then Progress([], [])
    else With(Turned(interval, Coded(interval, mcus[..|mcus| - 1])), mcus[|mcus| - 1])
  }

  /** The restart intervals the MCUs fall into. */
  function Intervals(interval: nat, mcus: seq<Mcu>): seq<Chunk> {
    Coded(interval, mcus).chunks + [Coded(interval, mcus).current]
  }

  lemma {:induction false} CodedIs(interval: nat, mcus: seq<Mcu>)
    ensures Flatten(Intervals(interval, mcus)) == mcus && Chunked(interval, Intervals(interval, mcus))
    ensures mcus != [] ==> Coded(interval, mcus).current != []
  {
    hide Flatten, Chunked;
    if mcus == [] {
      NothingCoded(interval);
    } else {
      var n := |mcus| - 1;
      CodedIs(interval, mcus[..n]);
      var p := Coded(interval, mcus[..n]);
      var t := Turned(interval, p);
      CountersKept(interval, p, t, mcus[n]);
      FlattenAppend(p.chunks, p.current, t.chunks, t.current, mcus[n]);
      assert mcus == mcus[..n] + [mcus[n]];
    }
  }

  lemma NothingCoded(interval: nat)
    ensures Flatten([] + [[]]) == [] && Chunked(interval, [] + [[]])
  {
    FlattenLast([], []);
  }

  lemma {:induction false} CodedValid(s: Scan, interval: nat, mcus: seq<Mcu>)
    requires ValidScan(s) && forall i :: 0 <= i < |mcus| ==> ValidMcu(s, mcus[i])
    ensures ValidProgress(s, Coded(interval, mcus)) && ValidChunks(s, Intervals(interval, mcus))
  {
    hide ValidMcu;
    if mcus != [] {
      CodedValid(s, interval, mcus[..|mcus| - 1]);
    }
  }

  lemma NextCoded(interval: nat, mcus: seq<Mcu>, i: nat)
    requires i < |mcus|
    ensures Coded(interval, mcus[..i + 1]) == With(Turned(interval, Coded(interval, mcus[..i])), mcus[i])
  {
    assert mcus[..i + 1][..i] == mcus[..i];
  }

  lemma StartCoded(interval: nat, mcus: seq<Mcu>)
    ensures Coded(interval, mcus[..0]) == Progress([], [])
  {
  }

  lemma LastInterval(interval: nat, mcus: seq<Mcu>)
    requires mcus != []
    ensures var chunks := Intervals(interval, mcus); chunks != [] && chunks[|chunks| - 1] != []
  {
    CodedIs(interval, mcus);
  }
}
