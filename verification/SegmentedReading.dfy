/** Reading the restart intervals of a scan, whatever the process that reads the MCUs within one. */
module SegmentedReading {
  import opened ByteStream
  import opened Coefficients
  import opened RestartIntervals

  /** How a process opens a segment of data bytes, given its state at the end of the one before, and reads one
      MCU into the blocks given. */
  datatype Process<!S> = Process(open: (S, seq<byte>) -> S, read: (S, Mcu) -> (Mcu, S))

  /** A decoder between MCUs: the process's state, how the segment ends, MCUs left in the restart interval,
      markers met, and whether all markers were as expected. */
  datatype Reader<S> = Reader(st: S, marker: byte, rest: seq<byte>, toGo: nat, restarts: nat, ok: bool)

  function StartReader<S>(p: Process<S>, interval: nat, st: S, input: seq<byte>): Reader<S> {
    var g := ReadSegment(input);
    Reader(p.open(st, g.data), g.marker, g.rest, interval, 0, true)
  }

  /** Resynchronise at a restart marker; finding any other marker is an error. */
  function Restarted<S>(p: Process<S>, interval: nat, r: Reader<S>): Reader<S> {
    if r.marker == RestartMarker(r.restarts) then
      StartReader(p, interval, r.st, r.rest).(restarts := r.restarts + 1, ok := r.ok)
    else r.(ok := false)
  }

  /** Read one MCU of the segment into the blocks `was`. */
  function ReadOne<S>(p: Process<S>, r: Reader<S>, was: Mcu): (Mcu, Reader<S>) {
    var left := if r.toGo > 0 then r.toGo - 1 else 0;
    if !r.ok then (was, r.(toGo := left))
    else
      var (mcu, st) := p.read(r.st, was);
      (mcu, r.(st := st, toGo := left))
  }

  /** Read the next MCU, behind a restart if the interval is used up. */
  function NextMcu<S>(p: Process<S>, interval: nat, r: Reader<S>, was: Mcu): (Mcu, Reader<S>) {
    ReadOne(p, if interval > 0 && r.toGo == 0 then Restarted(p, interval, r) else r, was)
  }

  function ReadAll<S>(p: Process<S>, interval: nat, r: Reader<S>, was: seq<Mcu>): (seq<Mcu>, Reader<S>)
    decreases |was|
  {
    if was == [] then ([], r)
    else
      var (mcu, r1) := NextMcu(p, interval, r, was[0]);
      var (mcus, r2) := ReadAll(p, interval, r1, was[1..]);
      ([mcu] + mcus, r2)
  }

  /** The MCUs of one segment. */
  function ReadChunk<S>(p: Process<S>, st: S, was: seq<Mcu>): (r: (seq<Mcu>, S))
    ensures |r.0| == |was|
    decreases |was|
  {
    if was == [] then ([], st)
    else
      var (mcu, st1) := p.read(st, was[0]);
      var (mcus, st2) := ReadChunk(p, st1, was[1..]);
      ([mcu] + mcus, st2)
  }

  /** Within an interval, reading is reading MCU after MCU. */
  lemma {:induction false} WithinInterval<S>(p: Process<S>, interval: nat, r: Reader<S>, was: seq<Mcu>, later: seq<Mcu>)
    requires r.ok && (interval > 0 ==> |was| <= r.toGo) && (interval == 0 ==> r.toGo == 0)
    ensures var (mcus, st) := ReadChunk(p, r.st, was);
      var (more, r1) := ReadAll(p, interval, r.(st := st, toGo := if interval > 0 then r.toGo - |was| else 0), later);
      ReadAll(p, interval, r, was + later) == (mcus + more, r1)
    decreases |was|
  {
    if was == [] {
      assert was + later == later;
      assert [] + ReadAll(p, interval, r, later).0 == ReadAll(p, interval, r, later).0;
      assert r.(st := r.st, toGo := if interval > 0 then r.toGo - 0 else 0) == r;
    } else {
      assert (was + later)[1..] == was[1..] + later;
      var (mcu, st1) := p.read(r.st, was[0]);
      var r1 := NextMcu(p, interval, r, was[0]).1;
      WithinInterval(p, interval, r1, was[1..], later);
      var (mcus, st) := ReadChunk(p, st1, was[1..]);
      var toGo := if interval > 0 then r.toGo - |was| else 0;
      assert r1.(st := st, toGo := toGo) == r.(st := st, toGo := toGo);
      var more := ReadAll(p, interval, r.(st := st, toGo := toGo), later).0;
      assert [mcu] + (mcus + more) == [mcu] + mcus + more;
    }
  }

  /** The data bytes of the intervals, read into `was` one interval after the other, give `now`. */
  ghost predicate AllRead<S>(p: Process<S>, st: S, plains: seq<seq<byte>>, was: seq<Chunk>, now: seq<Chunk>)
    decreases |plains|
  {
    && |plains| == |was| == |now|
    && (plains != [] ==>
          var (mcus, next) := ReadChunk(p, p.open(st, plains[0]), was[0]);
          mcus == now[0] && AllRead(p, next, plains[1..], was[1..], now[1..]))
  }

  /** The process's state at the end. */
  function LastState<S>(p: Process<S>, st: S, plains: seq<seq<byte>>, was: seq<Chunk>): S
    requires |plains| == |was|
    decreases |plains|
  {
    if plains == [] then st
    else LastState(p, ReadChunk(p, p.open(st, plains[0]), was[0]).1, plains[1..], was[1..])
  }

  /** A reader with no MCUs left in its interval restarts before the next one. */
  lemma ReadAllRestarts<S>(p: Process<S>, interval: nat, r: Reader<S>, was: seq<Mcu>)
    requires was != [] && interval > 0 && r.toGo == 0 && r.marker == RestartMarker(r.restarts)
    ensures ReadAll(p, interval, r, was) == ReadAll(p, interval, Restarted(p, interval, r), was)
  {
    hide ReadSegment;
  }

  /** From r, reading into `was` gives the MCUs, with all markers as expected, and ends in state st. */
  ghost predicate Recovers<S>(p: Process<S>, interval: nat, r: Reader<S>, was: seq<Mcu>, mcus: seq<Mcu>, st: S) {
    var (read, r1) := ReadAll(p, interval, r, was);
    read == mcus && r1.ok && r1.st == st
  }

  /** What the first segment looks like to a reader. */
  lemma FirstSegment<S>(p: Process<S>, interval: nat, st: S, n: nat, plains: seq<seq<byte>>, ending: seq<byte>)
    requires plains != [] && CleanEnding(ending)
    ensures var r := StartReader(p, interval, st, Wire(n, plains) + ending);
      && r.st == p.open(st, plains[0]) && r.toGo == interval && r.ok
      && (|plains| > 1 ==> r.marker == RestartMarker(n) && r.rest == Wire(n + 1, plains[1..]) + ending)
  {
    hide ReadSegment, Wire;
    WireFirst(n, plains, ending);
  }

  lemma FirstChunk(interval: nat, was: seq<Chunk>, now: seq<Chunk>)
    requires Chunked(interval, was) && |now| == |was|
    ensures Flatten(was) == was[0] + Flatten(was[1..]) && Flatten(now) == now[0] + Flatten(now[1..])
    ensures interval > 0 ==> |was[0]| <= interval
    ensures |was| == 1 ==> Flatten(was[1..]) == [] && Flatten(now[1..]) == []
    ensures |was| > 1 ==>
      interval > 0 && |was[0]| == interval && Flatten(was[1..]) != [] && Chunked(interval, was[1..])
  {
    if |was| > 1 {
      assert forall j :: 0 <= j < |was| - 1 ==> was[1..][j] == was[j + 1];
      assert Flatten(was[1..]) == was[1] + Flatten(was[1..][1..]);
    }
  }

  /** All restart intervals from the n-th on. */
  lemma {:induction false} RestartRoundTrip<S>(p: Process<S>, interval: nat, st: S, n: nat, plains: seq<seq<byte>>,
      ending: seq<byte>,
      was: seq<Chunk>, now: seq<Chunk>, r: Reader<S>)
    requires Chunked(interval, was) && AllRead(p, st, plains, was, now) && CleanEnding(ending)
    requires r == StartReader(p, interval, st, Wire(n, plains) + ending).(restarts := n)
    ensures Recovers(p, interval, r, Flatten(was), Flatten(now), LastState(p, st, plains, was))
    decreases |was|
  {
    assert |plains| == |was| == |now| && 0 < |was|;
    FirstChunk(interval, was, now);
    FirstSegment(p, interval, st, n, plains, ending);
    hide ReadSegment, Wire, Flatten, Chunked, StartReader, Restarted, ReadAll;
    var next := ReadChunk(p, r.st, was[0]).1;
    var later := Flatten(was[1..]);
    WithinInterval(p, interval, r, was[0], later);
    var r1 := r.(st := next, toGo := if interval > 0 then r.toGo - |was[0]| else 0);
    if |was| == 1 {
      NothingLeft(p, interval, r1);
      assert now[0] + [] == now[0];
    } else {
      ReadAllRestarts(p, interval, r1, later);
      var r2 := RestartedAt(p, interval, n, Wire(n + 1, plains[1..]) + ending, r1);
      RestartRoundTrip(p, interval, next, n + 1, plains[1..], ending, was[1..], now[1..], r2);
    }
  }

  lemma RestartedAt<S>(p: Process<S>, interval: nat, n: nat, input: seq<byte>, r: Reader<S>) returns (r1: Reader<S>)
    requires r.ok && r.marker == RestartMarker(n) && r.restarts == n && r.rest == input
    ensures r1 == Restarted(p, interval, r) == StartReader(p, interval, r.st, input).(restarts := n + 1)
  {
    hide ReadSegment;
    r1 := Restarted(p, interval, r);
  }

  lemma NothingLeft<S>(p: Process<S>, interval: nat, r: Reader<S>)
    ensures ReadAll(p, interval, r, []) == ([], r)
  {
  }

  /** Scan round trip: if the bytes of every interval read back right, so does the whole scan from the wire,
      with its restart markers and whatever follows it. */
  lemma ScanRoundTrip<S>(p: Process<S>, interval: nat, st: S, plains: seq<seq<byte>>, ending: seq<byte>,
      was: seq<Chunk>, now: seq<Chunk>)
    requires Chunked(interval, was) && AllRead(p, st, plains, was, now) && CleanEnding(ending)
    ensures plains != [] && |plains| == |was|
    ensures Recovers(p, interval, StartReader(p, interval, st, Wire(0, plains) + ending), Flatten(was), Flatten(now),
                     LastState(p, st, plains, was))
  {
    hide Wire, Flatten, ReadAll, ReadSegment, LastState;
    RestartRoundTrip(p, interval, st, 0, plains, ending, was, now,
      StartReader(p, interval, st, Wire(0, plains) + ending));
  }
}
