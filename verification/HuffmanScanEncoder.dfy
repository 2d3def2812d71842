/** The sequential Huffman encoder: an MCU is either written whole or, when output room runs out, not at
    all; and the statistics pass that counts the symbols the encoder will need. */
module HuffmanScanEncoder {
  import opened Powers
  import opened Coefficients
  import opened ByteStream
  import opened BitStream
  import opened RestartIntervals
  import opened HuffmanBlocks
  import opened HuffmanScan
  import opened HuffmanBlockEncoder
  import opened BitWriter

  /** What has been coded: finished restart intervals, and the MCUs of the one under way. */
  datatype Progress = Progress(chunks: seq<Chunk>, current: Chunk)

  ghost predicate ValidProgress(s: Scan, p: Progress) {
    ValidScan(s) && ValidChunks(s, p.chunks) && ValidChunk(s, p.current)
  }

  /** The items of the interval under way. */
  function CurrentItems(s: Scan, p: Progress): seq<Item>
    requires ValidScan(s) && ValidChunk(s, p.current)
  {
    ChunkItems(s, Zero(s), p.current)
  }

  /** Everything coded so far fits and has codes. */
  ghost predicate Sound(s: Scan, e: Tables, p: Progress)
    requires ValidProgress(s, p)
  {
    && (forall j :: 0 <= j < |p.chunks| ==>
          ChunkFits(s, Zero(s), p.chunks[j]) && HasCodes(e, ChunkItems(s, Zero(s), p.chunks[j])))
    && ChunkFits(s, Zero(s), p.current) && HasCodes(e, CurrentItems(s, p))
  }

  /** The bytes put out for complete intervals, with their markers. */
  function Before(s: Scan, e: Tables, start: seq<byte>, chunks: seq<Chunk>): seq<byte>
    requires ValidScan(s) && ValidChunks(s, chunks)
  {
    start + Marked(0, Plains(s, e, chunks))
  }

  /** How many bytes are out after what has been coded. */
  ghost function BytesNeeded(s: Scan, e: Tables, start: seq<byte>, p: Progress): nat
    requires ValidProgress(s, p)
  {
    WorkingState.BytesOut(Before(s, e, start, p.chunks), Bits(e, CurrentItems(s, p)))
  }

  /** The next MCU starts a new interval if the current one is full. */
  function Turned(interval: nat, p: Progress): Progress {
    if 0 < interval && |p.current| == interval then Progress(p.chunks + [p.current], []) else p
  }

  function With(p: Progress, mcu: Mcu): Progress { p.(current := p.current + [mcu]) }

  lemma {:induction false} PlainsAppend(s: Scan, e: Tables, chunks: seq<Chunk>, c: Chunk)
    requires ValidScan(s) && ValidChunks(s, chunks) && ValidChunk(s, c)
    ensures ValidChunks(s, chunks + [c])
    ensures Plains(s, e, chunks + [c]) == Plains(s, e, chunks) + [ChunkBytes(s, e, c)]
    decreases |chunks|
  {
    hide ChunkBytes;
    if chunks == [] {
      assert chunks + [c] == [c] && [c][1..] == [];
    } else {
      assert (chunks + [c])[1..] == chunks[1..] + [c];
      PlainsAppend(s, e, chunks[1..], c);
    }
  }

  /** Finishing an interval. */
  lemma BeforeGrows(s: Scan, e: Tables, start: seq<byte>, p: Progress)
    requires ValidProgress(s, p)
    ensures ValidChunks(s, p.chunks + [p.current])
    ensures var out := Before(s, e, start, p.chunks) + Stuff(Pack(Flushed(Bits(e, CurrentItems(s, p)))));
      && out == start + Wire(0, Plains(s, e, p.chunks + [p.current]))
      && out + [0xFF, RestartMarker(|p.chunks|)] == Before(s, e, start, p.chunks + [p.current])
  {
    hide Stuff, Pack, Flushed, Bits, Marked, Wire, ChunkItems;
    PlainsAppend(s, e, p.chunks, p.current);
    WireGrows(start, Plains(s, e, p.chunks), ChunkBytes(s, e, p.current));
  }

  class SequentialEncoder {
    const scan: Scan
    const interval: nat
    const tables: Tables
    const accepts: bool
    const bufferSize: nat
    var out: seq<byte>            // the destination
    var room: nat                 // bytes that still fit
    var putBuffer: nat
    var putBits: nat
    var lastDc: seq<int>          // prediction of each component
    var restartsToGo: nat
    var nextRestartNum: nat

    ghost const start: seq<byte>  // the destination when the scan began
    ghost var p: Progress

    ghost predicate Counters()
      reads this
    {
      && Chunked(interval, p.chunks + [p.current])
      && nextRestartNum == |p.chunks| % 8
      && (0 < interval ==> restartsToGo + |p.current| == interval)
    }

    ghost predicate Valid()
      reads this
    {
      && ValidProgress(scan, p) && Sound(scan, tables, p) && Counters()
      && 0 < room && 0 < bufferSize && lastDc == ChunkPreds(scan, Zero(scan), p.current)
      && var bits := Bits(tables, CurrentItems(scan, p));
         putBits == |bits| % 8
         && WorkingState.Holds(Before(scan, tables, start, p.chunks), bits, out, putBuffer, putBits)
    }

    /** The MCUs coded so far. */
    ghost function Mcus(): seq<Mcu>
      reads this
    {
      Flatten(p.chunks + [p.current])
    }

    constructor (scan: Scan, interval: nat, tables: Tables, accepts: bool, bufferSize: nat, out: seq<byte>, room: nat)
      requires ValidScan(scan) && 0 < room && 0 < bufferSize
      ensures Valid() && this.scan == scan && this.interval == interval && this.tables == tables
      ensures this.accepts == accepts
      ensures this.out == start == out && this.room == room && p == Progress([], [])
    {
      this.scan, this.interval, this.tables := scan, interval, tables;
      this.accepts, this.bufferSize, this.out, this.room := accepts, bufferSize, out, room;
      putBuffer, putBits, lastDc, restartsToGo, nextRestartNum := 0, 0, Zero(scan), interval, 0;
      start, p := out, Progress([], []);
      new;
      hide ChunkItems, ChunkFits, ChunkPreds, WorkingState.Holds, Marked, Plains, HasCodes, Bits, Before;
      WorkingState.EmptySegment(out);
      NothingYet(scan, tables, out);
    }

    /** The destination's room is exactly this many bytes ahead of what is out, if a full buffer suspends. */
    ghost function Limit(): nat
      reads this
    {
      |out| + room
    }

    /** Code one MCU, preceded by a restart marker when the interval is used up.  When it cannot be written
        whole, nothing changes; that happens for lack of room only if there is no room for all of it. */
    method EncodeMcu(mcu: Mcu) returns (r: Outcome)
      requires Valid() && ValidMcu(scan, mcu)
      modifies this
      ensures Valid() && (r != Written ==> unchanged(this))
      ensures var next := With(Turned(interval, old(p)), mcu);
        && ValidProgress(scan, next)
        && (r == Written ==> p == next && Mcus() == old(Mcus()) + [mcu])
        && (r == Written && !accepts ==> Limit() == old(Limit()))
        && (r == OutOfRoom ==> !accepts && old(Limit()) <= BytesNeeded(scan, tables, start, next))
        && (r == NoCode || r == BadCoefficient ==> !Sound(scan, tables, next))
    {
      hide Marked, Plains, ChunkBytes, Bits, ChunkItems, ChunkPreds, ChunkFits, HasCodes, WorkingState.Holds,
        BytesNeeded,
        Sound, Before, Chunked, Flatten;
      assert restartsToGo + |p.current| == interval || interval == 0;
      ghost var turned := Turned(interval, p);
      var w := new WorkingState(accepts, bufferSize, out, room, putBuffer, putBits,
                                Before(scan, tables, start, p.chunks), Bits(tables, CurrentItems(scan, p)));
      var due := 0 < interval && restartsToGo == 0;
      var dcs;
      r, dcs := WriteMcu(w, scan, tables, lastDc, due, nextRestartNum, mcu, start, p, turned);
      if r != Written {
        return;
      }
      out, room, putBuffer, putBits, lastDc := w.out, w.room, w.putBuffer, w.putBits, dcs;
      FlattenAppend(p.chunks, p.current, turned.chunks, turned.current, mcu);
      CountMcu(mcu);
    }

    /** The application empties the buffer up to the last whole MCU and supplies another. */
    method Refill(n: nat)
      requires Valid() && 0 < n
      modifies this`room
      ensures Valid() && room == n
    {
      room := n;
    }

    /** Try an MCU again and again while the application supplies room: it is written as soon as there is
        room for all of it, and exactly as it would have been without the attempts before. */
    method EncodeResuming(mcu: Mcu, rooms: seq<nat>) returns (r: Outcome)
      requires Valid() && ValidMcu(scan, mcu) && forall i :: 0 <= i < |rooms| ==> 0 < rooms[i]
      modifies this
      ensures Valid()
      ensures var next := With(Turned(interval, old(p)), mcu);
        && ValidProgress(scan, next)
        && (r == Written ==> p == next) && (r != Written ==> p == old(p) && out == old(out))
        && (r == OutOfRoom ==>
              !accepts && forall i :: 0 <= i < |rooms| ==>
                old(|out|) + rooms[i] <= BytesNeeded(scan, tables, start, next))
        && (r == NoCode || r == BadCoefficient ==> !Sound(scan, tables, next))
    {
      hide Valid, Sound, BytesNeeded, ValidProgress;
      r := EncodeMcu(mcu);
      for i := 0 to |rooms|
        invariant Valid() && r == OutOfRoom ==>
          p == old(p) && out == old(out) && !accepts
          && forall j :: 0 <= j < i ==>
            old(|out|) + rooms[j] <= BytesNeeded(scan, tables, start, With(Turned(interval, old(p)), mcu))
        invariant Valid() && (r != Written ==> p == old(p) && out == old(out))
        invariant r == Written ==> p == With(Turned(interval, old(p)), mcu)
        invariant r == NoCode || r == BadCoefficient ==> !Sound(scan, tables, With(Turned(interval, old(p)), mcu))
      {
        if r != OutOfRoom {
          return;
        }
        Refill(rooms[i]);
        r := EncodeMcu(mcu);
      }
    }

    /** Complete the scan.  Here the buffer must be emptied if it fills up. */
    method FinishPass() returns (ok: bool)
      requires Valid()
      modifies this
      ensures ValidChunks(scan, p.chunks + [p.current]) && p == old(p)
      ensures ok ==> out == start + Wire(0, Plains(scan, tables, p.chunks + [p.current]))
      ensures !ok ==> unchanged(this) && !accepts
    {
      hide Marked, Plains, Bits, ChunkItems, WorkingState.Holds, Before, Stuff, Pack, Flushed, Sound, Chunked, Wire;
      BeforeGrows(scan, tables, start, p);
      var w := new WorkingState(accepts, bufferSize, out, room, putBuffer, putBits,
                                Before(scan, tables, start, p.chunks), Bits(tables, CurrentItems(scan, p)));
      ok := w.FlushBits();
      if ok {
        out, room, putBuffer, putBits := w.out, w.room, w.putBuffer, w.putBits;
      }
    }

    /** Update the restart-interval state. */
    method CountMcu(mcu: Mcu)
      requires Counters()
      modifies this`restartsToGo, this`nextRestartNum, this`p
      ensures Counters() && p == With(Turned(interval, old(p)), mcu)
    {
      CountersKept(interval, p, Turned(interval, p), mcu);
      if 0 < interval {
        if restartsToGo == 0 {
          restartsToGo := interval;
          nextRestartNum := (nextRestartNum + 1) % 8;
        }
        restartsToGo := restartsToGo - 1;
      }
      p := With(Turned(interval, p), mcu);
    }
  }

  lemma NothingYet(s: Scan, e: Tables, start: seq<byte>)
    requires ValidScan(s)
    ensures var p := Progress([], []);
      && ValidProgress(s, p) && Sound(s, e, p) && Bits(e, CurrentItems(s, p)) == [] && Before(s, e, start, []) == start
      && ChunkPreds(s, Zero(s), []) == Zero(s)
  {
  }

  /** What an encoder has put out and keeps depends on the MCUs coded alone, not on the room there was. */
  lemma SuspensionLeavesNoTrace(a: SequentialEncoder, b: SequentialEncoder)
    requires a.Valid() && b.Valid() && a.scan == b.scan && a.interval == b.interval && a.tables == b.tables
    requires a.start == b.start && a.p == b.p
    ensures a.out == b.out && a.putBits == b.putBits && a.putBuffer % 0x100_0000 == b.putBuffer % 0x100_0000
    ensures a.lastDc == b.lastDc && a.nextRestartNum == b.nextRestartNum
    ensures 0 < a.interval ==> a.restartsToGo == b.restartsToGo
  {
    hide ChunkItems, ChunkPreds, Bits, Before, Sound, ValidProgress, Chunked, Stuff, Pack;
  }

  /** Write the restart marker, if due, and the MCU. */
  method WriteMcu(w: WorkingState, s: Scan, e: Tables, lastDc: seq<int>, due: bool, num: nat, mcu: Mcu,
      ghost start: seq<byte>, ghost p: Progress, ghost turned: Progress) returns (r: Outcome, dcs: seq<int>)
    requires w.Valid() && ValidProgress(s, p) && Sound(s, e, p) && ValidMcu(s, mcu) && num == |p.chunks| % 8
    requires w.base == Before(s, e, start, p.chunks) && w.bits == Bits(e, CurrentItems(s, p))
    requires lastDc == ChunkPreds(s, Zero(s), p.current)
    requires turned == if due then Progress(p.chunks + [p.current], []) else p
    modifies w
    ensures ValidProgress(s, With(turned, mcu))
    ensures r == Written ==>
      && w.Valid() && w.base == Before(s, e, start, turned.chunks)
      && w.bits == Bits(e, CurrentItems(s, With(turned, mcu)))
      && Sound(s, e, With(turned, mcu)) && dcs == ChunkPreds(s, Zero(s), With(turned, mcu).current)
      && (!w.accepts ==> |w.out| + w.room == old(|w.out| + w.room))
    ensures r == OutOfRoom ==> !w.accepts && old(|w.out| + w.room) <= BytesNeeded(s, e, start, With(turned, mcu))
    ensures r == NoCode || r == BadCoefficient ==> !Sound(s, e, With(turned, mcu))
  {
    hide Bits, ChunkItems, ChunkPreds, ChunkFits, HasCodes, WorkingState.Holds, WorkingState.BytesOut, Before, Sound,
      BytesNeeded, McuItems, McuPreds, McuFits;
    ghost var limit := |w.out| + w.room;
    dcs := lastDc;
    TurnedSound(s, e, p, due);
    Grown(s, e, start, turned, mcu);
    if due {
      var ok := EmitRestart(w, num, s, e, start, p);
      if !ok {
        BytesAtLeast(s, e, start, With(turned, mcu));
        return OutOfRoom, dcs;
      }
      dcs := Zero(s);
    }
    ghost var m := Mark(w.base, w.bits, limit);
    StartWriting(w, m, e);
    r, dcs := EncodeBlocks(w, m, e, s, dcs, mcu);
  }

  lemma TurnedSound(s: Scan, e: Tables, p: Progress, due: bool)
    requires ValidProgress(s, p) && Sound(s, e, p)
    ensures var t := if due then Progress(p.chunks + [p.current], []) else p;
      ValidProgress(s, t) && Sound(s, e, t)
      && (due ==> Bits(e, CurrentItems(s, t)) == [] && ChunkPreds(s, Zero(s), t.current) == Zero(s))
  {
    hide ChunkFits, HasCodes, ChunkItems;
    EmptyChunk(s, e);
  }

  lemma EmptyChunk(s: Scan, e: Tables)
    requires ValidScan(s)
    ensures ChunkItems(s, Zero(s), []) == [] && ChunkFits(s, Zero(s), []) && ChunkPreds(s, Zero(s), []) == Zero(s)
    ensures HasCodes(e, []) && Bits(e, []) == []
  {
  }

  lemma StartWriting(w: WorkingState, m: Mark, e: Tables)
    requires w.Valid() && w.base == m.base && w.bits == m.bits && (!w.accepts ==> |w.out| + w.room == m.limit)
    ensures Wrote(w, m, e, [], Written)
  {
    assert m.bits + Bits(e, []) == m.bits;
  }

  lemma BytesAtLeast(s: Scan, e: Tables, start: seq<byte>, p: Progress)
    requires ValidProgress(s, p)
    ensures |Before(s, e, start, p.chunks)| <= BytesNeeded(s, e, start, p)
  {
  }

  /** What one more MCU adds. */
  lemma Grown(s: Scan, e: Tables, start: seq<byte>, p: Progress, mcu: Mcu)
    requires ValidProgress(s, p) && ValidMcu(s, mcu)
    ensures var preds, next := ChunkPreds(s, Zero(s), p.current), With(p, mcu);
      && ValidProgress(s, next)
      && ChunkPreds(s, Zero(s), next.current) == McuPreds(s, preds, mcu, 0)
      && Bits(e, CurrentItems(s, next)) == Bits(e, CurrentItems(s, p)) + Bits(e, McuItems(s, preds, mcu, 0))
      && BytesNeeded(s, e, start, next)
         == WorkingState.BytesOut(Before(s, e, start, p.chunks),
           Bits(e, CurrentItems(s, p)) + Bits(e, McuItems(s, preds, mcu, 0)))
      && (Sound(s, e, next) <==> Sound(s, e, p) && McuFits(s, preds, mcu, 0) && HasCodes(e, McuItems(s, preds, mcu, 0)))
  {
    hide ChunkItems, ChunkPreds, ChunkFits, McuItems, McuPreds, McuFits, HasCodes, Bits, WorkingState.BytesOut, Before;
    var preds := ChunkPreds(s, Zero(s), p.current);
    ChunkAppend(s, Zero(s), p.current, mcu);
    BitsConcat(e, CurrentItems(s, p), McuItems(s, preds, mcu, 0));
    HasCodesConcat(e, CurrentItems(s, p), McuItems(s, preds, mcu, 0));
  }

  lemma CountersKept(interval: nat, p: Progress, t: Progress, mcu: Mcu)
    requires Chunked(interval, p.chunks + [p.current]) && t == Turned(interval, p)
    ensures Chunked(interval, t.chunks + [t.current + [mcu]])
    ensures 0 < interval ==> |t.current| < interval
  {
    ChunkLengths(interval, p.chunks, p.current);
  }

  /** Complete the segment, write a restart marker and reset the predictions. */
  method EmitRestart(w: WorkingState, num: nat, s: Scan, e: Tables, ghost start: seq<byte>, ghost p: Progress)
    returns (ok: bool)
    requires w.Valid() && ValidProgress(s, p) && num == |p.chunks| % 8
    requires w.base == Before(s, e, start, p.chunks) && w.bits == Bits(e, CurrentItems(s, p))
    modifies w
    ensures ValidChunks(s, p.chunks + [p.current])
    ensures ok ==> w.Valid() && w.base == Before(s, e, start, p.chunks + [p.current]) && w.bits == []
    ensures ok && !w.accepts ==> |w.out| + w.room == old(|w.out| + w.room)
    ensures !ok ==> !w.accepts && old(|w.out| + w.room) <= |Before(s, e, start, p.chunks + [p.current])|
  {
    hide Marked, Plains, ChunkBytes, Bits, ChunkItems, WorkingState.Holds, Before, Stuff, Pack, Flushed;
    BeforeGrows(s, e, start, p);
    FlushedBytes(w.base, w.bits);
    ok := w.FlushBits();
    if !ok {
      return;
    }
    ok := w.EmitMarker(RST0 + num);
  }

  lemma FlushedBytes(base: seq<byte>, bits: seq<Bit>)
    ensures WorkingState.BytesOut(base, Flushed(bits)) == |base + Stuff(Pack(Flushed(bits)))|
  {
    assert Flushed(bits)[..|Flushed(bits)|] == Flushed(bits);
  }

  /** Write the blocks of an MCU. */
  method EncodeBlocks(w: WorkingState, ghost m: Mark, e: Tables, s: Scan, dcs0: seq<int>, mcu: Mcu)
    returns (r: Outcome, dcs: seq<int>)
    requires Wrote(w, m, e, [], Written) && ValidScan(s) && |dcs0| == |s.comps| && ValidMcu(s, mcu)
    modifies w
    ensures r == BadCoefficient ==> !McuFits(s, dcs0, mcu, 0)
    ensures r != BadCoefficient ==> Wrote(w, m, e, McuItems(s, dcs0, mcu, 0), r)
    ensures r == Written ==> McuFits(s, dcs0, mcu, 0) && dcs == McuPreds(s, dcs0, mcu, 0)
  {
    hide Wrote, BlockItems, DcFits, AcFits;
    r, dcs := Written, dcs0;
    ghost var done := [];
    assert done + McuItems(s, dcs0, mcu, 0) == McuItems(s, dcs0, mcu, 0);
    for blkn := 0 to |mcu|
      invariant r == Written && Wrote(w, m, e, done, Written) && |dcs| == |dcs0|
      invariant done + McuItems(s, dcs, mcu, blkn) == McuItems(s, dcs0, mcu, 0)
      invariant McuFits(s, dcs, mcu, blkn) <==> McuFits(s, dcs0, mcu, 0)
      invariant McuPreds(s, dcs, mcu, blkn) == McuPreds(s, dcs0, mcu, 0)
    {
      var ci := s.membership[blkn];
      var comp := s.comps[ci];
      ghost var items := BlockItems(comp.dcTbl, comp.acTbl, dcs[ci], mcu[blkn], s.se);
      ghost var more := McuItems(s, dcs[ci := mcu[blkn][0]], mcu, blkn + 1);
      assert done + McuItems(s, dcs, mcu, blkn) == done + items + more;
      r := EncodeOneBlock(w, m, e, done, mcu[blkn], dcs[ci], comp.dcTbl, comp.acTbl, s.se);
      if r != Written {
        if r != BadCoefficient {
          FailureStays(w, m, e, done + items, more, r);
        }
        return;
      }
      done := done + items;
      dcs := dcs[ci := mcu[blkn][0]];
    }
    assert done + [] == done;
  }
}
