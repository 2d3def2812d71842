/** Restart intervals, shared by both entropy coders: how a scan's MCUs are divided, and how the data
    bytes of the intervals are laid out with restart markers between them. */
module RestartIntervals {
  import opened ByteStream
  import opened Coefficients

  function RestartMarker(n: int): byte { RST0 + n % 8 }

  /** A chunk is the MCUs of one restart interval. */
  type Chunk = seq<Mcu>

  /** Restart intervals: every chunk but the last is full, the last is no longer and, unless it is
      the only one, not empty. */
  ghost predicate Chunked(interval: nat, chunks: seq<Chunk>) {
    && 0 < |chunks|
    && (interval == 0 ==> |chunks| == 1)
    && (0 < interval ==>
          && (forall j :: 0 <= j < |chunks| - 1 ==> |chunks[j]| == interval)
          && |chunks[|chunks| - 1]| <= interval
          && (1 < |chunks| ==> chunks[|chunks| - 1] != []))
  }

  function Flatten(chunks: seq<Chunk>): seq<Mcu> {
    if chunks == [] then [] else chunks[0] + Flatten(chunks[1..])
  }

  /** MCUs divided the way the chunks are. */
  function Rechunked(mcus: seq<Mcu>, chunks: seq<Chunk>): (r: seq<Chunk>)
    requires |mcus| == |Flatten(chunks)|
    ensures |r| == |chunks| && forall j :: 0 <= j < |r| ==> |r[j]| == |chunks[j]|
    decreases |chunks|
  {
    if chunks == [] then []
    else [mcus[..|chunks[0]|]] + Rechunked(mcus[|chunks[0]|..], chunks[1..])
  }

  lemma {:induction false} RechunkedFlat(mcus: seq<Mcu>, chunks: seq<Chunk>)
    requires |mcus| == |Flatten(chunks)|
    ensures Flatten(Rechunked(mcus, chunks)) == mcus
    decreases |chunks|
  {
    if chunks != [] {
      RechunkedFlat(mcus[|chunks[0]|..], chunks[1..]);
      var r := Rechunked(mcus, chunks);
      assert r[1..] == Rechunked(mcus[|chunks[0]|..], chunks[1..]);
    }
  }

  // ----- the wire -----

  /** Segments, each followed by its restart marker. */
  function Marked(n: nat, plains: seq<seq<byte>>): seq<byte>
    decreases |plains|
  {
    if plains == [] then []
    else Stuff(plains[0]) + [0xFF, RestartMarker(n)] + Marked(n + 1, plains[1..])
  }

  /** A whole scan: no marker behind the last segment. */
  function Wire(n: nat, plains: seq<seq<byte>>): seq<byte>
    requires plains != []
    decreases |plains|
  {
    if |plains| == 1 then Stuff(plains[0])
    else Stuff(plains[0]) + [0xFF, RestartMarker(n)] + Wire(n + 1, plains[1..])
  }

  /** Between any two parts of a scan there is the restart marker with the number of the intervals before it,
      from RST0 to RST7 and round again. */
  lemma {:induction false} MarkerBetween(n: nat, plains: seq<seq<byte>>, j: nat)
    requires 0 < j < |plains|
    ensures Wire(n, plains) == Wire(n, plains[..j]) + [0xFF, 0xD0 + (n + j - 1) % 8] + Wire(n + j, plains[j..])
    decreases j
  {
    hide Stuff;
    var first, rest := Stuff(plains[0]), plains[1..];
    if j == 1 {
      assert plains[..1][0] == plains[0];
    } else {
      MarkerBetween(n + 1, rest, j - 1);
      assert plains[..j][1..] == rest[..j - 1] && rest[j - 1..] == plains[j..] && plains[..j][0] == plains[0];
      Associated(first + [0xFF, RestartMarker(n)], Wire(n + 1, rest[..j - 1]), [0xFF, 0xD0 + (n + j - 1) % 8],
        Wire(n + j, plains[j..]));
    }
  }

  lemma Associated(a: seq<byte>, b: seq<byte>, c: seq<byte>, d: seq<byte>)
    ensures a + (b + c + d) == a + b + c + d
  {
  }


  lemma {:induction false} MarkedAppend(n: nat, plains: seq<seq<byte>>, p: seq<byte>)
    ensures Marked(n, plains + [p]) == Marked(n, plains) + Stuff(p) + [0xFF, RestartMarker(n + |plains|)]
    ensures Wire(n, plains + [p]) == Marked(n, plains) + Stuff(p)
    decreases |plains|
  {
    hide Stuff;
    if plains == [] {
      assert plains + [p] == [p] && [p][1..] == [];
    } else {
      assert (plains + [p])[1..] == plains[1..] + [p];
      MarkedAppend(n + 1, plains[1..], p);
    }
  }

  /** Finishing one more segment, as the destination grows. */
  lemma WireGrows(start: seq<byte>, plains: seq<seq<byte>>, p: seq<byte>)
    ensures var out := start + Marked(0, plains) + Stuff(p);
      && out == start + Wire(0, plains + [p])
      && out + [0xFF, RestartMarker(|plains|)] == start + Marked(0, plains + [p])
  {
    hide Stuff, Marked, Wire;
    MarkedAppend(0, plains, p);
  }

  /** What may follow a scan: nothing, or a marker. */
  predicate CleanEnding(ending: seq<byte>) {
    ending == [] || (|ending| >= 2 && ending[0] == 0xFF && ending[1] != 0 && ending[1] != 0xFF)
  }

  /** The first segment of a scan as a reader finds it. */
  lemma WireFirst(n: nat, plains: seq<seq<byte>>, ending: seq<byte>)
    requires plains != [] && CleanEnding(ending)
    ensures var g := ReadSegment(Wire(n, plains) + ending);
      && g.data == plains[0]
      && (|plains| > 1 ==> g == Segment(plains[0], RestartMarker(n), Wire(n + 1, plains[1..]) + ending))
  {
    hide Stuff, ReadSegment;
    if |plains| > 1 {
      var rest := Wire(n + 1, plains[1..]) + ending;
      assert Wire(n, plains) + ending == Stuff(plains[0]) + [0xFF, RestartMarker(n)] + rest;
      ReadStuffed(plains[0], RestartMarker(n), rest);
    } else if ending == [] {
      ReadStuffed(plains[0], EOI, []);
      assert Stuff(plains[0]) + ending == Stuff(plains[0]);
    } else {
      ReadStuffed(plains[0], ending[1], ending[2..]);
      assert ending == [0xFF, ending[1]] + ending[2..];
      assert Stuff(plains[0]) + ending == Stuff(plains[0]) + [0xFF, ending[1]] + ending[2..];
    }
  }

  lemma ChunkLengths(interval: nat, chunks: seq<Chunk>, current: Chunk)
    requires Chunked(interval, chunks + [current])
    ensures interval == 0 ==> chunks == []
    ensures 0 < interval ==> (forall j :: 0 <= j < |chunks| ==> |chunks[j]| == interval) && |current| <= interval
  {
    var all := chunks + [current];
    assert forall j :: 0 <= j < |chunks| ==> chunks[j] == all[j];
  }

  /** Adding an MCU to the current chunk, or to a new one behind it, adds it to the scan. */
  lemma FlattenAppend(chunks0: seq<Chunk>, current0: Chunk, chunks: seq<Chunk>, current: Chunk, mcu: Mcu)
    requires (chunks == chunks0 && current == current0) || (chunks == chunks0 + [current0] && current == [])
    ensures Flatten(chunks + [current + [mcu]]) == Flatten(chunks0 + [current0]) + [mcu]
  {
    FlattenLast(chunks, current + [mcu]);
    FlattenLast(chunks0, current0);
  }

  lemma {:induction false} FlattenLast(chunks: seq<Chunk>, c: Chunk)
    ensures Flatten(chunks + [c]) == Flatten(chunks) + c
    decreases |chunks|
  {
    if chunks == [] {
      assert chunks + [c] == [c] && [c][1..] == [];
    } else {
      assert (chunks + [c])[1..] == chunks[1..] + [c];
      FlattenLast(chunks[1..], c);
    }
  }
}
