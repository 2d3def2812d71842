/** Reading bytes and markers, for both entropy decoders: data bytes with stuffed zeros removed, and finding
    the restart marker between two intervals. */
module MarkerReading {
  import opened ByteStream

  /** Everything still ahead of a reader: the segment it is in, or the marker it stopped at. */
  function AheadOf(source: seq<byte>, unreadMarker: byte): Segment {
    if unreadMarker != 0 then Segment([], unreadMarker, source) else ReadSegment(source)
  }

  /** A dry source reads like one that holds an end-of-image marker. */
  lemma EmptySource()
    ensures ReadSegment([0xFF] + [EOI]) == ReadSegment([]) == Segment([], EOI, [])
  {
    assert ([0xFF] + [EOI])[2..] == [];
  }

  /** Read one byte; a source that runs dry supplies a fake end-of-image marker. */
  method GetByte(source: seq<byte>) returns (b: byte, rest: seq<byte>)
    ensures source != [] ==> b == source[0] && rest == source[1..]
    ensures source == [] ==> b == 0xFF && rest == [EOI]
  {
    rest := source;
    if rest == [] {
      rest := [0xFF, EOI];
    }
    b := rest[0];
    rest := rest[1..];
  }

  /** After a 0xFF: swallow further 0xFF bytes and return the first byte that is not one. */
  method SkipFill(source: seq<byte>) returns (data: byte, rest: seq<byte>)
    ensures data != 0xFF
    ensures var s := ReadSegment([0xFF] + source);
      if data == 0 then
        var t := ReadSegment(rest); s == Segment([0xFF] + t.data, t.marker, t.rest)
      else s == Segment([], data, rest)
    ensures data == 0 ==> |rest| < |source|
  {
    ghost var fuel := |source| + 2;
    ghost var s := ReadSegment([0xFF] + source);
    data, rest := 0xFF, source;
    while data == 0xFF
      invariant data == 0xFF ==>
        ReadSegment([0xFF] + rest) == s && (fuel == |rest| + 2 || (rest == [EOI] && fuel == 1))
      invariant data != 0xFF ==>
        if data == 0 then
          var t := ReadSegment(rest); s == Segment([0xFF] + t.data, t.marker, t.rest)
        else s == Segment([], data, rest)
      invariant fuel <= |source| + 2 && (data != 0xFF ==> fuel < |source| + 2)
      invariant data == 0 ==> fuel == |rest| + 2
      decreases data == 0xFF, fuel
    {
      ghost var was := rest;
      data, rest := GetByte(rest);
      fuel := fuel - 1;
      if was != [] {
        assert ([0xFF] + was)[1..] == was && ([0xFF] + was)[2..] == rest;
        assert was == [data] + rest;
      }
    }
  }

  /** Read one data byte, discarding a stuffed zero, or the marker that ends the segment. */
  method ReadData(source: seq<byte>) returns (marker: byte, data: byte, rest: seq<byte>)
    ensures var s := ReadSegment(source);
      if marker == 0 then
        var t := ReadSegment(rest); s == Segment([data] + t.data, t.marker, t.rest)
      else s == Segment([], marker, rest)
    ensures marker == 0 ==> |rest| < |source|
  {
    data, rest := GetByte(source);
    marker := 0;
    if data == 0xFF {
      assert source != [] ==> source == [0xFF] + rest;
      assert source == [] ==> [0xFF] + rest == [0xFF, EOI];
      assert ReadSegment([0xFF] + rest) == ReadSegment(source);
      data, rest := SkipFill(rest);
      if data == 0 {
        data := 0xFF;
      } else {
        marker := data;
      }
    }
  }

  /** Skip to the next marker. */
  method NextMarker(source: seq<byte>) returns (marker: byte, rest: seq<byte>)
    ensures marker == ReadSegment(source).marker && rest == ReadSegment(source).rest
  {
    ghost var s := ReadSegment(source);
    rest := source;
    while true
      invariant ReadSegment(rest).marker == s.marker && ReadSegment(rest).rest == s.rest
      decreases |rest|
    {
      ghost var was := rest;
      marker, rest := GetByte(rest);
      assert was != [] ==> was == [marker] + rest;
      assert was == [] ==> ReadSegment([marker] + rest) == ReadSegment(was) by { EmptySource(); }
      while marker != 0xFF
        invariant ReadSegment([marker] + rest).marker == s.marker && ReadSegment([marker] + rest).rest == s.rest
        invariant |rest| < |was| || (marker == 0xFF && rest == [EOI])
        decreases marker != 0xFF, |rest|
      {
        assert ([marker] + rest)[1..] == rest;
        ghost var before := rest;
        marker, rest := GetByte(rest);
        assert before != [] ==> before == [marker] + rest;
        assert before == [] ==> ReadSegment([marker] + rest) == ReadSegment(before) by { EmptySource(); }
      }
      marker, rest := SkipFill(rest);
      if marker != 0 {
        break;
      }
    }
  }

  /** Read the restart marker with number `expected`, resynchronising if another one is there. */
  method ReadRestartMarker(source: seq<byte>, unreadMarker: byte, expected: nat) returns (marker: byte, rest: seq<byte>)
    requires expected < 8
    ensures var s := AheadOf(source, unreadMarker);
      if s.marker == RST0 + expected then marker == 0 && rest == s.rest
      else (marker, rest) == Resynced(s.marker, s.rest, expected)
  {
    marker, rest := unreadMarker, source;
    if marker == 0 {
      marker, rest := NextMarker(rest);
    }
    if marker == RST0 + expected {
      marker := 0;
    } else {
      marker, rest := ResyncToRestart(marker, rest, expected);
    }
  }

  const SOF0: byte := 0xC0

  datatype Action = Discard | ScanOn | Leave

  /** What to do about a marker found where restart marker `desired` should be. */
  function ActionFor(marker: byte, desired: nat): Action {
    if marker < SOF0 then ScanOn
    else if marker < RST0 || marker > RST0 + 7 then Leave
    else if marker == RST0 + (desired + 1) % 8 || marker == RST0 + (desired + 2) % 8 then Leave
    else if marker == RST0 + (desired + 7) % 8 || marker == RST0 + (desired + 6) % 8 then ScanOn
    else Discard
  }

  /** The first marker from `found` on that is not scanned over: taken off the input if it is the one desired
      or far from it, left for later if it belongs further on. */
  function Resynced(found: byte, source: seq<byte>, desired: nat): (byte, seq<byte>)
    decreases |source|, ActionFor(found, desired) == ScanOn
  {
    match ActionFor(found, desired)
    case Discard => (0, source)
    case Leave => (found, source)
    case ScanOn =>
      RestShorter(source);
      Resynced(ReadSegment(source).marker, ReadSegment(source).rest, desired)
  }

  /** The default recovery. */
  method ResyncToRestart(found: byte, source: seq<byte>, desired: nat) returns (marker: byte, rest: seq<byte>)
    ensures (marker, rest) == Resynced(found, source, desired)
  {
    marker, rest := found, source;
    var action := Discard;
    while true
      invariant Resynced(marker, rest, desired) == Resynced(found, source, desired)
      decreases |rest|, ActionFor(marker, desired) == ScanOn
    {
      if marker < SOF0 {
        action := ScanOn;
      } else if marker < RST0 || marker > RST0 + 7 {
        action := Leave;
      } else if marker == RST0 + (desired + 1) % 8 || marker == RST0 + (desired + 2) % 8 {
        action := Leave;
      } else if marker == RST0 + (desired + 7) % 8 || marker == RST0 + (desired + 6) % 8 {
        action := ScanOn;
      } else {
        action := Discard;
      }
      match action {
        case Discard =>
          marker := 0;
          return;
        case ScanOn =>
          RestShorter(rest);
          marker, rest := NextMarker(rest);
        case Leave =>
          return;
      }
    }
  }

  /** How many restart markers ahead of the one desired a marker is, counted round eight. */
  function Distance(marker: byte, desired: nat): (d: nat)
    requires 0xD0 <= marker <= 0xD7 && desired < 8
    ensures d < 8 && (desired + d) % 8 == marker - 0xD0
  {
    (marker - 0xD0 + 8 - desired) % 8
  }

  /** A marker that belongs further on: one of the next two restart markers, or no restart marker at all. */
  predicate FurtherOn(marker: byte, desired: nat)
    requires desired < 8
  {
    0xC0 <= marker && (0xD0 <= marker <= 0xD7 ==> Distance(marker, desired) == 1 || Distance(marker, desired) == 2)
  }

  /** A marker to scan over: one of the two restart markers before, or an invalid one. */
  predicate Behind(marker: byte, desired: nat)
    requires desired < 8
  {
    marker < 0xC0
    || (0xD0 <= marker <= 0xD7 && (Distance(marker, desired) == 6 || Distance(marker, desired) == 7))
  }

  /** Markers behind are scanned over, those further on left, and all others, among them the one desired, taken. */
  lemma ActionIs(marker: byte, desired: nat)
    requires desired < 8
    ensures ActionFor(marker, desired)
      == if Behind(marker, desired) then ScanOn else if FurtherOn(marker, desired) then Leave else Discard
    ensures !(Behind(marker, desired) && FurtherOn(marker, desired))
  {
  }

  /** The markers that are scanned over, and what resynchronisation ends with. */
  lemma {:induction false} ResyncedIs(found: byte, source: seq<byte>, desired: nat) returns (over: seq<byte>)
    requires desired < 8
    ensures forall i :: 0 <= i < |over| ==> Behind(over[i], desired)
    ensures var (last, rest) := AfterMarkers(found, source, |over|);
      && over == MarkersFrom(found, source, |over|) && !Behind(last, desired)
      && Resynced(found, source, desired) == (if FurtherOn(last, desired) then last else 0, rest)
    decreases |source|, ActionFor(found, desired) == ScanOn
  {
    ActionIs(found, desired);
    if Behind(found, desired) {
      RestShorter(source);
      hide ActionFor, Behind, FurtherOn, ReadSegment;
      var s := ReadSegment(source);
      var more := ResyncedIs(s.marker, s.rest, desired);
      over := [found] + more;
    } else {
      over := [];
    }
  }

  /** The nth marker after `found`, and the input behind it. */
  function AfterMarkers(found: byte, source: seq<byte>, n: nat): (byte, seq<byte>)
    decreases n
  {
    if n == 0 then (found, source) else AfterMarkers(ReadSegment(source).marker, ReadSegment(source).rest, n - 1)
  }

  /** The first n markers from `found` on. */
  function MarkersFrom(found: byte, source: seq<byte>, n: nat): seq<byte>
    decreases n
  {
    if n == 0 then [] else [found] + MarkersFrom(ReadSegment(source).marker, ReadSegment(source).rest, n - 1)
  }

  /** Reading to a marker uses up input, or ends at the end-of-image marker a dry source supplies. */
  lemma {:induction false} RestShorter(input: seq<byte>)
    ensures var s := ReadSegment(input);
      |s.rest| < |input| || (s.marker == EOI && s.rest == [])
    decreases |input|
  {
    if |input| >= 2 {
      RestShorter(input[1..]);
      if input[0] == 0xFF && input[1] == 0 {
        RestShorter(input[2..]);
      }
    } else if |input| == 1 {
      RestShorter(input[1..]);
    }
  }
}
