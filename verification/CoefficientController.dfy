/** The compressor's coefficient buffer controllers.  Whether MCUs are made directly from samples, from a
    full-image buffer filled in a first pass, or from the arrays of a transcoder, the entropy coder is handed the
    same MCUs in the same order, however often it refuses one. */
module CoefficientController {
  import opened Powers
  import opened Coefficients
  import opened ImageGeometry
  import opened McuStream
  import opened EntropySink

  // ----- places at the edges -----

  /** Which blocks of an MCU row are real. */
  lemma RealColumns(l: Layout, c: nat, at: Place, i: nat)
    requires ValidLayout(l) && c < |l.planes| && at.col < McusPerRow(l) && i < McuWidth(l, c)
    ensures var p := l.planes[c];
      Left(l, c, at) + i < p.width <==>
        (at.col < McusPerRow(l) - 1 || i < if Interleaved(l) then LastColumns(p, l.across) else 1)
  {
    var p := l.planes[c];
    if Interleaved(l) && at.col < l.across - 1 {
      Ordered(p.h, at.col + 1, l.across - 1);
    }
  }

  lemma RealRows(l: Layout, c: nat, at: Place, i: nat)
    requires ValidLayout(l) && c < |l.planes| && at.r < l.down && at.y < RowsIn(l, at.r) && i < McuHeight(l, c)
    ensures var p := l.planes[c];
      Top(p, at) + i < p.height <==> (at.r < l.down - 1 || at.y + i < LastRows(p, l.down))
    ensures !Interleaved(l) ==> Top(l.planes[c], at) + i < l.planes[c].height
  {
    var p := l.planes[c];
    assert at.y + i < p.v && (!Interleaved(l) && at.r == l.down - 1 ==> at.y + i < LastRows(p, l.down)) by {
      OffsetsFit(l, c, at, i);
    }
    hide RowsIn;
    RowsBefore(p.v, at.r, l.down - 1);
  }

  /** r groups of v rows and one more are no more than n groups, unless r is the last. */
  lemma RowsBefore(v: nat, r: nat, n: nat)
    requires r <= n
    ensures r < n ==> r * v + v <= v * n
    ensures r == n ==> r * v == v * n
  {
    if r < n {
      GroupsBefore(v, r, n);
    }
    assert v * r == r * v;
  }

  /** The group a block of an interleaved MCU belongs to. */
  lemma GroupOf(h: nat, col: nat, i: nat)
    requires i < h
    ensures GroupEnd(col * h + i, h) == col * h + h - 1
  {
    Remainder(col * h + i, h, col, i);
  }

  /** A row of an MCU below the image. */
  lemma BottomRow(l: Layout, pic: Picture, c: nat, at: Place, i: nat, j: nat)
    requires ValidLayout(l) && c < |l.planes| && Interleaved(l) && j < McuWidth(l, c)
    requires Top(l.planes[c], at) + i >= l.planes[c].height && i > 0
    ensures var p := l.planes[c];
      Padded(p, pic, Top(p, at) + i, Left(l, c, at) + j)
        == Dummy(Padded(p, pic, Top(p, at) + i - 1, Left(l, c, at) + McuWidth(l, c) - 1)[0])
  {
    GroupOf(l.planes[c].h, at.col, j);
  }

  /** Put n blocks of a row into a buffer; the transform itself is not part of this model. */
  method ForwardDct(pic: Picture, index: nat, row: nat, col: nat, buf: array<Block>, at: nat, n: nat)
    requires at + n <= buf.Length
    modifies buf
    ensures forall j :: 0 <= j < buf.Length ==>
      buf[j] == if at <= j < at + n then pic(index, row, col + (j - at)) else old(buf[j])
  {
    for i := 0 to n
      invariant forall j :: 0 <= j < buf.Length ==>
        buf[j] == if at <= j < at + i then pic(index, row, col + (j - at)) else old(buf[j])
    {
      buf[at + i] := pic(index, row, col + i);
    }
  }

  /** Clear blocks. */
  method ZeroBlocks(buf: array<Block>, from: nat, to: nat)
    requires from <= to <= buf.Length
    modifies buf
    ensures forall j :: 0 <= j < buf.Length ==> buf[j] == if from <= j < to then seq(64, _ => 0) else old(buf[j])
  {
    for j := from to to
      invariant forall i :: 0 <= i < buf.Length ==> buf[i] == if from <= i < j then seq(64, _ => 0) else old(buf[i])
    {
      buf[j] := seq(64, _ => 0);
    }
  }

  /** Dummy blocks at the right edge, each with the DC value of the one before it. */
  method RightDummies(buf: array<Block>, from: nat, to: nat)
    requires 0 < from <= to <= buf.Length
    modifies buf
    ensures forall j :: 0 <= j < buf.Length ==>
      buf[j] == if from <= j < to then Dummy(old(buf[from - 1])[0]) else old(buf[j])
  {
    ghost var dc := buf[from - 1][0];
    ZeroBlocks(buf, from, to);
    for bi := from to to
      invariant forall j :: 0 <= j < buf.Length ==>
        buf[j] == if from <= j < bi then Dummy(dc) else if bi <= j < to then seq(64, _ => 0) else old(buf[j])
    {
      buf[bi] := buf[bi][0 := buf[bi - 1][0]];
      assert buf[bi] == Dummy(dc);
    }
  }

  /** A row of dummy blocks below the image, all with the DC value of the block before the row. */
  method BottomDummies(buf: array<Block>, from: nat, to: nat)
    requires 0 < from <= to <= buf.Length
    modifies buf
    ensures forall j :: 0 <= j < buf.Length ==>
      buf[j] == if from <= j < to then Dummy(old(buf[from - 1])[0]) else old(buf[j])
  {
    ghost var dc := buf[from - 1][0];
    ZeroBlocks(buf, from, to);
    for bi := from to to
      invariant forall j :: 0 <= j < buf.Length ==>
        buf[j] == if from <= j < bi then Dummy(dc) else if bi <= j < to then seq(64, _ => 0) else old(buf[j])
    {
      buf[bi] := buf[bi][0 := buf[from - 1][0]];
      assert buf[bi] == Dummy(dc);
    }
  }

  // ----- making one MCU -----

  /** The buffer holds a row of the MCU, with everything before it as it was. */
  twostate predicate RowFilled(buf: array<Block>, blkn: nat, p: Plane, pic: Picture, row: nat, col: nat, w: nat)
    requires blkn + w <= buf.Length && 0 < p.width && 0 < p.height && 0 < p.h
    reads buf
  {
    && buf[..blkn] == old(buf[..blkn])
    && buf[blkn..blkn + w] == RowBlocks(p, pic, row, col, w)
  }

  /** The number of real blocks in the MCU's columns, and whether the row is real. */
  function BlockCount(l: Layout, c: nat, at: Place): (n: nat)
    requires ValidLayout(l) && c < |l.planes| && at.col < McusPerRow(l)
    ensures 1 <= n <= McuWidth(l, c)
  {
    LastGroup(l, c);
    if at.col < McusPerRow(l) - 1 then McuWidth(l, c)
    else if Interleaved(l) then LastColumns(l.planes[c], l.across)
    else 1
  }

  predicate RealRow(l: Layout, c: nat, at: Place, i: nat)
    requires ValidLayout(l) && c < |l.planes|
  {
    at.r < l.down - 1 || at.y + i < LastRows(l.planes[c], l.down)
  }

  /** A row of w blocks of which n are real. */
  function RealRowOf(p: Plane, pic: Picture, row: nat, col: nat, w: nat, n: nat): (r: seq<Block>)
    requires 1 <= n
    ensures |r| == w
  {
    seq<Block>(w, j requires 0 <= j < w => RealEntry(p, pic, row, col, n, j))
  }

  function RealEntry(p: Plane, pic: Picture, row: nat, col: nat, n: nat, j: nat): Block
    requires 1 <= n
  {
    if j < n then pic(p.index, row, col + j) else Dummy(pic(p.index, row, col + n - 1)[0])
  }

  /** A row of dummy blocks. */
  function BottomRowOf(w: nat, dc: Coef): (r: seq<Block>)
    ensures |r| == w
  {
    seq<Block>(w, j requires 0 <= j < w => Dummy(dc))
  }

  /** What a row of the MCU is made of, if it is real. */
  lemma RealRowBlocks(l: Layout, pic: Picture, c: nat, at: Place, i: nat)
    requires ValidLayout(l) && c < |l.planes| && at.r < l.down && at.y < RowsIn(l, at.r) && at.col < McusPerRow(l)
    requires i < McuHeight(l, c)
    requires RealRow(l, c, at, i) && 0 < l.planes[c].width && 0 < l.planes[c].height && 0 < l.planes[c].h
    ensures var p, row, col, n := l.planes[c], Top(l.planes[c], at) + i, Left(l, c, at), BlockCount(l, c, at);
      RowBlocks(p, pic, row, col, McuWidth(l, c)) == RealRowOf(p, pic, row, col, McuWidth(l, c), n)
  {
    hide Top, Left, Fills, LastRows, LastColumns;
    var p, row, col, n := l.planes[c], Top(l.planes[c], at) + i, Left(l, c, at), BlockCount(l, c, at);
    RealRows(l, c, at, i);
    forall j | 0 <= j < McuWidth(l, c)
      ensures RowBlocks(p, pic, row, col, McuWidth(l, c))[j] == RealRowOf(p, pic, row, col, McuWidth(l, c), n)[j]
    {
      RealColumns(l, c, at, j);
      RealColumns(l, c, at, n - 1);
      if n < McuWidth(l, c) {
        RealColumns(l, c, at, n);
      }
      assert row < p.height && (j < n <==> col + j < p.width);
      assert RowBlocks(p, pic, row, col, McuWidth(l, c))[j] == Padded(p, pic, row, col + j);
      assert RealRowOf(p, pic, row, col, McuWidth(l, c), n)[j] == RealEntry(p, pic, row, col, n, j);
      if j >= n {
        assert col + n - 1 == p.width - 1;
        assert Padded(p, pic, row, col + j) == Dummy(pic(p.index, row, p.width - 1)[0]);
      } else {
        assert Padded(p, pic, row, col + j) == pic(p.index, row, col + j);
      }
    }
  }

  /** And if it is below the image. */
  lemma BottomRowBlocks(l: Layout, pic: Picture, c: nat, at: Place, i: nat)
    requires ValidLayout(l) && c < |l.planes| && at.r < l.down && at.y < RowsIn(l, at.r) && at.col < McusPerRow(l)
    requires i < McuHeight(l, c)
    requires !RealRow(l, c, at, i) && 0 < l.planes[c].width && 0 < l.planes[c].height && 0 < l.planes[c].h
    ensures i > 0 && 1 <= McuWidth(l, c)
    ensures var p, row, col := l.planes[c], Top(l.planes[c], at) + i, Left(l, c, at);
      var above := Padded(p, pic, row - 1, col + McuWidth(l, c) - 1);
      RowBlocks(p, pic, row, col, McuWidth(l, c)) == BottomRowOf(McuWidth(l, c), above[0])
  {
    LastGroup(l, c);
    RealRows(l, c, at, i);
    RealRows(l, c, at, 0);
    TopIsReal(l, c, at);
    hide Top, Left, Fills, LastRows, LastColumns, Padded;
    var p, w, row, col := l.planes[c], McuWidth(l, c), Top(l.planes[c], at) + i, Left(l, c, at);
    var dc := Padded(p, pic, row - 1, col + w - 1)[0];
    forall j | 0 <= j < w
      ensures RowBlocks(p, pic, row, col, w)[j] == BottomRowOf(w, dc)[j]
    {
      BottomRow(l, pic, c, at, i, j);
    }
  }

  /** The first row of an MCU is always real. */
  lemma TopIsReal(l: Layout, c: nat, at: Place)
    requires ValidLayout(l) && c < |l.planes| && at.r < l.down && at.y < RowsIn(l, at.r)
    ensures RealRow(l, c, at, 0)
  {
  }

  /** One row of a component's blocks, made from samples. */
  method RowFromSamples(l: Layout, pic: Picture, at: Place, c: nat, i: nat, buf: array<Block>, blkn: nat)
    requires ValidLayout(l) && c < |l.planes| && at.r < l.down && at.y < RowsIn(l, at.r) && at.col < McusPerRow(l)
    requires i < McuHeight(l, c)
    requires 0 < l.planes[c].width && 0 < l.planes[c].height && 0 < l.planes[c].h && blkn + McuWidth(l, c) <= buf.Length
    requires i > 0 ==>
      blkn > 0 && buf[blkn - 1] == Padded(l.planes[c], pic, Top(l.planes[c], at) + i - 1,
        Left(l, c, at) + McuWidth(l, c) - 1)
    modifies buf
    ensures RowFilled(buf, blkn, l.planes[c], pic, Top(l.planes[c], at) + i, Left(l, c, at), McuWidth(l, c))
  {
    hide Top, Left, Fills, Padded, RowBlocks, LastRows, LastColumns, RealRowOf, BottomRowOf, BlockCount;
    if RealRow(l, c, at, i) {
      RealRowBlocks(l, pic, c, at, i);
      RealFromSamples(l.planes[c], pic, Top(l.planes[c], at) + i, Left(l, c, at), McuWidth(l, c), BlockCount(l, c, at),
        buf, blkn);
    } else {
      BottomRowBlocks(l, pic, c, at, i);
      BottomFill(buf, blkn, McuWidth(l, c));
    }
  }

  method RealFromSamples(p: Plane, pic: Picture, row: nat, col: nat, w: nat, n: nat, buf: array<Block>, blkn: nat)
    requires 1 <= n <= w && blkn + w <= buf.Length
    modifies buf
    ensures buf[..blkn] == old(buf[..blkn]) && buf[blkn..blkn + w] == RealRowOf(p, pic, row, col, w, n)
  {
    ForwardDct(pic, p.index, row, col, buf, blkn, n);
    if n < w {
      RightDummies(buf, blkn + n, blkn + w);
    }
  }

  method BottomFill(buf: array<Block>, blkn: nat, w: nat)
    requires 0 < blkn && blkn + w <= buf.Length
    modifies buf
    ensures buf[..blkn] == old(buf[..blkn]) && buf[blkn..blkn + w] == BottomRowOf(w, old(buf[blkn - 1])[0])
  {
    if w > 0 {
      BottomDummies(buf, blkn, blkn + w);
    }
  }

  /** The last group has at least one column. */
  lemma LastGroup(l: Layout, c: nat)
    requires ValidLayout(l) && c < |l.planes|
    ensures 1 <= McuWidth(l, c) && 1 <= McuHeight(l, c)
    ensures Interleaved(l) ==> 1 <= LastColumns(l.planes[c], l.across) <= McuWidth(l, c)
    ensures 0 < l.planes[c].width && 0 < l.planes[c].height && 0 < l.planes[c].h
  {
    NotEmpty(l.planes[c], l.across, l.down);
    assert l.planes[c].h * l.across == l.planes[c].h * (l.across - 1) + l.planes[c].h;
  }

  // ----- rows from arrays of blocks -----

  /** Point the buffer at n blocks of a row. */
  method CopyBlocks(whole: array2<Block>, row: nat, col: nat, buf: array<Block>, at: nat, n: nat)
    requires at + n <= buf.Length && (n > 0 ==> row < whole.Length0) && col + n <= whole.Length1
    modifies buf
    ensures forall j :: 0 <= j < buf.Length ==>
      buf[j] == if at <= j < at + n then whole[row, col + (j - at)] else old(buf[j])
  {
    for x := 0 to n
      invariant forall j :: 0 <= j < buf.Length ==>
        buf[j] == if at <= j < at + x then whole[row, col + (j - at)] else old(buf[j])
    {
      buf[at + x] := whole[row, col + x];
    }
  }

  /** One row of a component's blocks, from an array that holds the padded image. */
  method RowFromBuffer(p: Plane, ghost pic: Picture, whole: array2<Block>, row: nat, col: nat, w: nat,
      buf: array<Block>, blkn: nat)
    requires 0 < p.width && 0 < p.height && 0 < p.h && blkn + w <= buf.Length && row < whole.Length0
    requires col + w <= whole.Length1
    requires forall j :: col <= j < col + w ==> whole[row, j] == Padded(p, pic, row, j)
    modifies buf
    ensures RowFilled(buf, blkn, p, pic, row, col, w)
  {
    hide Padded;
    CopyBlocks(whole, row, col, buf, blkn, w);
  }

  /** Dummy blocks have nothing but a DC value. */
  ghost predicate AcZero(b: Block) { forall k :: 1 <= k < 64 ==> b[k] == 0 }

  /** Dummy blocks kept ready with zeros: only the DC values are set. */
  method ReadyDummies(buf: array<Block>, dummies: array<Block>, from: nat, to: nat)
    requires 0 < from <= to <= buf.Length <= dummies.Length && buf != dummies
    requires forall j :: 0 <= j < dummies.Length ==> AcZero(dummies[j])
    modifies buf, dummies
    ensures forall j :: 0 <= j < buf.Length ==>
      buf[j] == if from <= j < to then Dummy(old(buf[from - 1])[0]) else old(buf[j])
    ensures forall j :: 0 <= j < dummies.Length ==> AcZero(dummies[j])
  {
    ghost var dc := buf[from - 1][0];
    for blkn := from to to
      invariant forall j :: 0 <= j < buf.Length ==> buf[j] == if from <= j < blkn then Dummy(dc) else old(buf[j])
      invariant forall j :: 0 <= j < dummies.Length ==> AcZero(dummies[j])
    {
      dummies[blkn] := dummies[blkn][0 := buf[blkn - 1][0]];
      assert dummies[blkn] == Dummy(dc);
      buf[blkn] := dummies[blkn];
    }
  }

  /** One row of a component's blocks, from an array of real blocks: n of them, then dummies. */
  method RowFromCoefficients(p: Plane, ghost pic: Picture, whole: array2<Block>, row: nat, col: nat, w: nat, n: nat,
      isReal: bool,
      buf: array<Block>, blkn: nat, dummies: array<Block>)
    requires n <= w && (isReal ==> 1 <= n) && (!isReal ==> n == 0 && 0 < blkn)
    requires blkn + w <= buf.Length <= dummies.Length && buf != dummies
    requires (n > 0 ==> row < whole.Length0) && col + n <= whole.Length1
    requires forall j :: col <= j < col + n ==> whole[row, j] == pic(p.index, row, j)
    requires forall j :: 0 <= j < dummies.Length ==> AcZero(dummies[j])
    modifies buf, dummies
    ensures buf[..blkn] == old(buf[..blkn]) && forall j :: 0 <= j < dummies.Length ==> AcZero(dummies[j])
    ensures isReal ==> buf[blkn..blkn + w] == RealRowOf(p, pic, row, col, w, n)
    ensures !isReal ==> buf[blkn..blkn + w] == BottomRowOf(w, old(buf[blkn - 1])[0])
  {
    hide AcZero, Dummy;
    CopyBlocks(whole, row, col, buf, blkn, n);
    if n < w {
      ReadyDummies(buf, dummies, blkn + n, blkn + w);
    }
    if isReal {
      assert forall j :: 0 <= j < w ==> buf[blkn + j] == RealEntry(p, pic, row, col, n, j);
    }
  }

  // ----- the MCU -----

  datatype Mode = Samples | Buffered | Transcoded

  /** The arrays a controller reads hold what its mode needs for the first `loaded` interleaved MCU rows. */
  ghost predicate ArraysHold(mode: Mode, planes: seq<Plane>, l: Layout, pic: Picture, whole: seq<array2<Block>>,
      loaded: nat)
    reads whole
  {
    match mode
    case Samples => true
    case Buffered =>
      |whole| == |planes| && forall c :: 0 <= c < |planes| ==>
        HoldsPadded(planes[c], l.across, l.down, pic, whole[c], planes[c].v * loaded)
    case Transcoded =>
      |whole| == |planes| && forall c :: 0 <= c < |planes| ==> HoldsReal(planes[c], pic, whole[c])
  }

  ghost predicate HoldsPadded(p: Plane, across: nat, down: nat, pic: Picture, a: array2<Block>, rows: nat)
    reads a
  {
    && 0 < p.width && 0 < p.height && 0 < p.h && rows <= p.v * down <= a.Length0 && p.h * across <= a.Length1
    && forall i, j :: 0 <= i < rows && 0 <= j < p.h * across ==> a[i, j] == Padded(p, pic, i, j)
  }

  ghost predicate HoldsReal(p: Plane, pic: Picture, a: array2<Block>)
    reads a
  {
    && p.height <= a.Length0 && p.width <= a.Length1
    && forall i, j :: 0 <= i < p.height && 0 <= j < p.width ==> a[i, j] == pic(p.index, i, j)
  }

  /** A place within the scan. */
  predicate Inside(l: Layout, at: Place)
    requires ValidLayout(l)
  {
    at.r < l.down && at.y < RowsIn(l, at.r) && at.col < McusPerRow(l)
  }

  /** Adding a row to the MCU under way. */
  lemma RowAdded(l: Layout, pic: Picture, at: Place, c: nat, i: nat, now: seq<Block>, row: seq<Block>)
    requires ValidLayout(l) && c < |l.planes| && 0 < l.planes[c].width && 0 < l.planes[c].height && 0 < l.planes[c].h
    requires now == Partial(l, pic, at, c, i)
    requires row == RowBlocks(l.planes[c], pic, Top(l.planes[c], at) + i, Left(l, c, at), McuWidth(l, c))
    ensures now + row == Partial(l, pic, at, c, i + 1)
  {
    hide RowBlocks;
    var p := l.planes[c];
    var rows := RowsBlocks(p, pic, Top(p, at), Left(l, c, at), McuWidth(l, c), i);
    assert McuBlocks(l, pic, at, c) + rows + row == McuBlocks(l, pic, at, c) + (rows + row);
  }

  /** The blocks of the components before c, and i rows of its own. */
  function Partial(l: Layout, pic: Picture, at: Place, c: nat, i: nat): seq<Block>
    requires ValidLayout(l) && c < |l.planes| && 0 < l.planes[c].width && 0 < l.planes[c].height && 0 < l.planes[c].h
  {
    McuBlocks(l, pic, at, c) + RowsBlocks(l.planes[c], pic, Top(l.planes[c], at), Left(l, c, at), McuWidth(l, c), i)
  }

  /** How many blocks that is; a further row fits. */
  lemma PartialRoom(l: Layout, pic: Picture, at: Place, c: nat, i: nat)
    requires ValidLayout(l) && c < |l.planes| && 0 < l.planes[c].width && 0 < l.planes[c].height && 0 < l.planes[c].h
    requires i < McuHeight(l, c)
    ensures |Partial(l, pic, at, c, i)| + McuWidth(l, c) <= |Membership(l, |l.planes|)|
    ensures i > 0 ==>
      && |Partial(l, pic, at, c, i)| > 0 && 1 <= McuWidth(l, c)
      && Partial(l, pic, at, c, i)[|Partial(l, pic, at, c, i)| - 1]
         == Padded(l.planes[c], pic, Top(l.planes[c], at) + i - 1, Left(l, c, at) + McuWidth(l, c) - 1)
  {
    hide Padded, Membership;
    var p, w := l.planes[c], McuWidth(l, c);
    LastGroup(l, c);
    McuLength(l, pic, at, c);
    RowsLength(p, pic, Top(p, at), Left(l, c, at), w, i);
    MembershipGrows(l, c + 1, |l.planes|);
    NextMembership(l, c);
    Ordered(w, i + 1, McuHeight(l, c));
    assert w * (i + 1) == w * i + w;
  }

  lemma NextMembership(l: Layout, c: nat)
    requires c < |l.planes|
    ensures |Membership(l, c + 1)| == |Membership(l, c)| + McuWidth(l, c) * McuHeight(l, c)
  {
  }

  /** The scan's components are among those of the image. */
  ghost predicate ScanOf(l: Layout, planes: seq<Plane>) {
    && (forall c :: 0 <= c < |l.planes| ==> l.planes[c].index < |planes| && planes[l.planes[c].index] == l.planes[c])
    && (forall c :: 0 <= c < |planes| ==> planes[c].index == c && Fills(planes[c], l.across, l.down))
  }

  /** An encoder behind the sink is set up for the MCUs of the scan. */
  ghost predicate CoderFits(l: Layout, sink: McuSink)
    requires ValidLayout(l)
  {
    sink.coder != null ==> sink.coder.scan.membership == Membership(l, |l.planes|)
  }

  lemma NothingSent(l: Layout, pic: Picture, s: seq<Mcu>)
    requires ValidLayout(l)
    ensures 0 < l.down && Before(l, RowNumber(l, 0, 0), 0) == 0 <= StreamLength(l) && s == s + Stream(l, pic)[..0]
  {
    assert Fills(l.planes[0], l.across, l.down);
  }

  class CoefController {
    var l: Layout                     // of the current scan
    const planes: seq<Plane>
    const mode: Mode
    const pic: Picture                // the blocks of the image
    const whole: seq<array2<Block>>
    const mcuBuffer: array<Block>
    const dummyBuffer: array<Block>
    const sink: McuSink
    var imcuRowNum: nat
    var mcuCtr: nat
    var mcuVertOffset: nat
    var mcuRowsPerImcuRow: nat

    ghost var start: seq<Mcu>         // what was sent before the scan
    ghost var loaded: nat             // interleaved MCU rows of the full-image buffer filled

    /** What does not change. */
    ghost predicate Shape()
      reads `l
    {
      && ValidLayout(l) && |Membership(l, |l.planes|)| <= C_MAX_BLOCKS_IN_MCU
      && mcuBuffer.Length == dummyBuffer.Length == C_MAX_BLOCKS_IN_MCU && mcuBuffer != dummyBuffer
      && ScanOf(l, planes) && CoderFits(l, sink)
      && forall i, j :: 0 <= i < j < |whole| ==> whole[i] != whole[j]
    }

    ghost predicate BuffersReady()
      reads `l, `loaded, whole, dummyBuffer
    {
      && ArraysHold(mode, planes, l, pic, whole, loaded)
      && forall j :: 0 <= j < dummyBuffer.Length ==> AcZero(dummyBuffer[j])
    }

    /** The next MCU row, counted over the whole scan. */
    ghost function NextRow(): nat
      requires ValidLayout(l)
      reads this
    {
      if imcuRowNum < l.down then RowNumber(l, imcuRowNum, mcuVertOffset) else McuRows(l)
    }

    /** The MCUs of `n` rows and `col` columns more have been taken. */
    ghost predicate Sent(n: nat, col: nat)
      requires ValidLayout(l)
      reads `l, `start, sink
    {
      Before(l, n, col) <= StreamLength(l) && sink.sent == start + Stream(l, pic)[..Before(l, n, col)]
    }

    ghost predicate Valid()
      reads this, sink, sink.coder, whole, dummyBuffer
    {
      && Shape() && BuffersReady() && sink.Valid() && imcuRowNum <= l.down && loaded <= l.down
      && (imcuRowNum < l.down ==>
            mcuRowsPerImcuRow == RowsIn(l, imcuRowNum) && mcuVertOffset < mcuRowsPerImcuRow && mcuCtr < McusPerRow(l))
      && (imcuRowNum == l.down ==> mcuCtr == 0)
      && Sent(NextRow(), mcuCtr)
    }

    /** Make the controller and start the first scan.  The full-image buffer is still to be filled. */
    constructor (l: Layout, planes: seq<Plane>, mode: Mode, pic: Picture, whole: seq<array2<Block>>, sink: McuSink)
      requires ValidLayout(l) && |Membership(l, |l.planes|)| <= C_MAX_BLOCKS_IN_MCU && ScanOf(l, planes)
      requires sink.Valid() && CoderFits(l, sink)
      requires ArraysHold(mode, planes, l, pic, whole, 0) && forall i, j :: 0 <= i < j < |whole| ==>
        whole[i] != whole[j]
      ensures Valid() && fresh(mcuBuffer) && fresh(dummyBuffer) && start == sink.sent && imcuRowNum == 0 && loaded == 0
      ensures this.l == l && this.planes == planes && this.mode == mode && this.pic == pic && this.whole == whole
      ensures this.sink == sink
    {
      NothingSent(l, pic, sink.sent);
      hide *;
      this.l, this.planes, this.mode, this.pic, this.whole, this.sink := l, planes, mode, pic, whole, sink;
      mcuBuffer := new Block[C_MAX_BLOCKS_IN_MCU](_ => seq(64, _ => 0));
      dummyBuffer := new Block[C_MAX_BLOCKS_IN_MCU](_ => seq(64, _ => 0));
      imcuRowNum, mcuCtr, mcuVertOffset := 0, 0, 0;
      mcuRowsPerImcuRow := RowsIn(l, 0);
      start, loaded := sink.sent, 0;
      new;
      Started();
    }

    /** A new controller is at the top of the image. */
    lemma Started()
      requires Shape() && ArraysHold(mode, planes, l, pic, whole, 0) && sink.Valid()
      requires forall j :: 0 <= j < dummyBuffer.Length ==> dummyBuffer[j] == seq(64, _ => 0)
      requires imcuRowNum == mcuCtr == mcuVertOffset == 0 < l.down && mcuRowsPerImcuRow == RowsIn(l, 0)
      requires start == sink.sent && loaded == 0
      ensures Valid()
    {
      hide Stream, StreamLength, Before, Membership, ArraysHold, McusPerRow, McuRows, RowNumber, RowsIn, sink.Valid,
        CoderFits, ScanOf;
      NothingSent(l, pic, sink.sent);
    }

    /** Reset the counters for a new interleaved MCU row; at the bottom, only what is left is processed. */
    method StartImcuRow()
      requires ValidLayout(l)
      modifies `mcuCtr, `mcuVertOffset, `mcuRowsPerImcuRow
      ensures mcuCtr == 0 && mcuVertOffset == 0 && (imcuRowNum < l.down ==> mcuRowsPerImcuRow == RowsIn(l, imcuRowNum))
    {
      if |l.planes| > 1 {
        mcuRowsPerImcuRow := 1;
      } else if imcuRowNum < l.down - 1 {
        mcuRowsPerImcuRow := l.planes[0].v;
      } else {
        mcuRowsPerImcuRow := LastRows(l.planes[0], l.down);
      }
      mcuCtr := 0;
      mcuVertOffset := 0;
    }

    /** Start a pass over the same image. */
    method StartPass(next: Layout)
      requires Valid() && ValidLayout(next) && |Membership(next, |next.planes|)| <= C_MAX_BLOCKS_IN_MCU
      requires next.across == l.across && next.down == l.down && ScanOf(next, planes) && CoderFits(next, sink)
      modifies this
      ensures Valid() && l == next && start == sink.sent && imcuRowNum == 0 && loaded == old(loaded)
    {
      hide Stream, StreamLength, Before, Membership, HoldsPadded, HoldsReal, McusPerRow, McuRows, AcZero;
      l := next;
      imcuRowNum := 0;
      StartImcuRow();
      start := sink.sent;
      NothingSent(l, pic, start);
    }

    /** One row of a component's blocks, from wherever the mode takes them. */
    method FillRow(at: Place, c: nat, i: nat, blkn: nat)
      requires Shape() && BuffersReady() && Inside(l, at) && c < |l.planes| && i < McuHeight(l, c)
      requires blkn + McuWidth(l, c) <= mcuBuffer.Length
      requires 0 < l.planes[c].width && 0 < l.planes[c].height && 0 < l.planes[c].h && at.r < l.down
      requires mode == Buffered ==> at.r < loaded
      requires i > 0 ==>
        blkn > 0 && mcuBuffer[blkn - 1] == Padded(l.planes[c], pic, Top(l.planes[c], at) + i - 1,
          Left(l, c, at) + McuWidth(l, c) - 1)
      modifies mcuBuffer, dummyBuffer
      ensures BuffersReady()
      ensures RowFilled(mcuBuffer, blkn, l.planes[c], pic, Top(l.planes[c], at) + i, Left(l, c, at), McuWidth(l, c))
    {
      hide Padded, RowBlocks, Top, Left, RowsIn, Fills, Membership, AcZero;
      var p := l.planes[c];
      match mode {
        case Samples =>
          RowFromSamples(l, pic, at, c, i, mcuBuffer, blkn);
        case Buffered =>
          InsideArrays(l, c, at, i, loaded);
          RowFromBuffer(p, pic, whole[p.index], Top(p, at) + i, Left(l, c, at), McuWidth(l, c), mcuBuffer, blkn);
        case Transcoded =>
          RowTranscoded(at, c, i, blkn);
      }
    }

    /** From the arrays of a transcoder, which hold real blocks only. */
    method RowTranscoded(at: Place, c: nat, i: nat, blkn: nat)
      requires Shape() && BuffersReady() && Inside(l, at) && c < |l.planes| && i < McuHeight(l, c)
      requires blkn + McuWidth(l, c) <= mcuBuffer.Length
      requires 0 < l.planes[c].width && 0 < l.planes[c].height && 0 < l.planes[c].h && mode == Transcoded
      requires i > 0 ==>
        blkn > 0 && mcuBuffer[blkn - 1] == Padded(l.planes[c], pic, Top(l.planes[c], at) + i - 1,
          Left(l, c, at) + McuWidth(l, c) - 1)
      modifies mcuBuffer, dummyBuffer
      ensures BuffersReady()
      ensures RowFilled(mcuBuffer, blkn, l.planes[c], pic, Top(l.planes[c], at) + i, Left(l, c, at), McuWidth(l, c))
    {
      hide Padded, RowBlocks, Top, Left, RowsIn, RealRowOf, BottomRowOf, Fills, Membership, AcZero;
      var p := l.planes[c];
      var isReal := RealRow(l, c, at, i);
      RealCorner(l, c, at, i);
      if isReal {
        RealRowBlocks(l, pic, c, at, i);
      } else {
        BottomRowBlocks(l, pic, c, at, i);
      }
      RowFromCoefficients(p, pic, whole[p.index], Top(p, at) + i, Left(l, c, at), McuWidth(l, c),
                          if isReal then BlockCount(l, c, at) else 0, isReal, mcuBuffer, blkn, dummyBuffer);
    }

    /** Make the MCU at a place. */
    method FillMcu(at: Place) returns (blkn: nat)
      requires Shape() && BuffersReady() && Inside(l, at) && (mode == Buffered ==> at.r < loaded)
      modifies mcuBuffer, dummyBuffer
      ensures BuffersReady() && blkn <= mcuBuffer.Length && mcuBuffer[..blkn] == McuAt(l, pic, at)
    {
      hide BuffersReady, ScanOf, Membership, Inside;
      blkn := 0;
      for ci := 0 to |l.planes|
        invariant BuffersReady() && blkn <= mcuBuffer.Length && mcuBuffer[..blkn] == McuBlocks(l, pic, at, ci)
      {
        blkn := FillComponent(at, ci, blkn);
      }
    }

    /** The blocks of one component. */
    method FillComponent(at: Place, ci: nat, blkn0: nat) returns (blkn: nat)
      requires Shape() && BuffersReady() && Inside(l, at) && (mode == Buffered ==> at.r < loaded) && ci < |l.planes|
      requires blkn0 <= mcuBuffer.Length && mcuBuffer[..blkn0] == McuBlocks(l, pic, at, ci)
      modifies mcuBuffer, dummyBuffer
      ensures BuffersReady() && blkn <= mcuBuffer.Length && mcuBuffer[..blkn] == McuBlocks(l, pic, at, ci + 1)
    {
      hide Padded, RowBlocks, Top, Left, RowsIn, Fills, Membership, BuffersReady, Partial, ScanOf, McuBlocks,
        BlockCount, CoderFits;
      blkn := blkn0;
      LastGroup(l, ci);
      PartialStart(l, pic, at, ci);
      for yindex := 0 to McuHeight(l, ci)
        invariant BuffersReady() && blkn <= mcuBuffer.Length && mcuBuffer[..blkn] == Partial(l, pic, at, ci, yindex)
      {
        PartialRoom(l, pic, at, ci, yindex);
        ghost var now := mcuBuffer[..blkn];
        FillRow(at, ci, yindex, blkn);
        RowAdded(l, pic, at, ci, yindex, now, mcuBuffer[blkn..blkn + McuWidth(l, ci)]);
        blkn := blkn + McuWidth(l, ci);
        assert mcuBuffer[..blkn] == now + mcuBuffer[blkn - McuWidth(l, ci)..blkn];
      }
      PartialEnd(l, pic, at, ci);
    }

    /** Make an MCU and hand it over. */
    method OfferMcu(yoffset: nat, col: nat) returns (ok: bool)
      requires Shape() && BuffersReady() && sink.Valid() && Inside(l, Place(imcuRowNum, yoffset, col))
      requires (mode == Buffered ==> imcuRowNum < loaded) && Sent(RowNumber(l, imcuRowNum, yoffset), col)
      modifies sink, sink.coder, mcuBuffer, dummyBuffer
      ensures BuffersReady() && sink.Valid() && Sent(RowNumber(l, imcuRowNum, yoffset), if ok then col + 1 else col)
      ensures |sink.answers| <= |old(sink.answers)|
      ensures (!ok && sink.coder == null ==> |sink.answers| < |old(sink.answers)|)
    {
      hide Stream, StreamLength, McuAt, Before, RowNumber, RowsIn, BuffersReady, Fills, sink.Valid, CoderFits, Shape;
      LayoutValid();
      ghost var at := Place(imcuRowNum, yoffset, col);
      var n := FillMcu(Place(imcuRowNum, yoffset, col));
      StreamNext(l, pic, at);
      McuFits(l, pic, at, sink);
      OneMore(l, RowNumber(l, imcuRowNum, yoffset), col);
      ok := sink.EncodeMcu(mcuBuffer[..n]);
    }

    /** Hand over MCUs up to the end of the interleaved MCU row; if one is refused, remember where to go on. */
    method Compress() returns (done: bool)
      requires Valid() && imcuRowNum < l.down && (mode == Buffered ==> imcuRowNum < loaded)
      modifies this, sink, sink.coder, mcuBuffer, dummyBuffer
      ensures Valid() && l == old(l) && start == old(start) && loaded == old(loaded)
      ensures imcuRowNum == if done then old(imcuRowNum) + 1 else old(imcuRowNum)
      ensures |sink.answers| <= |old(sink.answers)|
      ensures (!done && sink.coder == null ==> |sink.answers| < |old(sink.answers)|)
    {
      hide Stream, StreamLength, McuAt, Before, RowNumber, RowsIn, Shape, BuffersReady, Fills, sink.Valid, CoderFits;
      LayoutValid();
      for yoffset := mcuVertOffset to mcuRowsPerImcuRow
        invariant Shape() && BuffersReady() && sink.Valid() && l == old(l) && start == old(start)
        invariant loaded == old(loaded) && imcuRowNum == old(imcuRowNum)
        invariant mcuRowsPerImcuRow == RowsIn(l, imcuRowNum) && mcuCtr < McusPerRow(l)
        invariant yoffset > old(mcuVertOffset) ==> mcuCtr == 0
        invariant |sink.answers| <= |old(sink.answers)|
        invariant Sent(RowNumber(l, imcuRowNum, yoffset), mcuCtr)
      {
        for col := mcuCtr to McusPerRow(l)
          invariant Shape() && BuffersReady() && sink.Valid() && l == old(l) && start == old(start)
          invariant loaded == old(loaded) && imcuRowNum == old(imcuRowNum)
          invariant mcuRowsPerImcuRow == RowsIn(l, imcuRowNum) && |sink.answers| <= |old(sink.answers)|
          invariant Sent(RowNumber(l, imcuRowNum, yoffset), col)
        {
          var ok := OfferMcu(yoffset, col);
          if !ok {
            mcuVertOffset := yoffset;
            mcuCtr := col;
            return false;
          }
        }
        mcuCtr := 0;
        NextMcuRow(l, imcuRowNum, yoffset);
      }
      LastMcuRow(l, imcuRowNum);
      imcuRowNum := imcuRowNum + 1;
      StartImcuRow();
      done := true;
    }

    /** First pass of several: fill the buffer's rows for this interleaved MCU row, then hand over MCUs.  After a
        refusal the rows are filled again. */
    method CompressFirstPass() returns (done: bool)
      requires Valid() && imcuRowNum < l.down && mode == Buffered && imcuRowNum <= loaded
      modifies this, sink, sink.coder, mcuBuffer, dummyBuffer, whole
      ensures Valid() && l == old(l) && start == old(start) && imcuRowNum <= loaded
      ensures imcuRowNum == if done then old(imcuRowNum) + 1 else old(imcuRowNum)
      ensures |sink.answers| <= |old(sink.answers)|
      ensures (!done && sink.coder == null ==> |sink.answers| < |old(sink.answers)|)
    {
      LoadStrip();
      done := Compress();
    }

    method LoadStrip()
      requires Valid() && imcuRowNum < l.down && mode == Buffered && imcuRowNum <= loaded
      modifies `loaded, whole
      ensures Valid() && imcuRowNum < loaded
    {
      hide HoldsPadded, Sent, RowNumber, RowsIn, McuRows, AcZero, Membership, sink.Valid, CoderFits, Stream;
      LoadPlanes(planes, pic, whole, imcuRowNum, loaded, l);
      if imcuRowNum == loaded {
        loaded := imcuRowNum + 1;
      }
    }

    lemma LayoutValid()
      requires Shape()
      ensures ValidLayout(l) && CoderFits(l, sink)
    {
    }
  }

  /** A row of an array holds the padded image's. */
  ghost predicate RowHeld(p: Plane, pic: Picture, a: array2<Block>, row: nat, n: nat)
    reads a
  {
    && 0 < p.width && 0 < p.height && 0 < p.h && row < a.Length0 && n <= a.Length1
    && forall j :: 0 <= j < n ==> a[row, j] == Padded(p, pic, row, j)
  }

  /** Real blocks, then dummies at the right edge. */
  method RealArrayRow(p: Plane, pic: Picture, a: array2<Block>, row: nat, ndummy: nat)
    requires 0 < p.width && 0 < p.h && row < p.height && row < a.Length0 && p.width + ndummy <= a.Length1
    modifies a
    ensures RowHeld(p, pic, a, row, p.width + ndummy)
    ensures forall i, j :: 0 <= i < a.Length0 && 0 <= j < a.Length1 && i != row ==> a[i, j] == old(a[i, j])
  {
    for j := 0 to p.width
      invariant forall k :: 0 <= k < j ==> a[row, k] == Padded(p, pic, row, k)
      invariant forall i, k :: 0 <= i < a.Length0 && 0 <= k < a.Length1 && i != row ==> a[i, k] == old(a[i, k])
    {
      a[row, j] := pic(p.index, row, j);
    }
    var lastDc := a[row, p.width - 1][0];
    for bi := 0 to ndummy
      invariant forall k :: 0 <= k < p.width + bi ==> a[row, k] == Padded(p, pic, row, k)
      invariant forall i, k :: 0 <= i < a.Length0 && 0 <= k < a.Length1 && i != row ==> a[i, k] == old(a[i, k])
    {
      a[row, p.width + bi] := seq(64, _ => 0);
      a[row, p.width + bi] := a[row, p.width + bi][0 := lastDc];
      assert a[row, p.width + bi] == Dummy(lastDc);
    }
  }

  /** Dummy blocks below the image: in every MCU they repeat the DC value of its last block above. */
  method DummyArrayRow(p: Plane, pic: Picture, a: array2<Block>, row: nat, across: nat)
    requires 0 < row && p.height <= row && RowHeld(p, pic, a, row - 1, p.h * across) && row < a.Length0
    modifies a
    ensures RowHeld(p, pic, a, row, p.h * across)
    ensures forall i, j :: 0 <= i < a.Length0 && 0 <= j < a.Length1 && i != row ==> a[i, j] == old(a[i, j])
  {
    hide Padded;
    var base := 0;
    for mcuIndex := 0 to across
      invariant base == p.h * mcuIndex <= a.Length1
      invariant forall k :: 0 <= k < base ==> a[row, k] == Padded(p, pic, row, k)
      invariant forall i, j :: 0 <= i < a.Length0 && 0 <= j < a.Length1 && i != row ==> a[i, j] == old(a[i, j])
    {
      Ordered(p.h, mcuIndex + 1, across);
      assert p.h * (mcuIndex + 1) == base + p.h;
      DummyGroup(p, pic, a, row, base, mcuIndex);
      base := base + p.h;
    }
  }

  method DummyGroup(p: Plane, pic: Picture, a: array2<Block>, row: nat, base: nat, ghost g: nat)
    requires 0 < p.width && 0 < p.height <= row < a.Length0 && 0 < p.h && base == p.h * g && base + p.h <= a.Length1
    requires a[row - 1, base + p.h - 1] == Padded(p, pic, row - 1, base + p.h - 1)
    modifies a
    ensures forall k :: base <= k < base + p.h ==> a[row, k] == Padded(p, pic, row, k)
    ensures forall i, j :: 0 <= i < a.Length0 && 0 <= j < a.Length1 && (i != row || j < base || base + p.h <= j) ==>
      a[i, j] == old(a[i, j])
  {
    var lastDc := a[row - 1, base + p.h - 1][0];
    hide *;
    for bi := 0 to p.h
      invariant forall k :: base <= k < base + bi ==> a[row, k] == Padded(p, pic, row, k)
      invariant forall i, j ::
        0 <= i < a.Length0 && 0 <= j < a.Length1 && (i != row || j < base || base + p.h <= j) ==>
          a[i, j] == old(a[i, j])
    {
      a[row, base + bi] := seq(64, _ => 0);
      a[row, base + bi] := a[row, base + bi][0 := lastDc];
      GroupDummy(p, pic, row, base, g, bi);
      DummyIs(a[row, base + bi], lastDc);
    }
  }

  lemma DummyIs(b: Block, dc: Coef)
    requires b[0] == dc && forall k :: 1 <= k < 64 ==> b[k] == 0
    ensures b == Dummy(dc)
  {
  }

  lemma GroupDummy(p: Plane, pic: Picture, row: nat, base: nat, g: nat, i: nat)
    requires 0 < p.width && 0 < p.height <= row && 0 < p.h && base == p.h * g && i < p.h
    ensures Padded(p, pic, row, base + i) == Dummy(Padded(p, pic, row - 1, base + p.h - 1)[0])
  {
    assert p.h * g == g * p.h;
    GroupOf(p.h, g, i);
  }

  /** One block row, whether it is within the image or below. */
  method LoadArrayRow(p: Plane, pic: Picture, a: array2<Block>, row: nat, isReal: bool, ndummy: nat, ghost n: nat,
      l: Layout)
    requires HoldsPadded(p, l.across, l.down, pic, a, n) && HoldsPadded(p, l.across, l.down, pic, a, row)
    requires row < p.v * l.down
    requires p.width + ndummy == p.h * l.across
    requires isReal <==> row < p.height
    requires !isReal ==> 0 < row
    modifies a
    ensures HoldsPadded(p, l.across, l.down, pic, a, n) && HoldsPadded(p, l.across, l.down, pic, a, row + 1)
  {
    hide Padded;
    if isReal {
      RealArrayRow(p, pic, a, row, ndummy);
    } else {
      DummyArrayRow(p, pic, a, row, l.across);
    }
  }

  /** Fill v block rows of a component's array: real blocks, then dummies at the right; at the bottom of the image
      dummy rows, MCU by MCU. */
  method LoadComponent(p: Plane, pic: Picture, a: array2<Block>, r: nat, ghost had: nat, l: Layout)
    requires Fills(p, l.across, l.down) && r < l.down && r <= had <= l.down
    requires HoldsPadded(p, l.across, l.down, pic, a, p.v * had)
    modifies a
    ensures HoldsPadded(p, l.across, l.down, pic, a, p.v * (r + 1))
    ensures HoldsPadded(p, l.across, l.down, pic, a, p.v * had)
  {
    var blockRows := if r < l.down - 1 then p.v else LastRows(p, l.down);
    RealOrNot(p, r, l);
    hide Padded, HoldsPadded, Fills, LastRows;
    var ndummy := DummiesAtEdge(p, l);
    StripRows(p, r, had, l.down);
    FewerRows(p, l, pic, a, p.v * had, p.v * r);
    LoadArrayRows(p, pic, a, p.v * r, blockRows, ndummy, p.v * had, l);
  }

  method LoadArrayRows(p: Plane, pic: Picture, a: array2<Block>, first: nat, blockRows: nat, ndummy: nat, ghost n: nat,
      l: Layout)
    requires HoldsPadded(p, l.across, l.down, pic, a, n) && HoldsPadded(p, l.across, l.down, pic, a, first)
    requires first + p.v <= p.v * l.down && p.width + ndummy == p.h * l.across
    requires 1 <= blockRows <= p.v && first + blockRows <= p.height
    requires (blockRows < p.v ==> first + blockRows == p.height)
    modifies a
    ensures HoldsPadded(p, l.across, l.down, pic, a, n) && HoldsPadded(p, l.across, l.down, pic, a, first + p.v)
  {
    hide Padded, HoldsPadded;
    for blockRow := 0 to p.v
      invariant HoldsPadded(p, l.across, l.down, pic, a, n)
      invariant HoldsPadded(p, l.across, l.down, pic, a, first + blockRow)
    {
      LoadArrayRow(p, pic, a, first + blockRow, blockRow < blockRows, ndummy, n, l);
    }
  }

  /** Dummy blocks that make the last MCU of a row complete. */
  method DummiesAtEdge(p: Plane, l: Layout) returns (ndummy: nat)
    requires Fills(p, l.across, l.down)
    ensures p.width + ndummy == p.h * l.across
  {
    ndummy := p.width % p.h;
    if ndummy > 0 {
      ndummy := p.h - ndummy;
    }
    LastPartIs(p.width, p.h, l.across);
  }

  /** The same for every component of the image. */
  method LoadPlanes(planes: seq<Plane>, pic: Picture, whole: seq<array2<Block>>, r: nat, ghost had: nat, l: Layout)
    requires |whole| == |planes| && (forall i, j :: 0 <= i < j < |whole| ==> whole[i] != whole[j]) && r < l.down
    requires r <= had <= l.down
    requires forall c :: 0 <= c < |planes| ==>
      Fills(planes[c], l.across, l.down) && HoldsPadded(planes[c], l.across, l.down, pic, whole[c], planes[c].v * had)
    modifies whole
    ensures forall c :: 0 <= c < |planes| ==>
      HoldsPadded(planes[c], l.across, l.down, pic, whole[c], planes[c].v * (r + 1))
        && HoldsPadded(planes[c], l.across, l.down, pic, whole[c], planes[c].v * had)
  {
    hide HoldsPadded, Fills;
    for ci := 0 to |planes|
      invariant forall c :: 0 <= c < ci ==>
        HoldsPadded(planes[c], l.across, l.down, pic, whole[c], planes[c].v * (r + 1))
      invariant forall c :: 0 <= c < |planes| ==>
        HoldsPadded(planes[c], l.across, l.down, pic, whole[c], planes[c].v * had)
    {
      LoadComponent(planes[ci], pic, whole[ci], r, had, l);
    }
  }

  lemma StripRows(p: Plane, r: nat, had: nat, down: nat)
    requires r < down && r <= had <= down
    ensures p.v * r <= p.v * had && p.v * (r + 1) == p.v * r + p.v <= p.v * down
  {
    Ordered2(p.v, r, had);
    Ordered2(p.v, r + 1, down);
  }

  lemma FewerRows(p: Plane, l: Layout, pic: Picture, a: array2<Block>, n: nat, m: nat)
    requires HoldsPadded(p, l.across, l.down, pic, a, n) && m <= n
    ensures HoldsPadded(p, l.across, l.down, pic, a, m)
  {
    hide Padded;
  }

  /** Which block rows of a strip are within the image. */
  lemma RealOrNot(p: Plane, r: nat, l: Layout)
    requires Fills(p, l.across, l.down) && r < l.down
    ensures var blockRows := if r < l.down - 1 then p.v else LastRows(p, l.down);
      && 1 <= blockRows <= p.v && p.v * r + blockRows <= p.height
      && (blockRows < p.v ==> p.v * r + blockRows == p.height)
  {
    if r < l.down - 1 {
      Ordered(p.v, r + 1, l.down - 1);
      assert p.v * (r + 1) == p.v * r + p.v;
    }
  }

  lemma PartialStart(l: Layout, pic: Picture, at: Place, c: nat)
    requires ValidLayout(l) && c < |l.planes| && 0 < l.planes[c].width && 0 < l.planes[c].height && 0 < l.planes[c].h
    ensures Partial(l, pic, at, c, 0) == McuBlocks(l, pic, at, c)
  {
  }

  lemma PartialEnd(l: Layout, pic: Picture, at: Place, c: nat)
    requires ValidLayout(l) && c < |l.planes| && 0 < l.planes[c].width && 0 < l.planes[c].height && 0 < l.planes[c].h
    ensures Partial(l, pic, at, c, McuHeight(l, c)) == McuBlocks(l, pic, at, c + 1)
  {
  }

  lemma McuFits(l: Layout, pic: Picture, at: Place, sink: McuSink)
    requires ValidLayout(l) && CoderFits(l, sink)
    ensures sink.Takes(McuAt(l, pic, at))
  {
    McuLength(l, pic, at, |l.planes|);
  }

  lemma OneMore(l: Layout, row: nat, col: nat)
    requires ValidLayout(l)
    ensures Before(l, row, col + 1) == Before(l, row, col) + 1
  {
  }

  lemma LastMcuRow(l: Layout, r: nat)
    requires ValidLayout(l) && r < l.down
    ensures RowNumber(l, r, RowsIn(l, r)) == if r + 1 < l.down then RowNumber(l, r + 1, 0) else McuRows(l)
  {
    RowAfter(l, r);
  }

  lemma NextMcuRow(l: Layout, r: nat, y: nat)
    requires ValidLayout(l) && r < l.down && y < RowsIn(l, r)
    ensures Before(l, RowNumber(l, r, y), McusPerRow(l)) == Before(l, RowNumber(l, r, y + 1), 0)
  {
    RowDone(l, RowNumber(l, r, y));
  }

  /** The real blocks of a row lie within the image. */
  lemma RealCorner(l: Layout, c: nat, at: Place, i: nat)
    requires ValidLayout(l) && Inside(l, at) && c < |l.planes| && i < McuHeight(l, c)
    ensures RealRow(l, c, at, i) ==> Top(l.planes[c], at) + i < l.planes[c].height
    ensures Left(l, c, at) + BlockCount(l, c, at) <= l.planes[c].width
  {
    hide Top, Left;
    RealRows(l, c, at, i);
    RealColumns(l, c, at, BlockCount(l, c, at) - 1);
  }

  // ----- one stream -----

  /** Whatever refused MCUs there were, and wherever its blocks come from, a controller that has reached the end of
      the image has handed over the scan's MCUs, each once and in order. */
  lemma WholeScan(c: CoefController)
    requires c.Valid() && c.imcuRowNum == c.l.down
    ensures c.sink.sent == c.start + Stream(c.l, c.pic)
  {
    hide Stream;
    RowDone(c.l, 0);
    assert Stream(c.l, c.pic)[..StreamLength(c.l)] == Stream(c.l, c.pic);
  }

  /** Two controllers at the same place of the same scan have handed over the same. */
  lemma SameMcus(a: CoefController, b: CoefController)
    requires a.Valid() && b.Valid() && a.l == b.l && a.pic == b.pic
    requires a.imcuRowNum == b.imcuRowNum && a.mcuVertOffset == b.mcuVertOffset && a.mcuCtr == b.mcuCtr
    ensures a.start <= a.sink.sent && b.start <= b.sink.sent && a.sink.sent[|a.start|..] == b.sink.sent[|b.start|..]
  {
    hide Stream, RowNumber, Before;
  }
}
