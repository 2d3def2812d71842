/** The controllers' order of blocks is one that progressive reconstruction asks for: every scan visits every real
    block of its components exactly once, and blocks outside the image only in scans of DC coefficients. */
module ScanTours {
  import opened Powers
  import opened Coefficients
  import opened ImageGeometry
  import opened McuStream
  import opened ScanScript
  import McuCoding
  import Run = ProgressiveRun

  // ----- blocks of an MCU by index -----

  /** Where the blocks of component c start in an MCU. */
  function Offset(l: Layout, c: nat): nat
    requires c <= |l.planes|
  {
    |Membership(l, c)|
  }

  lemma OffsetNext(l: Layout, c: nat)
    requires c < |l.planes|
    ensures Offset(l, c + 1) == Offset(l, c) + McuWidth(l, c) * McuHeight(l, c)
  {
  }

  lemma {:induction false} MemberAt(l: Layout, n: nat, c: nat, j: nat)
    requires c < n <= |l.planes| && j < McuWidth(l, c) * McuHeight(l, c)
    ensures Offset(l, c) + j < Offset(l, n) && Membership(l, n)[Offset(l, c) + j] == c
    decreases n
  {
    OffsetNext(l, n - 1);
    if c < n - 1 {
      MemberAt(l, n - 1, c, j);
    }
  }

  lemma {:induction false} MemberRange(l: Layout, n: nat, i: nat)
    requires n <= |l.planes| && i < Offset(l, n)
    ensures var c := Membership(l, n)[i];
      c < n && Offset(l, c) <= i < Offset(l, c) + McuWidth(l, c) * McuHeight(l, c)
    decreases n
  {
    OffsetNext(l, n - 1);
    if i < Offset(l, n - 1) {
      MemberRange(l, n - 1, i);
    }
  }

  /** Block rows and columns within an MCU. */
  lemma WithinMcu(w: nat, h: nat, j: nat)
    requires j < w * h
    ensures 0 < w && 0 <= j / w < h && j == j / w * w + j % w
  {
    if w == 0 {
      NotPositive(h + 1, 0);
      assert false;
    }
    Quotient(j, w);
    if j / w >= h {
      Ordered(w, h, j / w);
    }
  }

  lemma {:induction false} RowsAt(p: Plane, pic: Picture, top: nat, left: nat, w: nat, n: nat, y: nat, x: nat)
    requires 0 < p.width && 0 < p.height && 0 < p.h && y < n && x < w
    ensures y * w + x < |RowsBlocks(p, pic, top, left, w, n)|
    ensures RowsBlocks(p, pic, top, left, w, n)[y * w + x] == Padded(p, pic, top + y, left + x)
    decreases n
  {
    hide Padded;
    RowsLength(p, pic, top, left, w, n);
    RowsLength(p, pic, top, left, w, n - 1);
    Commute(w, y);
    Commute(w, n - 1);
    Ordered(w, y + 1, n);
    assert w * (y + 1) == w * y + w;
    if y < n - 1 {
      Ordered(w, y + 1, n - 1);
      RowsAt(p, pic, top, left, w, n - 1, y, x);
    }
  }

  lemma Commute(x: int, y: int)
    ensures x * y == y * x
  {
  }

  /** A block of an MCU. */
  lemma {:induction false} McuBlockAt(l: Layout, pic: Picture, at: Place, n: nat, c: nat, j: nat)
    requires ValidLayout(l) && c < n <= |l.planes| && j < McuWidth(l, c) * McuHeight(l, c)
    ensures 0 < l.planes[c].width && 0 < l.planes[c].height && 0 < l.planes[c].h && 0 < McuWidth(l, c)
    ensures 0 <= j / McuWidth(l, c) && Offset(l, c) + j < |McuBlocks(l, pic, at, n)|
    ensures McuBlocks(l, pic, at, n)[Offset(l, c) + j]
      == Padded(l.planes[c], pic, Top(l.planes[c], at) + j / McuWidth(l, c), Left(l, c, at) + j % McuWidth(l, c))
    decreases n
  {
    hide Padded, Membership;
    NotEmpty(l.planes[c], l.across, l.down);
    WithinMcu(McuWidth(l, c), McuHeight(l, c), j);
    McuLength(l, pic, at, n);
    McuLength(l, pic, at, n - 1);
    MemberAt(l, n, c, j);
    if c < n - 1 {
      MemberAt(l, n - 1, c, j);
      McuBlockAt(l, pic, at, n - 1, c, j);
    } else {
      var p, w := l.planes[c], McuWidth(l, c);
      RowsAt(p, pic, Top(p, at), Left(l, c, at), w, McuHeight(l, c), j / w, j % w);
    }
  }

  // ----- places of MCUs -----

  function PlaceOf(l: Layout, m: nat): Place
    requires ValidLayout(l)
  {
    Quotient(m, McusPerRow(l));
    var (r, y) := RowPlace(l, m / McusPerRow(l));
    Place(r, y, m % McusPerRow(l))
  }

  lemma PlaceInside(l: Layout, m: nat)
    requires ValidLayout(l) && m < StreamLength(l)
    ensures 0 <= m / McusPerRow(l) < McuRows(l)
    ensures var at := PlaceOf(l, m);
      at.r < l.down && at.y < RowsIn(l, at.r) && at.col < McusPerRow(l)
  {
    WithinMcu(McusPerRow(l), McuRows(l), m);
    var n := m / McusPerRow(l);
    if !Interleaved(l) {
      var p := l.planes[0];
      WithinMcu(p.v, l.down, n);
    }
  }

  /** The block row an MCU starts with. */
  lemma TopOf(l: Layout, c: nat, m: nat)
    requires ValidLayout(l) && c < |l.planes| && m < StreamLength(l)
    ensures 0 <= m / McusPerRow(l) && Top(l.planes[c], PlaceOf(l, m)) == m / McusPerRow(l) * McuHeight(l, c)
  {
    PlaceInside(l, m);
  }

  // ----- visits -----

  /** Blocks across a component padded to whole MCUs. */
  function Stride(p: Plane, across: nat): nat { p.h * across }

  function BlockNumber(p: Plane, across: nat, row: nat, col: nat): nat { row * Stride(p, across) + col }

  /** The padded image, block after block. */
  function PlaneBlocks(p: Plane, pic: Picture, across: nat, down: nat): (r: seq<Block>)
    requires Fills(p, across, down)
    ensures |r| == p.v * down * Stride(p, across)
  {
    NotEmpty(p, across, down);
    Product(p.h, across);
    seq<Block>(p.v * down * Stride(p, across), b requires 0 <= b < p.v * down * Stride(p, across) => NthBlock(p, pic,
      across, down, b))
  }

  function NthBlock(p: Plane, pic: Picture, across: nat, down: nat, b: nat): Block
    requires Fills(p, across, down)
  {
    NotEmpty(p, across, down);
    Product(p.h, across);
    Quotient(b, Stride(p, across));
    Padded(p, pic, b / Stride(p, across), b % Stride(p, across))
  }

  predicate ValidPlanes(planes: seq<Plane>, across: nat, down: nat) {
    forall c :: 0 <= c < |planes| ==> planes[c].index == c && Fills(planes[c], across, down)
  }

  function PaddedImage(planes: seq<Plane>, pic: Picture, across: nat, down: nat): (img: Run.Image)
    requires ValidPlanes(planes, across, down)
    ensures |img| == |planes|
  {
    seq<seq<Block>>(|planes|, c requires 0 <= c < |planes| => PlaneBlocks(planes[c], pic, across, down))
  }

  /** Which block of the image is the i-th of an MCU. */
  function VisitOf(l: Layout, at: Place, i: nat): Run.Position
    requires ValidLayout(l) && i < Offset(l, |l.planes|)
  {
    MemberRange(l, |l.planes|, i);
    var c := Membership(l, |l.planes|)[i];
    var j := i - Offset(l, c);
    WithinMcu(McuWidth(l, c), McuHeight(l, c), j);
    (l.planes[c].index,
     BlockNumber(l.planes[c], l.across, Top(l.planes[c], at) + j / McuWidth(l, c), Left(l, c, at) + j % McuWidth(l, c)))
  }

  function McuVisits(l: Layout, at: Place): (v: seq<Run.Position>)
    requires ValidLayout(l)
    ensures |v| == Offset(l, |l.planes|)
  {
    seq(Offset(l, |l.planes|), i requires 0 <= i < Offset(l, |l.planes|) => VisitOf(l, at, i))
  }

  function Visits(l: Layout): (v: Run.Visits)
    requires ValidLayout(l)
    ensures |v| == StreamLength(l)
  {
    seq(StreamLength(l), m requires 0 <= m < StreamLength(l) => McuVisits(l, PlaceOf(l, m)))
  }

  /** A visit in full: component c, row y and column x of the MCU, and where that is in the image. */
  ghost predicate IsVisit(l: Layout, m: nat, i: nat, c: nat, y: nat, x: nat, row: nat, col: nat)
    requires ValidLayout(l)
  {
    && c < |l.planes| && y < McuHeight(l, c) && x < McuWidth(l, c) && i == Offset(l, c) + (y * McuWidth(l, c) + x)
    && 0 <= m / McusPerRow(l) && 0 <= m % McusPerRow(l)
    && row == m / McusPerRow(l) * McuHeight(l, c) + y && col == m % McusPerRow(l) * McuWidth(l, c) + x
    && row < l.planes[c].v * l.down && col < Stride(l.planes[c], l.across)
  }

  lemma VisitInfo(l: Layout, m: nat, i: nat) returns (c: nat, y: nat, x: nat, row: nat, col: nat)
    requires ValidLayout(l) && m < StreamLength(l) && i < Offset(l, |l.planes|)
    ensures IsVisit(l, m, i, c, y, x, row, col)
    ensures Visits(l)[m][i] == (l.planes[c].index, BlockNumber(l.planes[c], l.across, row, col))
    ensures row == Top(l.planes[c], PlaceOf(l, m)) + y && col == Left(l, c, PlaceOf(l, m)) + x
  {
    hide Top, Membership, RowPlace, Fills, McusPerRow;
    var at := PlaceOf(l, m);
    MemberRange(l, |l.planes|, i);
    c := Membership(l, |l.planes|)[i];
    var j := i - Offset(l, c);
    WithinMcu(McuWidth(l, c), McuHeight(l, c), j);
    y, x := j / McuWidth(l, c), j % McuWidth(l, c);
    row, col := Top(l.planes[c], at) + y, Left(l, c, at) + x;
    TopOf(l, c, m);
    PlaceInside(l, m);
    VisitBounds(l, m, c, y, x);
  }

  lemma VisitBounds(l: Layout, m: nat, c: nat, y: nat, x: nat)
    requires ValidLayout(l) && m < StreamLength(l) && c < |l.planes| && y < McuHeight(l, c) && x < McuWidth(l, c)
    ensures Top(l.planes[c], PlaceOf(l, m)) + y < l.planes[c].v * l.down
    ensures Left(l, c, PlaceOf(l, m)) + x < Stride(l.planes[c], l.across)
  {
    hide Top, Left, RowsIn, McuWidth, McuHeight, Fills, Stride;
    PlaceInside(l, m);
    InsideArrays(l, c, PlaceOf(l, m), y, l.down);
    assert Stride(l.planes[c], l.across) == l.planes[c].h * l.across by { StrideIs(l.planes[c], l.across); }
  }

  lemma StrideIs(p: Plane, across: nat)
    ensures Stride(p, across) == p.h * across
  {
  }

  /** Gathering the blocks visited gives the MCUs of the scan. */
  lemma VisitsGiveStream(l: Layout, planes: seq<Plane>, pic: Picture)
    requires ValidLayout(l) && ValidPlanes(planes, l.across, l.down)
    requires forall c :: 0 <= c < |l.planes| ==>
      l.planes[c].index < |planes| && planes[l.planes[c].index] == l.planes[c]
    ensures Run.VisitsInside(PaddedImage(planes, pic, l.across, l.down), Visits(l))
    ensures Run.Gather(PaddedImage(planes, pic, l.across, l.down), Visits(l)) == Stream(l, pic)
  {
    hide Visits, PaddedImage, Stream, Fills;
    var img := PaddedImage(planes, pic, l.across, l.down);
    forall m, i | 0 <= m < StreamLength(l) && 0 <= i < |Visits(l)[m]|
      ensures Run.Inside(img, Visits(l)[m][i])
      ensures |Stream(l, pic)[m]| == |Visits(l)[m]|
      ensures img[Visits(l)[m][i].0][Visits(l)[m][i].1] == Stream(l, pic)[m][i]
    {
      OneVisit(l, planes, pic, m, i);
    }
    forall m | 0 <= m < StreamLength(l)
      ensures Run.Gather(img, Visits(l))[m] == Stream(l, pic)[m]
    {
      SameLengths(l, pic, m);
    }
  }

  lemma SameLengths(l: Layout, pic: Picture, m: nat)
    requires ValidLayout(l) && m < StreamLength(l)
    ensures |Stream(l, pic)[m]| == |Visits(l)[m]| == Offset(l, |l.planes|)
  {
    McuLength(l, pic, PlaceOf(l, m), |l.planes|);
  }

  lemma OneVisit(l: Layout, planes: seq<Plane>, pic: Picture, m: nat, i: nat)
    requires ValidLayout(l) && ValidPlanes(planes, l.across, l.down) && m < StreamLength(l) && i < |Visits(l)[m]|
    requires forall c :: 0 <= c < |l.planes| ==>
      l.planes[c].index < |planes| && planes[l.planes[c].index] == l.planes[c]
    ensures var img, p := PaddedImage(planes, pic, l.across, l.down), Visits(l)[m][i];
      && Run.Inside(img, p) && |Stream(l, pic)[m]| == |Visits(l)[m]| && img[p.0][p.1] == Stream(l, pic)[m][i]
  {
    hide Visits, PaddedImage, Stream, Padded, Fills;
    SameLengths(l, pic, m);
    var c, y, x, row, col := VisitInfo(l, m, i);
    NotEmpty(l.planes[c], l.across, l.down);
    StreamBlock(l, pic, m, i, c, y, x, row, col);
    ImageBlock(planes, pic, l.across, l.down, l.planes[c].index, row, col);
  }

  lemma StreamBlock(l: Layout, pic: Picture, m: nat, i: nat, c: nat, y: nat, x: nat, row: nat, col: nat)
    requires ValidLayout(l) && m < StreamLength(l) && IsVisit(l, m, i, c, y, x, row, col)
    requires 0 < l.planes[c].width && 0 < l.planes[c].height && 0 < l.planes[c].h && i < |Stream(l, pic)[m]|
    requires row == Top(l.planes[c], PlaceOf(l, m)) + y && col == Left(l, c, PlaceOf(l, m)) + x
    ensures Stream(l, pic)[m][i] == Padded(l.planes[c], pic, row, col)
  {
    hide Padded, Membership, Top, Left, RowPlace, McuBlocks, Fills;
    var w, j := McuWidth(l, c), y * McuWidth(l, c) + x;
    InMcu(w, McuHeight(l, c), y, x);
    McuBlockAt(l, pic, PlaceOf(l, m), |l.planes|, c, j);
    assert Stream(l, pic)[m] == McuAt(l, pic, PlaceOf(l, m));
  }

  lemma ImageBlock(planes: seq<Plane>, pic: Picture, across: nat, down: nat, index: nat, row: nat, col: nat)
    requires ValidPlanes(planes, across, down) && index < |planes| && row < planes[index].v * down
    requires col < Stride(planes[index], across)
    ensures var img, b := PaddedImage(planes, pic, across, down), BlockNumber(planes[index], across, row, col);
      && 0 < planes[index].width && 0 < planes[index].height && 0 < planes[index].h
      && b < |img[index]| && img[index][b] == Padded(planes[index], pic, row, col)
  {
    hide Padded, Stride, BlockNumber;
    var p := planes[index];
    NotEmpty(p, across, down);
    InPlane(p, across, p.v * down, row, col);
  }

  lemma InMcu(w: nat, h: nat, y: nat, x: nat)
    requires y < h && x < w
    ensures y * w + x < w * h && (y * w + x) / w == y && (y * w + x) % w == x
  {
    Commute(y, w);
    Remainder(y * w + x, w, y, x);
    Ordered(w, y + 1, h);
    assert w * (y + 1) == w * y + w;
  }

  lemma InPlane(p: Plane, across: nat, rows: nat, row: nat, col: nat)
    requires row < rows && col < Stride(p, across)
    ensures var b := BlockNumber(p, across, row, col);
      b < rows * Stride(p, across) && b / Stride(p, across) == row && b % Stride(p, across) == col
  {
    InMcu(Stride(p, across), rows, row, col);
    Commute(Stride(p, across), rows);
  }

  // ----- every block once -----

  ghost predicate DistinctPlanes(l: Layout) {
    forall c, d :: 0 <= c < |l.planes| && 0 <= d < |l.planes| && l.planes[c].index == l.planes[d].index ==> c == d
  }

  lemma SamePlace(w: nat, a: nat, x: nat, b: nat, y: nat)
    requires a * w + x == b * w + y && x < w && y < w
    ensures a == b && x == y
  {
    Commute(w, a);
    Commute(w, b);
    Remainder(a * w + x, w, a, x);
    Remainder(b * w + y, w, b, y);
  }

  /** Two visits of the same block are the same visit. */
  lemma VisitOnce(l: Layout, m: nat, i: nat, n: nat, k: nat)
    requires ValidLayout(l) && DistinctPlanes(l) && m < StreamLength(l) && n < StreamLength(l)
    requires i < Offset(l, |l.planes|) && k < Offset(l, |l.planes|) && Visits(l)[m][i] == Visits(l)[n][k]
    ensures m == n && i == k
  {
    var c, y, x, row, col := VisitInfo(l, m, i);
    var d, z, u, row', col' := VisitInfo(l, n, k);
    hide Visits, Membership, Stride, McuWidth, McuHeight;
    assert c == d;
    SamePlace(Stride(l.planes[c], l.across), row, col, row', col');
    SamePlace(McuHeight(l, c), m / McusPerRow(l), y, n / McusPerRow(l), z);
    SamePlace(McuWidth(l, c), m % McusPerRow(l), x, n % McusPerRow(l), u);
    Divided(m, McusPerRow(l));
    Divided(n, McusPerRow(l));
  }

  lemma Divided(m: nat, per: nat)
    requires per > 0
    ensures m == per * (m / per) + m % per
  {
  }

  /** The block at a place of an MCU. */
  ghost function Position(l: Layout, m: nat, c: nat, y: nat, x: nat): Run.Position
    requires ValidLayout(l) && c < |l.planes|
  {
    var p, at := l.planes[c], PlaceOf(l, m);
    (p.index, BlockNumber(p, l.across, Top(p, at) + y, Left(l, c, at) + x))
  }

  ghost predicate VisitedAt(v: Run.Visits, m: nat, i: nat, position: Run.Position) {
    m < |v| && i < |v[m]| && v[m][i] == position
  }

  /** The visit of a block given by its place in the scan. */
  lemma VisitIs(l: Layout, m: nat, c: nat, y: nat, x: nat)
    requires ValidLayout(l) && m < StreamLength(l) && c < |l.planes| && y < McuHeight(l, c) && x < McuWidth(l, c)
    ensures VisitedAt(Visits(l), m, Offset(l, c) + (y * McuWidth(l, c) + x), Position(l, m, c, y, x))
  {
    hide Top, Left, BlockNumber, RowPlace, Membership;
    InMcu(McuWidth(l, c), McuHeight(l, c), y, x);
    MemberAt(l, |l.planes|, c, y * McuWidth(l, c) + x);
  }

  /** The MCU a real block belongs to. */
  lemma RealPlace(l: Layout, c: nat, row: nat, col: nat) returns (m: nat)
    requires ValidLayout(l) && c < |l.planes| && row < l.planes[c].height && col < l.planes[c].width
    requires Interleaved(l) || c == 0
    ensures m < StreamLength(l) && 0 < McuHeight(l, c) && 0 < McuWidth(l, c)
    ensures Top(l.planes[c], PlaceOf(l, m)) + row % McuHeight(l, c) == row
    ensures Left(l, c, PlaceOf(l, m)) + col % McuWidth(l, c) == col
  {
    var h, w, per := McuHeight(l, c), McuWidth(l, c), McusPerRow(l);
    RowsOfMcus(l, c, row, col);
    hide McuHeight, McuWidth, McusPerRow, McuRows, Top, RowPlace, Fills;
    var r, k := row / h, col / w;
    m := r * per + k;
    InMcu(per, McuRows(l), r, k);
    Commute(per, McuRows(l));
    TopOf(l, c, m);
    Divided(row, h);
    Divided(col, w);
    Commute(h, r);
    Commute(w, k);
  }

  /** Every real block is visited. */
  lemma RealVisited(l: Layout, c: nat, row: nat, col: nat)
    requires ValidLayout(l) && c < |l.planes| && row < l.planes[c].height && col < l.planes[c].width
    requires Interleaved(l) || c == 0
    ensures Run.Visited(Visits(l), (l.planes[c].index, BlockNumber(l.planes[c], l.across, row, col)))
  {
    hide Visits, BlockNumber, StreamLength, McuHeight, McuWidth, Top, Left, Fills, Membership, PlaceOf;
    var m := RealPlace(l, c, row, col);
    VisitIs(l, m, c, row % McuHeight(l, c), col % McuWidth(l, c));
  }

  lemma RowsOfMcus(l: Layout, c: nat, row: nat, col: nat)
    requires ValidLayout(l) && c < |l.planes| && row < l.planes[c].height && col < l.planes[c].width
    requires (Interleaved(l) || c == 0)
    ensures 0 <= row / McuHeight(l, c) < McuRows(l) && 0 <= col / McuWidth(l, c) < McusPerRow(l)
  {
    if Interleaved(l) {
      var p := l.planes[c];
      WithinMcu(p.v, l.down, row);
      WithinMcu(p.h, l.across, col);
    }
  }

  /** The real blocks of the image. */
  ghost function Live(planes: seq<Plane>, across: nat): set<Run.Position> {
    set c, row, col | 0 <= c < |planes| && 0 <= row < planes[c].height && 0 <= col < planes[c].width ::
      (c as nat, BlockNumber(planes[c], across, row, col))
  }

  lemma LiveInfo(planes: seq<Plane>, across: nat, p: Run.Position) returns (row: nat, col: nat)
    requires p in Live(planes, across)
    ensures p.0 < |planes| && row < planes[p.0].height && col < planes[p.0].width
    ensures p.1 == BlockNumber(planes[p.0], across, row, col)
  {
    hide BlockNumber;
    var c, r, k :| 0 <= c < |planes| && 0 <= r < planes[c].height && 0 <= k < planes[c].width
      && p == (c as nat, BlockNumber(planes[c], across, r, k));
    row, col := r, k;
  }

  /** A scan of one component visits real blocks only. */
  lemma SingleLive(l: Layout, planes: seq<Plane>, m: nat, i: nat)
    requires ValidLayout(l) && !Interleaved(l) && m < StreamLength(l) && i < Offset(l, |l.planes|)
    requires l.planes[0].index < |planes| && planes[l.planes[0].index] == l.planes[0]
    ensures Visits(l)[m][i] in Live(planes, l.across)
  {
    var c, y, x, row, col := VisitInfo(l, m, i);
    PlaceInside(l, m);
    hide Visits, BlockNumber, Membership;
    assert row < l.planes[0].height && col < l.planes[0].width;
  }

  // ----- scans of a script -----

  function Indexes(comps: seq<int>): (r: seq<nat>)
    requires forall i :: 0 <= i < |comps| ==> 0 <= comps[i]
    ensures |r| == |comps|
  {
    seq(|comps|, i requires 0 <= i < |comps| => comps[i])
  }

  function PlanesOf(g: Geometry): (p: seq<Plane>)
    requires ValidGeometry(g)
    ensures ValidPlanes(p, Across(g), Down(g)) && |p| == |g.comps|
  {
    seq(|g.comps|, c requires 0 <= c < |g.comps| => PlaneOf(g, c))
  }

  function LayoutFor(g: Geometry, info: ScanInfo): (l: Layout)
    requires ValidGeometry(g) && ComponentsOk(|g.comps|, info.comps)
    ensures ValidLayout(l) && |l.planes| == |info.comps| && l.across == Across(g) && l.down == Down(g)
    ensures forall c :: 0 <= c < |l.planes| ==>
      l.planes[c] == PlanesOf(g)[info.comps[c]] && l.planes[c].index == info.comps[c]
  {
    LayoutOf(g, Indexes(info.comps))
  }

  lemma {:induction false} Ascending(n: nat, comps: seq<int>, i: nat, j: nat)
    requires ComponentsOk(n, comps) && i < j < |comps|
    ensures comps[i] < comps[j]
    decreases j
  {
    if i < j - 1 {
      Ascending(n, comps, i, j - 1);
    }
  }

  lemma PlanesDistinct(g: Geometry, info: ScanInfo)
    requires ValidGeometry(g) && ComponentsOk(|g.comps|, info.comps)
    ensures DistinctPlanes(LayoutFor(g, info))
  {
    var l := LayoutFor(g, info);
    forall c, d | 0 <= c < |l.planes| && 0 <= d < |l.planes| && l.planes[c].index == l.planes[d].index
      ensures c == d
    {
      if c < d {
        Ascending(|g.comps|, info.comps, c, d);
      } else if d < c {
        Ascending(|g.comps|, info.comps, d, c);
      }
    }
  }

  /** For any image size, sampling factors and scan of a script, the controllers' order is a tour of the scan's
      blocks: no block twice, every real block of the scan's components, and padding in DC scans only; the blocks
      gathered along it are the MCUs the controllers hand to the entropy coder. */
  lemma ControllerTours(g: Geometry, pic: Picture, info: ScanInfo, s: McuCoding.Scan)
    requires ValidGeometry(g) && ComponentsOk(|g.comps|, info.comps) && ParametersOk(info)
    requires s.membership == Membership(LayoutFor(g, info), |info.comps|)
    ensures var l, planes := LayoutFor(g, info), PlanesOf(g);
      var img := PaddedImage(planes, pic, l.across, l.down);
      && Run.Tours(img, Live(planes, l.across), info, s, Visits(l))
      && Run.Gather(img, Visits(l)) == Stream(l, pic)
  {
    var l, planes := LayoutFor(g, info), PlanesOf(g);
    var v: Run.Visits := Visits(l);
    PlanesDistinct(g, info);
    hide Visits, PaddedImage, Stream, Live, Membership, LayoutFor, PlanesOf, BlockNumber, DistinctPlanes;
    VisitsGiveStream(l, planes, pic);
    forall m | 0 <= m < |v|
      ensures |v[m]| == |s.membership|
    {
      SameLengths(l, pic, m);
    }
    forall m, i, n, k | 0 <= m < |v| && 0 <= i < |v[m]| && 0 <= n < |v| && 0 <= k < |v[n]| && v[m][i] == v[n][k]
      ensures m == n && i == k
    {
      VisitOnce(l, m, i, n, k);
    }
    forall m, i | 0 <= m < |v| && 0 <= i < |v[m]|
      ensures v[m][i].0 in info.comps && (info.ss != 0 ==> v[m][i] in Live(planes, l.across))
    {
      var c, y, x, row, col := VisitInfo(l, m, i);
      assert info.comps[c] == v[m][i].0;
      if info.ss != 0 {
        SingleLive(l, planes, m, i);
      }
    }
    forall p | p in Live(planes, l.across) && p.0 in info.comps
      ensures Run.Visited(v, p)
    {
      var row, col := LiveInfo(planes, l.across, p);
      var c :| 0 <= c < |info.comps| && info.comps[c] == p.0;
      RealVisited(l, c, row, col);
    }
  }
}
