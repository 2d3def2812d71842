/** The MCUs of a scan in the order in which they are coded, with the dummy blocks that fill them up at the right
    and bottom edges of the image. */
module McuStream {
  import opened Powers
  import opened Coefficients
  import opened ImageGeometry

  /** The blocks of an image: by component, block row and block column. */
  type Picture = (nat, nat, nat) -> Block

  /** A dummy block repeats a DC value. */
  function Dummy(dc: Coef): Block { seq(64, i => if i == 0 then dc else 0) }

  /** The last block of a group of h in a row. */
  function GroupEnd(col: nat, h: nat): nat
    requires h > 0
  {
    col - col % h + h - 1
  }

  /** The block at any place of the image padded to whole MCUs: dummy blocks at the right repeat the last real
      block's DC value, those below the image that of the last block of the MCU above them. */
  function Padded(p: Plane, pic: Picture, row: nat, col: nat): Block
    requires 0 < p.width && 0 < p.height && 0 < p.h
    decreases row
  {
    if row < p.height then
      if col < p.width then pic(p.index, row, col) else Dummy(pic(p.index, row, p.width - 1)[0])
    else Dummy(Padded(p, pic, row - 1, GroupEnd(col, p.h))[0])
  }

  /** w blocks of a row. */
  function RowBlocks(p: Plane, pic: Picture, row: nat, col: nat, w: nat): (r: seq<Block>)
    requires 0 < p.width && 0 < p.height && 0 < p.h
    ensures |r| == w
  {
    seq<Block>(w, i requires 0 <= i < w => Padded(p, pic, row, col + i))
  }

  /** The first n rows of w blocks. */
  function RowsBlocks(p: Plane, pic: Picture, top: nat, left: nat, w: nat, n: nat): seq<Block>
    requires 0 < p.width && 0 < p.height && 0 < p.h
  {
    if n == 0 then [] else RowsBlocks(p, pic, top, left, w, n - 1) + RowBlocks(p, pic, top + n - 1, left, w)
  }

  /** The place of an MCU: its interleaved MCU row, its offset in block rows within that, and its column. */
  datatype Place = Place(r: nat, y: nat, col: nat)

  function Top(p: Plane, at: Place): nat { at.r * p.v + at.y }

  function Left(l: Layout, c: nat, at: Place): nat
    requires c < |l.planes|
  {
    at.col * McuWidth(l, c)
  }

  /** Blocks of the first c components of the MCU. */
  function McuBlocks(l: Layout, pic: Picture, at: Place, c: nat): seq<Block>
    requires ValidLayout(l) && c <= |l.planes|
  {
    if c == 0 then []
    else
      McuBlocks(l, pic, at, c - 1)
      + RowsBlocks(l.planes[c - 1], pic, Top(l.planes[c - 1], at), Left(l, c - 1, at), McuWidth(l, c - 1),
        McuHeight(l, c - 1))
  }

  function McuAt(l: Layout, pic: Picture, at: Place): Mcu
    requires ValidLayout(l)
  {
    McuBlocks(l, pic, at, |l.planes|)
  }

  lemma {:induction false} RowsLength(p: Plane, pic: Picture, top: nat, left: nat, w: nat, n: nat)
    requires 0 < p.width && 0 < p.height && 0 < p.h
    ensures |RowsBlocks(p, pic, top, left, w, n)| == w * n
  {
    if n > 0 {
      RowsLength(p, pic, top, left, w, n - 1);
      assert w * n == w * (n - 1) + w;
    }
  }

  /** An MCU has the blocks of its membership. */
  lemma {:induction false} McuLength(l: Layout, pic: Picture, at: Place, c: nat)
    requires ValidLayout(l) && c <= |l.planes|
    ensures |McuBlocks(l, pic, at, c)| == |Membership(l, c)|
  {
    if c > 0 {
      McuLength(l, pic, at, c - 1);
      RowsLength(l.planes[c - 1], pic, Top(l.planes[c - 1], at), Left(l, c - 1, at), McuWidth(l, c - 1),
        McuHeight(l, c - 1));
    }
  }

  // ----- order -----

  /** Block rows, hence MCU rows of a scan of one component, in an interleaved MCU row. */
  function RowsIn(l: Layout, r: nat): (n: nat)
    requires ValidLayout(l) && r < l.down
    ensures n > 0
  {
    if Interleaved(l) then 1
    else if r < l.down - 1 then l.planes[0].v
    else LastRows(l.planes[0], l.down)
  }

  /** The number of an MCU row, and back. */
  function RowNumber(l: Layout, r: nat, y: nat): nat
    requires ValidLayout(l)
  {
    if Interleaved(l) then r + y else r * l.planes[0].v + y
  }

  function RowPlace(l: Layout, n: nat): (ry: (nat, nat))
    requires ValidLayout(l)
  {
    if Interleaved(l) then (n, 0)
    else
      Quotient(n, l.planes[0].v);
      (n / l.planes[0].v, n % l.planes[0].v)
  }

  lemma Quotient(n: nat, v: nat)
    requires v > 0
    ensures 0 <= n / v
  {
  }

  lemma RowBack(l: Layout, r: nat, y: nat)
    requires ValidLayout(l) && r < l.down && y < RowsIn(l, r)
    ensures RowPlace(l, RowNumber(l, r, y)) == (r, y)
    ensures RowNumber(l, r, y) < McuRows(l)
  {
    if !Interleaved(l) {
      var p := l.planes[0];
      Remainder(r * p.v + y, p.v, r, y);
      if r < l.down - 1 {
        Ordered(p.v, r + 1, l.down - 1);
      }
    }
  }

  /** The last MCU row of an interleaved row is followed by the first of the next. */
  lemma RowAfter(l: Layout, r: nat)
    requires ValidLayout(l) && r < l.down
    ensures r < l.down - 1 ==> RowNumber(l, r, RowsIn(l, r) - 1) + 1 == RowNumber(l, r + 1, 0)
    ensures r == l.down - 1 ==> RowNumber(l, r, RowsIn(l, r) - 1) + 1 == McuRows(l)
  {
  }

  /** Offsets within an interleaved MCU row. */
  lemma OffsetsFit(l: Layout, c: nat, at: Place, i: nat)
    requires ValidLayout(l) && c < |l.planes| && at.r < l.down && at.y < RowsIn(l, at.r) && i < McuHeight(l, c)
    ensures at.y + i < l.planes[c].v
    ensures !Interleaved(l) && at.r == l.down - 1 ==> at.y + i < LastRows(l.planes[c], l.down)
  {
    LastRowsAtMost(l, c);
    hide LastRows;
  }

  lemma LastRowsAtMost(l: Layout, c: nat)
    requires ValidLayout(l) && c < |l.planes|
    ensures LastRows(l.planes[c], l.down) <= l.planes[c].v
  {
  }

  /** Where an MCU's blocks lie in the padded image. */
  lemma InsideArrays(l: Layout, c: nat, at: Place, i: nat, loaded: nat)
    requires ValidLayout(l) && c < |l.planes| && at.r < l.down && at.r < loaded && at.y < RowsIn(l, at.r)
    requires at.col < McusPerRow(l) && i < McuHeight(l, c)
    ensures var p := l.planes[c];
      Top(p, at) + i < p.v * loaded && Left(l, c, at) + McuWidth(l, c) <= p.h * l.across
  {
    var p := l.planes[c];
    OffsetsFit(l, c, at, i);
    hide RowsIn, LastRows;
    GroupsBefore(p.v, at.r, loaded);
    if Interleaved(l) {
      GroupsBefore(p.h, at.col, l.across);
    }
  }

  lemma GroupsBefore(v: nat, r: nat, n: nat)
    requires r < n
    ensures r * v + v <= v * n
  {
    assert v * (r + 1) == r * v + v;
    Ordered2(v, r + 1, n);
  }

  lemma Ordered2(b: nat, x: int, y: int)
    requires x <= y
    ensures b * x <= b * y
  {
  }

  /** All MCUs of the scan, row after row. */
  function Stream(l: Layout, pic: Picture): (s: seq<Mcu>)
    requires ValidLayout(l)
    ensures |s| == StreamLength(l)
  {
    seq(StreamLength(l), n requires 0 <= n < StreamLength(l) => Nth(l, pic, n))
  }

  function StreamLength(l: Layout): nat
    requires ValidLayout(l)
  {
    McuRows(l) * McusPerRow(l)
  }

  function Nth(l: Layout, pic: Picture, n: nat): Mcu
    requires ValidLayout(l)
  {
    Quotient(n, McusPerRow(l));
    var (r, y) := RowPlace(l, n / McusPerRow(l));
    McuAt(l, pic, Place(r, y, n % McusPerRow(l)))
  }

  /** How many MCUs come before a place. */
  function Before(l: Layout, row: nat, col: nat): nat
    requires ValidLayout(l)
  {
    row * McusPerRow(l) + col
  }

  /** One MCU more. */
  lemma StreamNext(l: Layout, pic: Picture, at: Place)
    requires ValidLayout(l) && at.r < l.down && at.y < RowsIn(l, at.r) && at.col < McusPerRow(l)
    ensures var n := Before(l, RowNumber(l, at.r, at.y), at.col);
      n + 1 <= StreamLength(l) && Stream(l, pic)[..n + 1] == Stream(l, pic)[..n] + [McuAt(l, pic, at)]
  {
    hide McuAt, RowNumber, RowPlace;
    var per := McusPerRow(l);
    var row := RowNumber(l, at.r, at.y);
    var n := Before(l, row, at.col);
    RowBack(l, at.r, at.y);
    Remainder(n, per, row, at.col);
    Ordered(per, row + 1, McuRows(l));
    assert per * (row + 1) == per * row + per;
    assert Nth(l, pic, n) == McuAt(l, pic, at);
  }

  /** A whole row later. */
  lemma RowDone(l: Layout, row: nat)
    requires ValidLayout(l)
    ensures Before(l, row, McusPerRow(l)) == Before(l, row + 1, 0)
    ensures Before(l, McuRows(l), 0) == StreamLength(l)
  {
  }
}
