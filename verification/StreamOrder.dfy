/** Which block comes where in the data: the order of blocks in the MCUs of a scan, and of MCUs in the scan
    (section A.2 of ITU-T T.81). */
module StreamOrder {
  import opened ImageGeometry
  import opened McuStream
  import opened ScanTours

  /** A scan of one component has a block for an MCU: all blocks of the image, row by row, and no dummies. */
  lemma SingleStream(l: Layout, pic: Picture, n: nat)
    requires ValidLayout(l) && |l.planes| == 1 && n < StreamLength(l)
    ensures var p := l.planes[0];
      && 0 < p.width && StreamLength(l) == p.height * p.width && 0 <= n / p.width < p.height
      && Stream(l, pic)[n] == [pic(p.index, n / p.width, n % p.width)]
  {
    var p := l.planes[0];
    NotEmpty(p, l.across, l.down);
    PlaceInside(l, n);
    OneBlock(l);
    TopOf(l, 0, n);
    McuLength(l, pic, PlaceOf(l, n), 1);
    McuBlockAt(l, pic, PlaceOf(l, n), 1, 0, 0);
    hide Padded, McuBlocks, RowPlace, Membership;
    assert Stream(l, pic)[n] == McuAt(l, pic, PlaceOf(l, n));
    InImage(p, pic, n / p.width, n % p.width);
  }

  lemma InImage(p: Plane, pic: Picture, row: nat, col: nat)
    requires 0 < p.h && row < p.height && col < p.width
    ensures Padded(p, pic, row, col) == pic(p.index, row, col)
  {
  }

  /** The blocks of the components before c in an MCU. */
  function BlocksBefore(l: Layout, c: nat): nat
    requires c <= |l.planes|
  {
    if c == 0 then 0 else BlocksBefore(l, c - 1) + l.planes[c - 1].h * l.planes[c - 1].v
  }

  lemma {:induction false} BlocksBeforeIs(l: Layout, c: nat)
    requires |l.planes| > 1 && c <= |l.planes|
    ensures Offset(l, c) == BlocksBefore(l, c)
  {
    if c > 0 {
      BlocksBeforeIs(l, c - 1);
      OffsetNext(l, c - 1);
    }
  }

  lemma RowAndColumn(l: Layout, r: nat, q: nat)
    requires ValidLayout(l) && |l.planes| > 1 && r < l.down && q < l.across
    ensures StreamLength(l) == l.down * l.across && r * l.across + q < StreamLength(l)
    ensures PlaceOf(l, r * l.across + q) == Place(r, 0, q)
  {
    InMcu(l.across, l.down, r, q);
    Commute(l.across, l.down);
  }

  /** An interleaved scan goes over the image MCU by MCU, row by row; each MCU has v rows of h blocks of every
      component, one component after the other. */
  lemma InterleavedStream(l: Layout, pic: Picture, r: nat, q: nat, n: nat, c: nat, y: nat, x: nat, i: nat)
    requires ValidLayout(l) && |l.planes| > 1 && r < l.down && q < l.across && n == r * l.across + q
    requires c < |l.planes| && y < l.planes[c].v && x < l.planes[c].h
    requires i == BlocksBefore(l, c) + y * l.planes[c].h + x
    ensures StreamLength(l) == l.down * l.across && n < StreamLength(l)
    ensures 0 < l.planes[c].width && 0 < l.planes[c].height && i < |Stream(l, pic)[n]|
    ensures Stream(l, pic)[n][i] == Padded(l.planes[c], pic, r * l.planes[c].v + y, q * l.planes[c].h + x)
  {
    hide Padded, McuBlocks, Membership, BlocksBefore, Fills;
    RowAndColumn(l, r, q);
    var p := l.planes[c];
    NotEmpty(p, l.across, l.down);
    BlocksBeforeIs(l, c);
    InMcu(p.h, p.v, y, x);
    Commute(p.h, p.v);
    McuBlockAt(l, pic, PlaceOf(l, n), |l.planes|, c, y * p.h + x);
    assert Stream(l, pic)[n] == McuAt(l, pic, PlaceOf(l, n));
  }

  /** Blocks beyond the image have no AC coefficients, and the DC value of a block next to them: at the right, of
      the last block of the row; below, of the last of the group of h in the row above. */
  lemma {:induction false} DummyBlocks(p: Plane, pic: Picture, row: nat, col: nat)
    requires 0 < p.width && 0 < p.height && 0 < p.h && (row >= p.height || col >= p.width)
    ensures var b := Padded(p, pic, row, col);
      && (forall k :: 1 <= k < 64 ==> b[k] == 0)
      && (row < p.height ==> b[0] == pic(p.index, row, p.width - 1)[0])
      && (row >= p.height ==> 0 <= col / p.h && b[0] == Padded(p, pic, row - 1, col / p.h * p.h + p.h - 1)[0])
  {
    if row >= p.height {
      Quotient(col, p.h);
      assert col - col % p.h == col / p.h * p.h;
    }
  }
}
