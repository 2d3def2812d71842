/** Sizes of an image in blocks and MCUs, and the setup of one scan. */
module ImageGeometry {
  import opened Powers
  const MAX_COMPS_IN_SCAN := 4
  const C_MAX_BLOCKS_IN_MCU := 10
  const MAX_SAMP_FACTOR := 4

  datatype Sampling = Sampling(h: nat, v: nat)

  /** Image size, the largest sampling factors, the block size, and the sampling factors of each component. */
  datatype Geometry = Geometry(width: nat, height: nat, maxH: nat, maxV: nat, blockSize: nat, comps: seq<Sampling>)

  predicate ValidGeometry(g: Geometry) {
    && 0 < g.width && 0 < g.height && 1 <= g.blockSize <= 16 && 0 < |g.comps|
    && 1 <= g.maxH <= MAX_SAMP_FACTOR && 1 <= g.maxV <= MAX_SAMP_FACTOR
    && forall c :: 0 <= c < |g.comps| ==> 1 <= g.comps[c].h <= g.maxH && 1 <= g.comps[c].v <= g.maxV
  }

  /** The quotient rounded up. */
  function CeilDiv(a: int, b: int): int
    requires b > 0
  {
    (a + b - 1) / b
  }

  lemma CeilDivBounds(a: int, b: int)
    requires a > 0 && b > 0
    ensures 1 <= CeilDiv(a, b) && b * (CeilDiv(a, b) - 1) < a <= b * CeilDiv(a, b)
  {
    var x := a + b - 1;
    var q := x / b;
    assert x == b * q + x % b;
    assert b * (q - 1) == b * q - b;
    if q <= 0 {
      NotPositive(b, q);
    }
  }

  lemma NotPositive(b: int, q: int)
    requires b > 0 && q <= 0
    ensures b * q <= 0
  {
  }

  lemma Ordered(b: int, x: int, y: int)
    requires b > 0 && x <= y
    ensures b * x <= b * y
  {
  }

  lemma Product(x: int, y: int)
    requires x >= 1 && y >= 1
    ensures x * y >= 1
  {
  }

  /** Blocks rounded up to whole MCUs are the MCUs of the image: a component h/max the width of the image, cut
      into groups of h blocks, has as many groups as the image has MCUs. */
  lemma NestedCeil(a: int, h: int, d: int)
    requires a > 0 && h > 0 && d > 0
    ensures a * h > 0
    ensures var n, q := CeilDiv(a * h, d), CeilDiv(a, d);
      1 <= n && 1 <= q && h * (q - 1) < n <= h * q
  {
    Ordered(h, 1, a);
    CeilDivBounds(a * h, d);
    CeilDivBounds(a, d);
    var n, q := CeilDiv(a * h, d), CeilDiv(a, d);
    if n > h * q {
      Ordered(d, h * q, n - 1);
      Ordered(h, a, d * q);
      Rearrange(d, h, q);
    }
    if n <= h * (q - 1) {
      Ordered(d, n, h * (q - 1));
      Ordered(h, d * (q - 1) + 1, a);
      Rearrange(d, h, q - 1);
    }
  }

  lemma Rearrange(d: int, h: int, q: int)
    ensures d * (h * q) == h * (d * q)
    ensures h * (d * q + 1) == h * (d * q) + h
  {
  }

  // ----- components -----

  /** A component: which it is, its sampling factors, and its size in blocks. */
  datatype Plane = Plane(index: nat, h: nat, v: nat, width: nat, height: nat)

  /** The component fills `across` groups of h block columns and `down` groups of v block rows, the last ones
      perhaps in part. */
  predicate Fills(p: Plane, across: nat, down: nat) {
    && 1 <= p.h && 1 <= p.v && 1 <= across && 1 <= down
    && p.h * (across - 1) < p.width <= p.h * across
    && p.v * (down - 1) < p.height <= p.v * down
  }

  function Across(g: Geometry): nat
    requires ValidGeometry(g)
  {
    Product(g.maxH, g.blockSize);
    CeilDivBounds(g.width, g.maxH * g.blockSize);
    CeilDiv(g.width, g.maxH * g.blockSize)
  }

  /** The number of interleaved MCU rows. */
  function Down(g: Geometry): nat
    requires ValidGeometry(g)
  {
    Product(g.maxV, g.blockSize);
    CeilDivBounds(g.height, g.maxV * g.blockSize);
    CeilDiv(g.height, g.maxV * g.blockSize)
  }

  function PlaneOf(g: Geometry, c: nat): (p: Plane)
    requires ValidGeometry(g) && c < |g.comps|
    ensures Fills(p, Across(g), Down(g)) && p.index == c
  {
    var s := g.comps[c];
    Product(g.maxH, g.blockSize);
    Product(g.maxV, g.blockSize);
    NestedCeil(g.width, s.h, g.maxH * g.blockSize);
    NestedCeil(g.height, s.v, g.maxV * g.blockSize);
    Plane(c, s.h, s.v, CeilDiv(g.width * s.h, g.maxH * g.blockSize), CeilDiv(g.height * s.v, g.maxV * g.blockSize))
  }

  /** The least numbers of MCUs and blocks that cover the image: an MCU is maxH times maxV blocks of samples, a
      block of a component covers maxH / h times maxV / v blocks of samples. */
  lemma SizesAre(g: Geometry, c: nat)
    requires ValidGeometry(g) && c < |g.comps|
    ensures var p, mcuH, mcuV := PlaneOf(g, c), g.maxH * g.blockSize, g.maxV * g.blockSize;
      && p.h == g.comps[c].h && p.v == g.comps[c].v
      && mcuH * (Across(g) - 1) < g.width <= mcuH * Across(g)
      && mcuV * (Down(g) - 1) < g.height <= mcuV * Down(g)
      && mcuH * (p.width - 1) < g.width * p.h <= mcuH * p.width
      && mcuV * (p.height - 1) < g.height * p.v <= mcuV * p.height
  {
    Product(g.maxH, g.blockSize);
    Product(g.maxV, g.blockSize);
    Product(g.width, g.comps[c].h);
    Product(g.height, g.comps[c].v);
    var mcuH, mcuV := g.maxH * g.blockSize, g.maxV * g.blockSize;
    var w, h := g.width * g.comps[c].h, g.height * g.comps[c].v;
    CeilDivBounds(g.width, mcuH);
    CeilDivBounds(g.height, mcuV);
    CeilDivBounds(w, mcuH);
    CeilDivBounds(h, mcuV);
    hide CeilDiv;
  }

  /** What is left for the last group: the remainder, or a whole group. */
  function LastPart(n: nat, h: nat): (r: nat)
    requires h > 0
    ensures 1 <= r <= h
  {
    if n % h == 0 then h else n % h
  }

  lemma LastPartIs(n: nat, h: nat, q: nat)
    requires h > 0 && q > 0 && h * (q - 1) < n <= h * q
    ensures LastPart(n, h) == n - h * (q - 1)
    ensures n + (if n % h == 0 then 0 else h - n % h) == h * q
  {
    var r := n - h * (q - 1);
    assert h * q == h * (q - 1) + h;
    if r == h {
      Remainder(n, h, q, 0);
    } else {
      Remainder(n, h, q - 1, r);
    }
  }

  // ----- scans -----

  /** The components of a scan, and the number of MCU columns and rows of an interleaved scan. */
  datatype Layout = Layout(planes: seq<Plane>, across: nat, down: nat)

  predicate ValidLayout(l: Layout) {
    && 0 < |l.planes| <= MAX_COMPS_IN_SCAN
    && forall c :: 0 <= c < |l.planes| ==> Fills(l.planes[c], l.across, l.down)
  }

  predicate Interleaved(l: Layout) { |l.planes| > 1 }

  lemma NotEmpty(p: Plane, across: nat, down: nat)
    requires Fills(p, across, down)
    ensures 0 < p.width && 0 < p.height
  {
    Ordered(p.h, 0, across - 1);
    Ordered(p.v, 0, down - 1);
  }

  function McuWidth(l: Layout, c: nat): nat
    requires c < |l.planes|
  {
    if Interleaved(l) then l.planes[c].h else 1
  }

  function McuHeight(l: Layout, c: nat): nat
    requires c < |l.planes|
  {
    if Interleaved(l) then l.planes[c].v else 1
  }

  function McusPerRow(l: Layout): (n: nat)
    requires ValidLayout(l)
    ensures n > 0
  {
    NotEmpty(l.planes[0], l.across, l.down);
    if Interleaved(l) then l.across else l.planes[0].width
  }

  function McuRows(l: Layout): (n: nat)
    requires ValidLayout(l)
    ensures n > 0
  {
    NotEmpty(l.planes[0], l.across, l.down);
    if Interleaved(l) then l.down else l.planes[0].height
  }

  /** The component of each block of an MCU, for the first c components. */
  function Membership(l: Layout, c: nat): seq<nat>
    requires c <= |l.planes|
  {
    if c == 0 then [] else Membership(l, c - 1) + seq(McuWidth(l, c - 1) * McuHeight(l, c - 1), _ => c - 1)
  }

  /** The quantities a scan is run with. */
  datatype ScanSetup = ScanSetup(mcusPerRow: nat, mcuRows: nat, lastColWidth: seq<nat>, lastRowHeight: seq<nat>,
    membership: seq<nat>)

  function LayoutOf(g: Geometry, scan: seq<nat>): (l: Layout)
    requires ValidGeometry(g) && 0 < |scan| <= MAX_COMPS_IN_SCAN && forall i :: 0 <= i < |scan| ==> scan[i] < |g.comps|
    ensures ValidLayout(l)
  {
    Layout(seq(|scan|, i requires 0 <= i < |scan| => PlaneOf(g, scan[i])), Across(g), Down(g))
  }

  /** The block columns and rows in the last group. */
  function LastColumns(p: Plane, across: nat): (n: nat)
    requires p.h * (across - 1) < p.width
  {
    p.width - p.h * (across - 1)
  }

  function LastRows(p: Plane, down: nat): (n: nat)
    requires p.v * (down - 1) < p.height
  {
    p.height - p.v * (down - 1)
  }

  /** The setup is that of the layout. */
  ghost predicate SetUp(s: ScanSetup, l: Layout)
    requires ValidLayout(l)
  {
    && s.mcusPerRow == McusPerRow(l) && s.mcuRows == McuRows(l) && s.membership == Membership(l, |l.planes|)
    && |s.lastColWidth| == |s.lastRowHeight| == |l.planes|
    && forall c :: 0 <= c < |l.planes| ==>
         && s.lastRowHeight[c] == LastRows(l.planes[c], l.down)
         && s.lastColWidth[c] == if Interleaved(l) then LastColumns(l.planes[c], l.across) else 1
  }

  /** Computations before a scan.  It fails for too many components or an MCU of too many blocks. */
  method PerScanSetup(g: Geometry, scan: seq<nat>) returns (ok: bool, s: ScanSetup)
    requires ValidGeometry(g) && 0 < |scan| && forall i :: 0 <= i < |scan| ==> scan[i] < |g.comps|
    ensures ok <==> |scan| <= 4 && var l := LayoutOf(g, scan);
      |scan| > 1 ==> |Membership(l, |scan|)| <= 10
    ensures ok ==> SetUp(s, LayoutOf(g, scan))
  {
    hide SetUp, Fills, Across, Down, PlaneOf;
    s := ScanSetup(0, 0, [], [], []);
    if |scan| == 1 {
      s := SingleSetup(LayoutOf(g, scan));
      ok := true;
    } else if |scan| > MAX_COMPS_IN_SCAN {
      ok := false;
    } else {
      ok, s := InterleavedSetup(LayoutOf(g, scan));
    }
  }

  /** A scan of one component: a block is an MCU. */
  method SingleSetup(l: Layout) returns (s: ScanSetup)
    requires ValidLayout(l) && |l.planes| == 1
    ensures SetUp(s, l)
  {
    var p := l.planes[0];
    var tmp := LastOf(p.height, p.v, l.down);
    OneBlock(l);
    s := ScanSetup(p.width, p.height, [1], [tmp], [0]);
  }

  /** A scan of several components: their sampling factors give the blocks of an MCU. */
  method InterleavedSetup(l: Layout) returns (ok: bool, s: ScanSetup)
    requires ValidLayout(l) && |l.planes| > 1
    ensures ok <==> |Membership(l, |l.planes|)| <= C_MAX_BLOCKS_IN_MCU
    ensures ok ==> SetUp(s, l)
  {
    s := ScanSetup(0, 0, [], [], []);
    var cols: seq<nat>, rows: seq<nat>, membership: seq<nat> := [], [], [];
    for ci := 0 to |l.planes|
      invariant |cols| == |rows| == ci && membership == Membership(l, ci) && |membership| <= C_MAX_BLOCKS_IN_MCU
      invariant forall c :: 0 <= c < ci ==>
        rows[c] == LastRows(l.planes[c], l.down) && cols[c] == LastColumns(l.planes[c], l.across)
    {
      var p := l.planes[ci];
      Filled(p, l.across, l.down);
      var col := LastOf(p.width, p.h, l.across);
      var row := LastOf(p.height, p.v, l.down);
      cols := cols + [col];
      rows := rows + [row];
      ok, membership := AddMembers(membership, ci, p.h * p.v);
      if !ok {
        MembershipGrows(l, ci + 1, |l.planes|);
        return false, s;
      }
    }
    ok, s := true, ScanSetup(l.across, l.down, cols, rows, membership);
  }

  lemma Filled(p: Plane, across: nat, down: nat)
    requires Fills(p, across, down)
    ensures 1 <= p.h && 1 <= p.v && 1 <= across && 1 <= down
    ensures p.h * (across - 1) < p.width <= p.h * across && p.v * (down - 1) < p.height <= p.v * down
  {
  }

  /** The part of n in the last of q groups of h. */
  method LastOf(n: nat, h: nat, ghost q: nat) returns (tmp: nat)
    requires h > 0 && q > 0 && h * (q - 1) < n <= h * q
    ensures tmp == n - h * (q - 1)
  {
    LastPartIs(n, h, q);
    tmp := n % h;
    if tmp == 0 {
      tmp := h;
    }
  }

  /** Blocks of one more component in the MCU, if they all find room. */
  method AddMembers(before: seq<nat>, ci: nat, blocks: nat) returns (ok: bool, membership: seq<nat>)
    requires |before| <= C_MAX_BLOCKS_IN_MCU
    ensures ok <==> |before| + blocks <= C_MAX_BLOCKS_IN_MCU
    ensures ok ==> membership == before + seq(blocks, _ => ci)
  {
    membership := before;
    if |membership| + blocks > C_MAX_BLOCKS_IN_MCU {
      return false, membership;
    }
    var mcublks := blocks;
    while mcublks > 0
      invariant 0 <= mcublks <= blocks && membership == before + seq(blocks - mcublks, _ => ci)
    {
      membership := membership + [ci];
      mcublks := mcublks - 1;
    }
    ok := true;
  }

  lemma OneBlock(l: Layout)
    requires |l.planes| == 1
    ensures Membership(l, 1) == [0]
  {
    assert Membership(l, 0) == [];
  }

  lemma {:induction false} MembershipGrows(l: Layout, c: nat, d: nat)
    requires c <= d <= |l.planes|
    ensures |Membership(l, c)| <= |Membership(l, d)|
    decreases d
  {
    if c < d {
      MembershipGrows(l, c, d - 1);
    }
  }
}
