/** Huffman coding of AC bands in progressive scans (section G.1.2 of ITU-T T.81): the symbols of a block,
    runs of blocks with nothing new, and the correction bits that wait for their symbol. */
module BandItems {
  import opened Powers
  import opened Coefficients
  import opened BitStream
  import opened HuffmanBlocks

  /** A band scan: first pass or refinement, of coefficients ss to se down to bit al. */
  datatype Band = Band(refine: bool, tbl: TableNumber, ss: nat, se: nat, al: nat)

  predicate ValidBand(p: Band) { 1 <= p.ss <= p.se < 64 }

  /** The magnitude of coefficient k after the point transform. */
  function Mag(p: Band, b: Block, k: nat): nat
    requires k < 64
  {
    Abs(Trunc(b[k], p.al))
  }

  /** One-bit items. */
  function CorrItems(bits: seq<Bit>): (r: seq<Item>)
    ensures |r| == |bits|
  {
    seq(|bits|, i requires 0 <= i < |bits| => Extra(bits[i], 1))
  }

  // ----- end-of-band runs -----

  /** Blocks whose end of band is not written yet, and the correction bits that go with them. */
  datatype Pending = Pending(run: nat, corr: seq<Bit>)

  const NONE := Pending(0, [])
  const MAX_RUN := 0x7FFF
  const MAX_CORR_BITS := 1000
  const DCTSIZE2 := 64

  /** The position of the highest one bit. */
  function Log2(v: nat): (n: nat)
    requires v > 0
    ensures Pow2(n) <= v < 2 * Pow2(n)
  {
    if v == 1 then 0 else 1 + Log2(v / 2)
  }

  /** The symbol for a run and its extra bits. */
  function RunItems(tbl: TableNumber, run: nat): seq<Item>
    requires run > 0
  {
    [Symbol(true, tbl, 16 * Log2(run))] + if Log2(run) > 0 then [Extra(run % Pow2(Log2(run)), Log2(run))] else []
  }

  /** What writing the pending run comes to. */
  function EobItems(tbl: TableNumber, st: Pending): seq<Item> {
    if st.run == 0 then [] else RunItems(tbl, st.run) + CorrItems(st.corr)
  }

  // ----- first pass -----

  /** Coefficients from k on, behind r zeros, up to the last nonzero one. */
  function FirstBody(p: Band, b: Block, k: nat, r: nat): seq<Item>
    requires ValidBand(p) && k <= p.se + 1
    decreases p.se + 1 - k
  {
    if k == p.se + 1 then []
    else if Trunc(b[k], p.al) == 0 then FirstBody(p, b, k + 1, r + 1)
    else LongRuns(p.tbl, r) + Value(true, p.tbl, r % 16, Trunc(b[k], p.al)) + FirstBody(p, b, k + 1, 0)
  }

  /** How many zeros are left at the end. */
  function FirstTail(p: Band, b: Block, k: nat, r: nat): nat
    requires ValidBand(p) && k <= p.se + 1
    decreases p.se + 1 - k
  {
    if k == p.se + 1 then r
    else FirstTail(p, b, k + 1, if Trunc(b[k], p.al) == 0 then r + 1 else 0)
  }

  // ----- refinement -----

  /** The number of coefficients from h to k - 1 that are still zero. */
  function ZerosIn(p: Band, b: Block, h: nat, k: nat): (n: nat)
    requires h <= k <= 64
    ensures n <= k - h
  {
    if h == k then 0 else ZerosIn(p, b, h, k - 1) + if Mag(p, b, k - 1) == 0 then 1 else 0
  }

  /** The correction bits of the coefficients from h to k - 1 that were nonzero before. */
  function CorrIn(p: Band, b: Block, h: nat, k: nat): (c: seq<Bit>)
    requires h <= k <= 64
    ensures |c| <= k - h
  {
    if h == k then [] else CorrIn(p, b, h, k - 1) + if Mag(p, b, k - 1) > 1 then [Mag(p, b, k - 1) % 2] else []
  }

  /** The last coefficient up to k that becomes nonzero in this scan; 0 if there is none. */
  function LastNew(p: Band, b: Block, k: nat): (e: nat)
    requires ValidBand(p) && k < 64
    ensures e <= k && (0 < e ==> p.ss <= e && Mag(p, b, e) == 1)
    ensures forall j :: e < j <= k && p.ss <= j ==> Mag(p, b, j) != 1
  {
    if k < p.ss then 0 else if Mag(p, b, k) == 1 then k else LastNew(p, b, k - 1)
  }

  /** The position behind the n-th zero from h on. */
  function Behind(p: Band, b: Block, h: nat, k: nat, n: nat): (q: nat)
    requires h <= k <= 64 && n <= ZerosIn(p, b, h, k)
    ensures h <= q <= k && ZerosIn(p, b, h, q) == n && ZerosIn(p, b, q, k) == ZerosIn(p, b, h, k) - n
    ensures n > 0 ==> h < q && Mag(p, b, q - 1) == 0
    decreases k
  {
    if n == 0 then h
    else if n == ZerosIn(p, b, h, k - 1) + 1 then ZerosFrom(p, b, h, k); k
    else
      var q := Behind(p, b, h, k - 1, n);
      ZerosFrom(p, b, q, k);
      q
  }

  lemma ZerosFrom(p: Band, b: Block, h: nat, k: nat)
    requires h <= k <= 64
    ensures ZerosIn(p, b, k, k) == 0
    ensures h < k ==> ZerosIn(p, b, h, k) == ZerosIn(p, b, h, k - 1) + if Mag(p, b, k - 1) == 0 then 1 else 0
  {
  }

  /** The symbol and sign of a coefficient that becomes nonzero, behind the zeros from h on. */
  function NewItems(p: Band, b: Block, h: nat, k: nat): seq<Item>
    requires h <= k < 64
  {
    [Symbol(true, p.tbl, 16 * ZerosIn(p, b, h, k) + 1), Extra(if Trunc(b[k], p.al) < 0 then 0 else 1, 1)]
  }

  /** Newly nonzero coefficients from k on with the correction bits in between, when coefficients from h on
      have not been accounted for; `last` is the last newly nonzero one. */
  function RefineBody(p: Band, b: Block, last: nat, h: nat, k: nat): seq<Item>
    requires ValidBand(p) && h <= k <= p.se + 1
    decreases p.se + 1 - k, k - h
  {
    if k == p.se + 1 then []
    else if Mag(p, b, k) == 0 then RefineBody(p, b, last, h, k + 1)
    else if ZerosIn(p, b, h, k) >= 16 && k <= last then
      [Symbol(true, p.tbl, 0xF0)] + CorrItems(CorrIn(p, b, h, k)) + RefineBody(p, b, last, Behind(p, b, h, k, 16), k)
    else if Mag(p, b, k) > 1 then RefineBody(p, b, last, h, k + 1)
    else NewItems(p, b, h, k) + CorrItems(CorrIn(p, b, h, k)) + RefineBody(p, b, last, k + 1, k + 1)
  }

  // ----- blocks -----

  /** Nothing in the block has to be coded before its end of band. */
  ghost predicate Quiet(p: Band, b: Block)
    requires ValidBand(p)
  {
    forall k :: p.ss <= k <= p.se ==> if p.refine then Mag(p, b, k) != 1 else Trunc(b[k], p.al) == 0
  }

  function Body(p: Band, b: Block): seq<Item>
    requires ValidBand(p)
  {
    if p.refine then RefineBody(p, b, LastNew(p, b, p.se), p.ss, p.ss) else FirstBody(p, b, p.ss, 0)
  }

  /** What is left behind the last coefficient coded: nothing, or an end of band with correction bits. */
  function Tail(p: Band, b: Block): Pending
    requires ValidBand(p)
  {
    if p.refine then
      var e := LastNew(p, b, p.se);
      if e == p.se then NONE else Pending(1, CorrIn(p, b, if e == 0 then p.ss else e + 1, p.se + 1))
    else if FirstTail(p, b, p.ss, 0) > 0 then Pending(1, []) else NONE
  }

  /** A run is forced out before its counter or the correction bits can overflow. */
  predicate Forced(st: Pending) { st.run == MAX_RUN || |st.corr| > MAX_CORR_BITS - DCTSIZE2 + 1 }

  function Join(st: Pending, tail: Pending): Pending { Pending(st.run + tail.run, st.corr + tail.corr) }

  /** The items of a block, and the run pending after it. */
  ghost function StepItems(p: Band, st: Pending, b: Block): (seq<Item>, Pending)
    requires ValidBand(p)
  {
    if Quiet(p, b) then
      var next := Join(st, Tail(p, b));
      if Forced(next) then (EobItems(p.tbl, next), NONE) else ([], next)
    else (EobItems(p.tbl, st) + Body(p, b), Tail(p, b))
  }

  /** The items of blocks one after the other, with the last run written at the end. */
  ghost function AllItems(p: Band, st: Pending, blocks: seq<Block>): seq<Item>
    requires ValidBand(p)
    decreases |blocks|
  {
    if blocks == [] then EobItems(p.tbl, st)
    else
      var (items, next) := StepItems(p, st, blocks[0]);
      items + AllItems(p, next, blocks[1..])
  }

  /** Between blocks: no bits without a run, and room for those of another block. */
  predicate Bounded(st: Pending) {
    st.run < MAX_RUN && |st.corr| <= MAX_CORR_BITS - DCTSIZE2 + 1 && (st.run == 0 ==> st.corr == [])
  }
}
