/** Huffman coding of a block in the sequential process: the symbols and extra bits of a block (section
    F.1.2 of ITU-T T.81), and reading them back (section F.2.2). */
module HuffmanBlocks {
  import opened Powers
  import opened Coefficients
  import opened BitStream
  import opened CanonicalCode
  import opened HuffmanSymbols

  // ----- items -----

  const NUM_HUFF_TBLS := 4

  type TableNumber = n: nat | n < NUM_HUFF_TBLS

  /** What the entropy coder puts out one after the other: a symbol of a DC or AC table, or n extra bits. */
  datatype Item = Symbol(ac: bool, tbl: TableNumber, s: nat) | Extra(v: nat, n: nat)

  /** A table with the codes derived from it. */
  datatype Entry = Entry(t: HuffTable, d: Derived)

  type FourEntries = s: seq<Entry> | |s| == NUM_HUFF_TBLS witness seq(NUM_HUFF_TBLS, _ => NoEntry())

  function NoEntry(): Entry { Entry(NoCodes(), Derived(seq(256, _ => 0), seq(256, _ => 0))) }

  /** The tables of both kinds. */
  datatype Tables = Tables(dc: FourEntries, ac: FourEntries)

  function EntryOf(e: Tables, ac: bool, tbl: TableNumber): Entry { if ac then e.ac[tbl] else e.dc[tbl] }

  /** The table is accepted and the code is derived from it. */
  ghost predicate Ready(x: Entry, isDc: bool) { Accepted(x.t, isDc) && Derives(x.t, x.d) }

  /** The item can be written: its symbol has a code. */
  ghost predicate Codable(e: Tables, it: Item) {
    match it
    case Symbol(ac, tbl, s) => s < 256 && EntryOf(e, ac, tbl).d.size[s] > 0 && Ready(EntryOf(e, ac, tbl), !ac)
    case Extra(v, n) => 1 <= n <= 16 && v < Pow2(n)
  }

  ghost predicate AllCodable(e: Tables, items: seq<Item>) {
    forall i :: 0 <= i < |items| ==> Codable(e, items[i])
  }

  function ItemBits(e: Tables, it: Item): seq<Bit> {
    match it
    case Symbol(ac, tbl, s) => if s < 256 then SymbolBits(EntryOf(e, ac, tbl).d, s) else []
    case Extra(v, n) => ToBits(v, n)
  }

  function Bits(e: Tables, items: seq<Item>): seq<Bit> {
    if items == [] then [] else ItemBits(e, items[0]) + Bits(e, items[1..])
  }

  lemma {:induction false} BitsConcat(e: Tables, a: seq<Item>, b: seq<Item>)
    ensures Bits(e, a + b) == Bits(e, a) + Bits(e, b)
  {
    hide ItemBits;
    if a == [] {
      assert a + b == b;
    } else {
      assert (a + b)[1..] == a[1..] + b;
      BitsConcat(e, a[1..], b);
    }
  }

  // ----- magnitudes -----

  /** The number of bits of a magnitude. */
  function Size(v: nat): (n: nat)
    ensures v < Pow2(n) && (v > 0 ==> n > 0 && Pow2(n - 1) <= v)
  {
    if v == 0 then 0 else 1 + Size(v / 2)
  }

  /** The extra bits of a value of n bits: the value itself, or the complement of its magnitude. */
  function ExtraOf(x: int): (v: nat)
    ensures v < Pow2(Size(Abs(x)))
  {
    if x >= 0 then x else x - 1 + Pow2(Size(Abs(x)))
  }

  /** The value that n extra bits stand for (figure F.12). */
  function Extend(r: nat, n: nat): int
    requires n > 0
  {
    if r < Pow2(n - 1) then r - (Pow2(n) - 1) else r
  }

  lemma ExtendInverts(x: int)
    requires x != 0
    ensures Extend(ExtraOf(x), Size(Abs(x))) == x
  {
    var n := Size(Abs(x));
    assert Pow2(n) == 2 * Pow2(n - 1);
  }

  lemma {:induction false} SizeBound(v: nat, n: nat)
    requires v < Pow2(n)
    ensures Size(v) <= n
    decreases n
  {
    if n > 0 && v > 0 {
      SizeBound(v / 2, n - 1);
    }
  }

  /** A value with its size. */
  function Value(ac: bool, tbl: TableNumber, run: nat, x: int): seq<Item> {
    [Symbol(ac, tbl, 16 * run + Size(Abs(x)))] + if x == 0 then [] else [Extra(ExtraOf(x), Size(Abs(x)))]
  }

  // ----- blocks -----

  const MAX_COEF_BITS := 10

  predicate DcFits(diff: int) { Size(Abs(diff)) <= MAX_COEF_BITS + 1 }

  predicate AcFits(b: Block, k: nat, se: nat)
    requires se < 64
  {
    forall j :: k <= j <= se ==> Size(Abs(b[j])) <= MAX_COEF_BITS
  }

  /** Symbols for runs of sixteen zeros. */
  function LongRuns(tbl: TableNumber, r: nat): seq<Item> {
    if r < 16 then [] else [Symbol(true, tbl, 0xF0)] + LongRuns(tbl, r - 16)
  }

  /** Coefficients k to se, behind r zeros. */
  function AcItems(tbl: TableNumber, b: Block, k: nat, r: nat, se: nat): seq<Item>
    requires k <= se + 1 <= 64
    decreases se + 1 - k
  {
    if k == se + 1 then (if r > 0 then [Symbol(true, tbl, 0)] else [])
    else if b[k] == 0 then AcItems(tbl, b, k + 1, r + 1, se)
    else LongRuns(tbl, r) + Value(true, tbl, r % 16, b[k]) + AcItems(tbl, b, k + 1, 0, se)
  }

  /** A block whose DC coefficient is predicted as `pred`. */
  function BlockItems(dcTbl: TableNumber, acTbl: TableNumber, pred: int, b: Block, se: nat): seq<Item>
    requires se < 64
  {
    Value(false, dcTbl, 0, b[0] - pred) + AcItems(acTbl, b, 1, 0, se)
  }

  // ----- reading -----

  /** A value of s extra bits. */
  function ReadExtra(src: Source, s: nat): (int, Source) {
    if s == 0 then (0, src) else (Extend(Take(src, s).0, s), Take(src, s).1)
  }

  /** Coefficients from k on, read into a block that holds zeros there.  Positions beyond the block, which
      only bad data lead to, count as its last. */
  function ReadAc(t: HuffTable, src: Source, b: Block, k: nat, se: nat): (Block, Source)
    requires se < 64
    decreases se + 1 - k
  {
    if k > se then (b, src)
    else
      var (sym, s1) := ReadSymbol(t, src);
      var r, s := sym / 16, sym % 16;
      if s != 0 then
        var (x, s2) := ReadExtra(s1, s);
        var at := if k + r < 64 then k + r else 63;
        ReadAc(t, s2, b[at := ToCoef(x)], k + r + 1, se)
      else if r != 15 then (b, s1)
      else ReadAc(t, s1, b, k + 16, se)
  }

  datatype BlockRead = BlockRead(b: Block, pred: int, src: Source)

  function ReadBlock(dct: HuffTable, act: HuffTable, src: Source, pred: int, b: Block, se: nat): BlockRead
    requires se < 64
  {
    var (s, s1) := ReadSymbol(dct, src);
    var (diff, s2) := ReadExtra(s1, s);
    var (b1, s3) := ReadAc(act, s2, b[0 := ToCoef(diff + pred)], 1, se);
    BlockRead(b1, diff + pred, s3)
  }

  // ----- round trip -----

  /** A reader at `src` reads the item and goes on at `next`. */
  ghost predicate ReadsAs(e: Tables, it: Item, src: Source, next: Source) {
    match it
    case Symbol(ac, tbl, s) => ReadSymbol(EntryOf(e, ac, tbl).t, src) == (s, next)
    case Extra(v, n) => Take(src, n) == (v, next)
  }

  /** Reading the bits of the first item. */
  lemma ReadFirst(e: Tables, items: seq<Item>, rest: seq<Bit>, dry: bool)
    requires items != [] && Codable(e, items[0])
    ensures ReadsAs(e, items[0], Source(Bits(e, items) + rest, dry), Source(Bits(e, items[1..]) + rest, dry))
  {
    hide ReadSymbol, SymbolBits, Take, ToBits, Derives, Accepted;
    var tail := Bits(e, items[1..]) + rest;
    assert Bits(e, items) + rest == ItemBits(e, items[0]) + tail;
    match items[0] {
      case Symbol(ac, tbl, s) =>
        SymbolRoundTrip(EntryOf(e, ac, tbl).t, !ac, EntryOf(e, ac, tbl).d, s, tail, dry);
      case Extra(v, n) => TakeWritten(v, n, tail, dry);
    }
  }

  lemma CodableParts(e: Tables, a: seq<Item>, b: seq<Item>)
    requires AllCodable(e, a + b)
    ensures AllCodable(e, a) && AllCodable(e, b)
  {
    hide Codable;
    forall i | 0 <= i < |a|
      ensures Codable(e, a[i])
    {
      assert (a + b)[i] == a[i];
    }
    forall i | 0 <= i < |b|
      ensures Codable(e, b[i])
    {
      assert (a + b)[|a| + i] == b[i];
    }
  }

  lemma FirstCodable(e: Tables, items: seq<Item>)
    requires AllCodable(e, items) && items != []
    ensures Codable(e, items[0]) && AllCodable(e, items[1..])
  {
    hide Codable;
  }

  /** Reading a value back: its symbol gives run and size, its extra bits the value. */
  lemma ReadValue(e: Tables, ac: bool, tbl: TableNumber, run: nat, x: int, more: seq<Item>, rest: seq<Bit>, dry: bool)
    requires run < 16 && Size(Abs(x)) < 16 && AllCodable(e, Value(ac, tbl, run, x))
    ensures var src := Source(Bits(e, Value(ac, tbl, run, x) + more) + rest, dry);
      var (s, s1) := ReadSymbol(EntryOf(e, ac, tbl).t, src);
      s == 16 * run + Size(Abs(x)) && ReadExtra(s1, Size(Abs(x))) == (x, Source(Bits(e, more) + rest, dry))
  {
    hide ReadSymbol, Take, Bits, Codable, ExtraOf, Extend, Size;
    var value := Value(ac, tbl, run, x);
    var items := value + more;
    FirstCodable(e, value);
    ReadFirst(e, items, rest, dry);
    if x == 0 {
      assert items[1..] == more;
      SizeZero();
    } else {
      SizePositive(Abs(x));
      var tail := items[1..];
      assert tail[0] == value[1] == Extra(ExtraOf(x), Size(Abs(x))) && tail[1..] == more;
      ReadFirst(e, tail, rest, dry);
      ExtendInverts(x);
    }
  }

  lemma SizeZero()
    ensures Size(0) == 0
  {
  }

  lemma SizePositive(v: nat)
    requires v > 0
    ensures Size(v) > 0
  {
  }

  /** What a reader of AC coefficients makes of the items, standing at k. */
  function AcRead(e: Tables, tbl: TableNumber, items: seq<Item>, rest: seq<Bit>, dry: bool, b: Block, k: nat,
      se: nat): (Block, Source) {
    if se < 64 then ReadAc(e.ac[tbl].t, Source(Bits(e, items) + rest, dry), b, k, se) else (b, Source(rest, dry))
  }

  /** Whole runs of sixteen. */
  function Whole(r: nat): nat { r - r % 16 }

  /** Sixteen zeros at a time. */
  lemma {:induction false} ReadLongRuns(e: Tables, tbl: TableNumber, r: nat, more: seq<Item>, rest: seq<Bit>, dry: bool,
      b: Block, k: nat, se: nat)
    requires AllCodable(e, LongRuns(tbl, r)) && k + r <= se < 64
    ensures AcRead(e, tbl, LongRuns(tbl, r) + more, rest, dry, b, k, se)
      == AcRead(e, tbl, more, rest, dry, b, k + Whole(r), se)
    decreases r
  {
    hide ReadSymbol, Take, Bits, Codable;
    if r < 16 {
      assert LongRuns(tbl, r) + more == more;
    } else {
      var items := LongRuns(tbl, r) + more;
      FirstCodable(e, LongRuns(tbl, r));
      ReadFirst(e, items, rest, dry);
      assert items[1..] == LongRuns(tbl, r - 16) + more;
      assert LongRuns(tbl, r)[1..] == LongRuns(tbl, r - 16);
      ReadLongRuns(e, tbl, r - 16, more, rest, dry, b, k + 16, se);
    }
  }

  /** A block with coefficients 1 to se from b. */
  function WithAc(was: Block, b: Block, se: nat): Block {
    seq(64, j requires 0 <= j < 64 => if 1 <= j <= se then b[j] else was[j])
  }

  /** What has been read into `now` when the reader stands at h: the coefficients before it. */
  ghost predicate ReadUpTo(now: Block, was: Block, b: Block, h: nat, se: nat) {
    forall j :: 0 <= j < 64 ==> now[j] == if 1 <= j <= se && j < h then b[j] else was[j]
  }

  lemma {:induction false} AcRoundTrip(e: Tables, tbl: TableNumber, b: Block, k: nat, r: nat, se: nat, was: Block,
      now: Block,
      rest: seq<Bit>, dry: bool)
    requires k <= se + 1 <= 64 && r < k && AcFits(b, k, se)
    requires AllCodable(e, AcItems(tbl, b, k, r, se))
    requires forall j :: k - r <= j < k ==> b[j] == 0
    requires (forall j :: 1 <= j <= se ==> was[j] == 0) && ReadUpTo(now, was, b, k - r, se)
    ensures AcRead(e, tbl, AcItems(tbl, b, k, r, se), rest, dry, now, k - r, se)
      == (WithAc(was, b, se), Source(rest, dry))
    decreases se + 1 - k
  {
    hide AcRead, Codable, LongRuns, Size, Value;
    if k == se + 1 {
      assert now == WithAc(was, b, se);
      EndOfBlock(e, tbl, r, rest, dry, now, k - r, se);
    } else if b[k] == 0 {
      AcRoundTrip(e, tbl, b, k + 1, r + 1, se, was, now, rest, dry);
    } else {
      var more := AcItems(tbl, b, k + 1, 0, se);
      var after := now[k := b[k]];
      Coefficient(e, tbl, r, b[k], more, rest, dry, now, after, k - r, k, se);
      AcRoundTrip(e, tbl, b, k + 1, 0, se, was, after, rest, dry);
    }
  }

  lemma EndOfBlock(e: Tables, tbl: TableNumber, r: nat, rest: seq<Bit>, dry: bool, now: Block, k: nat, se: nat)
    requires se < 64 && k + r == se + 1
    requires var items := if r > 0 then [Symbol(true, tbl, 0)] else [];
      AllCodable(e, items)
    ensures var items := if r > 0 then [Symbol(true, tbl, 0)] else [];
      AcRead(e, tbl, items, rest, dry, now, k, se) == (now, Source(rest, dry))
  {
    hide ReadSymbol, Codable, ItemBits;
    if r > 0 {
      var items := [Symbol(true, tbl, 0)];
      FirstCodable(e, items);
      ReadFirst(e, items, rest, dry);
      assert items[1..] == [];
      assert Bits(e, []) + rest == rest;
    } else {
      assert Bits(e, []) + rest == rest;
    }
  }

  /** One nonzero coefficient behind a run of zeros. */
  lemma Coefficient(e: Tables, tbl: TableNumber, r: nat, x: Coef, more: seq<Item>, rest: seq<Bit>, dry: bool,
      now: Block, after: Block,
      h: nat, k: nat, se: nat)
    requires h + r == k <= se < 64 && after == now[k := x] && x != 0 && Size(Abs(x)) <= MAX_COEF_BITS
    requires AllCodable(e, LongRuns(tbl, r) + Value(true, tbl, r % 16, x) + more)
    ensures AllCodable(e, more)
    ensures AcRead(e, tbl, LongRuns(tbl, r) + Value(true, tbl, r % 16, x) + more, rest, dry, now, h, se)
      == AcRead(e, tbl, more, rest, dry, after, k + 1, se)
  {
    hide AcRead, Codable, Size, Value, LongRuns;
    var runs, value := LongRuns(tbl, r), Value(true, tbl, r % 16, x);
    CodableParts(e, runs + value, more);
    CodableParts(e, runs, value);
    assert runs + value + more == runs + (value + more);
    ReadLongRuns(e, tbl, r, value + more, rest, dry, now, h, se);
    OneValue(e, tbl, r % 16, x, more, rest, dry, now, after, h + Whole(r), k, se);
  }

  lemma OneValue(e: Tables, tbl: TableNumber, run: nat, x: Coef, more: seq<Item>, rest: seq<Bit>, dry: bool,
      now: Block, after: Block,
      h: nat, k: nat, se: nat)
    requires run < 16 && h + run == k <= se < 64 && after == now[k := x] && x != 0 && Size(Abs(x)) <= MAX_COEF_BITS
    requires AllCodable(e, Value(true, tbl, run, x))
    ensures AcRead(e, tbl, Value(true, tbl, run, x) + more, rest, dry, now, h, se)
      == AcRead(e, tbl, more, rest, dry, after, k + 1, se)
  {
    hide ReadSymbol, ReadExtra, Bits, Codable, Size, Value;
    ReadValue(e, true, tbl, run, x, more, rest, dry);
    SizePositive(Abs(x));
    var n := Size(Abs(x));
    assert (16 * run + n) / 16 == run && (16 * run + n) % 16 == n;
    assert ToCoef(x) == x;
  }

  /** Block round trip: the bits of a block, read into a block of zeros, give the coefficients and the
      prediction back and are used up exactly. */
  lemma BlockRoundTrip(e: Tables, dcTbl: TableNumber, acTbl: TableNumber, pred: int, b: Block, se: nat, was: Block,
      rest: seq<Bit>, dry: bool)
    requires se < 64 && DcFits(b[0] - pred) && AcFits(b, 1, se)
    requires AllCodable(e, BlockItems(dcTbl, acTbl, pred, b, se))
    requires forall j :: 1 <= j <= se ==> was[j] == 0
    ensures ReadBlock(e.dc[dcTbl].t, e.ac[acTbl].t, Source(Bits(e, BlockItems(dcTbl, acTbl, pred, b, se)) + rest, dry),
      pred, was, se)
      == BlockRead(WithAc(was[0 := b[0]], b, se), b[0], Source(rest, dry))
  {
    hide ReadSymbol, ReadExtra, Bits, Codable, Size, Value, ReadAc, AcItems;
    var diff, more := b[0] - pred, AcItems(acTbl, b, 1, 0, se);
    CodableParts(e, Value(false, dcTbl, 0, diff), more);
    ReadValue(e, false, dcTbl, 0, diff, more, rest, dry);
    assert ToCoef(diff + pred) == b[0];
    var start := was[0 := b[0]];
    AcRoundTrip(e, acTbl, b, 1, 0, se, start, start, rest, dry);
  }
}
