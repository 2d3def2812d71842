/** From statistics to tables: the end of the statistics pass builds each table once, and with the tables
    built no symbol of the output pass lacks a code. */
module OptimisedCoding {
  import Powers
  import opened Coefficients
  import opened RestartIntervals
  import opened HuffmanTree
  import opened CodeLengths
  import opened CanonicalCode
  import opened DerivedTables
  import opened OptimalTable
  import opened TableBuilder
  import opened HuffmanBlocks
  import opened HuffmanScan
  import opened HuffmanBlockEncoder
  import opened HuffmanScanEncoder
  import opened HuffmanStatistics

  // ----- which items occur -----

  /** DC symbols are sizes up to 11; AC symbols a run and a size up to 10. */
  predicate Plausible(ac: bool, s: nat) { if ac then s < 256 && s % 16 <= MAX_COEF_BITS else s <= MAX_COEF_BITS + 1 }

  /** The tables a scan needs: those of its components, DC or AC or both. */
  datatype Coverage = Coverage(comps: seq<Component>, dc: bool, ac: bool)

  function CoverageOf(s: Scan): Coverage { Coverage(s.comps, true, s.se > 0) }

  /** Some component of the scan uses the table. */
  predicate Uses(u: Coverage, ac: bool, tbl: TableNumber) {
    exists ci :: 0 <= ci < |u.comps| && tbl == if ac then u.comps[ci].acTbl else u.comps[ci].dcTbl
  }

  /** An item that can occur: a plausible symbol of a table needed, or extra bits of one value. */
  ghost predicate Proper(u: Coverage, it: Item) {
    match it
    case Symbol(ac, tbl, sym) => Plausible(ac, sym) && Uses(u, ac, tbl) && (if ac then u.ac else u.dc)
    case Extra(v, n) => 1 <= n <= 16 && v < Powers.Pow2(n)
  }

  ghost predicate AllProper(u: Coverage, items: seq<Item>) {
    forall i :: 0 <= i < |items| ==> Proper(u, items[i])
  }

  lemma ProperConcat(u: Coverage, a: seq<Item>, b: seq<Item>)
    requires AllProper(u, a) && AllProper(u, b)
    ensures AllProper(u, a + b)
  {
    hide Proper;
  }

  lemma NothingProper(u: Coverage)
    ensures AllProper(u, [])
  {
  }

  lemma {:induction false} RunsProper(u: Coverage, tbl: TableNumber, r: nat)
    requires Uses(u, true, tbl) && u.ac
    ensures AllProper(u, LongRuns(tbl, r))
    decreases r
  {
    hide Uses;
    if r >= 16 {
      RunsProper(u, tbl, r - 16);
    }
  }

  lemma ValueProper(u: Coverage, ac: bool, tbl: TableNumber, run: nat, x: int)
    requires Uses(u, ac, tbl) && (if ac then u.ac else u.dc)
    requires if ac then run < 16 && Size(Abs(x)) <= MAX_COEF_BITS else run == 0 && Size(Abs(x)) <= MAX_COEF_BITS + 1
    ensures AllProper(u, Value(ac, tbl, run, x))
  {
    SizeOfZero(x);
    hide Size, ExtraOf, Uses;
    assert (16 * run + Size(Abs(x))) % 16 == Size(Abs(x)) % 16;
  }

  lemma {:induction false} AcProper(s: Scan, tbl: TableNumber, b: Block, k: nat, r: nat)
    requires 1 <= k <= s.se + 1 <= 64 && AcFits(b, k, s.se) && Uses(CoverageOf(s), true, tbl) && (r > 0 ==> s.se > 0)
    ensures AllProper(CoverageOf(s), AcItems(tbl, b, k, r, s.se))
    decreases s.se + 1 - k
  {
    hide Size, Value, LongRuns, Uses;
    if k <= s.se {
      if b[k] == 0 {
        AcProper(s, tbl, b, k + 1, r + 1);
      } else {
        AcProper(s, tbl, b, k + 1, 0);
        RunsProper(CoverageOf(s), tbl, r);
        ValueProper(CoverageOf(s), true, tbl, r % 16, b[k]);
        ProperConcat(CoverageOf(s), LongRuns(tbl, r), Value(true, tbl, r % 16, b[k]));
        ProperConcat(CoverageOf(s), LongRuns(tbl, r) + Value(true, tbl, r % 16, b[k]), AcItems(tbl, b, k + 1, 0, s.se));
      }
    }
  }

  lemma {:induction false} McuProper(s: Scan, preds: seq<int>, mcu: Mcu, i: nat)
    requires ValidScan(s) && |preds| == |s.comps| && ValidMcu(s, mcu) && i <= |mcu| && McuFits(s, preds, mcu, i)
    ensures AllProper(CoverageOf(s), McuItems(s, preds, mcu, i))
    decreases |mcu| - i
  {
    hide AllProper, Size, Value, AcItems;
    if i == |mcu| {
      NothingProper(CoverageOf(s));
    } else {
      var c := s.membership[i];
      var comp, next := s.comps[c], preds[c := mcu[i][0]];
      assert Uses(CoverageOf(s), false, comp.dcTbl) && Uses(CoverageOf(s), true, comp.acTbl);
      McuProper(s, next, mcu, i + 1);
      var dc, ac := Value(false, comp.dcTbl, 0, mcu[i][0] - preds[c]), AcItems(comp.acTbl, mcu[i], 1, 0, s.se);
      ValueProper(CoverageOf(s), false, comp.dcTbl, 0, mcu[i][0] - preds[c]);
      AcProper(s, comp.acTbl, mcu[i], 1, 0);
      ProperConcat(CoverageOf(s), dc, ac);
      ProperConcat(CoverageOf(s), dc + ac, McuItems(s, next, mcu, i + 1));
    }
  }

  lemma {:induction false} ChunkProper(s: Scan, preds: seq<int>, chunk: Chunk)
    requires ValidScan(s) && |preds| == |s.comps| && ValidChunk(s, chunk) && ChunkFits(s, preds, chunk)
    ensures AllProper(CoverageOf(s), ChunkItems(s, preds, chunk))
    decreases |chunk|
  {
    hide AllProper, McuItems, McuPreds, McuFits;
    if chunk == [] {
      NothingProper(CoverageOf(s));
    } else {
      McuProper(s, preds, chunk[0], 0);
      ChunkProper(s, McuPreds(s, preds, chunk[0], 0), chunk[1..]);
      ProperConcat(CoverageOf(s), McuItems(s, preds, chunk[0], 0),
        ChunkItems(s, McuPreds(s, preds, chunk[0], 0), chunk[1..]));
    }
  }

  ghost predicate ChunksFit(s: Scan, chunks: seq<Chunk>)
    requires ValidScan(s) && ValidChunks(s, chunks)
  {
    forall j :: 0 <= j < |chunks| ==> ChunkFits(s, Zero(s), chunks[j])
  }

  lemma {:induction false} ScanProper(s: Scan, chunks: seq<Chunk>)
    requires ValidScan(s) && ValidChunks(s, chunks) && ChunksFit(s, chunks)
    ensures AllProper(CoverageOf(s), AllItems(s, chunks))
    decreases |chunks|
  {
    hide AllProper, ChunkItems, ChunkFits;
    if chunks == [] {
      NothingProper(CoverageOf(s));
    } else {
      var n := |chunks| - 1;
      ScanProper(s, chunks[..n]);
      ChunkProper(s, Zero(s), chunks[n]);
      ProperConcat(CoverageOf(s), AllItems(s, chunks[..n]), ChunkItems(s, Zero(s), chunks[n]));
    }
  }

  // ----- counts a table can be built from -----

  /** What the table builder asks of its counts. */
  ghost predicate Buildable(freq: seq<nat>) {
    ValidCounts(freq) && Sum(WithPseudo(freq)) <= MAX_COUNT && Used(WithPseudo(freq)) <= 255
  }

  /** The number of plausible symbols below n. */
  function PlausibleBelow(ac: bool, n: nat): nat {
    if n == 0 then 0 else PlausibleBelow(ac, n - 1) + if Plausible(ac, n - 1) then 1 else 0
  }

  lemma {:induction false} AcPlausibleCount(n: nat)
    requires n <= 256
    ensures PlausibleBelow(true, n) <= 11 * (n / 16) + if n % 16 <= 11 then n % 16 else 11
  {
    if n > 0 {
      AcPlausibleCount(n - 1);
      OneLess(n);
    }
  }

  lemma OneLess(n: nat)
    requires n > 0
    ensures if n % 16 == 0 then (n - 1) / 16 == n / 16 - 1 && (n - 1) % 16 == 15
            else (n - 1) / 16 == n / 16 && (n - 1) % 16 == n % 16 - 1
  {
  }

  lemma {:induction false} DcPlausibleCount(n: nat)
    ensures PlausibleBelow(false, n) <= 12
    ensures n <= 12 ==> PlausibleBelow(false, n) == n
  {
    if n > 0 {
      DcPlausibleCount(n - 1);
    }
  }

  lemma {:induction false} UsedPlausible(ac: bool, freq: seq<nat>, n: nat)
    requires n <= |freq| && forall s :: 0 <= s < |freq| && freq[s] > 0 ==> Plausible(ac, s)
    ensures Used(freq[..n]) <= PlausibleBelow(ac, n)
  {
    hide Plausible;
    if n > 0 {
      UsedPlausible(ac, freq, n - 1);
      assert freq[..n][..n - 1] == freq[..n - 1];
    }
  }

  lemma UsedFew(ac: bool, freq: seq<nat>)
    requires |freq| == 257 && freq[256] == 0 && forall s :: 0 <= s < 257 && freq[s] > 0 ==> Plausible(ac, s)
    ensures Used(WithPseudo(freq)) <= 177
  {
    hide Used, Plausible, PlausibleBelow;
    UsedPlausible(ac, freq, 256);
    AcPlausibleCount(256);
    DcPlausibleCount(256);
    UsedLast(freq);
  }

  lemma UsedLast(freq: seq<nat>)
    requires |freq| == 257
    ensures Used(WithPseudo(freq)) == Used(freq[..256]) + 1
  {
    assert WithPseudo(freq)[..256] == freq[..256];
  }

  /** All counts together are no more than the items. */
  lemma {:induction false} SumOfCounts(freq: seq<nat>, items: seq<Item>, ac: bool, tbl: TableNumber)
    requires |freq| == 257 && forall s :: 0 <= s < 257 ==> freq[s] == Occurrences(items, ac, tbl, s)
    ensures Sum(freq) <= |items|
    decreases |items|
  {
    if items == [] {
      SumZero(freq);
    } else {
      var rest := seq(257, s requires 0 <= s < 257 => Occurrences(items[1..], ac, tbl, s));
      SumOfCounts(rest, items[1..], ac, tbl);
      FirstCounts(freq, rest, items, ac, tbl);
      if items[0].Symbol? && items[0].ac == ac && items[0].tbl == tbl && items[0].s < 257 {
        SumUpdate(rest, items[0].s, rest[items[0].s] + 1);
      }
    }
  }

  lemma FirstCounts(freq: seq<nat>, rest: seq<nat>, items: seq<Item>, ac: bool, tbl: TableNumber)
    requires |freq| == |rest| == 257 && items != []
    requires forall s :: 0 <= s < 257 ==>
      freq[s] == Occurrences(items, ac, tbl, s) && rest[s] == Occurrences(items[1..], ac, tbl, s)
    ensures freq == if items[0].Symbol? && items[0].ac == ac && items[0].tbl == tbl && items[0].s < 257
                    then rest[items[0].s := rest[items[0].s] + 1] else rest
  {
  }

  lemma {:induction false} CountedOccurs(items: seq<Item>, ac: bool, tbl: TableNumber, s: nat)
    requires Occurrences(items, ac, tbl, s) > 0
    ensures exists i :: 0 <= i < |items| && items[i] == Symbol(ac, tbl, s)
    decreases |items|
  {
    if items[0] != Symbol(ac, tbl, s) {
      CountedOccurs(items[1..], ac, tbl, s);
      var i :| 0 <= i < |items[1..]| && items[1..][i] == Symbol(ac, tbl, s);
      assert items[i + 1] == Symbol(ac, tbl, s);
    }
  }

  lemma {:induction false} OccursCounted(items: seq<Item>, i: nat)
    requires i < |items| && items[i].Symbol?
    ensures Occurrences(items, items[i].ac, items[i].tbl, items[i].s) > 0
    decreases i
  {
    if i > 0 {
      OccursCounted(items[1..], i - 1);
    }
  }

  /** Some symbol of a table is among the items. */
  ghost predicate HasSymbol(items: seq<Item>, ac: bool, tbl: TableNumber) {
    exists i :: 0 <= i < |items| && items[i].Symbol? && items[i].ac == ac && items[i].tbl == tbl
  }

  lemma HasSymbolConcat(a: seq<Item>, b: seq<Item>, ac: bool, tbl: TableNumber)
    ensures HasSymbol(a, ac, tbl) || HasSymbol(b, ac, tbl) ==> HasSymbol(a + b, ac, tbl)
  {
    if HasSymbol(a, ac, tbl) {
      var i :| 0 <= i < |a| && a[i].Symbol? && a[i].ac == ac && a[i].tbl == tbl;
      assert (a + b)[i] == a[i];
    } else if HasSymbol(b, ac, tbl) {
      var i :| 0 <= i < |b| && b[i].Symbol? && b[i].ac == ac && b[i].tbl == tbl;
      assert (a + b)[|a| + i] == b[i];
    }
  }

  lemma ValueHasSymbol(ac: bool, tbl: TableNumber, run: nat, x: int)
    ensures HasSymbol(Value(ac, tbl, run, x), ac, tbl)
  {
    assert Value(ac, tbl, run, x)[0].Symbol?;
  }

  /** Counts of plausible items that include some symbol of the table are fit to build it from. */
  lemma CountsBuildable(u: Coverage, freq: seq<nat>, items: seq<Item>, ac: bool, tbl: TableNumber)
    requires Counted(freq, seq(257, _ => 0), items, ac, tbl) && AllProper(u, items) && |items| < MAX_COUNT
    requires HasSymbol(items, ac, tbl)
    ensures Buildable(freq)
  {
    var i :| 0 <= i < |items| && items[i].Symbol? && items[i].ac == ac && items[i].tbl == tbl;
    OccursCounted(items, i);
    assert freq[items[i].s] > 0;
    forall k | 0 <= k < 257 && freq[k] > 0
      ensures Plausible(ac, k)
    {
      CountedOccurs(items, ac, tbl, k);
      assert Proper(u, Symbol(ac, tbl, k));
    }
    SumOfCounts(freq, items, ac, tbl);
    hide Sum, Used, Occurrences;
    assert !Plausible(ac, 256);
    assert freq[256] == 0;
    UsedFew(ac, freq);
    SumUpdate(freq, 256, 1);
  }

  // ----- building the tables -----

  /** The tables of both kinds, as they are sent. */
  datatype TableSet = TableSet(dc: seq<Table>, ac: seq<Table>)

  predicate ValidTableSet(t: TableSet) { |t.dc| == |t.ac| == NUM_HUFF_TBLS }

  /** The table built from counts. */
  ghost predicate HoldsCounts(t: Table, counts: seq<nat>) {
    ValidCounts(counts) && Holds(t, counts)
  }

  /** Build one table in place of an old one; the counts are used up. */
  method BuildTable(freq: array<nat>, was: Table) returns (ok: bool, t: Table)
    requires freq.Length == 257 && Buildable(freq[..])
    modifies freq
    ensures ok <==> Build(old(freq[..])).Built?
    ensures ok ==> HoldsCounts(t, old(freq[..]))
    ensures !ok ==> t == was && Unbuildable(old(freq[..]))
  {
    hide Build, Sum, Used;
    ghost var counts := freq[..];
    var bits := new Octet[17](_ => 0);
    var values := new nat[256](i requires 0 <= i < 256 => was.values[i]);
    assert values[..] == was.values;
    ok := GenOptimalTable(freq, bits, values);
    if !ok {
      return ok, was;
    }
    BuiltSymbols(counts);
    AllSymbols(Build(counts).values, was.values, values[..]);
    assert bits[..] == Build(counts).bits;
    t := Table(bits[..], SymbolsOf(values[..]));
  }

  lemma AllSymbols(listed: seq<nat>, was: SymbolList, v: seq<nat>)
    requires |listed| <= 256 && v == listed + was[|listed|..] && forall i :: 0 <= i < |listed| ==> listed[i] < 256
    ensures |v| == 256 && forall i :: 0 <= i < 256 ==> v[i] < 256
  {
    forall i | 0 <= i < 256
      ensures v[i] < 256
    {
      if i >= |listed| {
        assert v[i] == was[i];
      }
    }
  }

  function SymbolsOf(v: seq<nat>): (r: SymbolList)
    requires |v| == 256 && forall i :: 0 <= i < 256 ==> v[i] < 256
    ensures r == v
  {
    v
  }

  lemma BuiltSymbols(freq: seq<nat>)
    requires ValidCounts(freq) && Build(freq).Built?
    ensures forall i :: 0 <= i < |Build(freq).values| ==> Build(freq).values[i] < 256
  {
    hide Listed, CodeSizes, CountAll, Limited, Withdrawn;
    CountsComplete(freq);
    ListedOrder(CodeSizes(freq), MAX_CLEN);
  }

  /** Component ci's tables hold what its counts give. */
  ghost predicate BuiltFrom(u: Coverage, t: TableSet, dc: Counters, ac: Counters, ci: nat)
    requires ValidTableSet(t) && ci < |u.comps|
  {
    var d, a := u.comps[ci].dcTbl, u.comps[ci].acTbl;
    && (u.dc ==> HoldsCounts(t.dc[d], dc[d]))
    && (u.ac ==> HoldsCounts(t.ac[a], ac[a]))
  }

  /** The counts a component's tables are built from are fit for it. */
  ghost predicate CountsReady(u: Coverage, dc: Counters, ac: Counters, ci: nat)
    requires ci < |u.comps|
  {
    (u.dc ==> Buildable(dc[u.comps[ci].dcTbl])) && (u.ac ==> Buildable(ac[u.comps[ci].acTbl]))
  }

  /** Some code word would need more than 32 bits. */
  ghost predicate Unbuildable(freq: seq<nat>) {
    ValidCounts(freq) && !Build(freq).Built?
  }

  /** Some component's counts lead to a code word of more than 32 bits. */
  ghost predicate NeedsLongCode(u: Coverage, dc: Counters, ac: Counters) {
    exists ci :: 0 <= ci < |u.comps|
      && ((u.dc && Unbuildable(dc[u.comps[ci].dcTbl])) || (u.ac && Unbuildable(ac[u.comps[ci].acTbl])))
  }

  /** How far building has got: tables already built hold their counts, the counts of others are intact. */
  ghost predicate Building(did: seq<bool>, now: seq<Table>, counts: Counters, counts0: Counters) {
    |did| == |now| == NUM_HUFF_TBLS
    && forall tbl: TableNumber ::
         if did[tbl] then HoldsCounts(now[tbl], counts0[tbl]) else counts[tbl] == counts0[tbl]
  }

  /** Build a table unless a component before has had it built: building uses the counts up. */
  method BuildOnce(did: seq<bool>, arrays: seq<array<nat>>, tables: seq<Table>, tbl: TableNumber,
      ghost counts0: Counters)
    returns (ok: bool, did1: seq<bool>, tables1: seq<Table>)
    requires |arrays| == NUM_HUFF_TBLS && (forall i :: 0 <= i < NUM_HUFF_TBLS ==> arrays[i].Length == 257)
    requires forall i, j :: 0 <= i < j < NUM_HUFF_TBLS ==> arrays[i] != arrays[j]
    requires Building(did, tables, Snapshot(arrays), counts0) && Buildable(counts0[tbl])
    modifies arrays
    ensures ok ==> Building(did1, tables1, Snapshot(arrays), counts0) && did1 == did[tbl := true]
    ensures !ok ==> Unbuildable(counts0[tbl])
  {
    hide Buildable, HoldsCounts, Unbuildable;
    did1, tables1, ok := did, tables, true;
    if !did[tbl] {
      ghost var before := Snapshot(arrays);
      assert arrays[tbl][..] == before[tbl];
      var t;
      ok, t := BuildTable(arrays[tbl], tables[tbl]);
      assert forall i: TableNumber :: i != tbl ==> Snapshot(arrays)[i] == before[i];
      tables1 := tables[tbl := t];
      did1 := did[tbl := true];
    } else {
      assert did[tbl := true] == did;
    }
  }

  /** The end of the statistics pass: build every table the scan's components use, each once.  It fails only if
      some code word would need more than 32 bits. */
  method FinishPassGather(u: Coverage, dc: seq<array<nat>>, ac: seq<array<nat>>, was: TableSet)
    returns (ok: bool, t: TableSet)
    requires ValidArrays(dc, ac) && ValidTableSet(was)
    requires forall ci :: 0 <= ci < |u.comps| ==> CountsReady(u, Snapshot(dc), Snapshot(ac), ci)
    modifies dc, ac
    ensures ok ==> ValidTableSet(t) && forall ci :: 0 <= ci < |u.comps| ==>
      BuiltFrom(u, t, old(Snapshot(dc)), old(Snapshot(ac)), ci)
    ensures ok <==> !NeedsLongCode(u, old(Snapshot(dc)), old(Snapshot(ac)))
  {
    hide Buildable, HoldsCounts, Unbuildable;
    ghost var dc0, ac0 := Snapshot(dc), Snapshot(ac);
    var didDc, didAc := seq(NUM_HUFF_TBLS, _ => false), seq(NUM_HUFF_TBLS, _ => false);
    var dcTables, acTables := was.dc, was.ac;
    for ci := 0 to |u.comps|
      invariant Building(didDc, dcTables, Snapshot(dc), dc0) && Building(didAc, acTables, Snapshot(ac), ac0)
      invariant forall j :: 0 <= j < ci ==> (u.dc ==> didDc[u.comps[j].dcTbl]) && (u.ac ==> didAc[u.comps[j].acTbl])
    {
      assert CountsReady(u, dc0, ac0, ci);
      if u.dc {
        ghost var ac1 := Snapshot(ac);
        ok, didDc, dcTables := BuildOnce(didDc, dc, dcTables, u.comps[ci].dcTbl, dc0);
        if !ok {
          return false, was;
        }
        assert Snapshot(ac) == ac1;
      }
      if u.ac {
        ghost var dc1 := Snapshot(dc);
        ok, didAc, acTables := BuildOnce(didAc, ac, acTables, u.comps[ci].acTbl, ac0);
        if !ok {
          return false, was;
        }
        assert Snapshot(dc) == dc1;
      }
    }
    ok, t := true, TableSet(dcTables, acTables);
    NoLongCode(u, t, dc0, ac0);
  }

  lemma NoLongCode(u: Coverage, t: TableSet, dc: Counters, ac: Counters)
    requires ValidTableSet(t) && forall ci :: 0 <= ci < |u.comps| ==> BuiltFrom(u, t, dc, ac, ci)
    ensures !NeedsLongCode(u, dc, ac)
  {
    hide ValidCounts, Build;
    forall ci | 0 <= ci < |u.comps|
      ensures !(u.dc && Unbuildable(dc[u.comps[ci].dcTbl])) && !(u.ac && Unbuildable(ac[u.comps[ci].acTbl]))
    {
      assert BuiltFrom(u, t, dc, ac, ci);
    }
  }

  /** Some code word would need more than 32 bits with the counts of the items. */
  ghost predicate LongCodeFor(u: Coverage, items: seq<Item>) {
    exists dc: Counters, ac: Counters :: AllCounted(dc, ac, NoCounts(), NoCounts(), items) && NeedsLongCode(u, dc, ac)
  }

  lemma LongCodeIs(u: Coverage, dc: Counters, ac: Counters, items: seq<Item>)
    requires AllCounted(dc, ac, NoCounts(), NoCounts(), items)
    ensures LongCodeFor(u, items) <==> NeedsLongCode(u, dc, ac)
  {
    hide NeedsLongCode;
    if LongCodeFor(u, items) {
      var dc1: Counters, ac1: Counters :|
        AllCounted(dc1, ac1, NoCounts(), NoCounts(), items) && NeedsLongCode(u, dc1, ac1);
      CountsAgree(dc, ac, dc1, ac1, items);
    }
  }

  lemma CountsAgree(dc: Counters, ac: Counters, dc1: Counters, ac1: Counters, items: seq<Item>)
    requires AllCounted(dc, ac, NoCounts(), NoCounts(), items) && AllCounted(dc1, ac1, NoCounts(), NoCounts(), items)
    ensures dc == dc1 && ac == ac1
  {
    hide Occurrences;
    forall tbl: TableNumber
      ensures dc[tbl] == dc1[tbl] && ac[tbl] == ac1[tbl]
    {
      assert Counted(dc[tbl], NoCounts()[tbl], items, false, tbl)
        && Counted(dc1[tbl], NoCounts()[tbl], items, false, tbl);
    }
  }

  // ----- no symbol lacks a code -----

  /** A symbol of one interval counts among those of all. */
  lemma {:induction false} OccursInAll(s: Scan, chunks: seq<Chunk>, j: nat, ac: bool, tbl: TableNumber, sym: nat)
    requires ValidScan(s) && ValidChunks(s, chunks) && j < |chunks|
    requires Occurrences(ChunkItems(s, Zero(s), chunks[j]), ac, tbl, sym) > 0
    ensures Occurrences(AllItems(s, chunks), ac, tbl, sym) > 0
    decreases |chunks|
  {
    hide Occurrences, ChunkItems;
    var n := |chunks| - 1;
    CountConcat(AllItems(s, chunks[..n]), ChunkItems(s, Zero(s), chunks[n]), ac, tbl, sym);
    if j < n {
      OccursInAll(s, chunks[..n], j, ac, tbl, sym);
    }
  }

  /** The entry holds the table built from the counts, and the codes derived from it. */
  ghost predicate EntryBuilt(x: Entry, freq: seq<nat>) {
    ValidCounts(freq) && Holds(x.t, freq) && Derives(x.t, x.d)
  }

  /** The output pass uses the tables built from the counts of the statistics pass. */
  ghost predicate Optimised(u: Coverage, e: Tables, dc: Counters, ac: Counters) {
    forall ci :: 0 <= ci < |u.comps| ==>
      (u.dc ==> EntryBuilt(e.dc[u.comps[ci].dcTbl], dc[u.comps[ci].dcTbl]))
      && (u.ac ==> EntryBuilt(e.ac[u.comps[ci].acTbl], ac[u.comps[ci].acTbl]))
  }

  /** Derive the code of one table. */
  method DeriveEntry(t: Table, isDc: bool, ghost freq: seq<nat>) returns (x: Entry)
    requires HoldsCounts(t, freq) && (isDc ==> forall s :: 16 <= s < 256 ==> freq[s] == 0)
    ensures EntryBuilt(x, freq)
  {
    BuiltIsAccepted(t, freq, isDc);
    hide Holds, ValidCounts, Derives;
    var code, size := new nat[256](_ => 0), new CodeSize[256](_ => 0);
    var ok := MakeEncoderTable(t, isDc, code, size);
    x := Entry(t, Derived(code[..], size[..]));
  }

  /** No DC symbol beyond what a DC table may have was counted. */
  ghost predicate DcInRange(u: Coverage, dc: Counters) {
    u.dc ==> forall ci :: 0 <= ci < |u.comps| ==>
      var freq := dc[u.comps[ci].dcTbl]; |freq| == 257 && forall s :: 16 <= s < 256 ==> freq[s] == 0
  }

  /** Start of the output pass: derive the codes of all tables the scan's components use. */
  method DeriveTables(u: Coverage, t: TableSet, ghost dc: Counters, ghost ac: Counters) returns (e: Tables)
    requires ValidTableSet(t) && (forall ci :: 0 <= ci < |u.comps| ==> BuiltFrom(u, t, dc, ac, ci)) && DcInRange(u, dc)
    ensures Optimised(u, e, dc, ac)
  {
    hide HoldsCounts, EntryBuilt;
    var dcs, acs := seq(NUM_HUFF_TBLS, _ => NoEntry()), seq(NUM_HUFF_TBLS, _ => NoEntry());
    for ci := 0 to |u.comps|
      invariant |dcs| == |acs| == NUM_HUFF_TBLS
      invariant u.dc ==> forall j :: 0 <= j < ci ==> EntryBuilt(dcs[u.comps[j].dcTbl], dc[u.comps[j].dcTbl])
      invariant u.ac ==> forall j :: 0 <= j < ci ==> EntryBuilt(acs[u.comps[j].acTbl], ac[u.comps[j].acTbl])
    {
      assert BuiltFrom(u, t, dc, ac, ci);
      var d, a := u.comps[ci].dcTbl, u.comps[ci].acTbl;
      if u.dc {
        var x := DeriveEntry(t.dc[d], true, dc[d]);
        dcs := dcs[d := x];
      }
      if u.ac {
        var x := DeriveEntry(t.ac[a], false, ac[a]);
        acs := acs[a := x];
      }
    }
    e := Tables(dcs, acs);
  }

  /** Items that are proper lead to DC symbols within range. */
  lemma ProperInRange(u: Coverage, dc: Counters, ac: Counters, items: seq<Item>)
    requires AllCounted(dc, ac, NoCounts(), NoCounts(), items) && AllProper(u, items)
    ensures DcInRange(u, dc)
  {
    forall ci, s | 0 <= ci < |u.comps| && 16 <= s < 256
      ensures dc[u.comps[ci].dcTbl][s] == 0
    {
      var tbl := u.comps[ci].dcTbl;
      if Occurrences(items, false, tbl, s) > 0 {
        CountedOccurs(items, false, tbl, s);
      }
    }
  }

  /** A symbol that was counted has a code. */
  lemma CountedHasCode(u: Coverage, e: Tables, dc: Counters, ac: Counters, items: seq<Item>, isAc: bool,
      tbl: TableNumber, sym: nat)
    requires AllCounted(dc, ac, NoCounts(), NoCounts(), items) && AllProper(u, items)
    requires EntryBuilt(EntryOf(e, isAc, tbl), if isAc then ac[tbl] else dc[tbl])
    requires Occurrences(items, isAc, tbl, sym) > 0
    ensures Codable(e, Symbol(isAc, tbl, sym))
  {
    var freq := if isAc then ac[tbl] else dc[tbl];
    var x := EntryOf(e, isAc, tbl);
    CountedOccurs(items, isAc, tbl, sym);
    assert Proper(u, Symbol(isAc, tbl, sym));
    assert freq[sym] > 0;
    if !isAc {
      forall k | 16 <= k < 256
        ensures freq[k] == 0
      {
        if Occurrences(items, false, tbl, k) > 0 {
          CountedOccurs(items, false, tbl, k);
        }
      }
    }
    hide Occurrences, ValidCounts, Holds, Derives, Accepted, Total;
    BuiltIsAccepted(x.t, freq, !isAc);
    EveryCountHasCode(x.t, freq, x.d, sym);
  }

  /** Every symbol of some items occurs among all that were counted. */
  ghost predicate Included(items: seq<Item>, all: seq<Item>) {
    forall i :: 0 <= i < |items| && items[i].Symbol? ==> Occurrences(all, items[i].ac, items[i].tbl, items[i].s) > 0
  }

  /** Items that were counted can be written. */
  lemma CountedCodable(u: Coverage, e: Tables, dc: Counters, ac: Counters, all: seq<Item>, items: seq<Item>)
    requires AllCounted(dc, ac, NoCounts(), NoCounts(), all) && AllProper(u, all) && AllProper(u, items)
    requires Optimised(u, e, dc, ac) && Included(items, all)
    ensures AllCodable(e, items)
  {
    hide AllCounted, Codable, EntryBuilt, Occurrences, Plausible;
    forall i | 0 <= i < |items|
      ensures Codable(e, items[i])
    {
      assert Proper(u, items[i]);
      if items[i].Symbol? {
        CountedHasCode(u, e, dc, ac, all, items[i].ac, items[i].tbl, items[i].s);
      } else {
        ExtraCodable(e, items[i]);
      }
    }
  }

  lemma ExtraCodable(e: Tables, it: Item)
    requires it.Extra? && 1 <= it.n <= 16 && it.v < Powers.Pow2(it.n)
    ensures Codable(e, it)
  {
  }

  /** The statistics pass agrees with the output pass: with the tables built from its counts every symbol of
      every interval has a code, so the output pass never meets one without, and what it writes can be read
      back. */
  lemma OptimisedTablesSuffice(s: Scan, e: Tables, chunks: seq<Chunk>, dc: Counters, ac: Counters)
    requires ValidScan(s) && ValidChunks(s, chunks) && ChunksFit(s, chunks)
    requires AllCounted(dc, ac, NoCounts(), NoCounts(), AllItems(s, chunks)) && Optimised(CoverageOf(s), e, dc, ac)
    ensures AllWritable(s, e, chunks)
  {
    hide AllCounted, Codable, ChunkItems, ChunkFits, EntryBuilt, Occurrences, AllItems, Proper;
    ScanProper(s, chunks);
    forall j | 0 <= j < |chunks|
      ensures AllCodable(e, ChunkItems(s, Zero(s), chunks[j]))
    {
      var items := ChunkItems(s, Zero(s), chunks[j]);
      ChunkProper(s, Zero(s), chunks[j]);
      forall i | 0 <= i < |items| && items[i].Symbol?
        ensures Occurrences(AllItems(s, chunks), items[i].ac, items[i].tbl, items[i].s) > 0
      {
        OccursCounted(items, i);
        OccursInAll(s, chunks, j, items[i].ac, items[i].tbl, items[i].s);
      }
      CountedCodable(CoverageOf(s), e, dc, ac, AllItems(s, chunks), items);
    }
  }
}
