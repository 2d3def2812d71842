/** Writing one block with Huffman codes, and counting the symbols it would need. */
module HuffmanBlockEncoder {
  import opened Powers
  import opened Coefficients
  import opened ByteStream
  import opened BitStream
  import opened HuffmanBlocks
  import opened BitWriter

  /** Every symbol has a code. */
  predicate HasCodes(e: Tables, items: seq<Item>) {
    forall i :: 0 <= i < |items| && items[i].Symbol? ==>
      items[i].s < 256 && EntryOf(e, items[i].ac, items[i].tbl).d.size[items[i].s] > 0
  }

  lemma HasCodesConcat(e: Tables, a: seq<Item>, b: seq<Item>)
    ensures HasCodes(e, a + b) <==> HasCodes(e, a) && HasCodes(e, b)
  {
    if HasCodes(e, a + b) {
      forall i | 0 <= i < |a| && a[i].Symbol?
        ensures a[i].s < 256 && EntryOf(e, a[i].ac, a[i].tbl).d.size[a[i].s] > 0
      {
        assert (a + b)[i] == a[i];
      }
      forall i | 0 <= i < |b| && b[i].Symbol?
        ensures b[i].s < 256 && EntryOf(e, b[i].ac, b[i].tbl).d.size[b[i].s] > 0
      {
        assert (a + b)[|a| + i] == b[i];
      }
    }
  }

  datatype Outcome = Written | OutOfRoom | NoCode | BadCoefficient

  /** Where a writer started: output before the segment, bits of the segment, and how many bytes there can
      be before writing is suspended. */
  datatype Mark = Mark(base: seq<byte>, bits: seq<Bit>, limit: nat)

  /** What writing items since the mark has come to: all bits are in, or there was no room for them, or a
      symbol had no code. */
  ghost predicate Wrote(w: WorkingState, m: Mark, e: Tables, items: seq<Item>, r: Outcome)
    reads w
  {
    match r
    case Written =>
      && w.Valid() && HasCodes(e, items) && w.base == m.base && w.bits == m.bits + Bits(e, items)
      && (!w.accepts ==> |w.out| + w.room == m.limit)
    case OutOfRoom => !w.accepts && m.limit <= WorkingState.BytesOut(m.base, m.bits + Bits(e, items))
    case NoCode => !HasCodes(e, items)
    case BadCoefficient => false
  }

  /** More bits take no fewer bytes. */
  lemma BytesGrow(base: seq<byte>, bits: seq<Bit>, more: seq<Bit>)
    ensures WorkingState.BytesOut(base, bits) <= WorkingState.BytesOut(base, bits + more)
  {
    hide Stuff, Pack;
    var all := bits + more;
    var i, j := |bits| - |bits| % 8, |all| - |all| % 8;
    WholeBytes(|bits|, |all|);
    assert all[..i] == bits[..i];
    WorkingState.StuffGrows(all, i, j);
  }

  lemma WholeBytes(x: nat, y: nat)
    requires x <= y
    ensures x - x % 8 <= y - y % 8 && (x - x % 8) % 8 == 0 && (y - y % 8) % 8 == 0
  {
  }

  /** A failure stays one, whatever was still to be written. */
  lemma FailureStays(w: WorkingState, m: Mark, e: Tables, a: seq<Item>, b: seq<Item>, r: Outcome)
    requires Wrote(w, m, e, a, r) && r != Written
    ensures Wrote(w, m, e, a + b, r)
  {
    hide HasCodes, Bits, WorkingState.BytesOut;
    HasCodesConcat(e, a, b);
    BitsConcat(e, a, b);
    BytesGrow(m.base, m.bits + Bits(e, a), Bits(e, b));
    assert m.bits + Bits(e, a) + Bits(e, b) == m.bits + (Bits(e, a) + Bits(e, b));
  }

  /** One item more, from what the bit accumulator reports. */
  lemma ItemWritten(m: Mark, e: Tables, done: seq<Item>, it: Item)
    ensures Bits(e, done + [it]) == Bits(e, done) + ItemBits(e, it)
    ensures m.bits + Bits(e, done + [it]) == m.bits + Bits(e, done) + ItemBits(e, it)
    ensures HasCodes(e, done + [it]) <==> HasCodes(e, done) && HasCodes(e, [it])
  {
    hide HasCodes, ItemBits;
    HasCodesConcat(e, done, [it]);
    BitsConcat(e, done, [it]);
    assert [it][1..] == [];
    assert Bits(e, [it]) == ItemBits(e, it) + [];
  }

  /** Write one symbol. */
  method EmitSymbol(w: WorkingState, ghost m: Mark, e: Tables, ghost done: seq<Item>, ac: bool, tbl: TableNumber,
      s: nat)
    returns (r: Outcome)
    requires Wrote(w, m, e, done, Written) && s < 256
    modifies w
    ensures r != BadCoefficient && Wrote(w, m, e, done + [Symbol(ac, tbl, s)], r)
  {
    var d := EntryOf(e, ac, tbl).d;
    ItemWritten(m, e, done, Symbol(ac, tbl, s));
    ToBitsMod(d.code[s], d.size[s]);
    assert HasCodes(e, [Symbol(ac, tbl, s)]) <==> d.size[s] > 0 by { OneCode(e, Symbol(ac, tbl, s)); }
    hide HasCodes, Bits, ToBits, WorkingState.BytesOut, WorkingState.Holds, Pow2;
    var x := w.EmitBits(d.code[s], d.size[s]);
    r := match x case Done => Written case Suspended => OutOfRoom case MissingCode => NoCode;
  }

  lemma OneCode(e: Tables, it: Item)
    requires it.Symbol? && it.s < 256
    ensures HasCodes(e, [it]) <==> EntryOf(e, it.ac, it.tbl).d.size[it.s] > 0
  {
    assert [it][0] == it;
  }

  /** Write the low n bits of a number. */
  method EmitExtra(w: WorkingState, ghost m: Mark, e: Tables, ghost done: seq<Item>, code: int, n: nat)
    returns (r: Outcome)
    requires Wrote(w, m, e, done, Written) && 1 <= n <= 16
    modifies w
    ensures r != BadCoefficient && r != NoCode && Wrote(w, m, e, done + [Extra(code % Pow2(n), n)], r)
  {
    ItemWritten(m, e, done, Extra(code % Pow2(n), n));
    assert HasCodes(e, [Extra(code % Pow2(n), n)]) by { ExtraHasCode(e, code % Pow2(n), n); }
    hide HasCodes, Bits, ToBits, WorkingState.BytesOut, WorkingState.Holds, Pow2;
    var x := w.EmitBits(code, n);
    r := match x case Done => Written case Suspended => OutOfRoom case MissingCode => NoCode;
  }

  lemma ExtraHasCode(e: Tables, v: nat, n: nat)
    ensures HasCodes(e, [Extra(v, n)])
  {
  }

  /** The number of bits of a magnitude. */
  method BitCount(v: nat) returns (n: nat)
    ensures n == Size(v)
  {
    n := 0;
    var temp := v;
    while temp != 0
      invariant n + Size(temp) == Size(v)
      decreases temp
    {
      n := n + 1;
      temp := temp / 2;
    }
  }

  /** Masking a value, or the complement of its magnitude, gives its extra bits. */
  lemma MaskIsExtra(x: int)
    requires x != 0
    ensures (if x < 0 then x - 1 else x) % Pow2(Size(Abs(x))) == ExtraOf(x)
  {
    var p := Pow2(Size(Abs(x)));
    assert Abs(x) < p;
    hide Pow2, Size;
    if x < 0 {
      Remainder(x - 1, p, -1, x - 1 + p);
    } else {
      Remainder(x, p, 0, x);
    }
  }

  /** Write a value behind a run: its symbol, then its extra bits. */
  method EmitValue(w: WorkingState, ghost m: Mark, e: Tables, ghost done: seq<Item>, ac: bool, tbl: TableNumber,
      run: nat, x: int)
    returns (r: Outcome)
    requires Wrote(w, m, e, done, Written) && run < 16
    modifies w
    ensures r == BadCoefficient <==> Size(Abs(x)) > (if ac then MAX_COEF_BITS else MAX_COEF_BITS + 1)
    ensures r != BadCoefficient ==> Wrote(w, m, e, done + Value(ac, tbl, run, x), r)
  {
    hide HasCodes, Bits, ToBits, WorkingState.BytesOut, WorkingState.Holds, Pow2, Size, Wrote, ExtraOf;
    var temp := if x < 0 then -x else x;
    var nbits := BitCount(temp);
    if nbits > (if ac then MAX_COEF_BITS else MAX_COEF_BITS + 1) {
      return BadCoefficient;
    }
    r := EmitSymbol(w, m, e, done, ac, tbl, 16 * run + nbits);
    ghost var symbol, value := [Symbol(ac, tbl, 16 * run + nbits)], Value(ac, tbl, run, x);
    if r != Written {
      assert done + value == done + symbol + value[1..];
      FailureStays(w, m, e, done + symbol, value[1..], r);
      return;
    }
    SizeOfZero(x);
    if nbits != 0 {
      var temp2 := if x < 0 then x - 1 else x;
      MaskIsExtra(x);
      r := EmitExtra(w, m, e, done + symbol, temp2, nbits);
      assert done + value == done + symbol + [Extra(ExtraOf(x), nbits)];
    } else {
      assert value == symbol;
    }
  }

  lemma SizeOfZero(x: int)
    ensures Size(Abs(x)) == 0 <==> x == 0
  {
  }

  /** Write symbols for whole runs of sixteen zeros. */
  method EmitLongRuns(w: WorkingState, ghost m: Mark, e: Tables, ghost done: seq<Item>, tbl: TableNumber, run: nat)
    returns (r: Outcome, left: nat)
    requires Wrote(w, m, e, done, Written)
    modifies w
    ensures r != BadCoefficient && Wrote(w, m, e, done + LongRuns(tbl, run), r) && (r == Written ==> left == run % 16)
  {
    hide HasCodes, Bits, WorkingState.BytesOut, WorkingState.Holds, Wrote;
    r, left := Written, run;
    ghost var now := done;
    while left > 15
      invariant r == Written && left % 16 == run % 16
      invariant Wrote(w, m, e, now, Written) && now + LongRuns(tbl, left) == done + LongRuns(tbl, run)
      decreases left
    {
      ghost var zrl := [Symbol(true, tbl, 0xF0)];
      r := EmitSymbol(w, m, e, now, true, tbl, 0xF0);
      assert now + LongRuns(tbl, left) == now + zrl + LongRuns(tbl, left - 16);
      if r != Written {
        FailureStays(w, m, e, now + zrl, LongRuns(tbl, left - 16), r);
        return;
      }
      now := now + zrl;
      left := left - 16;
    }
    assert now + LongRuns(tbl, left) == now;
  }

  /** Write one block. */
  method EncodeOneBlock(w: WorkingState, ghost m: Mark, e: Tables, ghost done: seq<Item>, b: Block, pred: int,
      dcTbl: TableNumber, acTbl: TableNumber, se: nat) returns (r: Outcome)
    requires Wrote(w, m, e, done, Written) && se < 64
    modifies w
    ensures r == BadCoefficient ==> !DcFits(b[0] - pred) || !AcFits(b, 1, se)
    ensures r != BadCoefficient ==> Wrote(w, m, e, done + BlockItems(dcTbl, acTbl, pred, b, se), r)
    ensures r == Written ==> DcFits(b[0] - pred) && AcFits(b, 1, se)
  {
    hide HasCodes, Bits, WorkingState.BytesOut, WorkingState.Holds, Wrote, Size, Value, AcItems, LongRuns;
    ghost var value, more := Value(false, dcTbl, 0, b[0] - pred), AcItems(acTbl, b, 1, 0, se);
    assert done + BlockItems(dcTbl, acTbl, pred, b, se) == done + value + more;
    r := EmitValue(w, m, e, done, false, dcTbl, 0, b[0] - pred);
    if r == BadCoefficient {
      return;
    }
    if r != Written {
      FailureStays(w, m, e, done + value, more, r);
      return;
    }
    r := EncodeAc(w, m, e, done + value, b, acTbl, se);
  }

  method EncodeAc(w: WorkingState, ghost m: Mark, e: Tables, ghost done: seq<Item>, b: Block, tbl: TableNumber, se: nat)
    returns (r: Outcome)
    requires Wrote(w, m, e, done, Written) && se < 64
    modifies w
    ensures r == BadCoefficient ==> !AcFits(b, 1, se)
    ensures r != BadCoefficient ==> Wrote(w, m, e, done + AcItems(tbl, b, 1, 0, se), r)
    ensures r == Written ==> AcFits(b, 1, se)
  {
    hide HasCodes, Bits, WorkingState.BytesOut, WorkingState.Holds, Wrote, Size, Value, LongRuns;
    r := Written;
    var run := 0;
    ghost var now := done;
    SizeOfZero(0);
    for k := 1 to se + 1
      invariant r == Written && Wrote(w, m, e, now, Written)
      invariant forall j :: 1 <= j < k ==> Size(Abs(b[j])) <= MAX_COEF_BITS
      invariant now + AcItems(tbl, b, k, run, se) == done + AcItems(tbl, b, 1, 0, se)
    {
      if b[k] == 0 {
        run := run + 1;
      } else {
        ghost var runs, value, more := LongRuns(tbl, run), Value(true, tbl, run % 16, b[k]),
          AcItems(tbl, b, k + 1, 0, se);
        assert now + AcItems(tbl, b, k, run, se) == now + runs + value + more;
        r, run := EmitLongRuns(w, m, e, now, tbl, run);
        if r != Written {
          assert now + runs + value + more == now + runs + (value + more);
          FailureStays(w, m, e, now + runs, value + more, r);
          return;
        }
        r := EmitValue(w, m, e, now + runs, true, tbl, run, b[k]);
        if r == BadCoefficient {
          return;
        }
        if r != Written {
          FailureStays(w, m, e, now + runs + value, more, r);
          return;
        }
        now := now + runs + value;
        run := 0;
      }
    }
    if run > 0 {
      r := EmitSymbol(w, m, e, now, true, tbl, 0);
    } else {
      assert now + [] == now;
    }
  }

  // ----- counting -----

  /** How often a symbol of a table occurs. */
  function Occurrences(items: seq<Item>, ac: bool, tbl: TableNumber, s: nat): nat {
    if items == [] then 0
    else (if items[0] == Symbol(ac, tbl, s) then 1 else 0) + Occurrences(items[1..], ac, tbl, s)
  }

  lemma {:induction false} CountConcat(a: seq<Item>, b: seq<Item>, ac: bool, tbl: TableNumber, s: nat)
    ensures Occurrences(a + b, ac, tbl, s) == Occurrences(a, ac, tbl, s) + Occurrences(b, ac, tbl, s)
  {
    if a == [] {
      assert a + b == b;
    } else {
      assert (a + b)[1..] == a[1..] + b;
      CountConcat(a[1..], b, ac, tbl, s);
    }
  }

  /** The counters of one kind have grown from `was` by the symbols of the items. */
  ghost predicate Counted(counts: seq<nat>, was: seq<nat>, items: seq<Item>, ac: bool, tbl: TableNumber) {
    |counts| == |was| == 257 && forall s :: 0 <= s < 257 ==> counts[s] == was[s] + Occurrences(items, ac, tbl, s)
  }

  lemma CountedMore(counts: seq<nat>, now: seq<nat>, was: seq<nat>, a: seq<Item>, b: seq<Item>, ac: bool,
      tbl: TableNumber)
    requires Counted(now, was, a, ac, tbl) && Counted(counts, now, b, ac, tbl)
    ensures Counted(counts, was, a + b, ac, tbl)
  {
    forall s | 0 <= s < 257
      ensures counts[s] == was[s] + Occurrences(a + b, ac, tbl, s)
    {
      CountConcat(a, b, ac, tbl, s);
    }
  }

  lemma CountedSymbol(was: seq<nat>, ac: bool, tbl: TableNumber, s: nat)
    requires |was| == 257 && s < 257
    ensures Counted(was[s := was[s] + 1], was, [Symbol(ac, tbl, s)], ac, tbl)
  {
    var items := [Symbol(ac, tbl, s)];
    assert items[1..] == [];
    forall i | 0 <= i < 257
      ensures Occurrences(items, ac, tbl, i) == if i == s then 1 else 0
    {
      assert items[0] == Symbol(ac, tbl, i) <==> i == s;
    }
  }

  /** Count the symbols of one block. */
  method CountOneBlock(b: Block, pred: int, dcCounts: array<nat>, acCounts: array<nat>, dcTbl: TableNumber,
      acTbl: TableNumber, se: nat)
    returns (ok: bool)
    requires dcCounts.Length == acCounts.Length == 257 && dcCounts != acCounts && se < 64
    modifies dcCounts, acCounts
    ensures ok <==> DcFits(b[0] - pred) && AcFits(b, 1, se)
    ensures ok ==> Counted(dcCounts[..], old(dcCounts[..]), BlockItems(dcTbl, acTbl, pred, b, se), false, dcTbl)
    ensures ok ==> Counted(acCounts[..], old(acCounts[..]), BlockItems(dcTbl, acTbl, pred, b, se), true, acTbl)
  {
    hide Size, AcItems, Counted;
    var temp := b[0] - pred;
    if temp < 0 {
      temp := -temp;
    }
    var nbits := BitCount(temp);
    if nbits > MAX_COEF_BITS + 1 {
      return false;
    }
    ghost var dc0, ac0 := dcCounts[..], acCounts[..];
    ghost var value, more := Value(false, dcTbl, 0, b[0] - pred), AcItems(acTbl, b, 1, 0, se);
    dcCounts[nbits] := dcCounts[nbits] + 1;
    ok := CountAc(b, acCounts, acTbl, se);
    if ok {
      assert dcCounts[..] == dc0[nbits := dc0[nbits] + 1];
      CountedValue(dc0, false, dcTbl, 0, b[0] - pred);
      OnlyAc(acTbl, b, 1, 0, se);
      NotCounted(dcCounts[..], more, true, acTbl, false, dcTbl);
      CountedMore(dcCounts[..], dcCounts[..], dc0, value, more, false, dcTbl);
      OnlyValue(false, dcTbl, 0, b[0] - pred);
      NotCounted(ac0, value, false, dcTbl, true, acTbl);
      CountedMore(acCounts[..], ac0, ac0, value, more, true, acTbl);
    }
  }

  lemma CountedValue(was: seq<nat>, ac: bool, tbl: TableNumber, run: nat, x: int)
    requires |was| == 257 && 16 * run + Size(Abs(x)) < 257
    ensures Counted(was[16 * run + Size(Abs(x)) := was[16 * run + Size(Abs(x))] + 1], was, Value(ac, tbl, run, x), ac,
      tbl)
  {
    hide Size, ExtraOf;
    var s := 16 * run + Size(Abs(x));
    CountedSymbol(was, ac, tbl, s);
    if x != 0 {
      var extra := [Extra(ExtraOf(x), Size(Abs(x)))];
      assert Counted(was[s := was[s] + 1], was[s := was[s] + 1], extra, ac, tbl) by {
        NothingCounted(was[s := was[s] + 1], extra, ac, tbl);
      }
      CountedMore(was[s := was[s] + 1], was[s := was[s] + 1], was, [Symbol(ac, tbl, s)], extra, ac, tbl);
      assert Value(ac, tbl, run, x) == [Symbol(ac, tbl, s)] + extra;
    } else {
      assert Value(ac, tbl, run, x) == [Symbol(ac, tbl, s)];
    }
  }

  lemma NothingCounted(was: seq<nat>, items: seq<Item>, ac: bool, tbl: TableNumber)
    requires |was| == 257 && |items| == 1 && items[0].Extra?
    ensures Counted(was, was, items, ac, tbl)
  {
    assert items[1..] == [];
  }

  /** Symbols of one table only. */
  ghost predicate Only(items: seq<Item>, ac: bool, tbl: TableNumber) {
    forall i :: 0 <= i < |items| && items[i].Symbol? ==> items[i].ac == ac && items[i].tbl == tbl
  }

  lemma {:induction false} NotCounted(was: seq<nat>, items: seq<Item>, ac0: bool, tbl0: TableNumber, ac: bool,
      tbl: TableNumber)
    requires |was| == 257 && Only(items, ac0, tbl0) && (ac0 != ac || tbl0 != tbl)
    ensures Counted(was, was, items, ac, tbl)
  {
    if items != [] {
      NotCounted(was, items[1..], ac0, tbl0, ac, tbl);
    }
  }

  lemma OnlyValue(ac: bool, tbl: TableNumber, run: nat, x: int)
    ensures Only(Value(ac, tbl, run, x), ac, tbl)
  {
  }

  lemma {:induction false} OnlyRuns(tbl: TableNumber, r: nat)
    ensures Only(LongRuns(tbl, r), true, tbl)
    decreases r
  {
    if r >= 16 {
      OnlyRuns(tbl, r - 16);
    }
  }

  lemma {:induction false} OnlyAc(tbl: TableNumber, b: Block, k: nat, r: nat, se: nat)
    requires k <= se + 1 <= 64
    ensures Only(AcItems(tbl, b, k, r, se), true, tbl)
    decreases se + 1 - k
  {
    hide Size, ExtraOf, LongRuns, Value;
    if k <= se {
      if b[k] == 0 {
        OnlyAc(tbl, b, k + 1, r + 1, se);
      } else {
        OnlyAc(tbl, b, k + 1, 0, se);
        OnlyRuns(tbl, r);
        OnlyValue(true, tbl, r % 16, b[k]);
      }
    }
  }

  /** A block leaves the counts of all other tables alone. */
  lemma OtherTables(was: seq<nat>, b: Block, pred: int, dcTbl: TableNumber, acTbl: TableNumber, se: nat, ac: bool,
      tbl: TableNumber)
    requires |was| == 257 && se < 64 && tbl != (if ac then acTbl else dcTbl)
    ensures Counted(was, was, BlockItems(dcTbl, acTbl, pred, b, se), ac, tbl)
  {
    hide Counted, AcItems, Value;
    var value, more := Value(false, dcTbl, 0, b[0] - pred), AcItems(acTbl, b, 1, 0, se);
    OnlyValue(false, dcTbl, 0, b[0] - pred);
    OnlyAc(acTbl, b, 1, 0, se);
    NotCounted(was, value, false, dcTbl, ac, tbl);
    NotCounted(was, more, true, acTbl, ac, tbl);
    CountedMore(was, was, was, value, more, ac, tbl);
  }

  method CountAc(b: Block, counts: array<nat>, tbl: TableNumber, se: nat) returns (ok: bool)
    requires counts.Length == 257 && se < 64
    modifies counts
    ensures ok <==> AcFits(b, 1, se)
    ensures ok ==> Counted(counts[..], old(counts[..]), AcItems(tbl, b, 1, 0, se), true, tbl)
  {
    hide Size, Counted, LongRuns, Value;
    var run := 0;
    ghost var was, done := counts[..], [];
    NoItems(was, true, tbl);
    SizeOfZero(0);
    for k := 1 to se + 1
      invariant Counted(counts[..], was, done, true, tbl) && |was| == 257
      invariant forall j :: 1 <= j < k ==> Size(Abs(b[j])) <= MAX_COEF_BITS
      invariant done + AcItems(tbl, b, k, run, se) == AcItems(tbl, b, 1, 0, se)
    {
      if b[k] == 0 {
        run := run + 1;
      } else {
        ghost var runs, value, more := LongRuns(tbl, run), Value(true, tbl, run % 16, b[k]),
          AcItems(tbl, b, k + 1, 0, se);
        assert done + AcItems(tbl, b, k, run, se) == done + runs + value + more;
        run := CountLongRuns(counts, tbl, run, was, done);
        ok := CountValue(counts, tbl, run, b[k], was, done + runs);
        if !ok {
          return;
        }
        done := done + runs + value;
        run := 0;
      }
    }
    if run > 0 {
      ghost var now := counts[..];
      CountedSymbol(now, true, tbl, 0);
      counts[0] := counts[0] + 1;
      assert counts[..] == now[0 := now[0] + 1];
      CountedMore(counts[..], now, was, done, [Symbol(true, tbl, 0)], true, tbl);
    } else {
      assert done + [] == done;
    }
    ok := true;
  }

  method CountValue(counts: array<nat>, tbl: TableNumber, run: nat, x: int, ghost was: seq<nat>, ghost done: seq<Item>)
    returns (ok: bool)
    requires counts.Length == 257 && |was| == 257 && Counted(counts[..], was, done, true, tbl) && run < 16
    modifies counts
    ensures ok <==> Size(Abs(x)) <= MAX_COEF_BITS
    ensures ok ==> Counted(counts[..], was, done + Value(true, tbl, run, x), true, tbl)
  {
    hide Size, Counted, Value;
    var temp := x;
    if temp < 0 {
      temp := -temp;
    }
    var nbits := BitCount(temp);
    if nbits > MAX_COEF_BITS {
      return false;
    }
    ghost var now := counts[..];
    CountedValue(now, true, tbl, run, x);
    counts[16 * run + nbits] := counts[16 * run + nbits] + 1;
    assert counts[..] == now[16 * run + nbits := now[16 * run + nbits] + 1];
    CountedMore(counts[..], now, was, done, Value(true, tbl, run, x), true, tbl);
    ok := true;
  }

  lemma NoItems(was: seq<nat>, ac: bool, tbl: TableNumber)
    requires |was| == 257
    ensures Counted(was, was, [], ac, tbl)
  {
  }

  method CountLongRuns(counts: array<nat>, tbl: TableNumber, run: nat, ghost was: seq<nat>, ghost done: seq<Item>)
    returns (left: nat)
    requires counts.Length == 257 && |was| == 257 && Counted(counts[..], was, done, true, tbl)
    modifies counts
    ensures Counted(counts[..], was, done + LongRuns(tbl, run), true, tbl) && left == run % 16
  {
    hide Counted;
    left := run;
    ghost var now := done;
    while left > 15
      invariant left % 16 == run % 16
      invariant Counted(counts[..], was, now, true, tbl) && now + LongRuns(tbl, left) == done + LongRuns(tbl, run)
      decreases left
    {
      ghost var before, zrl := counts[..], [Symbol(true, tbl, 0xF0)];
      assert now + LongRuns(tbl, left) == now + zrl + LongRuns(tbl, left - 16);
      CountedSymbol(before, true, tbl, 0xF0);
      counts[0xF0] := counts[0xF0] + 1;
      assert counts[..] == before[0xF0 := before[0xF0] + 1];
      CountedMore(counts[..], before, was, now, zrl, true, tbl);
      now := now + zrl;
      left := left - 16;
    }
    assert now + LongRuns(tbl, left) == now;
  }
}
