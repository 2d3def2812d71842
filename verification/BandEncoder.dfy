/** The progressive Huffman encoder's output routines: the same code either writes bits or only counts the
    symbols, and end-of-band runs wait with their correction bits until something else has to be written. */
module BandEncoder {
  import opened Powers
  import opened ByteStream
  import opened BitStream
  import opened HuffmanBlocks
  import opened BandItems
  import opened BitWriter
  import opened HuffmanBlockEncoder
  import opened HuffmanStatistics
  import BandRoundTrip

  /** Where writing started: the items of the segment so far, those of earlier segments, and the output before
      the segment. */
  datatype Point = Point(items: seq<Item>, earlier: seq<Item>, base: seq<byte>)

  lemma BitsMore(e: Tables, items: seq<Item>, it: Item)
    ensures Bits(e, items + [it]) == Bits(e, items) + ItemBits(e, it)
    ensures HasCodes(e, items + [it]) <==> HasCodes(e, items) && HasCodes(e, [it])
  {
    hide HasCodes, ItemBits;
    HasCodesConcat(e, items, [it]);
    BitsConcat(e, items, [it]);
    assert [it][1..] == [];
    assert Bits(e, [it]) == ItemBits(e, it) + [];
  }

  /** One symbol counted in its table's array. */
  lemma SymbolCounted(dc: Counters, ac: Counters, dc0: Counters, ac0: Counters, isAc: bool, tbl: TableNumber, s: nat)
    requires s < 257 && forall i: TableNumber :: |dc0[i]| == |ac0[i]| == 257
    requires if isAc then dc == dc0 && ac == ac0[tbl := ac0[tbl][s := ac0[tbl][s] + 1]]
             else ac == ac0 && dc == dc0[tbl := dc0[tbl][s := dc0[tbl][s] + 1]]
    ensures AllCounted(dc, ac, dc0, ac0, [Symbol(isAc, tbl, s)])
  {
    hide Counted;
    var it := [Symbol(isAc, tbl, s)];
    CountedSymbol(if isAc then ac0[tbl] else dc0[tbl], isAc, tbl, s);
    forall i: TableNumber
      ensures Counted(dc[i], dc0[i], it, false, i) && Counted(ac[i], ac0[i], it, true, i)
    {
      if isAc || i != tbl {
        NotCounted(dc0[i], it, isAc, tbl, false, i);
      }
      if !isAc || i != tbl {
        NotCounted(ac0[i], it, isAc, tbl, true, i);
      }
    }
  }

  lemma ExtraCounted(dc: Counters, ac: Counters, v: nat, n: nat)
    requires forall i: TableNumber :: |dc[i]| == |ac[i]| == 257
    ensures AllCounted(dc, ac, dc, ac, [Extra(v, n)])
  {
    hide Counted;
    forall i: TableNumber
      ensures Counted(dc[i], dc[i], [Extra(v, n)], false, i) && Counted(ac[i], ac[i], [Extra(v, n)], true, i)
    {
      NothingCounted(dc[i], [Extra(v, n)], false, i);
      NothingCounted(ac[i], [Extra(v, n)], true, i);
    }
  }

  class EntropyEncoder {
    const gather: bool
    const tables: Tables
    const w: WorkingState
    const dcCounts: seq<array<nat>>
    const acCounts: seq<array<nat>>
    const bitBuffer: array<Bit>
    var eobRun: nat
    var be: nat                   // correction bits waiting

    ghost var items: seq<Item>    // written or counted in this segment
    ghost var earlier: seq<Item>  // in those before

    ghost predicate Valid()
      reads `items, `earlier, w, dcCounts, acCounts
    {
      && ValidArrays(dcCounts, acCounts)
      && if gather then AllCounted(Snapshot(dcCounts), Snapshot(acCounts), NoCounts(), NoCounts(), earlier + items)
         else w.Valid() && w.accepts && w.bits == Bits(tables, items) && HasCodes(tables, items)
    }

    /** Start a scan: an empty segment, all counters at zero, nothing pending. */
    constructor (gather: bool, tables: Tables, out: seq<byte>, room: nat, bufferSize: nat, dc: seq<array<nat>>,
        ac: seq<array<nat>>)
      requires 0 < room && 0 < bufferSize && ValidArrays(dc, ac)
      modifies dc, ac
      ensures Valid() && this.gather == gather && this.tables == tables && dcCounts == dc && acCounts == ac
      ensures items == [] && earlier == [] && eobRun == 0 && be == 0 && bitBuffer.Length == MAX_CORR_BITS
      ensures fresh(w) && fresh(bitBuffer) && w.base == out && w.out == out
    {
      this.gather, this.tables, dcCounts, acCounts := gather, tables, dc, ac;
      bitBuffer := new Bit[MAX_CORR_BITS](_ => 0);
      eobRun, be := 0, 0;
      items, earlier := [], [];
      WorkingState.EmptySegment(out);
      w := new WorkingState(true, bufferSize, out, room, 0, 0, out, []);
      new;
      hide AllCounted, WorkingState.Holds;
      ClearCounters(dc, ac);
      NothingCountedYet(NoCounts(), NoCounts());
      assert earlier + items == [];
    }

    /** What has happened since the point: the items are written or counted, or one of them has no code. */
    ghost predicate Wrote(m: Point, done: seq<Item>, ok: bool)
      reads `items, `earlier, w, dcCounts, acCounts
    {
      if ok then Valid() && items == m.items + done && earlier == m.earlier && w.base == m.base
      else !gather && !HasCodes(tables, m.items + done)
    }

    lemma FailureStays(m: Point, a: seq<Item>, b: seq<Item>)
      requires Wrote(m, a, false)
      ensures Wrote(m, a + b, false)
    {
      hide HasCodes;
      HasCodesConcat(tables, m.items + a, b);
      assert m.items + (a + b) == m.items + a + b;
    }

    /** Write or count one symbol. */
    method EmitSymbol(ac: bool, tbl: TableNumber, s: nat, ghost m: Point, ghost done: seq<Item>) returns (ok: bool)
      requires Wrote(m, done, true) && s < 256
      modifies `items, w, dcCounts, acCounts
      ensures Wrote(m, done + [Symbol(ac, tbl, s)], ok)
    {
      assert m.items + (done + [Symbol(ac, tbl, s)]) == items + [Symbol(ac, tbl, s)];
      hide AllCounted, HasCodes, Bits, WorkingState.Holds;
      if gather {
        CountSymbol(ac, tbl, s);
        ok := true;
      } else {
        ok := WriteSymbol(ac, tbl, s);
      }
    }

    method CountSymbol(ac: bool, tbl: TableNumber, s: nat)
      requires gather && Valid() && s < 256
      modifies `items, dcCounts, acCounts
      ensures Valid() && items == old(items) + [Symbol(ac, tbl, s)]
    {
      ghost var it := Symbol(ac, tbl, s);
      ghost var dc0, ac0 := Snapshot(dcCounts), Snapshot(acCounts);
      hide AllCounted, WorkingState.Holds, NoCounts, ValidArrays, Snapshot, Bits, HasCodes;
      CountIn(dcCounts, acCounts, ac, tbl, s);
      AllCountedMore(Snapshot(dcCounts), Snapshot(acCounts), dc0, ac0, NoCounts(), NoCounts(), earlier + items, [it]);
      assert earlier + (items + [it]) == earlier + items + [it];
      items := items + [it];
    }

    method WriteSymbol(ac: bool, tbl: TableNumber, s: nat) returns (ok: bool)
      requires !gather && Valid() && s < 256
      modifies `items, w
      ensures items == old(items) + [Symbol(ac, tbl, s)]
      ensures if ok then Valid() && w.base == old(w.base) else !HasCodes(tables, items)
    {
      ghost var it := Symbol(ac, tbl, s);
      BitsMore(tables, items, it);
      var d := EntryOf(tables, ac, tbl).d;
      ToBitsMod(d.code[s], d.size[s]);
      OneCode(tables, it);
      hide HasCodes, Bits, ToBits, WorkingState.Holds, WorkingState.BytesOut, Pow2;
      var x := w.EmitBits(d.code[s], d.size[s]);
      ok := x == Done;
      items := items + [it];
    }

    /** Write the low n bits of a number; nothing to do when counting. */
    method EmitBits(code: int, n: nat, ghost m: Point, ghost done: seq<Item>)
      requires Wrote(m, done, true) && 1 <= n <= 16
      modifies `items, w
      ensures Wrote(m, done + [Extra(code % Pow2(n), n)], true)
    {
      ghost var it := Extra(code % Pow2(n), n);
      BitsMore(tables, items, it);
      ExtraHasCode(tables, code % Pow2(n), n);
      assert m.items + (done + [it]) == items + [it];
      hide AllCounted, HasCodes, Bits, ToBits, WorkingState.Holds, WorkingState.BytesOut, Pow2;
      if gather {
        ExtraCounted(Snapshot(dcCounts), Snapshot(acCounts), it.v, n);
        AllCountedMore(Snapshot(dcCounts), Snapshot(acCounts), Snapshot(dcCounts), Snapshot(acCounts), NoCounts(),
          NoCounts(),
                       earlier + items, [it]);
        assert earlier + (items + [it]) == earlier + items + [it];
      } else {
        var x := w.EmitBits(code, n);
      }
      items := items + [it];
    }

    /** Write n correction bits from the buffer. */
    method EmitBufferedBits(start: nat, n: nat, ghost m: Point, ghost done: seq<Item>)
      requires Wrote(m, done, true) && start + n <= bitBuffer.Length
      modifies `items, w
      ensures Wrote(m, done + CorrItems(bitBuffer[start..start + n]), true)
    {
      hide Valid;
      ghost var bits := bitBuffer[start..start + n];
      assert done + CorrItems(bits[..0]) == done;
      for i := 0 to n
        invariant Wrote(m, done + CorrItems(bits[..i]), true)
      {
        assert bits[..i + 1] == bits[..i] + [bits[i]];
        assert done + CorrItems(bits[..i + 1]) == done + CorrItems(bits[..i]) + [Extra(bits[i], 1)];
        BitMod(bits[i]);
        EmitBits(bitBuffer[start + i], 1, m, done + CorrItems(bits[..i]));
      }
      assert bits[..n] == bits;
    }

    static lemma BitMod(b: Bit)
      ensures b % Pow2(1) == b
    {
      assert Pow2(1) == 2;
    }

    /** The run and the correction bits that wait. */
    ghost function St(): Pending
      requires be <= bitBuffer.Length
      reads this, bitBuffer
    {
      Pending(eobRun, bitBuffer[..be])
    }

    /** Write the symbol for a run.  At most 14 extra bits are needed. */
    method EmitRun(tbl: TableNumber, ghost m: Point, ghost done: seq<Item>) returns (ok: bool)
      requires Wrote(m, done, true) && 0 < eobRun <= MAX_RUN
      modifies `items, w, dcCounts, acCounts
      ensures Wrote(m, done + RunItems(tbl, eobRun), ok)
    {
      hide Valid;
      var nbits := HighestBit(eobRun);
      BandRoundTrip.Log2Bound(eobRun);
      assert nbits <= 14;
      ghost var run, symbol := RunItems(tbl, eobRun), [Symbol(true, tbl, 16 * nbits)];
      ok := EmitSymbol(true, tbl, 16 * nbits, m, done);
      if !ok {
        assert done + run == done + symbol + run[1..];
        FailureStays(m, done + symbol, run[1..]);
        return;
      }
      if nbits > 0 {
        EmitBits(eobRun, nbits, m, done + symbol);
        assert done + run == done + symbol + [Extra(eobRun % Pow2(nbits), nbits)];
      } else {
        assert done + run == done + symbol;
      }
    }

    /** Write the pending run, if any, and its correction bits. */
    method EmitEobrun(tbl: TableNumber, ghost m: Point, ghost done: seq<Item>) returns (ok: bool)
      requires Wrote(m, done, true) && be <= bitBuffer.Length && eobRun <= MAX_RUN && (eobRun == 0 ==> be == 0)
      modifies `items, `eobRun, `be, w, dcCounts, acCounts
      ensures Wrote(m, done + EobItems(tbl, old(St())), ok)
      ensures ok ==> eobRun == 0 && be == 0
    {
      hide Valid, RunItems, CorrItems;
      ok := true;
      ghost var st := St();
      if eobRun > 0 {
        ghost var run, corr := RunItems(tbl, eobRun), CorrItems(st.corr);
        assert done + (run + corr) == done + run + corr;
        ok := EmitRun(tbl, m, done);
        if !ok {
          FailureStays(m, done + run, corr);
          return;
        }
        eobRun := 0;
        EmitBufferedBits(0, be, m, done + run);
        be := 0;
      } else {
        assert done + [] == done;
      }
    }

    /** Complete the segment, if bits are written at all. */
    method FlushBits()
      requires Valid()
      modifies `items, `earlier, w
      ensures Valid() && items == [] && earlier == old(earlier + items)
      ensures !gather ==>
        w.bits == [] && w.base == w.out == old(w.base) + Stuff(Pack(Flushed(Bits(tables, old(items)))))
    {
      hide AllCounted, HasCodes, WorkingState.Holds, Stuff, Pack, Flushed, WorkingState.BytesOut;
      NothingWritten(tables);
      assert earlier + items + [] == earlier + items;
      if !gather {
        var ok := w.FlushBits();
      }
      earlier := earlier + items;
      items := [];
    }

    static lemma NothingWritten(e: Tables)
      ensures Bits(e, []) == [] && HasCodes(e, [])
    {
    }

    /** A restart marker behind the finished segment; nothing is pending then. */
    method EmitRestart(num: nat)
      requires Valid() && num < 8
      modifies `items, `earlier, `eobRun, `be, w
      ensures Valid() && items == [] && earlier == old(earlier + items) && eobRun == 0 && be == 0
      ensures !gather ==> w.base == old(w.base) + Stuff(Pack(Flushed(Bits(tables, old(items))))) + [0xFF, RST0 + num]
    {
      hide AllCounted, HasCodes, WorkingState.Holds, Stuff, Pack, Flushed;
      FlushBits();
      if !gather {
        var ok := w.EmitMarker(RST0 + num);
      }
      eobRun := 0;
      be := 0;
    }

    static method HighestBit(v: nat) returns (n: nat)
      requires v > 0
      ensures n == Log2(v)
    {
      n := 0;
      var temp: nat := v / 2;
      while temp != 0
        invariant temp > 0 ==> n + 1 + Log2(temp) == Log2(v)
        invariant temp == 0 ==> n == Log2(v)
        decreases temp
      {
        n := n + 1;
        temp := temp / 2;
      }
    }
  }

  /** One more of a symbol in one of the arrays. */
  method Increment(a: seq<array<nat>>, tbl: TableNumber, s: nat)
    requires |a| == NUM_HUFF_TBLS && s < 257 && forall i :: 0 <= i < NUM_HUFF_TBLS ==> a[i].Length == 257
    requires forall i, j :: 0 <= i < j < NUM_HUFF_TBLS ==> a[i] != a[j]
    modifies a[tbl]
    ensures var was := old(Snapshot(a));
      Snapshot(a) == was[tbl := was[tbl][s := was[tbl][s] + 1]]
  {
    ghost var was := Snapshot(a);
    a[tbl][s] := a[tbl][s] + 1;
    assert a[tbl][..] == was[tbl][s := was[tbl][s] + 1];
    assert forall i: TableNumber :: i != tbl ==> a[i] != a[tbl] && a[i][..] == was[i];
  }

  /** Arrays of one kind, none of which is b. */
  ghost predicate Apart(a: seq<array<nat>>, b: array<nat>) {
    |a| == NUM_HUFF_TBLS && forall i :: 0 <= i < NUM_HUFF_TBLS ==> a[i].Length == 257 && a[i] != b
  }

  lemma ArraysApart(dc: seq<array<nat>>, ac: seq<array<nat>>, tbl: TableNumber)
    requires ValidArrays(dc, ac)
    ensures Apart(dc, ac[tbl]) && Apart(ac, dc[tbl])
  {
  }

  /** The symbol counts in its own array only. */
  method CountIn(dc: seq<array<nat>>, ac: seq<array<nat>>, isAc: bool, tbl: TableNumber, s: nat)
    requires ValidArrays(dc, ac) && s < 257
    modifies dc, ac
    ensures AllCounted(Snapshot(dc), Snapshot(ac), old(Snapshot(dc)), old(Snapshot(ac)), [Symbol(isAc, tbl, s)])
  {
    hide AllCounted;
    ghost var dc0, ac0 := Snapshot(dc), Snapshot(ac);
    ArraysApart(dc, ac, tbl);
    if isAc {
      IncrementApart(ac, dc, tbl, s);
    } else {
      IncrementApart(dc, ac, tbl, s);
    }
    SymbolCounted(Snapshot(dc), Snapshot(ac), dc0, ac0, isAc, tbl, s);
  }

  method IncrementApart(a: seq<array<nat>>, other: seq<array<nat>>, tbl: TableNumber, s: nat)
    requires |a| == NUM_HUFF_TBLS && s < 257 && forall i :: 0 <= i < NUM_HUFF_TBLS ==> a[i].Length == 257
    requires forall i, j :: 0 <= i < j < NUM_HUFF_TBLS ==> a[i] != a[j]
    requires Apart(other, a[tbl])
    modifies a[tbl]
    ensures var was := old(Snapshot(a));
      Snapshot(a) == was[tbl := was[tbl][s := was[tbl][s] + 1]]
    ensures Snapshot(other) == old(Snapshot(other))
  {
    ghost var was := Snapshot(other);
    Increment(a, tbl, s);
    SameArrays(other, was);
  }

  lemma SameArrays(a: seq<array<nat>>, was: Counters)
    requires |a| == NUM_HUFF_TBLS && forall i: TableNumber :: a[i][..] == was[i]
    ensures Snapshot(a) == was
  {
  }
}
