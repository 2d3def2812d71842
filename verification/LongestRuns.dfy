/** End-of-band runs are as long as they can be: how many blocks one symbol covers, and how many symbols a
    stretch of blank blocks takes (section G.1.2.2 of ITU-T T.81). */
module LongestRuns {
  import opened Powers
  import opened Coefficients
  import opened HuffmanBlocks
  import opened BandItems
  import opened EobRuns

  /** A run of so many blocks with so many correction bits kept can take one block more. */
  predicate Open(run: nat, kept: nat) { run < 0x7FFF && kept <= 1000 - 64 + 1 }

  /** A pending run goes on as long as blocks add no coefficient of their own: it ends at the last block, before
      a block that does, at 0x7FFF blocks, or when the bits kept leave no room for those of one more block;
      and not before the first of these. */
  lemma {:induction false} RunIsLongest(p: Band, st: Pending, blocks: seq<Block>)
    requires ValidBand(p) && Bounded(st)
    ensures var m := Joining(p, st, blocks);
      && (forall i :: 0 <= i < m ==> Quiet(p, blocks[i]))
      && (m == |blocks| || !Quiet(p, blocks[m]) || !Open(st.run + m, |st.corr| + |AllCorr(p, blocks[..m])|))
      && forall j :: 0 <= j < m ==> Open(st.run + j, |st.corr| + |AllCorr(p, blocks[..j])|)
    decreases |blocks|
  {
    hide Tail, Quiet, QuietCorr;
    var m := Joining(p, st, blocks);
    assert AllCorr(p, blocks[..0]) == [];
    if m > 0 {
      var next, rest := Join(st, Tail(p, blocks[0])), blocks[1..];
      JoinOne(p, st, blocks, m);
      StaysBounded(p, st, blocks[0]);
      if !Forced(next) {
        RunIsLongest(p, next, rest);
      }
      assert forall i :: 0 < i < m ==> blocks[i] == rest[i - 1];
      assert AllCorr(p, rest[..0]) == [];
      JoinedSize(p, st, blocks, m);
      forall j | 0 < j < m
        ensures Open(st.run + j, |st.corr| + |AllCorr(p, blocks[..j])|)
      {
        JoinedSize(p, st, blocks, j);
        assert Open(next.run + (j - 1), |next.corr| + |AllCorr(p, rest[..j - 1])|);
      }
    }
  }

  lemma JoinedSize(p: Band, st: Pending, blocks: seq<Block>, j: nat)
    requires ValidBand(p) && 0 < j <= |blocks| && Quiet(p, blocks[0])
    ensures var next := Join(st, Tail(p, blocks[0]));
      |st.corr| + |AllCorr(p, blocks[..j])| == |next.corr| + |AllCorr(p, blocks[1..][..j - 1])|
  {
    hide Tail, Quiet, QuietCorr;
    QuietTail(p, blocks[0]);
    assert blocks[..j][1..] == blocks[1..][..j - 1];
  }

  /** A run of n blocks with 2^m <= n < 2^(m + 1) is one symbol, m in its high four bits, and m extra bits. */
  lemma RunItemsAre(tbl: TableNumber, n: nat, m: nat)
    requires Pow2(m) <= n < 2 * Pow2(m)
    ensures RunItems(tbl, n) == [Symbol(true, tbl, 16 * m)] + if m > 0 then [Extra(n - Pow2(m), m)] else []
  {
    LogIs(n, m);
    hide Pow2, Log2;
    Remainder(n, Pow2(m), 1, n - Pow2(m));
  }

  lemma {:induction false} LogIs(n: nat, m: nat)
    requires Pow2(m) <= n < 2 * Pow2(m)
    ensures Log2(n) == m
    decreases m
  {
    if m > 0 {
      LogIs(n / 2, m - 1);
    } else {
      assert Pow2(0) == 1;
    }
  }

  /** No coefficient of the band is left at this bit. */
  predicate Blank(p: Band, b: Block)
    requires ValidBand(p)
  {
    forall k :: p.ss <= k <= p.se ==> Trunc(b[k], p.al) == 0
  }

  lemma BlankQuiet(p: Band, b: Block)
    requires ValidBand(p) && Blank(p, b)
    ensures Quiet(p, b) && QuietCorr(p, b) == []
  {
    hide Trunc;
    if p.refine {
      NoCorrections(p, b, p.se + 1);
    }
  }

  lemma {:induction false} NoCorrections(p: Band, b: Block, k: nat)
    requires ValidBand(p) && Blank(p, b) && p.ss <= k <= p.se + 1
    ensures CorrIn(p, b, p.ss, k) == []
    decreases k
  {
    hide Trunc;
    if k > p.ss {
      NoCorrections(p, b, k - 1);
    }
  }

  lemma {:induction false} NoneKept(p: Band, blocks: seq<Block>)
    requires ValidBand(p) && forall i :: 0 <= i < |blocks| ==> QuietCorr(p, blocks[i]) == []
    ensures AllCorr(p, blocks) == []
    decreases |blocks|
  {
    hide QuietCorr;
    if blocks != [] {
      NoneKept(p, blocks[1..]);
    }
  }

  /** A blank block starts a run. */
  lemma BlankFirst(p: Band, blocks: seq<Block>, others: seq<Block>)
    requires ValidBand(p) && blocks != [] && Quiet(p, blocks[0]) && QuietCorr(p, blocks[0]) == []
    ensures AllItems(p, NONE, blocks + others) == AllItems(p, Pending(1, []), blocks[1..] + others)
  {
    hide Tail, Quiet, QuietCorr, Body, AllItems;
    var b, rest := blocks[0], blocks[1..] + others;
    assert blocks + others == [b] + rest && ([b] + rest)[1..] == rest;
    ItemsOfFirst(p, blocks + others);
    QuietTail(p, b);
    assert [] + AllItems(p, Pending(1, []), rest) == AllItems(p, Pending(1, []), rest);
  }

  lemma AllBlankQuiet(p: Band, blocks: seq<Block>)
    requires ValidBand(p) && forall i :: 0 <= i < |blocks| ==> Blank(p, blocks[i])
    ensures forall i :: 0 <= i < |blocks| ==> Quiet(p, blocks[i]) && QuietCorr(p, blocks[i]) == []
  {
    hide Quiet, QuietCorr, Blank;
    forall i | 0 <= i < |blocks|
      ensures Quiet(p, blocks[i]) && QuietCorr(p, blocks[i]) == []
    {
      BlankQuiet(p, blocks[i]);
    }
  }

  /** Blank blocks, in a first pass or a refinement: up to 0x7FFF of them take exactly one end-of-band symbol,
      and more of them one for each 0x7FFF. */
  lemma BlankRun(p: Band, blocks: seq<Block>, others: seq<Block>)
    requires ValidBand(p) && 0 < |blocks| <= 0x7FFF && forall i :: 0 <= i < |blocks| ==> Blank(p, blocks[i])
    requires others == [] || |blocks| == 0x7FFF || !Quiet(p, others[0])
    ensures AllItems(p, NONE, blocks + others) == RunItems(p.tbl, |blocks|) + AllItems(p, NONE, others)
  {
    hide Quiet, QuietCorr, AllItems, RunItems, Blank;
    AllBlankQuiet(p, blocks);
    BlankFirst(p, blocks, others);
    RestOfRun(p, blocks[1..], others);
  }

  lemma RestOfRun(p: Band, blocks: seq<Block>, others: seq<Block>)
    requires ValidBand(p) && |blocks| < 0x7FFF
    requires others == [] || |blocks| + 1 == 0x7FFF || !Quiet(p, others[0])
    requires forall i :: 0 <= i < |blocks| ==> Quiet(p, blocks[i]) && QuietCorr(p, blocks[i]) == []
    ensures AllItems(p, Pending(1, []), blocks + others) == RunItems(p.tbl, |blocks| + 1) + AllItems(p, NONE, others)
  {
    hide Quiet, QuietCorr, AllItems, RunItems, EobItems, Joining, AllCorr;
    var st := Pending(1, []);
    var m := Joined(p, st, blocks, others);
    RunCovers(p, st, blocks + others);
    assert st.corr + AllCorr(p, (blocks + others)[..m]) == [];
    OneRun(p, m + 1);
  }

  /** Exactly the blank blocks join the first. */
  lemma Joined(p: Band, st: Pending, blocks: seq<Block>, others: seq<Block>) returns (m: nat)
    requires ValidBand(p) && st == Pending(1, []) && |blocks| < 0x7FFF
    requires others == [] || |blocks| + 1 == 0x7FFF || !Quiet(p, others[0])
    requires forall i :: 0 <= i < |blocks| ==> Quiet(p, blocks[i]) && QuietCorr(p, blocks[i]) == []
    ensures m == Joining(p, st, blocks + others) == |blocks|
    ensures (blocks + others)[m..] == others && AllCorr(p, (blocks + others)[..m]) == []
  {
    hide Quiet, QuietCorr, Joining;
    var all := blocks + others;
    m := Joining(p, st, all);
    RunIsLongest(p, st, all);
    assert forall i :: 0 <= i < |blocks| ==> all[i] == blocks[i];
    assert others != [] ==> all[|blocks|] == others[0];
    var kept := AllCorr(p, all[..|blocks|]);
    assert m <= |blocks|;
    var front := all[..m];
    assert forall i :: 0 <= i < |front| ==> front[i] == blocks[i];
    NoneKept(p, front);
  }

  lemma OneRun(p: Band, n: nat)
    requires n > 0
    ensures EobItems(p.tbl, Pending(n, [])) == RunItems(p.tbl, n)
  {
    hide RunItems;
    assert CorrItems([]) == [];
  }
}
