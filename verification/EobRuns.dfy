/** Runs of blocks under one end-of-band symbol: what is pending between blocks stays within its bounds, and
    every sequence of blocks is read back (section G.1.2.2 and G.1.2.3 of ITU-T T.81). */
module EobRuns {
  import opened Powers
  import opened Coefficients
  import opened BitStream
  import opened HuffmanBlocks
  import opened BandItems
  import opened BandReading
  import opened BandRoundTrip

  // ----- bounds -----

  /** The correction bits of a block in which nothing becomes nonzero. */
  function QuietCorr(p: Band, b: Block): (c: seq<Bit>)
    requires ValidBand(p)
    ensures |c| <= 63
  {
    if p.refine then CorrIn(p, b, p.ss, p.se + 1) else []
  }

  lemma {:induction false} QuietTail(p: Band, b: Block)
    requires ValidBand(p) && Quiet(p, b)
    ensures Tail(p, b) == Pending(1, QuietCorr(p, b)) && Body(p, b) == []
  {
    hide CorrIn, Mag, Trunc;
    if p.refine {
      assert LastNew(p, b, p.se) == 0;
      QuietBody(p, b, p.ss);
    } else {
      QuietFirst(p, b, p.ss, 0);
    }
  }

  lemma {:induction false} QuietFirst(p: Band, b: Block, k: nat, r: nat)
    requires ValidBand(p) && k <= p.se + 1 && forall j :: k <= j <= p.se ==> Trunc(b[j], p.al) == 0
    ensures FirstBody(p, b, k, r) == [] && FirstTail(p, b, k, r) == r + p.se + 1 - k
    decreases p.se + 1 - k
  {
    hide Trunc;
    if k <= p.se {
      QuietFirst(p, b, k + 1, r + 1);
    }
  }

  lemma {:induction false} QuietBody(p: Band, b: Block, k: nat)
    requires ValidBand(p) && p.ss <= k <= p.se + 1 && forall j :: k <= j <= p.se ==> Mag(p, b, j) != 1
    ensures RefineBody(p, b, 0, p.ss, k) == []
    decreases p.se + 1 - k
  {
    hide Mag, ZerosIn, CorrIn;
    if k <= p.se {
      QuietBody(p, b, k + 1);
    }
  }

  /** The tail of any block is within bounds. */
  lemma TailBounded(p: Band, b: Block)
    requires ValidBand(p)
    ensures Bounded(Tail(p, b)) && Tail(p, b).run <= 1 && |Tail(p, b).corr| <= 63
    ensures !Forced(Tail(p, b))
  {
    hide CorrIn, Mag;
  }

  /** Between blocks the run counter stays below its limit, correction bits wait only for a run, and there
      is room for those of one more block: the buffer never overflows, nor does a run need more than 14
      extra bits. */
  lemma StaysBounded(p: Band, st: Pending, b: Block)
    requires ValidBand(p) && Bounded(st)
    ensures Bounded(StepItems(p, st, b).1)
    ensures st.run + 1 <= MAX_RUN && |st.corr| + |QuietCorr(p, b)| <= MAX_CORR_BITS
    ensures forall n :: 0 < n <= st.run + 1 ==> Log2(n) <= 14
  {
    hide Body, EobItems, Tail, Quiet, Log2;
    TailBounded(p, b);
    if Quiet(p, b) {
      QuietTail(p, b);
    }
    forall n | 0 < n <= st.run + 1
      ensures Log2(n) <= 14
    {
      Log2Bound(n);
    }
  }

  // ----- what ends up in a run -----

  /** The number of blocks that join a pending run. */
  ghost function Joining(p: Band, st: Pending, blocks: seq<Block>): (m: nat)
    requires ValidBand(p)
    ensures m <= |blocks|
    decreases |blocks|
  {
    if blocks == [] || !Quiet(p, blocks[0]) then 0
    else
      var next := Join(st, Tail(p, blocks[0]));
      if Forced(next) then 1 else 1 + Joining(p, next, blocks[1..])
  }

  /** The correction bits of blocks in which nothing becomes nonzero. */
  function AllCorr(p: Band, blocks: seq<Block>): seq<Bit>
    requires ValidBand(p)
  {
    if blocks == [] then [] else QuietCorr(p, blocks[0]) + AllCorr(p, blocks[1..])
  }

  ghost predicate AllQuiet(p: Band, blocks: seq<Block>)
    requires ValidBand(p)
  {
    forall i :: 0 <= i < |blocks| ==> Quiet(p, blocks[i])
  }

  lemma NoneFirst(p: Band, b: Block)
    requires ValidBand(p)
    ensures StepItems(p, NONE, b) == (Body(p, b), Tail(p, b))
  {
    hide Body, Tail, Quiet;
    TailBounded(p, b);
    var tail := Tail(p, b);
    assert NONE.corr + tail.corr == tail.corr;
    EobNone(p.tbl);
    assert [] + Body(p, b) == Body(p, b);
    if Quiet(p, b) {
      QuietTail(p, b);
    }
  }

  /** One symbol covers a pending run with every block that joins it; their correction bits follow in order,
      and coding goes on as from the start. */
  lemma {:induction false} RunCovers(p: Band, st: Pending, blocks: seq<Block>)
    requires ValidBand(p) && Bounded(st) && st.run > 0
    ensures var m := Joining(p, st, blocks);
      && AllQuiet(p, blocks[..m]) && st.run + m <= MAX_RUN
      && AllItems(p, st, blocks)
           == EobItems(p.tbl, Pending(st.run + m, st.corr + AllCorr(p, blocks[..m]))) + AllItems(p, NONE, blocks[m..])
    decreases |blocks|
  {
    hide Body, EobItems, Tail, Quiet, Log2, QuietCorr;
    var m := Joining(p, st, blocks);
    if m == 0 {
      assert st.corr + AllCorr(p, []) == st.corr && blocks[0..] == blocks && blocks[..0] == [];
      assert st == Pending(st.run + 0, st.corr);
      if blocks == [] {
        EobNone(p.tbl);
        assert EobItems(p.tbl, st) + [] == EobItems(p.tbl, st);
      } else {
        NoneFirst(p, blocks[0]);
        StaysBounded(p, st, blocks[0]);
        assert EobItems(p.tbl, st) + (Body(p, blocks[0]) + AllItems(p, Tail(p, blocks[0]), blocks[1..]))
          == EobItems(p.tbl, st) + Body(p, blocks[0]) + AllItems(p, Tail(p, blocks[0]), blocks[1..]);
      }
    } else {
      JoinOne(p, st, blocks, m);
      var next := Join(st, Tail(p, blocks[0]));
      StaysBounded(p, st, blocks[0]);
      if Forced(next) {
        assert blocks[1..][..0] == [] && next.corr + [] == next.corr;
      } else {
        RunCovers(p, next, blocks[1..]);
        assert [] + AllItems(p, next, blocks[1..]) == AllItems(p, next, blocks[1..]);
        assert blocks[1..][m - 1..] == blocks[m..];
      }
    }
  }

  lemma EobNone(tbl: TableNumber)
    ensures EobItems(tbl, NONE) == []
  {
  }

  /** The first block that joins. */
  lemma JoinOne(p: Band, st: Pending, blocks: seq<Block>, m: nat)
    requires ValidBand(p) && 0 < m <= |blocks| && Quiet(p, blocks[0])
    ensures var next := Join(st, Tail(p, blocks[0]));
      && next.run == st.run + 1
      && next.corr + AllCorr(p, blocks[1..][..m - 1]) == st.corr + AllCorr(p, blocks[..m])
      && (AllQuiet(p, blocks[1..][..m - 1]) ==> AllQuiet(p, blocks[..m]))
  {
    hide Tail, Quiet, QuietCorr;
    QuietTail(p, blocks[0]);
    assert blocks[..m][1..] == blocks[1..][..m - 1];
    forall i | AllQuiet(p, blocks[1..][..m - 1]) && 0 <= i < m
      ensures Quiet(p, blocks[..m][i])
    {
      assert i > 0 ==> blocks[..m][i] == blocks[1..][..m - 1][i - 1];
    }
  }

  // ----- one block -----

  /** A block with codes of its own, up to its end of band, which may cover n blocks. */
  lemma BlockRoundTrip(e: Tables, p: Band, b: Block, n: nat, was: Block, more: seq<Item>, rest: seq<Bit>)
    requires ValidBand(p) && Expected(p, was, b) && BandFits(p, b) && 0 < n <= MAX_RUN
    requires AllCodable(e, Body(p, b) + EndItems(p, Tail(p, b), n))
    ensures ReadBand(p, e.ac[p.tbl].t, Source(Bits(e, Body(p, b) + EndItems(p, Tail(p, b), n) + more) + rest, false),
      0, was)
      == BandRead(Delivered(p, was, b), Source(Bits(e, more) + rest, false), Left(Tail(p, b), n))
  {
    hide Bits, Codable, EndItems, Left, Mag, Trunc, RefineBody, FirstBody, BandFits, FirstTail, ReadFirstBand,
      ReadRefinedBand;
    if p.refine {
      var last := LastNew(p, b, p.se);
      RefineRoundTrip(e, p, b, last, p.ss, p.ss, n, was, more, rest, false);
    } else {
      FirstRoundTrip(e, p, b, p.ss, 0, n, was, more, rest, false);
    }
  }

  /** A block in the middle of a run. */
  lemma QuietRoundTrip(p: Band, b: Block, run: nat, was: Block, more: seq<Bit>)
    requires ValidBand(p) && Expected(p, was, b) && Quiet(p, b) && run > 0
    ensures ReadQuiet(p, Source(QuietCorr(p, b) + more, false), was, p.ss, run)
      == BandRead(Delivered(p, was, b), Source(more, false), run - 1)
  {
    hide Mag, Trunc, ReadCorrections, CorrIn, AcLevel;
    if p.refine {
      CorrectionsRoundTrip(p, b, was, p.ss, more, false);
    } else {
      ZerosDelivered(p, was, b, p.ss, p.se + 1);
      assert [] + more == more;
    }
  }

  // ----- all blocks -----

  ghost predicate AllExpected(p: Band, was: seq<Block>, blocks: seq<Block>) {
    |was| == |blocks| && forall i :: 0 <= i < |blocks| ==> Expected(p, was[i], blocks[i])
  }

  ghost predicate AllFit(p: Band, blocks: seq<Block>)
    requires ValidBand(p)
  {
    forall i :: 0 <= i < |blocks| ==> BandFits(p, blocks[i])
  }

  function AllDelivered(p: Band, was: seq<Block>, blocks: seq<Block>): (r: seq<Block>)
    requires |was| == |blocks|
    ensures |r| == |blocks|
  {
    seq(|blocks|, i requires 0 <= i < |blocks| => Delivered(p, was[i], blocks[i]))
  }

  lemma DeliveredFirst(p: Band, was: seq<Block>, blocks: seq<Block>)
    requires |was| == |blocks| && blocks != []
    ensures AllDelivered(p, was, blocks) == [Delivered(p, was[0], blocks[0])] + AllDelivered(p, was[1..], blocks[1..])
  {
    hide Delivered;
  }

  /** What blocks read into `was` give. */
  ghost predicate ReadBack(e: Tables, p: Band, bits: seq<Bit>, run: nat, was: seq<Block>, blocks: seq<Block>,
      rest: seq<Bit>)
    requires ValidBand(p) && |was| == |blocks|
  {
    ReadBands(p, e.ac[p.tbl].t, Source(bits, false), run, was)
      == BandsRead(AllDelivered(p, was, blocks), Source(rest, false), 0)
  }

  lemma CorrJoin(c: seq<Bit>, d: seq<Bit>)
    ensures CorrItems(c + d) == CorrItems(c) + CorrItems(d)
  {
  }

  /** One symbol for a tail and what joined it. */
  lemma RunSplit(p: Band, tail: Pending, m: nat, c: seq<Bit>)
    requires tail.run == 1
    ensures EobItems(p.tbl, Pending(1 + m, tail.corr + c)) == EndItems(p, tail, m + 1) + CorrItems(c)
  {
    hide CorrItems, RunItems;
    CorrJoin(tail.corr, c);
  }

  /** The blocks that share the end of band of the one before. */
  ghost function Sharing(p: Band, blocks: seq<Block>): nat
    requires ValidBand(p) && blocks != []
  {
    if Tail(p, blocks[0]).run == 0 then 0 else Joining(p, Tail(p, blocks[0]), blocks[1..])
  }

  lemma ItemsOfFirst(p: Band, blocks: seq<Block>)
    requires ValidBand(p) && blocks != []
    ensures AllItems(p, NONE, blocks) == Body(p, blocks[0]) + AllItems(p, Tail(p, blocks[0]), blocks[1..])
  {
    hide StepItems, Body, Tail;
    NoneFirst(p, blocks[0]);
  }

  /** The items of blocks from the start: the first with its end of band, the bits of the blocks that share it,
      and the rest. */
  lemma FirstAndRun(p: Band, blocks: seq<Block>) returns (m: nat, corr: seq<Item>, later: seq<Item>)
    requires ValidBand(p) && blocks != []
    ensures m == Sharing(p, blocks) <= |blocks| - 1 && m + 1 <= MAX_RUN
    ensures AllQuiet(p, blocks[1..][..m]) && Left(Tail(p, blocks[0]), m + 1) == m
    ensures corr == CorrItems(AllCorr(p, blocks[1..][..m])) && later == AllItems(p, NONE, blocks[1..][m..])
    ensures AllItems(p, NONE, blocks) == Body(p, blocks[0]) + EndItems(p, Tail(p, blocks[0]), m + 1) + (corr + later)
  {
    var tail, others := Tail(p, blocks[0]), blocks[1..];
    m := Sharing(p, blocks);
    ItemsOfFirst(p, blocks);
    TailBounded(p, blocks[0]);
    hide Body, Tail, Quiet, Joining, QuietCorr, CorrItems, RunItems, EobItems, AllItems, AllCorr;
    var end := EndItems(p, tail, m + 1);
    if tail.run == 0 {
      assert others[..0] == [] && others[0..] == others;
      NoCorrItems(p);
      assert tail == NONE;
      corr, later := [], AllItems(p, NONE, others);
    } else {
      RunCovers(p, tail, others);
      var all := AllCorr(p, others[..m]);
      corr, later := CorrItems(all), AllItems(p, NONE, others[m..]);
      RunSplit(p, tail, m, all);
    }
    Regroup(Body(p, blocks[0]), end, corr, later);
  }

  lemma Regroup(a: seq<Item>, b: seq<Item>, c: seq<Item>, d: seq<Item>)
    ensures a + (b + c + d) == a + b + (c + d)
    ensures b == [] && c == [] ==> b + c + d == d
  {
  }

  lemma NoCorrItems(p: Band)
    requires ValidBand(p)
    ensures CorrItems(AllCorr(p, [])) == []
  {
  }

  /** Round trip of any sequence of blocks: read one by one, every block gets its band, and the bits are used
      up exactly. */
  lemma {:induction false} BandsRoundTrip(e: Tables, p: Band, was: seq<Block>, blocks: seq<Block>, rest: seq<Bit>)
    requires ValidBand(p) && AllExpected(p, was, blocks) && AllFit(p, blocks)
    requires AllCodable(e, AllItems(p, NONE, blocks))
    ensures ReadBack(e, p, Bits(e, AllItems(p, NONE, blocks)) + rest, 0, was, blocks, rest)
    decreases |blocks|, 0
  {
    if blocks == [] {
      EobNone(p.tbl);
      assert Bits(e, []) + rest == rest;
    } else {
      var m, corr, later := FirstAndRun(p, blocks);
      FirstAndOthers(p, was, blocks);
      hide Bits, AllCodable, Expected, AllExpected, BandFits, AllFit, Delivered, AllDelivered, AllItems, Body, Tail,
        EndItems, AllQuiet,
        ReadBand, AllCorr, CorrItems, Left, Sharing;
      var b := blocks[0];
      var end := EndItems(p, Tail(p, b), m + 1);
      CodableParts(e, Body(p, b) + end, corr + later);
      CodableParts(e, corr, later);
      BlockRoundTrip(e, p, b, m + 1, was[0], corr + later, rest);
      CorrFront(e, AllCorr(p, blocks[1..][..m]), later, rest);
      RunRoundTrip(e, p, m, was[1..], blocks[1..], rest);
      DeliveredFirst(p, was, blocks);
    }
  }

  lemma FirstAndOthers(p: Band, was: seq<Block>, blocks: seq<Block>)
    requires ValidBand(p) && AllExpected(p, was, blocks) && AllFit(p, blocks) && blocks != []
    ensures Expected(p, was[0], blocks[0]) && AllExpected(p, was[1..], blocks[1..])
    ensures BandFits(p, blocks[0]) && AllFit(p, blocks[1..])
  {
    hide Expected, BandFits;
  }

  /** The next block of a run, and the correction bits of the others. */
  lemma NextQuiet(p: Band, blocks: seq<Block>, m: nat, behind: seq<Bit>)
    requires ValidBand(p) && 0 < m <= |blocks| && AllQuiet(p, blocks[..m])
    ensures Quiet(p, blocks[0]) && AllQuiet(p, blocks[1..][..m - 1]) && blocks[1..][m - 1..] == blocks[m..]
    ensures AllCorr(p, blocks[..m]) + behind == QuietCorr(p, blocks[0]) + (AllCorr(p, blocks[1..][..m - 1]) + behind)
  {
    hide Quiet, QuietCorr;
    assert blocks[..m][1..] == blocks[1..][..m - 1];
    assert forall i :: 0 <= i < m - 1 ==> blocks[1..][i] == blocks[..m][i + 1];
  }

  /** Blocks of which the first m are in the middle of a run. */
  lemma {:induction false} RunRoundTrip(e: Tables, p: Band, m: nat, was: seq<Block>, blocks: seq<Block>, rest: seq<Bit>)
    requires ValidBand(p) && m <= |blocks| && AllExpected(p, was, blocks) && AllFit(p, blocks)
    requires AllQuiet(p, blocks[..m])
    requires AllCodable(e, AllItems(p, NONE, blocks[m..]))
    ensures ReadBack(e, p, AllCorr(p, blocks[..m]) + (Bits(e, AllItems(p, NONE, blocks[m..])) + rest), m, was, blocks,
      rest)
    decreases |blocks|, 1
  {
    assert |was| == |blocks|;
    hide Bits, AllCodable, Expected, AllExpected, BandFits, AllFit, Delivered, AllDelivered, AllItems, Quiet, AllQuiet,
      ReadQuiet,
      QuietCorr;
    var behind := Bits(e, AllItems(p, NONE, blocks[m..])) + rest;
    if m == 0 {
      assert blocks[0..] == blocks && [] + behind == behind;
      BandsRoundTrip(e, p, was, blocks, rest);
    } else {
      var b, more := blocks[0], AllCorr(p, blocks[1..][..m - 1]) + behind;
      NextQuiet(p, blocks, m, behind);
      FirstAndOthers(p, was, blocks);
      hide AllCorr;
      QuietRoundTrip(p, b, m, was[0], more);
      RunRoundTrip(e, p, m - 1, was[1..], blocks[1..], rest);
      DeliveredFirst(p, was, blocks);
    }
  }
}
