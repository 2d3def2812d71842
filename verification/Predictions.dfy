/** What every interval of a scan starts from, and what the DC coefficients of its blocks are predicted by. */
module Predictions {
  import opened Powers
  import opened Coefficients
  import opened Decisions
  import opened IntervalCoder
  import opened BlockCoding
  import McuCoding
  import ScanCoding
  import HuffmanScan
  import HuffmanBlocks
  import ProgressiveCoding

  /** At the start of an interval the statistics of the DC tables in use are fresh if the scan codes DC
      differences, those of the AC tables in use if it codes AC coefficients, and all others are kept. */
  lemma ResetIs(s: McuCoding.Scan, stats: Stats, tbl: int, bin: int)
    ensures BinAt(ScanCoding.Reset(s, stats), Dc(tbl, bin))
      == if (s.kind == McuCoding.Sequential || s.kind == McuCoding.DcFirst)
            && (exists c :: 0 <= c < |s.comps| && s.comps[c].dcTbl == tbl) then 0
         else BinAt(stats, Dc(tbl, bin))
    ensures BinAt(ScanCoding.Reset(s, stats), Ac(tbl, bin))
      == if s.se != 0 && (exists c :: 0 <= c < |s.comps| && s.comps[c].acTbl == tbl) then 0
         else BinAt(stats, Ac(tbl, bin))
    ensures BinAt(ScanCoding.Reset(s, stats), Fixed) == BinAt(stats, Fixed)
  {
  }

  /** Block j is the last of component c among blocks i to n - 1 of an MCU. */
  predicate LastOf(membership: seq<nat>, c: nat, i: nat, j: nat) {
    i <= j < |membership| && membership[j] == c && forall l :: j < l < |membership| ==> membership[l] != c
  }

  /** The prediction left for a component is the DC value of its last block, cut down to bit al. */
  lemma {:induction false} PredictedByLast(s: McuCoding.Scan, dcs: seq<DcState>, mcu: Mcu, i: nat, c: nat)
    requires McuCoding.ValidScan(s) && McuCoding.CodesDc(s) && McuCoding.ValidMcu(s, mcu)
    requires |dcs| == |s.comps| && i <= |mcu| && c < |dcs|
    ensures var left := McuCoding.DcStates(s, dcs, mcu, i)[c];
      && (forall j: nat :: LastOf(s.membership, c, i, j) ==> left.pred == mcu[j][0] / Pow2(s.al))
      && ((forall j :: i <= j < |mcu| ==> s.membership[j] != c) ==> left == dcs[c])
    decreases |mcu| - i
  {
    hide Pow2, NextContext, Magnitude.CategoryOf;
    if i < |mcu| {
      var b := s.membership[i];
      var next := dcs[b := DcNext(McuCoding.TableOf(s, b), dcs[b], Shift(mcu[i][0], s.al))];
      PredictedByLast(s, next, mcu, i + 1, c);
      forall j: nat | LastOf(s.membership, c, i, j)
        ensures McuCoding.DcStates(s, dcs, mcu, i)[c].pred == mcu[j][0] / Pow2(s.al)
      {
        if j > i {
          assert LastOf(s.membership, c, i + 1, j);
        }
      }
    }
  }

  /** The same for sequential Huffman coding. */
  lemma {:induction false} HuffmanPredictedByLast(s: HuffmanScan.Scan, preds: seq<int>, mcu: Mcu, i: nat, c: nat)
    requires HuffmanScan.ValidScan(s) && HuffmanScan.ValidMcu(s, mcu)
    requires |preds| == |s.comps| && i <= |mcu| && c < |preds|
    ensures var left := HuffmanScan.McuPreds(s, preds, mcu, i)[c];
      && (forall j: nat :: LastOf(s.membership, c, i, j) ==> left == mcu[j][0])
      && ((forall j :: i <= j < |mcu| ==> s.membership[j] != c) ==> left == preds[c])
    decreases |mcu| - i
  {
    if i < |mcu| {
      HuffmanPredictedByLast(s, preds[s.membership[i] := mcu[i][0]], mcu, i + 1, c);
      forall j: nat | LastOf(s.membership, c, i, j)
        ensures HuffmanScan.McuPreds(s, preds, mcu, i)[c] == mcu[j][0]
      {
        if j > i {
          assert LastOf(s.membership, c, i + 1, j);
        }
      }
    }
  }

  /** The first block of an interval is predicted by zero, in context zero. */
  lemma FirstBlock(s: McuCoding.Scan, chunk: seq<Mcu>)
    requires McuCoding.ValidScan(s) && McuCoding.CodesDc(s) && ScanCoding.ValidChunk(s, chunk)
    requires chunk != [] && s.membership != []
    ensures var ds := ScanCoding.ChunkDecisions(s, ScanCoding.FreshStates(s), chunk);
      ds != [] && ds[0] == Decision(Dc(s.comps[s.membership[0]].dcTbl, 0),
        if chunk[0][0][0] / Pow2(s.al) == 0 then 0 else 1)
  {
    hide Pow2, NextContext, Magnitude.CategoryOf, BandDecisions, Magnitude.DcMagnitude;
    var dcs := ScanCoding.FreshStates(s);
    var c := s.membership[0];
    var m := Shift(chunk[0][0][0], s.al);
    assert dcs[c] == DcState(0, 0);
    var first := DcDecisions(McuCoding.TableOf(s, c), dcs[c], m);
    assert first != [] && first[0].ctx == Dc(s.comps[c].dcTbl, 0);
    assert McuCoding.DcBlocks(s, dcs, chunk[0], 0)[0] == first[0];
  }

  lemma HuffmanFirstBlock(s: HuffmanScan.Scan, chunk: seq<Mcu>)
    requires HuffmanScan.ValidScan(s) && HuffmanScan.ValidChunk(s, chunk) && chunk != [] && s.membership != []
    ensures var items := HuffmanScan.ChunkItems(s, HuffmanScan.Zero(s), chunk);
      HuffmanBlocks.Value(false, s.comps[s.membership[0]].dcTbl, 0, chunk[0][0][0]) <= items
  {
    hide HuffmanBlocks.AcItems, HuffmanBlocks.Value;
  }

  /** A DC refinement is the bits al of the DC coefficients, one for each block: of fixed probability in
      arithmetic coding, and as they are in Huffman coding. */
  lemma {:induction false} RefineBitsAre(s: McuCoding.Scan, mcu: Mcu, i: nat)
    requires i <= |mcu|
    ensures |McuCoding.RefineBits(s, mcu, i)| == |ProgressiveCoding.RefineItems(s, mcu, i)| == |mcu| - i
    ensures forall j :: 0 <= j < |mcu| - i ==>
      && McuCoding.RefineBits(s, mcu, i)[j] == Decision(Fixed, mcu[i + j][0] / Pow2(s.al) % 2)
      && ProgressiveCoding.RefineItems(s, mcu, i)[j] == HuffmanBlocks.Extra(mcu[i + j][0] / Pow2(s.al) % 2, 1)
    decreases |mcu| - i
  {
    hide Pow2;
    if i < |mcu| {
      RefineBitsAre(s, mcu, i + 1);
    }
  }
}
