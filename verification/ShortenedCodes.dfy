/** Which symbols the 16-bit limit gives a longer code although they occur more often, and counts for which
    it does. */
module ShortenedCodes {
  import opened Powers
  import opened HuffmanTree
  import opened CodeLengths
  import opened CanonicalCode
  import opened OptimalTable

  // ----- the place of a symbol in the list -----

  /** How many symbols are listed before s: those with shorter codes, and lower ones with codes as long. */
  function Place(l: seq<nat>, s: nat): nat
    requires |l| == 257 && s < 256 && l[s] > 0
  {
    |Listed(l, l[s] - 1)| + |OfLength(l, l[s], s)|
  }

  lemma {:induction false} OfLengthAt(l: seq<nat>, s: nat, n: nat)
    requires s < n <= |l|
    ensures |OfLength(l, l[s], s)| < |OfLength(l, l[s], n)|
    ensures OfLength(l, l[s], n)[|OfLength(l, l[s], s)|] == s
    decreases n
  {
    if s < n - 1 {
      OfLengthAt(l, s, n - 1);
    }
  }

  lemma {:induction false} PlaceIs(l: seq<nat>, s: nat, k: nat)
    requires |l| == 257 && s < 256 && 0 < l[s] <= k
    ensures Place(l, s) < |Listed(l, k)| && Listed(l, k)[Place(l, s)] == s
    decreases k
  {
    if l[s] < k {
      PlaceIs(l, s, k - 1);
    } else {
      OfLengthAt(l, s, 256);
    }
  }

  /** The code of a counted symbol is as long as its place in the list makes it. */
  lemma SizeByPlace(t: Table, freq: seq<nat>, d: Derived, s: nat)
    requires ValidCounts(freq) && Holds(t, freq) && Total(t.bits, 16) <= 256 && Derives(t, d)
    requires s < 256 && freq[s] > 0
    ensures CodeSizes(freq)[s] > 0 && Place(CodeSizes(freq), s) < Total(t.bits, 16)
    ensures d.size[s] == SizeAt(t.bits, Place(CodeSizes(freq), s), 16)
  {
    BuiltShape(t, freq);
    SizesPositive(freq);
    assert WithPseudo(freq)[s] == freq[s];
    hide CodeSizes, Listed, LeavesRoom, Total, Build, SizeAt, CodeAt, Place;
    var l := CodeSizes(freq);
    assert l[s] <= MAX_CLEN;
    PlaceIs(l, s, MAX_CLEN);
    assert t.values[Place(l, s)] == Build(freq).values[Place(l, s)];
  }

  // ----- exactly when the order is lost -----

  /** Codes of some length suffice for place p, but not for place q. */
  predicate EndsBetween(bits: Counts, p: nat, q: nat)
    requires |bits| == 17
  {
    exists n :: 1 <= n <= 16 && p < Total(bits, n) <= q
  }

  /** The limited counts part b from a. */
  predicate Parted(freq: seq<nat>, b: nat, a: nat)
    requires ValidCounts(freq) && Build(freq).Built?
    requires a < 256 && b < 256 && CodeSizes(freq)[a] > 0 && CodeSizes(freq)[b] > 0
  {
    EndsBetween(Build(freq).bits, Place(CodeSizes(freq), b), Place(CodeSizes(freq), a))
  }

  /** Of two places, the second has the longer code just when there is a length between. */
  lemma LongerPlaces(bits: Counts, p: nat, q: nat)
    requires |bits| == 17 && p < Total(bits, 16) && q < Total(bits, 16)
    ensures SizeAt(bits, p, 16) < SizeAt(bits, q, 16) <==> EndsBetween(bits, p, q)
  {
    hide Total, SizeAt;
    var s, t := SizeAt(bits, p, 16), SizeAt(bits, q, 16);
    if s < t {
      TotalGrows(bits, s, t - 1);
      assert p < Total(bits, s) <= q;
    }
    forall n | 1 <= n <= 16 && p < Total(bits, n) <= q
      ensures s <= n < t
    {
      if n < s {
        TotalGrows(bits, n, s - 1);
      }
      if t <= n {
        TotalGrows(bits, t, n);
      }
    }
  }

  /** A symbol counted more often gets the longer code exactly when Huffman's procedure gives both symbols the
      same length, the other has the lower value, and the limited counts part the symbols of that length
      between the two. */
  lemma LongerExactly(t: Table, freq: seq<nat>, d: Derived, a: nat, b: nat)
    requires ValidCounts(freq) && Holds(t, freq) && Total(t.bits, 16) <= 256 && Derives(t, d)
    requires a < 256 && b < 256 && freq[a] > freq[b] > 0
    ensures CodeSizes(freq)[a] > 0 && CodeSizes(freq)[b] > 0
    ensures d.size[a] > d.size[b]
      <==> CodeSizes(freq)[a] == CodeSizes(freq)[b] && b < a && Parted(freq, b, a)
  {
    hide CodeSizes, Total, SizeAt, CodeAt, Place, NoneAbove, Derives, Build, EndsBetween;
    SizeByPlace(t, freq, d, a);
    SizeByPlace(t, freq, d, b);
    OftenIsShorter(t, freq, d, a, b);
    LongerPlaces(t.bits, Place(CodeSizes(freq), b), Place(CodeSizes(freq), a));
    assert t.bits == Build(freq).bits;
  }

  // ----- counts for which it is lost -----

  /** Symbols 0 to 4 are rare; from symbol 5 + k on, each is counted twice as often as the one before.  What
      those before it come to is carried by symbol 0. */
  function Steep(k: nat): (w: Weights)
    requires k <= 13
    ensures |w| == 257 && w[0] == 17 * Pow2(k) - 1
    ensures forall i :: 1 <= i < 257 ==> w[i] == if 5 + k <= i < 18 then 17 * Pow2(i - 5) else 0
  {
    seq(257, i requires 0 <= i < 257 =>
      if i == 0 then 17 * Pow2(k) - 1 else if 5 + k <= i < 18 then 17 * Pow2(i - 5) else 0)
  }

  /** Symbols 0, 1 and 2 are counted 3, 4 and 5 times. */
  function Sample(): (freq: seq<nat>)
    ensures |freq| == 257 && freq[0] == 3 && freq[2] == 5
  {
    Steep(0)[0 := 3][1 := 4][2 := 5][3 := 2][4 := 1]
  }

  lemma Merge(w: Weights, c1: nat, c2: nat, v: Weights)
    requires c1 != c2 && Live(w, c1) && Live(w, c2) && |v| == |w|
    requires forall i :: Live(w, i) ==> Before(w, c1, i) && (i != c1 ==> Before(w, c2, i))
    requires v[c1] == w[c1] + w[c2] && v[c2] == 0 && forall i :: 0 <= i < |w| && i != c1 && i != c2 ==> v[i] == w[i]
    ensures Lengths(w) == Lengths(v)[c1 := Lengths(v)[c1] + 1][c2 := Lengths(v)[c1] + 1]
  {
    hide First, Second, Lengths;
    FirstTwo(w);
    assert First(w) == c1;
    assert Second(w) == c2;
    assert Merged(w) == v;
    hide Merged;
    LengthsStep(w);
  }

  /** The lengths of steeply growing counts. */
  function SteepLengths(k: nat): (l: seq<nat>)
    requires k <= 13
    ensures |l| == 257
  {
    seq(257, i requires 0 <= i < 257 => if i == 0 then 13 - k else if 5 + k <= i < 18 then 18 - i else 0)
  }

  /** Symbol 0 and the next symbol are the lightest. */
  lemma SteepStep(k: nat)
    requires k < 13
    ensures var w, v := Steep(k), Steep(k + 1);
      && w[0] < w[5 + k] && v[0] == w[0] + w[5 + k]
      && (forall i :: Live(w, i) ==> w[i] > w[5 + k] || i == 0 || i == 5 + k)
      && forall i :: 0 < i < 257 && i != 5 + k ==> v[i] == w[i]
  {
    Pow2Successor(k);
    forall i | 5 + k < i < 18
      ensures Steep(k)[5 + k] < Steep(k)[i]
    {
      Pow2Monotone(k + 1, i - 5);
    }
    hide Pow2;
  }

  lemma {:induction false} SteepIs(k: nat)
    requires k <= 13
    ensures Lengths(Steep(k)) == SteepLengths(k)
    decreases 13 - k
  {
    hide Pow2, Lengths, Steep;
    if k == 13 {
      AloneIs(Steep(k));
    } else {
      SteepStep(k);
      SteepIs(k + 1);
      var w := Steep(k);
      assert Live(w, 0) && Live(w, 5 + k);
      Merge(w, 0, 5 + k, Steep(k + 1));
    }
  }

  lemma AloneIs(w: Weights)
    requires |w| == 257 && forall i :: 1 <= i < 257 ==> w[i] == 0
    ensures Lengths(w) == seq(257, _ => 0)
  {
    FirstTwo(w);
    hide First, Second, Pick, Merged;
    assert Second(w) < 0;
  }

  function SampleLengths(): (l: seq<nat>)
    ensures |l| == 257
  {
    SteepLengths(0)[0 := 15][1 := 15][2 := 15][3 := 16][4 := 17][256 := 17]
  }

  /** The merging of the rare symbols: first of the three rarest, then of what is left. */
  lemma RareMerged(w: Weights)
    requires |w| == 257 && w[0] == 3 && w[1] == 4 && w[2] == 5 && w[3] == 2 && w[4] == 1 && w[256] == 1
    requires forall i :: 5 <= i < 256 ==> w[i] == 0 || w[i] > 16
    ensures var l := Lengths(w[256 := 4][3 := 0][4 := 0]);
      Lengths(w) == l[256 := l[256] + 2][3 := l[256] + 1][4 := l[256] + 2]
  {
    hide Lengths;
    var v := w[256 := 2][4 := 0];
    Merge(w, 256, 4, v);
    assert w[256 := 4][3 := 0][4 := 0] == v[256 := 4][3 := 0];
    Merge(v, 256, 3, v[256 := 4][3 := 0]);
  }

  lemma FewMerged(w: Weights)
    requires |w| == 257 && w[0] == 16 && w[1] == w[2] == w[3] == w[4] == w[256] == 0
    requires forall i :: 5 <= i < 256 ==> w[i] == 0 || w[i] > 16
    ensures var l := Lengths(w);
      Lengths(w[0 := 3][1 := 4][2 := 5][256 := 4]) == l[0 := l[0] + 2][1 := l[0] + 2][2 := l[0] + 2][256 := l[0] + 2]
  {
    hide Lengths;
    var v1 := w[0 := 7][1 := 9];
    var v2 := w[0 := 7][1 := 4][2 := 5];
    var v3 := w[0 := 3][1 := 4][2 := 5][256 := 4];
    LastTwo(w, v1);
    Merge(v2, 1, 2, v1);
    Merge(v3, 0, 256, v2);
  }

  lemma LastTwo(w: Weights, v: Weights)
    requires |w| == 257 && w[0] == 16 && w[1] == w[2] == w[3] == w[4] == w[256] == 0 && v == w[0 := 7][1 := 9]
    requires forall i :: 5 <= i < 256 ==> w[i] == 0 || w[i] > 16
    ensures Lengths(v) == Lengths(w)[0 := Lengths(w)[0] + 1][1 := Lengths(w)[0] + 1]
  {
    hide Lengths;
    Merge(v, 0, 1, w);
  }

  lemma MergedInTurn(v: Weights, w: Weights)
    requires |v| == |w| == 257 && v == w[0 := 3][1 := 4][2 := 5][3 := 2][4 := 1][256 := 1]
    requires w[0] == 16 && w[1] == w[2] == w[3] == w[4] == w[256] == 0
    requires forall i :: 5 <= i < 256 ==> w[i] == 0 || w[i] > 16
    ensures var l := Lengths(w);
      Lengths(v) == l[0 := l[0] + 2][1 := l[0] + 2][2 := l[0] + 2][3 := l[0] + 3][4 := l[0] + 4][256 := l[0] + 4]
  {
    hide Lengths;
    FewMerged(w);
    assert v[256 := 4][3 := 0][4 := 0] == w[0 := 3][1 := 4][2 := 5][256 := 4];
    RareMerged(v);
  }

  lemma SampleSizes(freq: seq<nat>)
    requires freq == Sample()
    ensures CodeSizes(freq) == SampleLengths()
  {
    hide Lengths;
    SteepIs(0);
    var w := Steep(0);
    assert w[0] == 16;
    hide Steep;
    MergedInTurn(WithPseudo(freq), w);
    assert SteepLengths(0)[0] == 13;
  }

  /** How many of the first n lengths of the sample are k. */
  lemma {:induction false} SampleCount(n: nat, k: nat)
    requires n <= 257 && 1 <= k
    ensures CountOf(SampleLengths()[..n], k)
      == (if k <= 13 && 18 - k < n then 1 else 0)
        + (if k == 15 then (if n <= 3 then n else 3) else 0)
        + (if k == 16 && 3 < n then 1 else 0)
        + (if k == 17 && 4 < n then 1 else 0)
        + (if k == 17 && 256 < n then 1 else 0)
  {
    if n > 0 {
      SampleCount(n - 1, k);
      var l := SampleLengths();
      assert l[..n][..n - 1] == l[..n - 1];
    }
  }

  /** One code word of each length up to 13, and six of more than 14 bits. */
  predicate SampleShape(bits: Counts, at15: nat, at16: nat, at17: nat) {
    && |bits| > 17 && bits[14] == 0 && bits[15] == at15 && bits[16] == at16 && bits[17] == at17
    && (forall k :: 1 <= k <= 13 ==> bits[k] == 1)
    && forall k :: 17 < k < |bits| ==> bits[k] == 0
  }

  lemma SampleCounted(n: nat)
    requires 256 <= n <= 257
    ensures SampleShape(CountAll(SampleLengths()[..n]), 3, 1, n - 255)
  {
    hide CountOf, SampleLengths;
    forall k | 1 <= k <= MAX_CLEN
      ensures CountAll(SampleLengths()[..n])[k]
        == if k <= 13 then 1 else if k == 15 then 3 else if k == 16 then 1 else if k == 17 then n - 255 else 0
    {
      SampleCount(n, k);
    }
    hide CountAll;
  }

  /** Lengths out of use do not matter to the limit. */
  lemma {:induction false} NothingToLimit(bits: Counts, i: nat)
    requires Complete(bits, i) && i >= 17 && forall k :: 17 < k <= i ==> bits[k] == 0
    ensures Complete(bits, 17) && Limited(bits, i) == Limited(bits, 17)
    decreases i
  {
    hide Complete, Total, Scaled;
    if i > 17 {
      LowerTop(bits, i);
      NothingToLimit(bits, i - 1);
    }
  }

  /** The two words of 17 bits become four of 16, in place of one of 15. */
  lemma SampleLimited(bits: Counts)
    requires Complete(bits, 17) && SampleShape(bits, 3, 1, 2)
    ensures SampleShape(Limited(bits, 17), 2, 4, 0)
    ensures SampleShape(Withdrawn(Limited(bits, 17)), 2, 3, 0)
  {
    hide Complete, Total, Scaled;
    PairAndDonor(bits, 17);
    var m := Moved(bits, 17, 15);
    assert Donor(bits, 15) == 15;
    MovedComplete(bits, 17, 15);
    assert Cleared(bits, 17) == m;
    LowerTop(m, 17);
    assert Limited(m, 16) == m;
    hide Limited, Cleared, Moved;
    assert Longest(m, 16) == 16;
  }

  lemma {:induction false} SampleTotal(bits: Counts, n: nat)
    requires |bits| >= 17 && n <= 13 && forall k :: 1 <= k <= 13 ==> bits[k] == 1
    ensures Total(bits, n) == n
  {
    if n > 0 {
      SampleTotal(bits, n - 1);
    }
  }

  /** Two places are left for the three symbols of 15 bits. */
  lemma SampleBuilt(freq: seq<nat>)
    requires ValidCounts(freq) && CodeSizes(freq) == SampleLengths()
    ensures Build(freq).Built?
    ensures var bits := Build(freq).bits;
      Total(bits, 14) == 13 && Total(bits, 15) == 15 && Total(bits, 16) == 18
  {
    hide Total, CodeSizes, CountAll, CountOf, Limited, Withdrawn, Complete, Scaled;
    var l := CodeSizes(freq);
    assert NoneAbove(l, MAX_CLEN);
    CountsComplete(freq);
    SampleCounted(257);
    assert l[..257] == l;
    hide SampleLengths;
    NothingToLimit(CountAll(l), MAX_CLEN);
    SampleLimited(CountAll(l));
    var bits := Withdrawn(Limited(CountAll(l), 17));
    assert Build(freq).bits == bits[..17];
    SampleTotals(bits);
    PrefixTotals(bits, 14);
    PrefixTotals(bits, 15);
    PrefixTotals(bits, 16);
  }

  lemma SampleTotals(bits: Counts)
    requires |bits| >= 18 && bits[14] == 0 && forall k :: 1 <= k <= 13 ==> bits[k] == 1
    ensures Total(bits, 14) == 13 && Total(bits, 15) == 13 + bits[15] && Total(bits, 16) == 13 + bits[15] + bits[16]
  {
    SampleTotal(bits, 13);
    assert Total(bits, 14) == Total(bits, 13) + bits[14];
    assert Total(bits, 15) == Total(bits, 14) + bits[15];
    assert Total(bits, 16) == Total(bits, 15) + bits[16];
  }

  /** Symbols 0 and 2 are on both sides of where the counts part the symbols of 15 bits. */
  lemma SamplePlaces(l: seq<nat>)
    requires l == SampleLengths()
    ensures Place(l, 0) == 13 && Place(l, 2) == 15
  {
    hide Total, Listed, OfLength;
    SampleCounted(256);
    SampleTotals(CountAll(l[..256]));
    ListedCount(l, 14);
    SampleAlike(l, 15);
    assert l[0] == l[2] == 15;
  }

  lemma SampleAlike(l: seq<nat>, k: nat)
    requires |l| == 257 && l[0] == l[1] == k
    ensures |OfLength(l, k, 0)| == 0 && |OfLength(l, k, 2)| == 2
  {
    assert |OfLength(l, k, 1)| == 1;
  }

  /** Counts for which the more frequent symbol gets the longer code: symbol 2, counted five times, one of 16
      bits, and symbol 0, counted three times, one of 15. */
  lemma OftenButLonger(freq: seq<nat>, t: Table, d: Derived)
    requires freq == Sample() && ValidCounts(freq)
    requires Holds(t, freq) && Total(t.bits, 16) <= 256 && Derives(t, d)
    ensures freq[2] > freq[0] > 0 && d.size[2] == 16 && d.size[0] == 15
  {
    hide Total, CodeSizes, Sample, SampleLengths, Place, SizeAt, CodeAt, Derives, Build;
    SampleSizes(freq);
    SampleBuilt(freq);
    SamplePlaces(CodeSizes(freq));
    SizeByPlace(t, freq, d, 0);
    SizeByPlace(t, freq, d, 2);
    SizeIs(t.bits, 13, 16, 15);
    SizeIs(t.bits, 15, 16, 16);
  }

  /** There is such a table. */
  lemma SampleHasTable(freq: seq<nat>)
    requires freq == Sample()
    ensures ValidCounts(freq) && Build(freq).Built?
  {
    hide CodeSizes, Sample, SampleLengths, Build;
    SampleSizes(freq);
    assert freq[0] > 0;
    SampleBuilt(freq);
  }
}
