/** Building the best Huffman table for given symbol counts: the table that results, and that an encoder
    accepts it. */
module OptimalTable {
  import opened Powers
  import opened HuffmanTree
  import opened HuffmanDepth
  import opened KraftInequality
  import opened CodeLengths
  import opened CanonicalCode

  const PSEUDO := 256

  /** Counts of the 256 symbols, and room for the pseudo-symbol. */
  predicate ValidCounts(freq: seq<nat>) {
    |freq| == 257 && exists s :: 0 <= s < 256 && freq[s] > 0
  }

  /** The pseudo-symbol counts once. */
  function WithPseudo(freq: seq<nat>): (w: Weights)
    requires |freq| == 257
    ensures |w| == 257
  {
    freq[PSEUDO := 1]
  }

  function CodeSizes(freq: seq<nat>): (l: seq<nat>)
    requires |freq| == 257
    ensures |l| == 257
  {
    Lengths(WithPseudo(freq))
  }

  /** Symbols below n whose code is k bits long. */
  function OfLength(l: seq<nat>, k: nat, n: nat): seq<nat>
    requires n <= |l|
  {
    if n == 0 then [] else OfLength(l, k, n - 1) + if l[n - 1] == k then [n - 1] else []
  }

  /** Real symbols with codes of up to k bits, by length and then by symbol. */
  function Listed(l: seq<nat>, k: nat): seq<nat>
    requires |l| == 257
  {
    if k == 0 then [] else Listed(l, k - 1) + OfLength(l, k, 256)
  }

  /** The outcome: the first 17 entries of the counts and the symbols, or too long a code. */
  datatype Built = TooLong | Built(bits: Counts, values: seq<nat>)

  predicate NoneAbove(l: seq<nat>, top: nat) { forall i :: 0 <= i < |l| ==> l[i] <= top }

  function Build(freq: seq<nat>): Built
    requires ValidCounts(freq)
  {
    var l := CodeSizes(freq);
    if !NoneAbove(l, MAX_CLEN) then TooLong
    else
      CountsComplete(freq);
      Built(Withdrawn(Limited(CountAll(l), MAX_CLEN))[..17], Listed(l, MAX_CLEN))
  }

  /** Every symbol counted, and no other, gets a code; there are two or more. */
  lemma SizesPositive(freq: seq<nat>)
    requires ValidCounts(freq)
    ensures var w, l := WithPseudo(freq), CodeSizes(freq);
      forall i :: 0 <= i < 257 ==> (l[i] > 0 <==> w[i] > 0)
    ensures 0 <= Second(WithPseudo(freq))
  {
    var w := WithPseudo(freq);
    FirstTwo(w);
    var s :| 0 <= s < 256 && freq[s] > 0;
    hide First, Second, Pick, Lengths;
    assert Live(w, s) && Live(w, PSEUDO);
    forall i | 0 <= i < 257
      ensures Lengths(w)[i] > 0 <==> w[i] > 0
    {
      if w[i] > 0 {
        PositiveLengths(w, i);
      } else {
        DeadLengths(w, i);
      }
    }
  }

  /** The counts before the limit form a complete code. */
  lemma CountsComplete(freq: seq<nat>)
    requires ValidCounts(freq) && NoneAbove(CodeSizes(freq), MAX_CLEN)
    ensures Complete(CountAll(CodeSizes(freq)), MAX_CLEN)
    ensures Total(CountAll(CodeSizes(freq)), MAX_CLEN) == Used(CodeSizes(freq))
  {
    hide Lengths, First, Second, CountAll, Scaled, Total, Sum, KraftTerms, Pow2;
    var w, l := WithPseudo(freq), CodeSizes(freq);
    SizesPositive(freq);
    FirstTwo(w);
    CountsOfLengths(w, l, 257);
    assert l[..257] == l && KraftTerms(w, l, MAX_CLEN)[..257] == KraftTerms(w, l, MAX_CLEN);
    ExactKraft(w, MAX_CLEN);
    var s :| 0 <= s < 256 && freq[s] > 0;
    UsedTwo(l, s);
    UsedAtMost(l);
  }

  lemma {:induction false} UsedAtMost(l: seq<nat>)
    ensures Used(l) <= |l|
    decreases |l|
  {
    if l != [] {
      UsedAtMost(l[..|l| - 1]);
    }
  }

  lemma {:induction false} UsedOne(l: seq<nat>, s: nat)
    requires s < |l| && l[s] > 0
    ensures Used(l) >= 1
    decreases |l|
  {
    if s < |l| - 1 {
      UsedOne(l[..|l| - 1], s);
    }
  }

  lemma UsedTwo(l: seq<nat>, s: nat)
    requires |l| == 257 && s < 256 && l[s] > 0 && l[256] > 0
    ensures Used(l) >= 2
  {
    UsedOne(l[..256], s);
  }

  // ----- the list of symbols -----

  lemma {:induction false} OfLengthCount(l: seq<nat>, k: nat, n: nat)
    requires n <= |l|
    ensures |OfLength(l, k, n)| == CountOf(l[..n], k)
    ensures forall p :: 0 <= p < |OfLength(l, k, n)| ==> OfLength(l, k, n)[p] < n && l[OfLength(l, k, n)[p]] == k
    ensures forall p, q :: 0 <= p < q < |OfLength(l, k, n)| ==> OfLength(l, k, n)[p] < OfLength(l, k, n)[q]
    ensures forall s :: 0 <= s < n && l[s] == k ==> s in OfLength(l, k, n)
  {
    if n > 0 {
      OfLengthCount(l, k, n - 1);
      assert l[..n][..n - 1] == l[..n - 1];
    }
  }

  /** The list holds exactly the real symbols with codes, in order of length, then of symbol. */
  lemma {:induction false} ListedOrder(l: seq<nat>, k: nat)
    requires |l| == 257
    ensures var v := Listed(l, k);
      && (forall p :: 0 <= p < |v| ==> v[p] < 256 && 1 <= l[v[p]] <= k)
      && (forall p, q :: 0 <= p < q < |v| ==> l[v[p]] < l[v[q]] || (l[v[p]] == l[v[q]] && v[p] < v[q]))
      && (forall s :: 0 <= s < 256 && 1 <= l[s] <= k ==> s in v)
  {
    if k > 0 {
      ListedOrder(l, k - 1);
      OfLengthCount(l, k, 256);
      ListedOneMore(l, k, Listed(l, k - 1), OfLength(l, k, 256));
    }
  }

  lemma ListedOneMore(l: seq<nat>, k: nat, a: seq<nat>, b: seq<nat>)
    requires |l| == 257
    requires forall p :: 0 <= p < |a| ==> a[p] < 256 && 1 <= l[a[p]] < k
    requires forall p, q :: 0 <= p < q < |a| ==> l[a[p]] < l[a[q]] || (l[a[p]] == l[a[q]] && a[p] < a[q])
    requires forall p :: 0 <= p < |b| ==> b[p] < 256 && l[b[p]] == k
    requires forall p, q :: 0 <= p < q < |b| ==> b[p] < b[q]
    ensures var v := a + b;
      forall p, q :: 0 <= p < q < |v| ==> l[v[p]] < l[v[q]] || (l[v[p]] == l[v[q]] && v[p] < v[q])
  {
  }

  /** Its length is the number of real symbols of those lengths. */
  lemma {:induction false} ListedCount(l: seq<nat>, k: nat)
    requires |l| == 257 && k <= MAX_CLEN
    ensures |Listed(l, k)| == Total(CountAll(l[..256]), k)
  {
    hide OfLength, CountOf;
    if k > 0 {
      ListedCount(l, k - 1);
      OfLengthCount(l, k, 256);
    }
  }

  /** All real symbols: one less than the code words, for the pseudo-symbol's is withdrawn. */
  lemma ListedAll(l: seq<nat>)
    requires |l| == 257 && NoneAbove(l, MAX_CLEN) && l[256] > 0
    ensures |Listed(l, MAX_CLEN)| + 1 == Total(CountAll(l), MAX_CLEN)
  {
    hide OfLength, CountOf, Listed, CountAll, Scaled, Total, Pow2;
    ListedCount(l, MAX_CLEN);
    assert l[256] <= MAX_CLEN;
    CountOneMore(l, 256);
    assert l[..257] == l;
    var bits := CountAll(l[..256]);
    CountUpdate(bits, l[256], bits[l[256]] + 1, MAX_CLEN);
  }

  // ----- the table is accepted -----

  /** A built table in the form it is sent, whatever the unused entries of the symbol list hold. */
  ghost predicate Holds(t: Table, freq: seq<nat>)
    requires ValidCounts(freq)
  {
    Build(freq).Built? && t.bits == Build(freq).bits && Build(freq).values <= t.values
  }

  lemma {:induction false} PrefixTotals(bits: Counts, n: nat)
    requires |bits| >= 17 && n <= 16
    ensures Scaled(bits[..17], n) == Scaled(bits, n) && Total(bits[..17], n) == Total(bits, n)
  {
    SameBelow(bits[..17], bits, n);
  }

  /** What is left after the limit and the withdrawal. */
  lemma WithdrawnShape(full: Counts)
    requires |full| >= 17 && Complete(full, 16)
    ensures var r := Withdrawn(full)[..17];
      Total(r, 16) + 1 == Total(full, 16) && LeavesRoom(r)
  {
    WithdrawnLeavesOne(full);
    hide Withdrawn, Scaled, Total, Longest, Complete, Pow2;
    var r, i := Withdrawn(full), Longest(full, 16);
    PrefixTotals(r, 16);
    SamePrefixLongest(r, i);
    ScaledGrows(r, i, 16);
    PrefixTotals(r, i);
    RoomBelow(Scaled(r, i), i);
  }

  /** The shape of a built table. */
  lemma BuiltShape(t: Table, freq: seq<nat>)
    requires ValidCounts(freq) && Holds(t, freq)
    ensures NoneAbove(CodeSizes(freq), MAX_CLEN) && Build(freq).values == Listed(CodeSizes(freq), MAX_CLEN)
    ensures Total(t.bits, 16) == |Build(freq).values| && LeavesRoom(t.bits)
  {
    hide CodeSizes, CountAll, Limited, Withdrawn, Scaled, Total, Listed, Longest, Complete, Pow2, LeavesRoom;
    CountsComplete(freq);
    var c := CountAll(CodeSizes(freq));
    LimitedTotal(c, MAX_CLEN);
    SizesPositive(freq);
    ListedAll(CodeSizes(freq));
    WithdrawnShape(Limited(c, MAX_CLEN));
  }

  lemma SamePrefixLongest(r: Counts, i: nat)
    requires |r| >= 17 && Total(r, 16) > 0 && Longest(r, 16) == i
    ensures Total(r[..17], 16) > 0 && Longest(r[..17], 16) == i
  {
    PrefixTotals(r, 16);
    LongestIs(r[..17], 16, i);
  }

  lemma RoomBelow(x: nat, i: nat)
    requires i <= 16 && x * Pow2(16 - i) < Pow2(16)
    ensures x < Pow2(i)
  {
    hide Pow2;
    Pow2Sum(i, 16 - i);
    if x >= Pow2(i) {
      AtMost(Pow2(i), x, Pow2(16 - i));
    }
  }

  /** An encoder accepts the table, as long as DC symbols are no greater than 15. */
  lemma BuiltIsAccepted(t: Table, freq: seq<nat>, isDc: bool)
    requires ValidCounts(freq) && Holds(t, freq)
    requires isDc ==> forall s :: 16 <= s < 256 ==> freq[s] == 0
    ensures Accepted(t, isDc)
  {
    BuiltShape(t, freq);
    hide CodeSizes, Listed, LeavesRoom, Total, Build, ValidCounts, NoneAbove;
    var v := Build(freq).values;
    assert |v| <= |t.values| && forall p :: 0 <= p < |v| ==> t.values[p] == v[p];
    forall p | 0 <= p < |v|
      ensures t.values[p] <= TopSymbol(isDc)
    {
      ListedCounted(freq, p);
    }
    forall p, q | 0 <= p < q < |v|
      ensures t.values[p] != t.values[q]
    {
      ListedDistinct(CodeSizes(freq), p, q);
    }
  }

  lemma ListedCounted(freq: seq<nat>, p: nat)
    requires ValidCounts(freq) && p < |Listed(CodeSizes(freq), MAX_CLEN)|
    ensures var s := Listed(CodeSizes(freq), MAX_CLEN)[p];
      s < 256 && freq[s] > 0
  {
    ListedOrder(CodeSizes(freq), MAX_CLEN);
    SizesPositive(freq);
    hide CodeSizes, Listed;
    assert WithPseudo(freq)[Listed(CodeSizes(freq), MAX_CLEN)[p]] > 0;
  }

  lemma ListedDistinct(l: seq<nat>, p: nat, q: nat)
    requires |l| == 257 && p < q < |Listed(l, MAX_CLEN)|
    ensures Listed(l, MAX_CLEN)[p] != Listed(l, MAX_CLEN)[q]
  {
    ListedOrder(l, MAX_CLEN);
    hide Listed;
  }

  /** Every symbol counted gets a code, and no other does. */
  lemma EveryCountHasCode(t: Table, freq: seq<nat>, d: Derived, s: nat)
    requires ValidCounts(freq) && Holds(t, freq) && Total(t.bits, 16) <= 256 && Derives(t, d) && s < 256
    ensures d.size[s] > 0 <==> freq[s] > 0
  {
    BuiltShape(t, freq);
    ListedOrder(CodeSizes(freq), MAX_CLEN);
    SizesPositive(freq);
    hide Lengths, Listed, LeavesRoom, Total, Build, SizeAt, CodeAt;
    var v := Build(freq).values;
    assert WithPseudo(freq)[s] == freq[s];
    if freq[s] > 0 {
      assert s in v;
    }
  }

  // ----- the table keeps Huffman's order -----

  /** The list of symbols puts a before b. */
  predicate Earlier(freq: seq<nat>, a: nat, b: nat)
    requires |freq| == 257 && a < 256 && b < 256
  {
    CodeSizes(freq)[a] < CodeSizes(freq)[b] || (CodeSizes(freq)[a] == CodeSizes(freq)[b] && a <= b)
  }

  /** Where a counted symbol is in the list. */
  lemma PlaceInList(t: Table, freq: seq<nat>, s: nat) returns (p: nat)
    requires ValidCounts(freq) && Holds(t, freq) && s < 256 && freq[s] > 0
    ensures p < |Listed(CodeSizes(freq), MAX_CLEN)| == Total(t.bits, 16)
    ensures Listed(CodeSizes(freq), MAX_CLEN)[p] == t.values[p] == s
  {
    BuiltShape(t, freq);
    ListedOrder(CodeSizes(freq), MAX_CLEN);
    SizesPositive(freq);
    hide CodeSizes, Listed, LeavesRoom, Total, Build;
    assert WithPseudo(freq)[s] == freq[s];
    var v := Build(freq).values;
    assert s in v;
    p :| 0 <= p < |v| && v[p] == s;
    assert t.values[p] == v[p];
  }

  /** However the lengths beyond 16 bits are shortened, of two symbols the one that Huffman's procedure gives
      the shorter code, or the same length and the lower value, gets no longer a code. */
  lemma OrderKept(t: Table, freq: seq<nat>, d: Derived, a: nat, b: nat)
    requires ValidCounts(freq) && Holds(t, freq) && Total(t.bits, 16) <= 256 && Derives(t, d)
    requires a < 256 && b < 256 && freq[a] > 0 && freq[b] > 0 && Earlier(freq, a, b)
    ensures d.size[a] <= d.size[b]
  {
    assert |freq| == 257;
    hide CodeSizes, Listed, Total, SizeAt, CodeAt, Holds, ValidCounts, Derives;
    var p := PlaceInList(t, freq, a);
    var q := PlaceInList(t, freq, b);
    NotLater(CodeSizes(freq), p, q);
    SizeGiven(t, d, p);
    SizeGiven(t, d, q);
    if p < q {
      SizesAscend(t.bits, p, q);
    }
  }

  lemma SizeGiven(t: Table, d: Derived, p: nat)
    requires Total(t.bits, 16) <= 256 && Derives(t, d) && p < Total(t.bits, 16)
    ensures d.size[t.values[p]] == SizeAt(t.bits, p, 16)
  {
    hide Total, SizeAt, CodeAt;
  }

  lemma NotLater(l: seq<nat>, p: nat, q: nat)
    requires |l| == 257 && p < |Listed(l, MAX_CLEN)| && q < |Listed(l, MAX_CLEN)|
    requires var (a, b) := (Listed(l, MAX_CLEN)[p], Listed(l, MAX_CLEN)[q]);
      a < 256 && b < 256 && (l[a] < l[b] || (l[a] == l[b] && a <= b))
    ensures p <= q
  {
    ListedOrder(l, MAX_CLEN);
    hide Listed;
  }

  /** A symbol counted more often gets no longer a code than one counted less often, except that where Huffman's
      procedure gives both the same length, shortening may part them by value. */
  lemma OftenIsShorter(t: Table, freq: seq<nat>, d: Derived, a: nat, b: nat)
    requires ValidCounts(freq) && Holds(t, freq) && Total(t.bits, 16) <= 256 && Derives(t, d)
    requires a < 256 && b < 256 && freq[a] > freq[b] > 0
    ensures d.size[a] <= d.size[b] || (CodeSizes(freq)[a] == CodeSizes(freq)[b] && b < a)
    ensures NoneAbove(CodeSizes(freq), 16) ==> d.size[a] <= d.size[b]
  {
    var w := WithPseudo(freq);
    hide Lengths, Holds, Total, SizeAt, CodeAt, Derives, ValidCounts, NoneAbove;
    assert Live(w, a) && Live(w, b) && w[b] < w[a];
    HeavierIsHigher(w, b, a);
    if Earlier(freq, a, b) {
      OrderKept(t, freq, d, a, b);
    } else if NoneAbove(CodeSizes(freq), 16) {
      SizesAreHuffman(t, freq, d, a);
      SizesAreHuffman(t, freq, d, b);
    }
  }

  // ----- the table is optimal -----

  /** Within 16 bits, the counts sent are those of the real symbols: the code word withdrawn is the
      pseudo-symbol's own. */
  lemma PseudoWithdrawn(freq: seq<nat>)
    requires ValidCounts(freq) && NoneAbove(CodeSizes(freq), 16)
    ensures Build(freq).Built?
    ensures Build(freq).bits == CountAll(CodeSizes(freq)[..256])[..17]
  {
    hide CodeSizes, Limited, Longest, Total, CountOf, Scaled, Complete;
    var l := CodeSizes(freq);
    assert NoneAbove(l, MAX_CLEN);
    CountsComplete(freq);
    SizesPositive(freq);
    NoLonger(l, 257);
    assert l[..257] == l;
    LimitedTotal(CountAll(l), MAX_CLEN);
    assert Limited(CountAll(l), MAX_CLEN) == CountAll(l);
    PseudoLongest(freq);
    CountOneMore(l, 256);
    LastWithdrawn(l);
  }

  lemma LastWithdrawn(l: seq<nat>)
    requires |l| == 257 && 1 <= l[256] <= 16 && Complete(CountAll(l), 16) && Longest(CountAll(l), 16) == l[256]
    ensures Withdrawn(CountAll(l)) == CountAll(l[..256])
  {
    hide Longest, Total, CountOf, Scaled;
    CountOneMore(l, 256);
    assert l[..257] == l;
    var bits := CountAll(l[..256]);
    assert CountAll(l)[l[256]] == bits[l[256]] + 1;
  }

  lemma {:induction false} NoLonger(l: seq<nat>, n: nat)
    requires n <= |l| && NoneAbove(l, 16)
    ensures forall k :: 16 < k ==> CountOf(l[..n], k) == 0
  {
    if n > 0 {
      NoLonger(l, n - 1);
      assert l[..n][..n - 1] == l[..n - 1];
    }
  }

  /** The pseudo-symbol has a code of the greatest length. */
  lemma PseudoLongest(freq: seq<nat>)
    requires ValidCounts(freq) && NoneAbove(CodeSizes(freq), 16)
    ensures var bits := CountAll(CodeSizes(freq));
      Total(bits, 16) > 0 && Longest(bits, 16) == CodeSizes(freq)[256]
  {
    var w, l := WithPseudo(freq), CodeSizes(freq);
    SizesPositive(freq);
    hide Lengths, Longest, Total, CountOf;
    assert Last(w, 256);
    forall i | 0 <= i < 257
      ensures l[i] <= l[256]
    {
      if w[i] > 0 {
        PseudoSymbolIsDeepest(w, 256, i);
      }
    }
    CountNone(l, l[256]);
    CountSome(l, 256);
    LongestIs(CountAll(l), 16, l[256]);
  }

  lemma {:induction false} CountNone(l: seq<nat>, top: nat)
    requires forall i :: 0 <= i < |l| ==> l[i] <= top
    ensures forall k :: top < k ==> CountOf(l, k) == 0
    decreases |l|
  {
    if l != [] {
      CountNone(l[..|l| - 1], top);
    }
  }

  lemma {:induction false} CountSome(l: seq<nat>, i: nat)
    requires i < |l|
    ensures CountOf(l, l[i]) > 0
    decreases |l|
  {
    if i < |l| - 1 {
      CountSome(l[..|l| - 1], i);
    }
  }

  /** Which length the symbol at an index of the list has. */
  lemma {:induction false} ListedAt(l: seq<nat>, k: nat, top: nat, p: nat)
    requires |l| == 257 && 1 <= k <= top && |Listed(l, k - 1)| <= p < |Listed(l, k)|
    ensures p < |Listed(l, top)| && Listed(l, top)[p] < 257 && l[Listed(l, top)[p]] == k
    decreases top
  {
    if k < top {
      ListedAt(l, k, top - 1, p);
    } else {
      OfLengthCount(l, k, 256);
    }
  }

  /** Within 16 bits, every symbol's code is as long as Huffman's procedure makes it. */
  lemma SizesAreHuffman(t: Table, freq: seq<nat>, d: Derived, s: nat)
    requires ValidCounts(freq) && Holds(t, freq) && Total(t.bits, 16) <= 256 && Derives(t, d) && s < 256
    requires NoneAbove(CodeSizes(freq), 16)
    ensures d.size[s] == CodeSizes(freq)[s]
  {
    EveryCountHasCode(t, freq, d, s);
    SizesPositive(freq);
    var l := CodeSizes(freq);
    if freq[s] > 0 {
      BuiltShape(t, freq);
      PseudoWithdrawn(freq);
      hide CodeSizes, LeavesRoom, Total, Limited, Withdrawn, CountAll, SizeAt, CodeAt, Listed, Build;
      assert Build(freq).values == Listed(l, MAX_CLEN);
      var p :| 0 <= p < Total(t.bits, 16) && t.values[p] == s;
      assert t.values[p] == Build(freq).values[p];
      ListedSize(l, p);
    }
  }

  /** The size given to the symbol at an index of the list is its length. */
  lemma ListedSize(l: seq<nat>, p: nat)
    requires |l| == 257 && p < Total(CountAll(l[..256])[..17], 16)
    ensures p < |Listed(l, MAX_CLEN)| && Listed(l, MAX_CLEN)[p] < 257
    ensures SizeAt(CountAll(l[..256])[..17], p, 16) == l[Listed(l, MAX_CLEN)[p]]
  {
    hide Total, CountOf, Listed;
    var bits := CountAll(l[..256]);
    var k := SizeAt(bits[..17], p, 16);
    PrefixTotals(bits, k);
    PrefixTotals(bits, k - 1);
    ListedCount(l, k);
    ListedCount(l, k - 1);
    ListedAt(l, k, MAX_CLEN, p);
  }

  /** Optimality: within 16 bits, no prefix code for the symbols counted and the pseudo-symbol needs fewer
      bits in all than the codes sent. */
  lemma BuiltIsOptimal(t: Table, freq: seq<nat>, d: Derived, other: seq<nat>, code: seq<nat>)
    requires ValidCounts(freq) && Holds(t, freq) && Total(t.bits, 16) <= 256 && Derives(t, d)
    requires NoneAbove(CodeSizes(freq), 16)
    requires PrefixCode(WithPseudo(freq), other, code)
    ensures Cost(WithPseudo(freq), d.size + [CodeSizes(freq)[256]]) <= Cost(WithPseudo(freq), other)
  {
    assert |other| == 257;
    hide Lengths, Total, Holds, Derives, Cost, PrefixCode;
    forall s | 0 <= s < 256
      ensures d.size[s] == CodeSizes(freq)[s]
    {
      SizesAreHuffman(t, freq, d, s);
    }
    assert d.size + [CodeSizes(freq)[256]] == CodeSizes(freq);
    OptimalPrefixCode(WithPseudo(freq), other, code);
  }
}
