/** Numbers of code words of each length: their Kraft sum, the limit to 16 bits, and the withdrawal of
    the pseudo-symbol's code word (section K.2 of ITU-T T.81). */
module CodeLengths {
  import opened Powers
  import opened HuffmanTree

  const MAX_CLEN := 32

  /** Entry k is the number of code words of length k; entry 0 is not used. */
  type Counts = seq<nat>

  /** The Kraft sum of lengths 1 to n, in units of 2^-n. */
  function Scaled(bits: Counts, n: nat): nat
    requires n < |bits|
  {
    if n == 0 then 0 else 2 * Scaled(bits, n - 1) + bits[n]
  }

  /** The number of code words of lengths 1 to n. */
  function Total(bits: Counts, n: nat): nat
    requires n < |bits|
  {
    if n == 0 then 0 else Total(bits, n - 1) + bits[n]
  }

  lemma {:induction false} SameBelow(a: Counts, b: Counts, n: nat)
    requires n < |a| && n < |b| && forall k :: 1 <= k <= n ==> a[k] == b[k]
    ensures Scaled(a, n) == Scaled(b, n) && Total(a, n) == Total(b, n)
    decreases n
  {
    if n > 0 {
      SameBelow(a, b, n - 1);
    }
  }

  lemma {:induction false} CountUpdate(bits: Counts, k: nat, x: nat, n: nat)
    requires 1 <= k <= n < |bits|
    ensures Scaled(bits[k := x], n) + bits[k] * Pow2(n - k) == Scaled(bits, n) + x * Pow2(n - k)
    ensures Total(bits[k := x], n) + bits[k] == Total(bits, n) + x
    decreases n
  {
    if k < n {
      CountUpdate(bits, k, x, n - 1);
      Doubled(bits[k], Pow2(n - 1 - k));
      Doubled(x, Pow2(n - 1 - k));
    } else {
      SameBelow(bits, bits[k := x], n - 1);
      assert Pow2(0) == 1;
    }
  }

  lemma Doubled(x: int, p: int)
    ensures x * (2 * p) == 2 * (x * p)
  {
  }

  lemma {:induction false} NothingScaled(bits: Counts, n: nat)
    requires n < |bits| && forall k :: 1 <= k <= n ==> bits[k] == 0
    ensures Scaled(bits, n) == 0 && Total(bits, n) == 0
  {
    if n > 0 {
      NothingScaled(bits, n - 1);
    }
  }

  lemma {:induction false} TotalAtLeast(bits: Counts, k: nat, n: nat)
    requires 1 <= k <= n < |bits|
    ensures bits[k] <= Total(bits, n)
    ensures forall j :: 1 <= j < k ==> bits[j] + bits[k] <= Total(bits, n)
    decreases n
  {
    if k < n {
      TotalAtLeast(bits, k, n - 1);
    } else {
      forall j | 1 <= j < k
        ensures bits[j] <= Total(bits, n - 1)
      {
        TotalAtLeast(bits, j, n - 1);
      }
    }
  }

  // ----- counting lengths -----

  function CountOf(l: seq<nat>, k: nat): nat {
    if l == [] then 0 else CountOf(l[..|l| - 1], k) + if l[|l| - 1] == k then 1 else 0
  }

  /** How many lengths there are of each size up to MAX_CLEN. */
  function CountAll(l: seq<nat>): (bits: Counts)
    ensures |bits| == MAX_CLEN + 1
  {
    seq(MAX_CLEN + 1, k requires 0 <= k <= MAX_CLEN => if k == 0 then 0 else CountOf(l, k))
  }

  /** One more length. */
  lemma CountOneMore(l: seq<nat>, i: nat)
    requires i < |l| && l[i] <= MAX_CLEN
    ensures CountAll(l[..i + 1])
      == if l[i] == 0 then CountAll(l[..i]) else CountAll(l[..i])[l[i] := CountAll(l[..i])[l[i]] + 1]
  {
    assert l[..i + 1][..i] == l[..i];
  }

  function Used(l: seq<nat>): nat {
    if l == [] then 0 else Used(l[..|l| - 1]) + if l[|l| - 1] > 0 then 1 else 0
  }

  /** Counting keeps the Kraft sum and the number of code words. */
  lemma {:induction false} CountsOfLengths(w: Weights, l: seq<nat>, n: nat)
    requires |w| == |l| && n <= |l|
    requires forall i :: 0 <= i < |l| ==> l[i] <= MAX_CLEN && (l[i] > 0 <==> w[i] > 0)
    ensures Scaled(CountAll(l[..n]), MAX_CLEN) == Sum(KraftTerms(w, l, MAX_CLEN)[..n])
    ensures Total(CountAll(l[..n]), MAX_CLEN) == Used(l[..n])
    decreases n
  {
    hide CountAll, Scaled, Total, Pow2;
    if n == 0 {
      NoLengths(l[..0]);
    } else {
      CountsOfLengths(w, l, n - 1);
      assert l[..n][..n - 1] == l[..n - 1];
      var terms := KraftTerms(w, l, MAX_CLEN);
      assert terms[..n][..n - 1] == terms[..n - 1];
      CountOneMore(l, n - 1);
      if l[n - 1] > 0 {
        var bits := CountAll(l[..n - 1]);
        CountUpdate(bits, l[n - 1], bits[l[n - 1]] + 1, MAX_CLEN);
        var p := Pow2(MAX_CLEN - l[n - 1]);
        Shifted(bits[l[n - 1]], 1, p);
      }
    }
  }

  lemma NoLengths(l: seq<nat>)
    requires l == []
    ensures Scaled(CountAll(l), MAX_CLEN) == 0 && Total(CountAll(l), MAX_CLEN) == 0 && Used(l) == 0
  {
    NothingScaled(CountAll(l), MAX_CLEN);
  }

  // ----- the limit -----

  /** A complete code of up to 257 words, none longer than n. */
  ghost predicate Complete(bits: Counts, n: nat) {
    && n < |bits| && 1 <= n && Scaled(bits, n) == Pow2(n) && 2 <= Total(bits, n) <= 257
    && forall k :: n < k < |bits| ==> bits[k] == 0
  }

  /** The longest code words come in pairs, and there is a shorter length to take a word from. */
  lemma PairAndDonor(bits: Counts, i: nat)
    requires Complete(bits, i) && i > 16 && bits[i] > 0
    ensures bits[i] >= 2
    ensures exists j :: 1 <= j <= i - 2 && bits[j] > 0
  {
    assert Pow2(i) == 2 * Pow2(i - 1);
    if forall j :: 1 <= j <= i - 2 ==> bits[j] == 0 {
      NothingScaled(bits, i - 2);
      assert Scaled(bits, i) == 2 * bits[i - 1] + bits[i];
      TotalAtLeast(bits, i, i);
      assert bits[i - 1] + bits[i] <= 257;
      Pow2Monotone(16, i);
      Pow2Values();
      assert false;
    }
  }

  /** The greatest length up to j that is in use. */
  function Donor(bits: Counts, j: nat): (r: nat)
    requires j < |bits| && exists k :: 1 <= k <= j && bits[k] > 0
    ensures 1 <= r <= j && bits[r] > 0 && forall k :: r < k <= j ==> bits[k] == 0
  {
    if bits[j] > 0 && j >= 1 then j else Donor(bits, j - 1)
  }

  /** Two words of length i are replaced by one of length i - 1; the other takes the place of a word of
      length j, which becomes a prefix of two. */
  function Moved(bits: Counts, i: nat, j: nat): (r: Counts)
    requires 1 <= j && j + 2 <= i < |bits| && bits[i] >= 2 && bits[j] > 0
    ensures |r| == |bits| && r[0] == bits[0]
    ensures r[i] == bits[i] - 2
  {
    var b1 := bits[i := bits[i] - 2];
    var b2 := b1[i - 1 := b1[i - 1] + 1];
    var b3 := b2[j + 1 := b2[j + 1] + 2];
    b3[j := b3[j] - 1]
  }

  lemma MovedComplete(bits: Counts, i: nat, j: nat)
    requires Complete(bits, i) && i > 16 && 1 <= j && j + 2 <= i && bits[i] >= 2 && bits[j] > 0
    ensures Complete(Moved(bits, i, j), i)
  {
    hide Scaled, Total;
    var b1 := bits[i := bits[i] - 2];
    var b2 := b1[i - 1 := b1[i - 1] + 1];
    var b3 := b2[j + 1 := b2[j + 1] + 2];
    CountUpdate(bits, i, bits[i] - 2, i);
    CountUpdate(b1, i - 1, b1[i - 1] + 1, i);
    CountUpdate(b2, j + 1, b2[j + 1] + 2, i);
    CountUpdate(b3, j, b3[j] - 1, i);
    assert Pow2(0) == 1 && Pow2(1) == 2 && Pow2(i - j) == 2 * Pow2(i - j - 1);
    Shifted(b2[j + 1], 2, Pow2(i - j - 1));
    Shifted(b3[j] - 1, 1, Pow2(i - j));
  }

  lemma Shifted(x: int, d: int, p: int)
    ensures (x + d) * p == x * p + d * p
  {
  }

  /** No words of length i are left. */
  function Cleared(bits: Counts, i: nat): (r: Counts)
    requires Complete(bits, i) && i > 16
    ensures |r| == |bits| && r[0] == bits[0] && Complete(r, i) && r[i] == 0
    decreases bits[i]
  {
    if bits[i] == 0 then bits
    else
      PairAndDonor(bits, i);
      MovedComplete(bits, i, Donor(bits, i - 2));
      Cleared(Moved(bits, i, Donor(bits, i - 2)), i)
  }

  lemma LowerTop(bits: Counts, i: nat)
    requires Complete(bits, i) && bits[i] == 0 && i > 1
    ensures Complete(bits, i - 1) && Total(bits, i - 1) == Total(bits, i)
  {
    assert Pow2(i) == 2 * Pow2(i - 1);
  }

  /** No words longer than 16 are left. */
  function Limited(bits: Counts, i: nat): (r: Counts)
    requires Complete(bits, i) && i >= 16
    ensures |r| == |bits| && r[0] == bits[0] && Complete(r, 16)
    decreases i
  {
    if i == 16 then bits
    else
      LowerTop(Cleared(bits, i), i);
      Limited(Cleared(bits, i), i - 1)
  }

  lemma {:induction false} MovedTotal(bits: Counts, i: nat, j: nat)
    requires 1 <= j && j + 2 <= i < |bits| && bits[i] >= 2 && bits[j] > 0
    ensures Total(Moved(bits, i, j), i) == Total(bits, i)
  {
    hide Scaled, Total;
    var b1 := bits[i := bits[i] - 2];
    var b2 := b1[i - 1 := b1[i - 1] + 1];
    var b3 := b2[j + 1 := b2[j + 1] + 2];
    CountUpdate(bits, i, bits[i] - 2, i);
    CountUpdate(b1, i - 1, b1[i - 1] + 1, i);
    CountUpdate(b2, j + 1, b2[j + 1] + 2, i);
    CountUpdate(b3, j, b3[j] - 1, i);
  }

  lemma {:induction false} ClearedTotal(bits: Counts, i: nat)
    requires Complete(bits, i) && i > 16
    ensures Total(Cleared(bits, i), i) == Total(bits, i)
    decreases bits[i]
  {
    hide Scaled, Total, Moved;
    if bits[i] != 0 {
      PairAndDonor(bits, i);
      var j := Donor(bits, i - 2);
      MovedComplete(bits, i, j);
      MovedTotal(bits, i, j);
      ClearedTotal(Moved(bits, i, j), i);
    }
  }

  /** The limit keeps the number of code words, and changes nothing if no word was too long. */
  lemma {:induction false} LimitedTotal(bits: Counts, i: nat)
    requires Complete(bits, i) && i >= 16
    ensures Total(Limited(bits, i), 16) == Total(bits, i)
    ensures (forall k :: 16 < k <= i ==> bits[k] == 0) ==> Limited(bits, i) == bits
    decreases i
  {
    if i > 16 {
      ClearedTotal(bits, i);
      LowerTop(Cleared(bits, i), i);
      LimitedTotal(Cleared(bits, i), i - 1);
      assert bits[i] == 0 ==> Cleared(bits, i) == bits;
    }
  }

  // ----- the pseudo-symbol -----

  /** The greatest length in use. */
  function Longest(bits: Counts, n: nat): (r: nat)
    requires n < |bits| && Total(bits, n) > 0
    ensures 1 <= r <= n && bits[r] > 0 && forall k :: r < k <= n ==> bits[k] == 0
  {
    if bits[n] > 0 then n else Longest(bits, n - 1)
  }

  /** One word of greatest length is withdrawn. */
  function Withdrawn(bits: Counts): (r: Counts)
    requires Complete(bits, 16)
    ensures |r| == |bits| && r[0] == bits[0]
  {
    var i := Longest(bits, 16);
    bits[i := bits[i] - 1]
  }

  /** Which leaves the Kraft sum short of one by exactly one word of the greatest length still in use. */
  lemma WithdrawnLeavesOne(bits: Counts)
    requires Complete(bits, 16)
    ensures var r, i := Withdrawn(bits), Longest(bits, 16);
      && Total(r, 16) == Total(bits, 16) - 1 && r[i] > 0 && Longest(r, 16) == i
      && Scaled(r, 16) + Pow2(16 - i) == Pow2(16)
      && forall k :: 16 < k < |r| ==> r[k] == 0
  {
    hide Scaled, Total, Longest, Pow2;
    var i := Longest(bits, 16);
    var r := Withdrawn(bits);
    LongestPaired(bits);
    CountUpdate(bits, i, bits[i] - 1, 16);
    Shifted(bits[i] - 1, 1, Pow2(16 - i));
    LongestIs(r, 16, i);
  }

  lemma LongestPaired(bits: Counts)
    requires Complete(bits, 16)
    ensures bits[Longest(bits, 16)] >= 2
  {
    hide Scaled, Total, Longest, Pow2;
    var i := Longest(bits, 16);
    CompleteBelow(bits, 16, i);
    EvenCount(bits, i);
  }

  /** With a complete set of code words up to length i, those of length i come in pairs. */
  lemma EvenCount(bits: Counts, i: nat)
    requires 1 <= i < |bits| && Scaled(bits, i) == Pow2(i)
    ensures bits[i] % 2 == 0
  {
    assert Pow2(i) == 2 * Pow2(i - 1);
    assert Scaled(bits, i) == 2 * Scaled(bits, i - 1) + bits[i];
  }

  lemma {:induction false} LongestIs(r: Counts, n: nat, i: nat)
    requires 1 <= i <= n < |r| && r[i] > 0 && forall k :: i < k <= n ==> r[k] == 0
    ensures Total(r, n) > 0 && Longest(r, n) == i
  {
    if n > i {
      LongestIs(r, n - 1, i);
    }
  }

  lemma {:induction false} CompleteBelow(bits: Counts, n: nat, i: nat)
    requires 1 <= i <= n < |bits| && Scaled(bits, n) == Pow2(n) && forall k :: i < k <= n ==> bits[k] == 0
    ensures Scaled(bits, i) == Pow2(i)
    decreases n
  {
    if i < n {
      assert Pow2(n) == 2 * Pow2(n - 1);
      CompleteBelow(bits, n - 1, i);
    }
  }
}
