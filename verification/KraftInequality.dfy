/** The Kraft inequality: the lengths of a prefix code always satisfy it, so minimising over lengths that
    satisfy it covers every prefix code. */
module KraftInequality {
  import opened Powers
  import opened HuffmanTree

  /** Live entries have code words of the given lengths, none a prefix of another. */
  ghost predicate PrefixCode(w: Weights, l: seq<nat>, code: seq<nat>) {
    && |l| == |code| == |w|
    && (forall i :: 0 <= i < |w| && Live(w, i) ==> code[i] < Pow2(l[i]))
    && forall i, j :: 0 <= i < |w| && 0 <= j < |w| && i != j && Live(w, i) && Live(w, j) && l[i] <= l[j] ==>
         code[j] / Pow2(l[j] - l[i]) != code[i]
  }

  /** The numbers from a to a + n - 1. */
  function Span(a: nat, n: nat): (s: set<nat>)
    ensures forall x :: x in s <==> a <= x < a + n
    ensures |s| == n
  {
    if n == 0 then {} else Span(a, n - 1) + {a + n - 1}
  }

  /** The continuations to `top` bits of entry i's code word. */
  function Continuations(w: Weights, l: seq<nat>, code: seq<nat>, top: nat, i: nat): set<nat>
    requires Within(w, l, top) && |code| == |w| && i < |w|
  {
    if Live(w, i) then Span(code[i] * Pow2(top - l[i]), Pow2(top - l[i])) else {}
  }

  function AllContinuations(w: Weights, l: seq<nat>, code: seq<nat>, top: nat, n: nat): set<nat>
    requires Within(w, l, top) && |code| == |w| && n <= |w|
  {
    if n == 0 then {}
    else AllContinuations(w, l, code, top, n - 1) + Continuations(w, l, code, top, n - 1)
  }

  lemma QuotientTwice(x: nat, a: nat, b: nat)
    requires a > 0 && b > 0
    ensures a * b > 0 && x / a / b == x / (a * b)
  {
    var q := x / a;
    var r := q / b;
    assert x == a * q + x % a && q == b * r + q % b;
    WithinProduct(x, a, b, q, r, q % b, x % a);
    Remainder(x, a * b, r, x - r * (a * b));
  }

  lemma WithinProduct(x: nat, a: nat, b: nat, q: nat, r: nat, u: nat, v: nat)
    requires x == a * q + v && q == b * r + u && u < b && v < a
    ensures a * b > 0 && r * (a * b) <= x < r * (a * b) + a * b
  {
    Bounded(a, u, v, b);
    Associate(a, b, r);
    assert a * q == a * (b * r) + a * u;
    assert a * (b * r) == r * (a * b);
  }

  lemma Bounded(a: nat, u: nat, v: nat, b: nat)
    requires u < b && v < a
    ensures 0 <= a * u + v < a * b
  {
    assert a * (u + 1) <= a * b;
  }

  /** Continuations of different code words are different. */
  lemma Disjoint(w: Weights, l: seq<nat>, code: seq<nat>, top: nat, i: nat, j: nat, x: nat)
    requires Within(w, l, top) && PrefixCode(w, l, code) && i < |w| && j < |w| && i != j
    requires x in Continuations(w, l, code, top, i)
    ensures x !in Continuations(w, l, code, top, j)
  {
    hide Span, Pow2;
    if x in Continuations(w, l, code, top, j) {
      if l[i] <= l[j] {
        Overlap(code[i], l[i], code[j], l[j], top, x);
      } else {
        Overlap(code[j], l[j], code[i], l[i], top, x);
      }
      assert false;
    }
  }

  /** Two code words with a common continuation: the shorter is a prefix of the longer. */
  lemma Overlap(c: nat, m: nat, d: nat, n: nat, top: nat, x: nat)
    requires m <= n <= top
    requires c * Pow2(top - m) <= x < c * Pow2(top - m) + Pow2(top - m)
    requires d * Pow2(top - n) <= x < d * Pow2(top - n) + Pow2(top - n)
    ensures d / Pow2(n - m) == c
  {
    hide Pow2;
    Pow2Sum(top - n, n - m);
    Remainder(x, Pow2(top - m), c, x - c * Pow2(top - m));
    Remainder(x, Pow2(top - n), d, x - d * Pow2(top - n));
    QuotientTwice(x, Pow2(top - n), Pow2(n - m));
  }

  /** A continuation of one of the first n entries is one of some entry's. */
  lemma {:induction false} SomeEntry(w: Weights, l: seq<nat>, code: seq<nat>, top: nat, n: nat, x: nat) returns (i: nat)
    requires Within(w, l, top) && |code| == |w| && n <= |w| && x in AllContinuations(w, l, code, top, n)
    ensures i < n && x in Continuations(w, l, code, top, i)
    decreases n
  {
    hide Continuations, Within;
    if x in Continuations(w, l, code, top, n - 1) {
      i := n - 1;
    } else {
      i := SomeEntry(w, l, code, top, n - 1, x);
    }
  }

  lemma NotAmong(w: Weights, l: seq<nat>, code: seq<nat>, top: nat, n: nat, j: nat)
    requires Within(w, l, top) && PrefixCode(w, l, code) && n <= j < |w|
    ensures AllContinuations(w, l, code, top, n) !! Continuations(w, l, code, top, j)
  {
    assert |code| == |w|;
    hide *;
    forall x | x in AllContinuations(w, l, code, top, n)
      ensures x !in Continuations(w, l, code, top, j)
    {
      var i := SomeEntry(w, l, code, top, n, x);
      Disjoint(w, l, code, top, i, j, x);
    }
  }

  /** As many continuations as the Kraft sum says. */
  lemma {:induction false} CountContinuations(w: Weights, l: seq<nat>, code: seq<nat>, top: nat, n: nat)
    requires Within(w, l, top) && PrefixCode(w, l, code) && n <= |w|
    ensures |AllContinuations(w, l, code, top, n)| == Sum(KraftTerms(w, l, top)[..n])
    decreases n
  {
    assert |code| == |w|;
    hide PrefixCode, Pow2, Continuations, Span, Within, KraftTerms;
    if n > 0 {
      CountContinuations(w, l, code, top, n - 1);
      NotAmong(w, l, code, top, n - 1, n - 1);
      OneSpan(w, l, code, top, n - 1);
      hide Sum;
      OneSpanMore(AllContinuations(w, l, code, top, n - 1), Continuations(w, l, code, top, n - 1),
        KraftTerms(w, l, top), n);
    }
  }

  /** All of them have at most `top` bits. */
  lemma ContinuationsBelow(w: Weights, l: seq<nat>, code: seq<nat>, top: nat, n: nat)
    requires Within(w, l, top) && PrefixCode(w, l, code) && n <= |w|
    ensures forall x :: x in AllContinuations(w, l, code, top, n) ==> x < Pow2(top)
  {
    assert |code| == |w|;
    hide *;
    forall x | x in AllContinuations(w, l, code, top, n)
      ensures x < Pow2(top)
    {
      var i := SomeEntry(w, l, code, top, n, x);
      OneSpan(w, l, code, top, i);
    }
  }

  /** One more disjoint set. */
  lemma OneSpanMore(a: set<nat>, b: set<nat>, terms: seq<nat>, n: nat)
    requires 0 < n <= |terms| && a !! b && |a| == Sum(terms[..n - 1]) && |b| == terms[n - 1]
    ensures |a + b| == Sum(terms[..n])
  {
    assert terms[..n][..n - 1] == terms[..n - 1];
  }

  lemma OneSpan(w: Weights, l: seq<nat>, code: seq<nat>, top: nat, i: nat)
    requires Within(w, l, top) && PrefixCode(w, l, code) && i < |w|
    ensures |Continuations(w, l, code, top, i)| == KraftTerms(w, l, top)[i]
    ensures forall x :: x in Continuations(w, l, code, top, i) ==> x < Pow2(top)
  {
    hide PrefixCode, Pow2;
    if Live(w, i) {
      WordFits(w, l, code, top, i);
    }
  }

  lemma WordFits(w: Weights, l: seq<nat>, code: seq<nat>, top: nat, i: nat)
    requires Within(w, l, top) && PrefixCode(w, l, code) && Live(w, i)
    ensures code[i] * Pow2(top - l[i]) + Pow2(top - l[i]) <= Pow2(top)
  {
    assert code[i] < Pow2(l[i]);
    hide Pow2, PrefixCode, Kraft, Within;
    Pow2Sum(l[i], top - l[i]);
    AtMost(code[i] + 1, Pow2(l[i]), Pow2(top - l[i]));
  }

  /** The Kraft inequality. */
  lemma PrefixCodeIsFeasible(w: Weights, l: seq<nat>, code: seq<nat>, top: nat)
    requires Within(w, l, top) && PrefixCode(w, l, code)
    ensures Feasible(w, l, top)
  {
    assert |code| == |w|;
    hide PrefixCode, Pow2, Continuations;
    CountContinuations(w, l, code, top, |w|);
    ContinuationsBelow(w, l, code, top, |w|);
    var all := AllContinuations(w, l, code, top, |w|);
    assert KraftTerms(w, l, top)[..|w|] == KraftTerms(w, l, top);
    forall x | x in all
      ensures x in Span(0, Pow2(top))
    {
    }
    SubsetSize(all, Span(0, Pow2(top)));
  }

  lemma {:induction false} SubsetSize(a: set<nat>, b: set<nat>)
    requires a <= b
    ensures |a| <= |b|
  {
    assert b == a + (b - a);
  }

  /** Huffman's procedure against any prefix code. */
  lemma OptimalPrefixCode(w: Weights, l: seq<nat>, code: seq<nat>)
    requires PrefixCode(w, l, code)
    ensures Cost(w, Lengths(w)) <= Cost(w, l)
  {
    assert |l| == |w|;
    hide PrefixCode, Cost, Lengths, Kraft;
    var top := Sum(l);
    forall i | 0 <= i < |l|
      ensures l[i] <= top
    {
      SumAtLeast(l, i);
    }
    PrefixCodeIsFeasible(w, l, code, top);
    Optimal(w, l, top);
  }
}
