/** Huffman's procedure on weights: which two entries are merged, the code lengths that result, and
    their optimality among all lengths a prefix code can have (section K.2 of ITU-T T.81). */
module HuffmanTree {
  import opened Powers

  // ----- sums -----

  function Sum(s: seq<nat>): nat {
    if s == [] then 0 else Sum(s[..|s| - 1]) + s[|s| - 1]
  }

  lemma {:induction false} SumUpdate(s: seq<nat>, i: nat, x: nat)
    requires i < |s|
    ensures Sum(s[i := x]) + s[i] == Sum(s) + x
  {
    var n := |s| - 1;
    if i < n {
      SumUpdate(s[..n], i, x);
      assert s[i := x][..n] == s[..n][i := x];
    } else {
      assert s[i := x][..n] == s[..n];
    }
  }

  lemma SumUpdateTwo(s: seq<nat>, i: nat, x: nat, j: nat, y: nat)
    requires i < |s| && j < |s| && i != j
    ensures Sum(s[i := x][j := y]) + s[i] + s[j] == Sum(s) + x + y
  {
    SumUpdate(s, i, x);
    SumUpdate(s[i := x], j, y);
  }

  lemma {:induction false} SumAtLeast(s: seq<nat>, i: nat)
    requires i < |s|
    ensures s[i] <= Sum(s)
  {
    SumUpdate(s, i, 0);
  }

  lemma SumAtLeastTwo(s: seq<nat>, i: nat, j: nat)
    requires i < |s| && j < |s| && i != j
    ensures s[i] + s[j] <= Sum(s)
  {
    SumUpdateTwo(s, i, 0, j, 0);
  }

  lemma {:induction false} SumZero(s: seq<nat>)
    requires forall i :: 0 <= i < |s| ==> s[i] == 0
    ensures Sum(s) == 0
    decreases |s|
  {
    if s != [] {
      SumZero(s[..|s| - 1]);
    }
  }

  lemma {:induction false} SumEven(s: seq<nat>)
    requires forall i :: 0 <= i < |s| ==> s[i] % 2 == 0
    ensures Sum(s) % 2 == 0
    decreases |s|
  {
    if s != [] {
      SumEven(s[..|s| - 1]);
    }
  }

  lemma {:induction false} SumDouble(s: seq<nat>, t: seq<nat>)
    requires |s| == |t| && forall i :: 0 <= i < |s| ==> t[i] == 2 * s[i]
    ensures Sum(t) == 2 * Sum(s)
    decreases |s|
  {
    if s != [] {
      SumDouble(s[..|s| - 1], t[..|s| - 1]);
    }
  }

  // ----- the two entries merged -----

  /** Weight 0 marks an entry that takes no part. */
  type Weights = seq<nat>

  predicate Live(w: Weights, i: int) { 0 <= i < |w| && 0 < w[i] }

  /** a is merged in preference to b: it is lighter or, weights being equal, has the larger index. */
  predicate Before(w: Weights, a: int, b: int)
    requires 0 <= a < |w| && 0 <= b < |w|
  {
    w[a] < w[b] || (w[a] == w[b] && a >= b)
  }

  /** The live entry among the first n, other than `skip`, that comes before all others; -1 if none. */
  function Pick(w: Weights, skip: int, n: nat): (c: int)
    requires n <= |w|
    ensures c == -1 || (0 <= c < n && Live(w, c) && c != skip)
  {
    if n == 0 then -1
    else
      var c := Pick(w, skip, n - 1);
      if Live(w, n - 1) && n - 1 != skip && (c < 0 || w[n - 1] <= w[c]) then n - 1 else c
  }

  lemma {:induction false} PickIsFirst(w: Weights, skip: int, n: nat, i: nat)
    requires i < n <= |w| && Live(w, i) && i != skip
    ensures var c := Pick(w, skip, n);
      0 <= c && Before(w, c, i)
  {
    if i < n - 1 {
      PickIsFirst(w, skip, n - 1, i);
    }
  }

  function First(w: Weights): int { Pick(w, -1, |w|) }

  function Second(w: Weights): int { Pick(w, First(w), |w|) }

  lemma FirstTwo(w: Weights)
    ensures forall i :: Live(w, i) ==> 0 <= First(w) && Before(w, First(w), i)
    ensures forall i :: Live(w, i) && i != First(w) ==> 0 <= Second(w) && Before(w, Second(w), i)
    ensures 0 <= Second(w) ==> 0 <= First(w) && First(w) != Second(w) && Live(w, First(w)) && Live(w, Second(w))
  {
    forall i | Live(w, i)
      ensures 0 <= First(w) && Before(w, First(w), i)
    {
      PickIsFirst(w, -1, |w|, i);
    }
    forall i | Live(w, i) && i != First(w)
      ensures 0 <= Second(w) && Before(w, Second(w), i)
    {
      PickIsFirst(w, First(w), |w|, i);
    }
    assert First(w) == -1 || Live(w, First(w));
    assert Second(w) == -1 || Live(w, Second(w));
  }

  function LiveSet(w: Weights): set<int> { set i | 0 <= i < |w| && 0 < w[i] }

  /** The lighter entry takes over the weight of the other. */
  function Merged(w: Weights): (r: Weights)
    requires 0 <= Second(w)
    ensures |r| == |w|
    ensures LiveSet(r) == LiveSet(w) - {Second(w)} && |LiveSet(r)| < |LiveSet(w)|
  {
    FirstTwo(w);
    var c1, c2 := First(w), Second(w);
    var r := w[c1 := w[c1] + w[c2]][c2 := 0];
    assert LiveSet(r) == LiveSet(w) - {c2};
    assert c2 in LiveSet(w);
    r
  }

  /** Code lengths: those of the merged entries, with the two merged made one longer. */
  function Lengths(w: Weights): (l: seq<nat>)
    ensures |l| == |w|
    decreases |LiveSet(w)|
  {
    if Second(w) < 0 then seq(|w|, _ => 0)
    else
      FirstTwo(w);
      var l := Lengths(Merged(w));
      l[First(w) := l[First(w)] + 1][Second(w) := l[First(w)] + 1]
  }

  // ----- cost and Kraft sum -----

  function CostTerms(w: Weights, l: seq<nat>): (r: seq<nat>)
    requires |l| == |w|
    ensures |r| == |w|
  {
    seq(|w|, i requires 0 <= i < |w| => w[i] * l[i])
  }

  /** The total length of everything coded. */
  function Cost(w: Weights, l: seq<nat>): nat
    requires |l| == |w|
  {
    Sum(CostTerms(w, l))
  }

  predicate Within(w: Weights, l: seq<nat>, top: nat) {
    |l| == |w| && forall i :: 0 <= i < |w| && Live(w, i) ==> l[i] <= top
  }

  function KraftTerms(w: Weights, l: seq<nat>, top: nat): (r: seq<nat>)
    requires Within(w, l, top)
    ensures |r| == |w|
  {
    seq(|w|, i requires 0 <= i < |w| => if w[i] > 0 then Pow2(top - l[i]) else 0)
  }

  /** The Kraft sum of the lengths of live entries, in units of 2^-top. */
  function Kraft(w: Weights, l: seq<nat>, top: nat): nat
    requires Within(w, l, top)
  {
    Sum(KraftTerms(w, l, top))
  }

  /** Lengths no longer than `top` that a prefix code can have. */
  predicate Feasible(w: Weights, l: seq<nat>, top: nat) {
    Within(w, l, top) && Kraft(w, l, top) <= Pow2(top)
  }

  // ----- what merging does to both -----

  /** The lengths of the merged entries, if both have the same length. */
  function Joined(w: Weights, l: seq<nat>): (r: seq<nat>)
    requires 0 <= Second(w) && |l| == |w| && 0 < l[First(w)]
    ensures |r| == |w|
  {
    l[First(w) := l[First(w)] - 1]
  }

  lemma JoinedCost(w: Weights, l: seq<nat>)
    requires 0 <= Second(w) && |l| == |w| && 0 < l[First(w)] == l[Second(w)]
    ensures Cost(w, l) == Cost(Merged(w), Joined(w, l)) + w[First(w)] + w[Second(w)]
  {
    FirstTwo(w);
    hide First, Second, Pick, Sum, LiveSet;
    var c1, c2 := First(w), Second(w);
    var terms := CostTerms(w, l);
    var x := (w[c1] + w[c2]) * (l[c1] - 1);
    assert CostTerms(Merged(w), Joined(w, l)) == terms[c1 := x][c2 := 0];
    SumUpdateTwo(terms, c1, x, c2, 0);
    assert x == w[c1] * l[c1] + w[c2] * l[c1] - w[c1] - w[c2];
  }

  lemma JoinedKraft(w: Weights, l: seq<nat>, top: nat)
    requires 0 <= Second(w) && Within(w, l, top) && 0 < l[First(w)] == l[Second(w)]
    ensures Within(Merged(w), Joined(w, l), top)
    ensures Kraft(w, l, top) == Kraft(Merged(w), Joined(w, l), top)
  {
    FirstTwo(w);
    hide First, Second, Pick, Sum, LiveSet, Pow2;
    var c1, c2 := First(w), Second(w);
    var terms := KraftTerms(w, l, top);
    var x := Pow2(top - l[c1] + 1);
    Pow2Successor(top - l[c1]);
    assert KraftTerms(Merged(w), Joined(w, l), top) == terms[c1 := x][c2 := 0];
    SumUpdateTwo(terms, c1, x, c2, 0);
  }

  // ----- the procedure's lengths -----

  /** Splitting the merged entry again. */
  lemma LengthsStep(w: Weights)
    requires 0 <= Second(w)
    ensures var l := Lengths(w);
      0 < l[First(w)] == l[Second(w)] && Joined(w, l)[First(w)] == Lengths(Merged(w))[First(w)]
      && forall i :: 0 <= i < |w| && i != Second(w) ==> Joined(w, l)[i] == Lengths(Merged(w))[i]
  {
    FirstTwo(w);
    hide First, Second, Merged, Pick;
  }

  /** Entries of no weight do not matter. */
  lemma SameCost(w: Weights, l: seq<nat>, m: seq<nat>)
    requires |l| == |m| == |w| && forall i :: Live(w, i) ==> l[i] == m[i]
    ensures Cost(w, l) == Cost(w, m)
  {
    hide Sum;
    assert CostTerms(w, l) == CostTerms(w, m);
  }

  lemma SameKraft(w: Weights, l: seq<nat>, m: seq<nat>, top: nat)
    requires Within(w, l, top) && |m| == |w| && forall i :: Live(w, i) ==> l[i] == m[i]
    ensures Within(w, m, top) && Kraft(w, l, top) == Kraft(w, m, top)
  {
    hide Sum;
    assert KraftTerms(w, l, top) == KraftTerms(w, m, top);
  }

  /** The lengths use up the Kraft sum exactly. */
  lemma {:induction false} ExactKraft(w: Weights, top: nat)
    requires 0 <= First(w) && Within(w, Lengths(w), top)
    ensures Kraft(w, Lengths(w), top) == Pow2(top)
    decreases |LiveSet(w)|
  {
    if Second(w) < 0 {
      SingleKraft(w, top);
    } else {
      MergedStillLive(w);
      hide Merged, First, Second, Lengths, Kraft, Joined;
      var l := Lengths(w);
      LengthsStep(w);
      JoinedKraft(w, l, top);
      MergedLive(w);
      SameKraft(Merged(w), Joined(w, l), Lengths(Merged(w)), top);
      ExactKraft(Merged(w), top);
    }
  }

  lemma MergedLive(w: Weights)
    requires 0 <= Second(w)
    ensures forall i :: Live(Merged(w), i) <==> Live(w, i) && i != Second(w)
  {
    FirstTwo(w);
  }

  lemma MergedStillLive(w: Weights)
    requires 0 <= Second(w)
    ensures 0 <= First(w) && 0 <= First(Merged(w))
  {
    FirstTwo(w);
    FirstTwo(Merged(w));
    hide First, Second, Pick;
    assert Live(Merged(w), First(w));
  }

  lemma SingleKraft(w: Weights, top: nat)
    requires 0 <= First(w) && Second(w) < 0
    ensures Within(w, Lengths(w), top) && Kraft(w, Lengths(w), top) == Pow2(top)
  {
    FirstTwo(w);
    hide Pick, Sum, Pow2;
    var terms := KraftTerms(w, Lengths(w), top);
    assert Live(w, First(w));
    SumUpdate(terms, First(w), 0);
    var rest := terms[First(w) := 0];
    forall i | 0 <= i < |rest|
      ensures rest[i] == 0
    {
      assert i != First(w) ==> !Live(w, i);
    }
    SumZero(rest);
  }

  /** Every entry gets a length of at least one, unless it is the only one. */
  lemma {:induction false} PositiveLengths(w: Weights, i: nat)
    requires Live(w, i) && 0 <= Second(w)
    ensures 0 < Lengths(w)[i]
    decreases |LiveSet(w)|
  {
    LengthsStep(w);
    if i != First(w) && i != Second(w) {
      MergedLive(w);
      FirstTwo(w);
      FirstTwo(Merged(w));
      hide First, Second, Pick;
      assert Live(Merged(w), First(w)) && Live(Merged(w), i);
      PositiveLengths(Merged(w), i);
    }
  }

  /** Entries of no weight get length zero. */
  lemma {:induction false} DeadLengths(w: Weights, i: nat)
    requires i < |w| && !Live(w, i)
    ensures Lengths(w)[i] == 0
    decreases |LiveSet(w)|
  {
    if 0 <= Second(w) {
      FirstTwo(w);
      DeadLengths(Merged(w), i);
    }
  }

  // ----- optimality -----

  /** Exchanging two lengths so that the lighter entry gets the longer one. */
  lemma Exchange(w: Weights, l: seq<nat>, top: nat, a: nat, b: nat)
    requires Feasible(w, l, top) && Live(w, a) && Live(w, b) && w[a] <= w[b] && l[a] <= l[b]
    ensures var m := l[a := l[b]][b := l[a]];
      Feasible(w, m, top) && Cost(w, m) <= Cost(w, l)
  {
    if a != b {
      ExchangeCost(w, l, a, b);
      ExchangeKraft(w, l, top, a, b);
    } else {
      assert l[a := l[b]][b := l[a]] == l;
    }
  }

  lemma ExchangeCost(w: Weights, l: seq<nat>, a: nat, b: nat)
    requires |l| == |w| && a < |w| && b < |w| && a != b
    ensures w[a] <= w[b] && l[a] <= l[b] ==>
      Cost(w, l[a := l[b]][b := l[a]]) <= Cost(w, l)
    ensures w[a] < w[b] && l[a] < l[b] ==>
      Cost(w, l[a := l[b]][b := l[a]]) < Cost(w, l)
  {
    hide Sum;
    var m := l[a := l[b]][b := l[a]];
    var terms := CostTerms(w, l);
    var x: nat, y: nat := w[a] * l[b], w[b] * l[a];
    var once: seq<nat> := terms[a := x];
    assert CostTerms(w, m) == once[b := y];
    SumUpdateTwo(terms, a, x, b, y);
    Rearrange(w[a], w[b], l[a], l[b]);
  }

  lemma Rearrange(u: int, v: int, x: int, y: int)
    ensures u <= v && x <= y ==>
      u * y + v * x <= u * x + v * y
    ensures u < v && x < y ==>
      u * y + v * x < u * x + v * y
  {
    assert (v - u) * (y - x) == v * y - v * x - u * y + u * x;
  }

  lemma ExchangeKraft(w: Weights, l: seq<nat>, top: nat, a: nat, b: nat)
    requires Within(w, l, top) && Live(w, a) && Live(w, b) && a != b
    ensures var m := l[a := l[b]][b := l[a]];
      Within(w, m, top) && Kraft(w, m, top) == Kraft(w, l, top)
  {
    hide Sum, Pow2;
    var m := l[a := l[b]][b := l[a]];
    var terms := KraftTerms(w, l, top);
    var x: nat, y: nat := Pow2(top - l[b]), Pow2(top - l[a]);
    var once: seq<nat> := terms[a := x];
    assert KraftTerms(w, m, top) == once[b := y];
    SumUpdateTwo(terms, a, x, b, y);
  }

  /** Halving the unit. */
  lemma Rescale(w: Weights, l: seq<nat>, top: nat)
    requires Within(w, l, top)
    ensures Within(w, l, top + 1) && Kraft(w, l, top + 1) == 2 * Kraft(w, l, top)
  {
    hide Sum;
    SumDouble(KraftTerms(w, l, top), KraftTerms(w, l, top + 1));
  }

  /** If only one entry has the greatest length, it can be one shorter. */
  lemma Shorten(w: Weights, l: seq<nat>, top: nat, i: nat)
    requires Feasible(w, l, top) && Live(w, i) && l[i] == top > 0
    requires forall j :: Live(w, j) && j != i ==> l[j] < top
    ensures Feasible(w, l[i := top - 1], top - 1)
    ensures Cost(w, l[i := top - 1]) <= Cost(w, l)
  {
    ShortenKraft(w, l, top, i);
    hide Sum;
    var terms := CostTerms(w, l);
    assert CostTerms(w, l[i := top - 1]) == terms[i := w[i] * (top - 1)];
    SumUpdate(terms, i, w[i] * (top - 1));
    assert w[i] * (top - 1) <= w[i] * top;
  }

  lemma ShortenKraft(w: Weights, l: seq<nat>, top: nat, i: nat)
    requires Feasible(w, l, top) && Live(w, i) && l[i] == top > 0
    requires forall j :: Live(w, j) && j != i ==> l[j] < top
    ensures Feasible(w, l[i := top - 1], top - 1)
  {
    var m := l[i := top - 1];
    var terms := KraftTerms(w, l, top);
    assert Pow2(1) == 2 && Pow2(0) == 1;
    assert KraftTerms(w, m, top) == terms[i := 2];
    SumUpdate(terms, i, 2);
    SumUpdate(terms, i, 0);
    assert terms[i] == 1;
    var rest := terms[i := 0];
    forall j | 0 <= j < |rest|
      ensures rest[j] % 2 == 0
    {
      if j != i && w[j] > 0 {
        assert Live(w, j) && terms[j] == Pow2(top - l[j]) == 2 * Pow2(top - l[j] - 1);
      }
    }
    SumEven(rest);
    Rescale(w, m, top - 1);
    assert Pow2(top) == 2 * Pow2(top - 1);
  }

  /** Two entries of the greatest length can be made the two that are merged, at no cost. */
  lemma Deepen(w: Weights, l: seq<nat>, top: nat, i: nat, j: nat) returns (m: seq<nat>)
    requires Feasible(w, l, top) && 0 <= Second(w) && i != j
    requires Live(w, i) && Live(w, j) && l[i] == l[j] == top
    ensures Feasible(w, m, top) && Cost(w, m) <= Cost(w, l)
    ensures m[First(w)] == m[Second(w)] == top
  {
    FirstTwo(w);
    hide First, Second, Pick, Feasible, Cost;
    var c1, c2 := First(w), Second(w);
    assert |l| == |w| && l[c1] <= top && l[c2] <= top by { assert Feasible(w, l, top); WithinOf(w, l, top); }
    Exchange(w, l, top, c1, i);
    var l1 := l[c1 := l[i]][i := l[c1]];
    var k := if j != c1 then j else i;
    assert k != c1 && l1[k] == top;
    WithinOf(w, l1, top);
    Exchange(w, l1, top, c2, k);
    m := l1[c2 := l1[k]][k := l1[c2]];
  }

  lemma WithinOf(w: Weights, l: seq<nat>, top: nat)
    requires Feasible(w, l, top)
    ensures Within(w, l, top) && |l| == |w|
  {
  }

  /** Two lengths of zero do not go together. */
  lemma TopPositive(w: Weights, l: seq<nat>)
    requires 0 <= Second(w) && Within(w, l, 0)
    ensures !Feasible(w, l, 0)
  {
    FirstTwo(w);
    SumAtLeastTwo(KraftTerms(w, l, 0), First(w), Second(w));
  }

  /** Huffman's procedure is optimal: no lengths with a Kraft sum of at most one, so no prefix code,
      give a smaller total. */
  lemma {:induction false} Optimal(w: Weights, l: seq<nat>, top: nat)
    requires Feasible(w, l, top)
    ensures Cost(w, Lengths(w)) <= Cost(w, l)
    decreases |LiveSet(w)|, top
  {
    hide Kraft, Cost, Merged, First, Second, Joined, Within;
    WithinOf(w, l, top);
    if Second(w) < 0 {
      NoCost(w);
    } else if top == 0 {
      WithinOf(w, l, 0);
      TopPositive(w, l);
    } else if forall i :: 0 <= i < |w| && Live(w, i) ==> l[i] < top {
      Slack(w, l, top);
      Optimal(w, l, top - 1);
    } else {
      var i :| 0 <= i < |w| && Live(w, i) && l[i] >= top;
      Reached(w, l, top, i);
      if forall j :: 0 <= j < |w| && Live(w, j) && j != i ==> l[j] < top {
        Shorten(w, l, top, i);
        Optimal(w, l[i := top - 1], top - 1);
      } else {
        var j :| 0 <= j < |w| && Live(w, j) && j != i && l[j] >= top;
        Reached(w, l, top, j);
        var m := Deepen(w, l, top, i, j);
        WithinOf(w, m, top);
        JoinedFeasible(w, m, top);
        Optimal(Merged(w), Joined(w, m), top);
        JoinedCost(w, m);
        LengthsStep(w);
        JoinedCost(w, Lengths(w));
        MergedLive(w);
        SameCost(Merged(w), Joined(w, Lengths(w)), Lengths(Merged(w)));
      }
    }
  }

  lemma NoCost(w: Weights)
    requires Second(w) < 0
    ensures Cost(w, Lengths(w)) == 0
  {
    hide Sum;
    SumZero(CostTerms(w, Lengths(w)));
  }

  lemma Reached(w: Weights, l: seq<nat>, top: nat, i: nat)
    requires Feasible(w, l, top) && Live(w, i) && l[i] >= top
    ensures l[i] == top
  {
  }

  lemma Slack(w: Weights, l: seq<nat>, top: nat)
    requires Feasible(w, l, top) && top > 0 && forall i :: 0 <= i < |w| && Live(w, i) ==> l[i] < top
    ensures Feasible(w, l, top - 1)
  {
    hide Kraft;
    Rescale(w, l, top - 1);
  }

  lemma JoinedFeasible(w: Weights, l: seq<nat>, top: nat)
    requires Feasible(w, l, top) && 0 <= Second(w) && 0 < l[First(w)] == l[Second(w)]
    ensures Feasible(Merged(w), Joined(w, l), top)
  {
    hide Kraft, Within, Merged, Joined;
    JoinedKraft(w, l, top);
  }
}
