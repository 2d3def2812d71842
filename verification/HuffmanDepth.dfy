/** Which entry Huffman's procedure puts deepest.  Ties decide it: an entry of least weight and greatest
    index never ends up above another.  That is why a pseudo-symbol of weight one behind all others gives
    up a code word of greatest length. */
module HuffmanDepth {
  import opened HuffmanTree

  /** Entry m has the greatest index. */
  ghost predicate Last(w: Weights, m: int) { Live(w, m) && forall i :: Live(w, i) ==> i <= m }

  /** Entry m is no heavier than any two others together. */
  ghost predicate Light(w: Weights, m: int) {
    Live(w, m) && forall i, j :: Live(w, i) && Live(w, j) && i != j && i != m && j != m ==> w[m] <= w[i] + w[j]
  }

  /** Nor can two others merged come before it. */
  ghost predicate Lighter(w: Weights, m: int) {
    Light(w, m)
      && (Last(w, m) || forall i, j :: Live(w, i) && Live(w, j) && i != j && i != m && j != m ==> w[m] < w[i] + w[j])
  }

  /** One step of the procedure, and what it does to lengths. */
  ghost predicate Step(w: Weights, c1: int, c2: int, v: Weights) {
    && c1 != c2 && Live(w, c1) && Live(w, c2) && |v| == |w|
    && Before(w, c1, c2) && (forall i :: Live(w, i) && i != c1 ==> Before(w, c2, i))
    && v[c1] == w[c1] + w[c2]
    && (forall i :: 0 <= i < |w| && i != c1 && i != c2 ==> v[i] == w[i])
    && (forall i :: Live(v, i) <==> Live(w, i) && i != c2)
    && Lengths(w)[c1] == Lengths(w)[c2] == Lengths(v)[c1] + 1
    && forall i :: 0 <= i < |w| && i != c1 && i != c2 ==> Lengths(w)[i] == Lengths(v)[i]
  }

  lemma TakeStep(w: Weights)
    requires 0 <= Second(w)
    ensures Step(w, First(w), Second(w), Merged(w))
  {
    FirstTwo(w);
    LengthsStep(w);
    MergedLive(w);
    hide First, Second, Pick, Lengths;
  }

  lemma StepFalls(w: Weights)
    requires 0 <= Second(w)
    ensures |LiveSet(Merged(w))| < |LiveSet(w)|
  {
  }

  lemma OnlyOne(w: Weights, i: int, j: int)
    requires Second(w) < 0 && Live(w, i) && Live(w, j)
    ensures i == j
  {
    FirstTwo(w);
    hide First, Second;
  }

  /** A heavier entry is no deeper: exchanging the two would do better. */
  lemma HeavierIsHigher(w: Weights, i: nat, j: nat)
    requires Live(w, i) && Live(w, j) && w[i] < w[j]
    ensures Lengths(w)[j] <= Lengths(w)[i]
  {
    FirstTwo(w);
    hide First, Second, Lengths, LiveSet, Cost, Kraft, Pick;
    var l := Lengths(w);
    if l[i] < l[j] {
      var top := Sum(l);
      forall k | 0 <= k < |w| && Live(w, k)
        ensures l[k] <= top
      {
        SumAtLeast(l, k);
      }
      ExactKraft(w, top);
      ExchangeKraft(w, l, top, i, j);
      ExchangeCost(w, l, i, j);
      Optimal(w, l[i := l[j]][j := l[i]], top);
    }
  }

  /** No entry is more than two deeper than a light one. */
  lemma {:induction false} NearLight(w: Weights, m: nat, y: nat)
    requires Light(w, m) && Live(w, y)
    ensures Lengths(w)[y] <= Lengths(w)[m] + 2
    decreases |LiveSet(w)|
  {
    if Second(w) < 0 {
      OnlyOne(w, m, y);
    } else {
      StepFalls(w);
      TakeStep(w);
      hide First, Second, Merged, Lengths, LiveSet, Light;
      var c1, c2, v := First(w), Second(w), Merged(w);
      if m == c1 || m == c2 {
        JoinIsLight(w, c1, c2, v);
        if y != c1 && y != c2 {
          NearLight(v, c1, y);
        }
      } else {
        LightKept(w, c1, c2, v, m);
        if y != c1 && y != c2 {
          NearLight(v, m, y);
        } else {
          assert w[m] <= v[c1] by { LightBound(w, c1, c2, m); }
          if w[m] < v[c1] {
            HeavierIsHigher(v, m, c1);
          } else {
            NearEqual(v, c1, m);
          }
        }
      }
    }
  }

  lemma LightBound(w: Weights, c1: int, c2: int, m: int)
    requires Light(w, m) && Live(w, c1) && Live(w, c2) && c1 != c2 && m != c1 && m != c2
    ensures w[m] <= w[c1] + w[c2]
  {
  }

  /** The merged entry is light. */
  lemma JoinIsLight(w: Weights, c1: int, c2: int, v: Weights)
    requires Step(w, c1, c2, v)
    ensures Light(v, c1)
  {
    hide Lengths;
  }

  lemma LightKept(w: Weights, c1: int, c2: int, v: Weights, m: int)
    requires Step(w, c1, c2, v) && Light(w, m) && m != c1 && m != c2
    ensures Light(v, m)
  {
    hide Lengths;
  }

  /** Entries of equal weight differ by at most one. */
  lemma {:induction false} NearEqual(w: Weights, x: nat, y: nat)
    requires Live(w, x) && Live(w, y) && w[x] == w[y]
    ensures Lengths(w)[x] <= Lengths(w)[y] + 1
    decreases |LiveSet(w)|
  {
    if Second(w) < 0 {
      OnlyOne(w, x, y);
    } else {
      StepFalls(w);
      TakeStep(w);
      hide First, Second, Merged, Lengths, LiveSet, Light;
      var c1, c2, v := First(w), Second(w), Merged(w);
      if x == c1 || x == c2 {
        if y != c1 && y != c2 {
          HeavierIsHigher(v, y, c1);
        }
      } else if y == c1 || y == c2 {
        JoinIsLight(w, c1, c2, v);
        NearLight(v, c1, x);
      } else {
        NearEqual(v, x, y);
      }
    }
  }

  /** Among entries of equal weight, the one of greatest index is deepest. */
  lemma {:induction false} LastOfEquals(w: Weights, x: nat, y: nat)
    requires Last(w, x) && Live(w, y) && w[x] == w[y]
    ensures Lengths(w)[y] <= Lengths(w)[x]
    decreases |LiveSet(w)|
  {
    if Second(w) < 0 {
      OnlyOne(w, x, y);
    } else {
      StepFalls(w);
      TakeStep(w);
      hide First, Second, Merged, Lengths, LiveSet, Lighter;
      var c1, c2, v := First(w), Second(w), Merged(w);
      if x == c1 || x == c2 {
        if y != c1 && y != c2 {
          JoinIsLighter(w, c1, c2, v, x);
          BelowLighter(v, c1, y);
        }
      } else {
        LastOfEquals(v, x, y);
      }
    }
  }

  /** The merged entry is lighter if it took in the entry of greatest index. */
  lemma JoinIsLighter(w: Weights, c1: int, c2: int, v: Weights, x: int)
    requires Step(w, c1, c2, v) && Last(w, x) && (x == c1 || x == c2)
    ensures Lighter(v, c1)
  {
    hide Lengths;
    JoinIsLight(w, c1, c2, v);
    if x == c2 {
      forall i, j | Live(v, i) && Live(v, j) && i != j && i != c1 && j != c1
        ensures v[c1] < v[i] + v[j]
      {
        assert Before(w, c2, i) && Before(w, c2, j);
      }
    }
  }

  /** No entry is more than one deeper than a lighter one. */
  lemma {:induction false} BelowLighter(w: Weights, m: nat, y: nat)
    requires Lighter(w, m) && Live(w, y)
    ensures Lengths(w)[y] <= Lengths(w)[m] + 1
    decreases |LiveSet(w)|
  {
    if Second(w) < 0 {
      OnlyOne(w, m, y);
    } else {
      StepFalls(w);
      TakeStep(w);
      hide First, Second, Merged, Lengths, LiveSet, Light, Lighter, Last;
      var c1, c2, v := First(w), Second(w), Merged(w);
      if m == c1 || m == c2 {
        JoinIsLight(w, c1, c2, v);
        if y != c1 && y != c2 {
          NearLight(v, c1, y);
        }
      } else {
        LighterKept(w, c1, c2, v, m);
        if y != c1 && y != c2 {
          BelowLighter(v, m, y);
        } else {
          assert w[m] < v[c1] || (w[m] == v[c1] && Last(v, m)) by { LighterBound(w, c1, c2, v, m); }
          if w[m] < v[c1] {
            HeavierIsHigher(v, m, c1);
          } else {
            LastOfEquals(v, m, c1);
          }
        }
      }
    }
  }

  lemma LighterBound(w: Weights, c1: int, c2: int, v: Weights, m: int)
    requires Step(w, c1, c2, v) && Lighter(w, m) && m != c1 && m != c2
    ensures w[m] < v[c1] || (w[m] == v[c1] && Last(v, m))
  {
    hide Lengths;
  }

  lemma LighterKept(w: Weights, c1: int, c2: int, v: Weights, m: int)
    requires Step(w, c1, c2, v) && Lighter(w, m) && m != c1 && m != c2
    ensures Lighter(v, m)
  {
    hide Lengths;
    LightKept(w, c1, c2, v, m);
  }

  /** An entry of least weight and greatest index is deepest of all. */
  lemma PseudoSymbolIsDeepest(w: Weights, m: nat, y: nat)
    requires Last(w, m) && Live(w, y) && forall i :: Live(w, i) ==> w[m] <= w[i]
    ensures Lengths(w)[y] <= Lengths(w)[m]
  {
    if Second(w) < 0 {
      OnlyOne(w, m, y);
    } else {
      TakeStep(w);
      hide First, Second, Merged, Lengths, LiveSet, Lighter;
      var c1, c2, v := First(w), Second(w), Merged(w);
      assert Before(w, c1, c2);
      if y != c1 && y != c2 {
        JoinIsLighter(w, c1, c2, v, m);
        BelowLighter(v, c1, y);
      }
    }
  }
}
