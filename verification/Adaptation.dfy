/** What coding a decision does to its statistics, and what repetition teaches: the laws of Table D.3 of
    ITU-T T.81 and the estimates they lead to. */
module Adaptation {
  import opened Powers
  import opened Decisions
  import opened ProbabilityTable
  import opened IntervalCoder

  // ----- the laws of the table -----

  /** After the more probable symbol the estimate of the other falls, except in the last row; after the less
      probable one it rises, or else the row switches sense.  No row leads to the fixed one. */
  predicate Lawful(i: int)
    requires 0 <= i <= 112
  {
    var r := Lookup(i);
    && r.nextLps <= 112 && r.nextMps <= 112
    && (i != 13 ==> Lookup(r.nextMps).qe < r.qe)
    && (r.switchMps == 1 <==> Lookup(r.nextLps).qe <= r.qe)
  }

  lemma Laws0To13(i: int)
    requires 0 <= i <= 13
    ensures Lawful(i)
  {
  }

  lemma Laws14To24(i: int)
    requires 14 <= i <= 24
    ensures Lawful(i)
  {
  }

  lemma Laws25To35(i: int)
    requires 25 <= i <= 35
    ensures Lawful(i)
  {
  }

  lemma Laws36To45(i: int)
    requires 36 <= i <= 45
    ensures Lawful(i)
  {
  }

  lemma Laws46To54(i: int)
    requires 46 <= i <= 54
    ensures Lawful(i)
  {
  }

  lemma Laws55To59(i: int)
    requires 55 <= i <= 59
    ensures Lawful(i)
  {
  }

  lemma Laws60To63(i: int)
    requires 60 <= i <= 63
    ensures Lawful(i)
  {
  }

  lemma Laws64To71(i: int)
    requires 64 <= i <= 71
    ensures Lawful(i)
  {
  }

  lemma Laws72To79(i: int)
    requires 72 <= i <= 79
    ensures Lawful(i)
  {
  }

  lemma Laws80To87(i: int)
    requires 80 <= i <= 87
    ensures Lawful(i)
  {
  }

  lemma Laws88To95(i: int)
    requires 88 <= i <= 95
    ensures Lawful(i)
  {
  }

  lemma Laws96To103(i: int)
    requires 96 <= i <= 103
    ensures Lawful(i)
  {
  }

  lemma Laws104To112(i: int)
    requires 104 <= i <= 112
    ensures Lawful(i)
  {
  }

  /** The estimate moves the right way in every row. */
  lemma EstimateMoves(i: int)
    requires 0 <= i <= 112
    ensures var r := Lookup(i);
      && r.nextLps <= 112 && r.nextMps <= 112
      && (i != 13 ==> Lookup(r.nextMps).qe < r.qe)
      && (r.switchMps == 1 <==> Lookup(r.nextLps).qe <= r.qe)
    ensures Lookup(13).qe == 1 && Lookup(13).nextMps == 13
  {
    hide Lookup;
    if i <= 13 {
      Laws0To13(i);
    } else if i <= 24 {
      Laws14To24(i);
    } else if i <= 35 {
      Laws25To35(i);
    } else if i <= 45 {
      Laws36To45(i);
    } else if i <= 54 {
      Laws46To54(i);
    } else if i <= 59 {
      Laws55To59(i);
    } else if i <= 63 {
      Laws60To63(i);
    } else if i <= 71 {
      Laws64To71(i);
    } else if i <= 79 {
      Laws72To79(i);
    } else if i <= 87 {
      Laws80To87(i);
    } else if i <= 95 {
      Laws88To95(i);
    } else if i <= 103 {
      Laws96To103(i);
    } else {
      Laws104To112(i);
    }
    LastRow();
  }

  lemma LastRow()
    ensures Lookup(13) == Row(0x0001, 12, 13, 0)
  {
  }

  /** The row of decisions of fixed probability leads to itself. */
  lemma FixedRow()
    ensures Lookup(113) == Row(0x5a1d, 113, 113, 0)
  {
  }

  // ----- one decision -----

  /** The sense of a context's bin is its top bit, the state the rest.  Coding the less probable symbol makes
      the bit just coded the more probable one exactly when the row switches; the more probable symbol moves
      the state only when the interval has to be renormalised.  No other bin changes. */
  lemma Adapts(e: Coder, d: Decision)
    requires Normal(e)
    ensures var was, now := BinAt(e.stats, d.ctx), BinAt(Encode(e, d).stats, d.ctx);
      var r := Lookup(was % 128);
      if d.bit != was / 128 then
        now % 128 == r.nextLps && now / 128 == if r.switchMps == 1 then d.bit else 1 - d.bit
      else
        now / 128 == d.bit && now % 128 == if e.width - r.qe < 0x8000 then r.nextMps else was % 128
    ensures forall k :: k != d.ctx ==> BinAt(Encode(e, d).stats, k) == BinAt(e.stats, k)
  {
    hide Lookup;
    NarrowIs(e, d);
  }

  /** The part of the interval left to a bit: the more probable symbol gets the wider of qe and the rest, and
      the rest is the lower part. */
  lemma MoreProbableIsWider(e: Coder, d: Decision)
    requires Normal(e)
    ensures var bin, n := BinAt(e.stats, d.ctx), Narrow(e, d);
      var qe := Lookup(bin % 128).qe;
      var rest := e.width - qe;
      && n.shifts == e.shifts
      && n.width == (if (d.bit == bin / 128) == (rest >= qe) then rest else qe)
      && n.low == (if (d.bit == bin / 128) == (rest >= qe) then e.low else e.low + rest)
  {
    hide Lookup;
    NarrowIs(e, d);
  }

  /** Renormalising doubles the interval until it is at least half as wide as at the start. */
  lemma {:induction false} Doubled(e: Coder) returns (j: nat)
    ensures Normalise(e) == Coder(e.low * Pow2(j), e.width * Pow2(j), e.shifts + j, e.stats)
    ensures 0x8000 <= e.width * Pow2(j) && (j > 0 ==> e.width * Pow2(j - 1) < 0x8000)
    decreases 0x10000 - e.width
  {
    if Normal(e) {
      j := 0;
      assert Pow2(0) == 1;
    } else {
      var i := Doubled(Double(e));
      j := i + 1;
      Moved(e.low, Pow2(i));
      Moved(e.width, Pow2(i));
      if i > 0 {
        Moved(e.width, Pow2(i - 1));
      }
    }
  }

  lemma Moved(x: int, p: int)
    ensures 2 * x * p == x * (2 * p)
  {
  }

  /** Decisions of fixed probability teach nothing. */
  lemma FixedStays(e: Coder, bit: Bit)
    requires Normal(e) && BinAt(e.stats, Fixed) == 113
    ensures BinAt(Encode(e, Decision(Fixed, bit)).stats, Fixed) == 113
    ensures Lookup(113).qe == 0x5a1d
  {
    hide Lookup, Encode;
    FixedRow();
    Adapts(e, Decision(Fixed, bit));
  }

  // ----- repetition -----

  function Repeated(k: Context, bit: Bit, n: nat): (ds: seq<Decision>)
    ensures |ds| == n
  {
    seq(n, _ => Decision(k, bit))
  }

  lemma RepeatedFirst(e: Coder, k: Context, bit: Bit, n: nat)
    requires Normal(e) && n > 0
    ensures EncodeAll(e, Repeated(k, bit, n)) == EncodeAll(Encode(e, Decision(k, bit)), Repeated(k, bit, n - 1))
  {
    hide Encode;
    assert Repeated(k, bit, n)[1..] == Repeated(k, bit, n - 1);
  }

  /** Once learnt, a bit stays learnt: the bin keeps its sense and the last row. */
  lemma {:induction false} StaysLearnt(e: Coder, k: Context, bit: Bit, n: nat)
    requires Normal(e) && BinAt(e.stats, k) == 128 * bit + 13
    ensures BinAt(EncodeAll(e, Repeated(k, bit, n)).stats, k) == 128 * bit + 13
    decreases n
  {
    hide Lookup, Encode;
    if n > 0 {
      LastRow();
      var d := Decision(k, bit);
      Adapts(e, d);
      RepeatedFirst(e, k, bit, n);
      StaysLearnt(Encode(e, d), k, bit, n - 1);
    }
  }

  /** Without renormalisation the more probable symbol makes the interval narrower. */
  lemma Narrower(e: Coder, d: Decision)
    requires Normal(e) && d.bit == BinAt(e.stats, d.ctx) / 128
    requires e.width - Lookup(BinAt(e.stats, d.ctx) % 128).qe >= 0x8000
    ensures Encode(e, d).width < e.width
  {
    hide Lookup;
    MoreProbableIsWider(e, d);
  }

  /** The size of the less probable part in a context's present state. */
  function Estimate(e: Coder, k: Context): (qe: int)
    ensures 0 < qe < 0x8000
  {
    Lookup(BinAt(e.stats, k) % 128).qe
  }

  /** Coding the less probable symbol turns the sense or raises the estimate. */
  lemma Surprised(e: Coder, k: Context, bit: Bit)
    requires Normal(e) && BinAt(e.stats, k) % 128 <= 112 && BinAt(e.stats, k) / 128 != bit
    ensures var n := Encode(e, Decision(k, bit));
      BinAt(n.stats, k) % 128 <= 112 && (BinAt(n.stats, k) / 128 == bit || Estimate(n, k) > Estimate(e, k))
  {
    hide Lookup, Encode, BinAt;
    EstimateMoves(BinAt(e.stats, k) % 128);
    Adapts(e, Decision(k, bit));
  }

  /** Coding the more probable symbol lowers the estimate or narrows the interval, except in the last row. */
  lemma Confirmed(e: Coder, k: Context, bit: Bit)
    requires Normal(e) && BinAt(e.stats, k) % 128 <= 112 && BinAt(e.stats, k) / 128 == bit
    requires BinAt(e.stats, k) % 128 != 13
    ensures var n := Encode(e, Decision(k, bit));
      && BinAt(n.stats, k) % 128 <= 112 && BinAt(n.stats, k) / 128 == bit
      && (Estimate(n, k) < Estimate(e, k) || (Estimate(n, k) == Estimate(e, k) && n.width < e.width))
  {
    hide Lookup, Encode, BinAt;
    var d := Decision(k, bit);
    EstimateMoves(BinAt(e.stats, k) % 128);
    Adapts(e, d);
    if e.width - Estimate(e, k) >= 0x8000 {
      Narrower(e, d);
    }
  }

  /** After n codings of the bit, it is the more probable symbol, and the estimate of the other the least. */
  ghost predicate Learnt(e: Coder, k: Context, bit: Bit, n: nat)
    requires Normal(e)
  {
    BinAt(EncodeAll(e, Repeated(k, bit, n)).stats, k) == 128 * bit + 13
  }

  lemma OneEarlier(e: Coder, k: Context, bit: Bit, m: nat)
    requires Normal(e) && forall n :: m <= n ==> Learnt(Encode(e, Decision(k, bit)), k, bit, n)
    ensures forall n :: m + 1 <= n ==> Learnt(e, k, bit, n)
  {
    forall n | m + 1 <= n
      ensures Learnt(e, k, bit, n)
    {
      Later(e, k, bit, n);
    }
  }

  lemma Later(e: Coder, k: Context, bit: Bit, n: nat)
    requires Normal(e) && n > 0
    ensures Learnt(e, k, bit, n) <==> Learnt(Encode(e, Decision(k, bit)), k, bit, n - 1)
  {
    hide Encode, EncodeAll, Repeated;
    RepeatedFirst(e, k, bit, n);
  }

  lemma {:induction false} LearnsMore(e: Coder, k: Context, bit: Bit) returns (n0: nat)
    requires Normal(e) && BinAt(e.stats, k) % 128 <= 112 && BinAt(e.stats, k) / 128 == bit
    ensures forall n :: n0 <= n ==> Learnt(e, k, bit, n)
    decreases Estimate(e, k), e.width
  {
    hide Estimate, Encode, BinAt;
    if BinAt(e.stats, k) % 128 == 13 {
      n0 := 0;
      forall n: nat
        ensures Learnt(e, k, bit, n)
      {
        StaysLearnt(e, k, bit, n);
      }
    } else {
      Confirmed(e, k, bit);
      n0 := LearnsMore(Encode(e, Decision(k, bit)), k, bit);
      OneEarlier(e, k, bit, n0);
      n0 := n0 + 1;
    }
  }

  /** From any statistics, a bit that is coded often enough in one context becomes its more probable symbol,
      and the estimate of the other the least there is. */
  lemma {:induction false} Learns(e: Coder, k: Context, bit: Bit) returns (n0: nat)
    requires Normal(e) && BinAt(e.stats, k) % 128 <= 112
    ensures forall n :: n0 <= n ==> Learnt(e, k, bit, n)
    decreases 0x8000 - Estimate(e, k)
  {
    hide Estimate, Encode, BinAt;
    if BinAt(e.stats, k) / 128 == bit {
      n0 := LearnsMore(e, k, bit);
    } else {
      Surprised(e, k, bit);
      var n := Encode(e, Decision(k, bit));
      if BinAt(n.stats, k) / 128 == bit {
        n0 := LearnsMore(n, k, bit);
      } else {
        n0 := Learns(n, k, bit);
      }
      OneEarlier(e, k, bit, n0);
      n0 := n0 + 1;
    }
  }
}
