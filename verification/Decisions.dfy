/** Sequences of adaptively coded binary decisions, and what it means for a decoder to replay one.
    Everything that turns coefficients into decisions is stated over an arbitrary decoding step,
    so that it holds of any entropy coder with this interface. */
module Decisions {
  import opened Powers

  /** Where a decision's statistics live: a DC table, an AC table, or the fixed bin. */
  datatype Context = Dc(tbl: int, bin: int) | Ac(tbl: int, bin: int) | Fixed

  /** The statistics areas as allocated: 64 bins per DC table and 256 per AC table; 16 tables
      of each kind. */
  predicate InBounds(k: Context) {
    match k
    case Dc(tbl, bin) => 0 <= tbl < 16 && 0 <= bin < 64
    case Ac(tbl, bin) => 0 <= tbl < 16 && 0 <= bin < 256
    case Fixed => true
  }

  /** The bins that ITU-T T.81 provides for: 49 for DC and 245 for AC coding. */
  predicate Standard(k: Context) {
    match k
    case Dc(tbl, bin) => 0 <= tbl < 16 && 0 <= bin < 49
    case Ac(tbl, bin) => 0 <= tbl < 16 && 0 <= bin < 245
    case Fixed => true
  }

  datatype Decision = Decision(ctx: Context, bit: Bit)

  /** A decoding step: given the decoder's state and a context, a bit and the next state. */
  type Step<!D> = (D, Context) -> (Bit, D)

  /** The decoder `d`, asked for the contexts of `ds` one after the other, answers with their bits. */
  ghost predicate Yields<D>(step: Step<D>, d: D, ds: seq<Decision>) {
    ds == [] || (step(d, ds[0].ctx).0 == ds[0].bit && Yields(step, step(d, ds[0].ctx).1, ds[1..]))
  }

  /** The decoder's state after answering the contexts of `ds`. */
  ghost function After<D>(step: Step<D>, d: D, ds: seq<Decision>): D {
    if ds == [] then d else After(step, step(d, ds[0].ctx).1, ds[1..])
  }

  /** Replaying a concatenation is replaying its parts in turn. */
  lemma {:induction false} Split<D>(step: Step<D>, d: D, xs: seq<Decision>, ys: seq<Decision>)
    ensures Yields(step, d, xs + ys) <==> Yields(step, d, xs) && Yields(step, After(step, d, xs), ys)
    ensures After(step, d, xs + ys) == After(step, After(step, d, xs), ys)
  {
    if xs == [] {
      assert xs + ys == ys;
    } else {
      assert (xs + ys)[1..] == xs[1..] + ys;
      Split(step, step(d, xs[0].ctx).1, xs[1..], ys);
    }
  }
}
