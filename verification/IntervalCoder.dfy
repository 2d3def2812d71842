/** The exact binary arithmetic coder of sections D.1 and D.2 of ITU-T T.81: intervals over
    unbounded integers on the encoding side, a real-valued offset on the decoding side.
    The register machines of the encoder and the decoder are proved to refine these. */
module IntervalCoder {
  import opened Decisions
  import opened Powers
  import opened ProbabilityTable

  type Stats = map<Context, Bin>

  /** Bins not touched since the last reset are zero; the fixed bin starts in state 113. */
  function BinAt(stats: Stats, k: Context): Bin {
    if k in stats then stats[k] else if k == Fixed then 113 else 0
  }

  /** Write a bin. */
  function Store(stats: Stats, k: Context, b: Bin): Stats {
    if BinAt(stats, k) == b then stats else stats[k := b]
  }

  // ----- one decision -----

  /** The sub-interval chosen for a bit: its offset, its width, and the bin afterwards. */
  datatype Choice = Choice(offset: int, width: int, bin: Bin)

  /** The encoder's choice, with the conditional exchange of the two symbols. */
  function Choose(width: int, bin: Bin, r: Row, bit: Bit): Choice
    requires WellFormed(r)
  {
    var rest := width - r.qe;
    if bit != Mps(bin) then
      if rest >= r.qe then Choice(rest, r.qe, AfterLps(bin, r)) else Choice(0, rest, AfterLps(bin, r))
    else if rest >= 0x8000 then Choice(0, rest, bin)
    else if rest < r.qe then Choice(rest, r.qe, AfterMps(bin, r))
    else Choice(0, rest, AfterMps(bin, r))
  }

  /** The decoder's converse: which bit the upper or lower sub-interval stands for. */
  function Recognise(width: int, bin: Bin, r: Row, upper: bool): (Bit, Choice)
    requires WellFormed(r)
  {
    var rest := width - r.qe;
    if upper then
      if rest < r.qe then (Mps(bin), Choice(rest, r.qe, AfterMps(bin, r)))
      else (1 - Mps(bin), Choice(rest, r.qe, AfterLps(bin, r)))
    else if rest < 0x8000 then
      if rest < r.qe then (1 - Mps(bin), Choice(0, rest, AfterLps(bin, r)))
      else (Mps(bin), Choice(0, rest, AfterMps(bin, r)))
    else (Mps(bin), Choice(0, rest, bin))
  }

  /** The two choices split the interval in two, and the decoder's reading of a half inverts
      the encoder's choice of it. */
  lemma ChooseRecognise(width: int, bin: Bin, r: Row, bit: Bit)
    requires WellFormed(r) && 0x8000 <= width <= 0x10000
    ensures var c := Choose(width, bin, r, bit);
      && ((c.offset == 0 && c.width == width - r.qe)
          || (c.offset == width - r.qe && c.width == r.qe))
      && 0 < c.width && 0 < width - r.qe
      && Recognise(width, bin, r, c.offset != 0) == (bit, c)
  {
  }

  // ----- the exact encoder -----

  /** The interval [low, low + width) at scale 2^-shifts, and the adaptive statistics. */
  datatype RawCoder = Coder(low: int, width: int, shifts: nat, stats: Stats)

  type Coder = e: RawCoder | 0 <= e.low && 0 < e.width <= 0x10000 witness Coder(0, 0x10000, 0, map[])

  /** The state at the start of a segment. */
  function Start(stats: Stats): Coder { Coder(0, 0x10000, 0, stats) }

  predicate Normal(e: Coder) { 0x8000 <= e.width }

  function Double(e: Coder): Coder
    requires !Normal(e)
  {
    Coder(2 * e.low, 2 * e.width, e.shifts + 1, e.stats)
  }

  function Normalise(e: Coder): (n: Coder)
    ensures Normal(n) && n.stats == e.stats
    decreases 0x10000 - e.width
  {
    if Normal(e) then e else Normalise(Double(e))
  }

  function Narrow(e: Coder, d: Decision): Coder
    requires Normal(e)
  {
    var bin := BinAt(e.stats, d.ctx);
    var r := Lookup(bin % 128);
    ChooseRecognise(e.width, bin, r, d.bit);
    var c := Choose(e.width, bin, r, d.bit);
    Coder(e.low + c.offset, c.width, e.shifts, Store(e.stats, d.ctx, c.bin))
  }

  /** Narrowing, spelled out for the register machines. */
  lemma NarrowIs(e: Coder, d: Decision)
    requires Normal(e)
    ensures var bin := BinAt(e.stats, d.ctx);
      var c := Choose(e.width, bin, Lookup(bin % 128), d.bit);
      && Narrow(e, d) == Coder(e.low + c.offset, c.width, e.shifts, Store(e.stats, d.ctx, c.bin))
      && 0 <= c.offset && 0 < c.width && c.offset + c.width <= e.width
  {
    hide Lookup;
    var bin := BinAt(e.stats, d.ctx);
    ChooseRecognise(e.width, bin, Lookup(bin % 128), d.bit);
  }

  function Encode(e: Coder, d: Decision): (n: Coder)
    requires Normal(e)
    ensures Normal(n)
  {
    Normalise(Narrow(e, d))
  }

  function EncodeAll(e: Coder, ds: seq<Decision>): (n: Coder)
    requires Normal(e)
    ensures Normal(n)
    decreases |ds|
  {
    if ds == [] then e else EncodeAll(Encode(e, ds[0]), ds[1..])
  }

  lemma {:induction false} EncodeAllSplit(e: Coder, xs: seq<Decision>, ys: seq<Decision>)
    requires Normal(e)
    ensures EncodeAll(e, xs + ys) == EncodeAll(EncodeAll(e, xs), ys)
    decreases |xs|
  {
    if xs == [] {
      assert xs + ys == ys;
    } else {
      assert (xs + ys)[1..] == xs[1..] + ys;
      EncodeAllSplit(Encode(e, xs[0]), xs[1..], ys);
    }
  }

  /** Peeling the first decision off, in the direction a loop does it. */
  lemma EncodeAllFirst(e: Coder, z: Decision, rest: seq<Decision>)
    requires Normal(e)
    ensures EncodeAll(e, [z] + rest) == EncodeAll(Encode(e, z), rest)
    ensures EncodeAll(e, [z]) == Encode(e, z)
    ensures EncodeAll(e, []) == e
  {
    hide Encode;
    assert ([z] + rest)[1..] == rest && [z][1..] == [];
  }

  // ----- the exact decoder -----

  /** The distance of the code value from the lower end of the interval, in the interval's own
      scale, the interval's width, and the adaptive statistics. */
  datatype RawDecoder = Decoder(offset: real, width: int, stats: Stats)

  type Decoder = d: RawDecoder | 0 < d.width <= 0x10000 && 0.0 <= d.offset < d.width as real
    witness Decoder(0.0, 0x10000, map[])

  function NormaliseDecoder(d: Decoder): (n: Decoder)
    ensures 0x8000 <= n.width && n.stats == d.stats
    decreases 0x10000 - d.width
  {
    if 0x8000 <= d.width then d
    else NormaliseDecoder(Decoder(2.0 * d.offset, 2 * d.width, d.stats))
  }

  /** Decode one decision.  Renormalisation happens before the decision, not after. */
  function Decode(d: Decoder, k: Context): (Bit, Decoder) {
    var n := NormaliseDecoder(d);
    var bin := BinAt(n.stats, k);
    var r := Lookup(bin % 128);
    var rest := n.width - r.qe;
    var (bit, c) := Recognise(n.width, bin, r, n.offset >= rest as real);
    (bit, Decoder(n.offset - c.offset as real, c.width, Store(n.stats, k, c.bin)))
  }

  // ----- the exact coder round trip -----

  /** Position of the code value x, a number in [0, 65536), relative to the encoder's interval. */
  ghost function Position(x: real, e: Coder): real {
    x * (Pow2(e.shifts) as real) - e.low as real
  }

  ghost predicate Contains(x: real, e: Coder) {
    0.0 <= Position(x, e) < e.width as real
  }

  lemma PositionDouble(x: real, e: Coder)
    requires !Normal(e)
    ensures Position(x, Double(e)) == 2.0 * Position(x, e)
  {
    var p := Pow2(e.shifts) as real;
    assert Pow2(e.shifts + 1) as real == 2.0 * p;
    assert x * (2.0 * p) == 2.0 * (x * p);
  }

  lemma {:induction false} ContainsNormalise(x: real, e: Coder)
    ensures Contains(x, Normalise(e)) <==> Contains(x, e)
    decreases 0x10000 - e.width
  {
    if !Normal(e) {
      PositionDouble(x, e);
      ContainsNormalise(x, Double(e));
    }
  }

  /** The decoder sits at the code value x of the interval the encoder has reached. */
  ghost predicate Synchronised(x: real, e: Coder, d: Decoder) {
    && Normal(e)
    && NormaliseDecoder(d).width == e.width
    && NormaliseDecoder(d).offset == Position(x, e)
    && d.stats == e.stats
  }

  lemma {:induction false} SynchronisedNormalise(x: real, e: Coder, d: Decoder)
    requires d.width == e.width && d.offset == Position(x, e) && d.stats == e.stats
    ensures Synchronised(x, Normalise(e), d)
    decreases 0x10000 - e.width
  {
    if !Normal(e) {
      PositionDouble(x, e);
      SynchronisedNormalise(x, Double(e), Decoder(2.0 * d.offset, 2 * d.width, d.stats));
    }
  }

  /** A value in the narrowed interval was in the interval before, in the half of the bit coded. */
  lemma NarrowContains(x: real, e: Coder, z: Decision)
    requires Normal(e) && Contains(x, Narrow(e, z))
    ensures Contains(x, e)
    ensures var r := Lookup(BinAt(e.stats, z.ctx) % 128);
      var c := Choose(e.width, BinAt(e.stats, z.ctx), r, z.bit);
      && Position(x, Narrow(e, z)) == Position(x, e) - c.offset as real
      && (c.offset != 0 <==> Position(x, e) >= (e.width - r.qe) as real)
  {
    hide Lookup;
    var bin := BinAt(e.stats, z.ctx);
    ChooseRecognise(e.width, bin, Lookup(bin % 128), z.bit);
  }

  /** One step of the round trip. */
  lemma DecodeInvertsEncode(x: real, e: Coder, d: Decoder, z: Decision)
    requires Synchronised(x, e, d) && Contains(x, Encode(e, z))
    ensures Decode(d, z.ctx).0 == z.bit
    ensures Synchronised(x, Encode(e, z), Decode(d, z.ctx).1)
  {
    hide Lookup, Choose, Recognise, Position;
    ContainsNormalise(x, Narrow(e, z));
    NarrowContains(x, e, z);
    var bin := BinAt(e.stats, z.ctx);
    ChooseRecognise(e.width, bin, Lookup(bin % 128), z.bit);
    SynchronisedNormalise(x, Narrow(e, z), Decode(d, z.ctx).1);
  }

  /** A code value in the final interval lies in every interval passed on the way. */
  lemma {:induction false} FinalIsNested(x: real, e: Coder, ds: seq<Decision>)
    requires Normal(e) && Contains(x, EncodeAll(e, ds))
    ensures Contains(x, e)
    decreases |ds|
  {
    hide Lookup;
    if ds != [] {
      FinalIsNested(x, Encode(e, ds[0]), ds[1..]);
      ContainsNormalise(x, Narrow(e, ds[0]));
      NarrowContains(x, e, ds[0]);
    }
  }

  /** Round trip of the exact coder: a decoder positioned at any value of the final interval
      replays every decision, and ends with the encoder's statistics. */
  lemma {:induction false} ExactRoundTrip(x: real, e: Coder, d: Decoder, ds: seq<Decision>)
    requires Synchronised(x, e, d) && Contains(x, EncodeAll(e, ds))
    ensures Yields(Decode, d, ds)
    ensures Synchronised(x, EncodeAll(e, ds), After(Decode, d, ds))
    decreases |ds|
  {
    hide Lookup;
    if ds != [] {
      FinalIsNested(x, Encode(e, ds[0]), ds[1..]);
      DecodeInvertsEncode(x, e, d, ds[0]);
      ExactRoundTrip(x, Encode(e, ds[0]), Decode(d, ds[0].ctx).1, ds[1..]);
    }
  }
}
