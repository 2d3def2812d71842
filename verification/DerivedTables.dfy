/** The tables derived from a Huffman table: code words by symbol for an encoder, and for a decoder the
    limits of each length and an 8-bit lookahead. */
module DerivedTables {
  import opened Powers
  import opened CodeLengths
  import opened CanonicalCode
  import KraftInequality

  /** Lengths and code words by index, as far as they are generated. */
  ghost predicate Generated(bits: Counts, huffsize: seq<nat>, huffcode: seq<nat>, n: nat) {
    && |bits| == 17 && |huffsize| == |huffcode| == 257 && n <= Total(bits, 16) <= 256
    && (forall p :: 0 <= p < Total(bits, 16) ==> huffsize[p] == SizeAt(bits, p, 16))
    && huffsize[Total(bits, 16)] == 0
    && forall p :: 0 <= p < n ==> huffcode[p] == CodeAt(bits, p)
  }

  /** The length of every code word (figure C.1); more than 256 are an error. */
  method MakeSizes(bits: Counts, huffsize: array<CodeSize>) returns (ok: bool, p: nat)
    requires |bits| == 17 && huffsize.Length == 257
    modifies huffsize
    ensures ok <==> Total(bits, 16) <= 256
    ensures ok ==>
      p == Total(bits, 16) && huffsize[p] == 0 && forall q :: 0 <= q < p ==> huffsize[q] == SizeAt(bits, q, 16)
  {
    hide SizeAt;
    p := 0;
    for l := 1 to 17
      invariant p == Total(bits, l - 1) <= 256
      invariant p <= Total(bits, 16)
      invariant forall q :: 0 <= q < p ==> huffsize[q] == SizeAt(bits, q, 16)
    {
      var i := bits[l];
      TotalGrows(bits, l, 16);
      if p + i > 256 {
        return false, p;
      }
      var start := p;
      while i > 0
        invariant 0 <= i <= bits[l] && p == start + bits[l] - i
        invariant forall q :: 0 <= q < p ==> huffsize[q] == SizeAt(bits, q, 16)
      {
        SizeIs(bits, p, 16, l);
        huffsize[p] := l;
        p := p + 1;
        i := i - 1;
      }
    }
    huffsize[p] := 0;
    ok := true;
  }

  /** The code words (figure C.2); codes that leave no word of ones over are an error. */
  method MakeCodes(bits: Counts, huffsize: array<CodeSize>, huffcode: array<nat>) returns (ok: bool)
    requires huffsize.Length == huffcode.Length == 257
    requires Generated(bits, huffsize[..], huffcode[..], 0)
    modifies huffcode
    ensures ok <==> LeavesRoom(bits)
    ensures ok ==> Generated(bits, huffsize[..], huffcode[..], Total(bits, 16))
  {
    hide SizeAt, CodeAt, Longest, LeavesRoom;
    var code: nat, si: nat, p: nat := 0, huffsize[0], 0;
    ghost var sizes := huffsize[..];
    FirstSize(bits, sizes);
    while huffsize[p] != 0
      invariant huffsize[..] == sizes && p <= Total(bits, 16) <= 256
      invariant p < Total(bits, 16) ==> 1 <= si <= sizes[p]
      invariant Total(bits, 16) > 0 ==> 1 <= si <= 17 && p == Total(bits, si - 1) && code == 2 * Scaled(bits, si - 1)
      invariant 0 < p == Total(bits, 16) ==> bits[si - 1] > 0 && Scaled(bits, si - 1) < Pow2(si - 1)
      invariant forall q :: 0 <= q < p ==> huffcode[q] == CodeAt(bits, q)
      decreases 17 - si
    {
      SizeOk(bits, p);
      ghost var start := p;
      code, p := OneLength(bits, huffsize, huffcode, si, p, code, sizes);
      assert Total(bits, si) == Total(bits, si - 1) + bits[si];
      if code >= Pow2(si) {
        if LeavesRoom(bits) {
          RoomAtEveryLength(bits, si);
          assert false;
        }
        return false;
      }
      NextSize(bits, sizes, si, p);
      code := 2 * code;
      si := si + 1;
    }
    assert p == Total(bits, 16);
    RoomWhenDone(bits, si);
    ok := true;
  }

  /** The code words of one length. */
  method OneLength(bits: Counts, huffsize: array<CodeSize>, huffcode: array<nat>, si: nat, start: nat, code0: nat,
      ghost sizes: seq<nat>)
    returns (code: nat, p: nat)
    requires huffsize.Length == huffcode.Length == 257 && huffsize[..] == sizes
    requires Generated(bits, sizes, huffcode[..], start)
    requires 1 <= si <= 16 && start == Total(bits, si - 1) && code0 == 2 * Scaled(bits, si - 1)
    requires start < Total(bits, 16)
    modifies huffcode
    ensures p == Total(bits, si) && code == Scaled(bits, si) && Generated(bits, sizes, huffcode[..], p)
  {
    code, p := code0, start;
    TotalGrows(bits, si, 16);
    assert Total(bits, si) == Total(bits, si - 1) + bits[si];
    while huffsize[p] == si
      invariant huffsize[..] == sizes && start <= p <= Total(bits, si) && code == code0 + p - start
      invariant Generated(bits, sizes, huffcode[..], p)
      decreases Total(bits, si) - p
    {
      AtSize(bits, p, si);
      huffcode[p] := code;
      p := p + 1;
      code := code + 1;
    }
    if p < Total(bits, si) {
      SizeIs(bits, p, 16, si);
    }
  }

  /** The indexes of length si. */
  lemma AtSize(bits: Counts, p: nat, si: nat)
    requires |bits| == 17 && p < Total(bits, 16) && SizeAt(bits, p, 16) == si
    ensures p < Total(bits, si) && CodeAt(bits, p) == 2 * Scaled(bits, si - 1) + p - Total(bits, si - 1)
  {
  }

  lemma SizeOk(bits: Counts, p: nat)
    requires |bits| == 17 && p < Total(bits, 16)
    ensures 1 <= SizeAt(bits, p, 16) <= 16 && SizeAt(bits, p, 16) <= Longest(bits, 16)
  {
    SizeWithin(bits, p);
  }

  /** Nothing comes before the first length. */
  lemma FirstSize(bits: Counts, sizes: seq<nat>)
    requires |bits| == 17 && Total(bits, 16) <= 256 && |sizes| == 257
    requires Total(bits, 16) > 0 ==> sizes[0] == SizeAt(bits, 0, 16)
    ensures Total(bits, 16) > 0 ==>
      1 <= sizes[0] <= 16 && Total(bits, sizes[0] - 1) == 0 && Scaled(bits, sizes[0] - 1) == 0
  {
    if Total(bits, 16) > 0 {
      NoneScaled(bits, sizes[0] - 1);
    }
  }

  lemma {:induction false} NoneScaled(bits: Counts, n: nat)
    requires n < |bits| && Total(bits, n) == 0
    ensures Scaled(bits, n) == 0
  {
    if n > 0 {
      NoneScaled(bits, n - 1);
    }
  }

  /** After the words of length si, the next one is longer, or they were the last. */
  lemma NextSize(bits: Counts, sizes: seq<nat>, si: nat, p: nat)
    requires Generated(bits, sizes, sizes, 0) && 1 <= si <= 16 && p == Total(bits, si)
    ensures p < Total(bits, 16) ==> si < sizes[p]
    ensures Total(bits, si - 1) < p == Total(bits, 16) ==> bits[si] > 0
  {
    if p < Total(bits, 16) {
      var s := SizeAt(bits, p, 16);
      if s <= si {
        TotalGrows(bits, s, si);
      }
    }
  }

  lemma RoomWhenDone(bits: Counts, si: nat)
    requires |bits| == 17
    requires Total(bits, 16) > 0 ==>
      1 < si <= 17 && Total(bits, 16) == Total(bits, si - 1) && bits[si - 1] > 0 && Scaled(bits, si - 1) < Pow2(si - 1)
    ensures LeavesRoom(bits)
  {
    if Total(bits, 16) > 0 {
      NoneAfter(bits, si - 1, 16);
      LongestIs(bits, 16, si - 1);
    }
  }

  lemma {:induction false} NoneAfter(bits: Counts, m: nat, n: nat)
    requires m <= n < |bits| && Total(bits, n) == Total(bits, m)
    ensures forall k :: m < k <= n ==> bits[k] == 0
    decreases n
  {
    if m < n {
      TotalGrows(bits, m, n - 1);
      NoneAfter(bits, m, n - 1);
    }
  }

  // ----- encoder -----

  /** Code word and length by symbol (figure C.3); symbols out of range or listed twice are an error. */
  method MakeEncoderTable(t: Table, isDc: bool, ehufco: array<nat>, ehufsi: array<CodeSize>) returns (ok: bool)
    requires ehufco.Length == ehufsi.Length == 256
    modifies ehufco, ehufsi
    ensures ok <==> Accepted(t, isDc)
    ensures ok ==> Derives(t, Derived(ehufco[..], ehufsi[..]))
  {
    hide SizeAt, CodeAt, LeavesRoom, Total;
    var huffsize := new CodeSize[257](_ => 0);
    var huffcode := new nat[257](_ => 0);
    var lastp: nat;
    ok, lastp := MakeSizes(t.bits, huffsize);
    if !ok {
      return;
    }
    ok := MakeCodes(t.bits, huffsize, huffcode);
    if !ok {
      return;
    }
    ok := AssignCodes(t, isDc, huffsize[..], huffcode[..], lastp, ehufco, ehufsi);
  }

  method AssignCodes(t: Table, isDc: bool, huffsize: seq<CodeSize>, huffcode: seq<nat>, lastp: nat, ehufco: array<nat>,
      ehufsi: array<CodeSize>)
    returns (ok: bool)
    requires ehufco.Length == ehufsi.Length == 256
    requires lastp == Total(t.bits, 16) <= 256 && Generated(t.bits, huffsize, huffcode, lastp)
    modifies ehufco, ehufsi
    ensures ok <==> SymbolsOk(t.values, lastp, TopSymbol(isDc))
    ensures ok ==> Derives(t, Derived(ehufco[..], ehufsi[..]))
  {
    assert |huffsize| == |huffcode| == 257 && forall q :: 0 <= q < lastp ==> huffsize[q] > 0;
    hide CodeAt, Total, Generated, Derives;
    forall s | 0 <= s < 256 {
      ehufsi[s] := 0;
    }
    var maxsymbol := if isDc then 15 else 255;
    for p := 0 to lastp
      invariant SymbolsOk(t.values, p, maxsymbol)
      invariant forall q :: 0 <= q < p ==> ehufsi[t.values[q]] == huffsize[q] && ehufco[t.values[q]] == huffcode[q]
      invariant forall s :: 0 <= s < 256 && ehufsi[s] > 0 ==> exists q :: 0 <= q < p && t.values[q] == s
    {
      var i := t.values[p];
      if i > maxsymbol || ehufsi[i] != 0 {
        assert !SymbolsOk(t.values, lastp, maxsymbol);
        return false;
      }
      assert forall q :: 0 <= q < p ==> t.values[q] != i;
      ehufco[i] := huffcode[p];
      ehufsi[i] := huffsize[p];
    }
    ok := true;
    AssignedDerives(t, huffsize, huffcode, Derived(ehufco[..], ehufsi[..]));
  }

  lemma AssignedDerives(t: Table, huffsize: seq<nat>, huffcode: seq<nat>, d: Derived)
    requires Generated(t.bits, huffsize, huffcode, Total(t.bits, 16))
    requires forall q :: 0 <= q < Total(t.bits, 16) ==>
      d.size[t.values[q]] == huffsize[q] && d.code[t.values[q]] == huffcode[q]
    requires forall s :: 0 <= s < 256 && d.size[s] > 0 ==> exists q :: 0 <= q < Total(t.bits, 16) && t.values[q] == s
    ensures Derives(t, d)
  {
    hide CodeAt, Total, SizeAt;
  }

  // ----- decoder -----

  const HUFF_LOOKAHEAD := 8

  /** The index of the code word that `code`, taken as l bits, starts with. */
  function Match(bits: Counts, code: nat, l: nat): (p: nat)
    requires l < |bits| && code < Scaled(bits, l)
    ensures p < Total(bits, l)
  {
    if code / 2 < Scaled(bits, l - 1) then Match(bits, code / 2, l - 1)
    else Total(bits, l - 1) + code - 2 * Scaled(bits, l - 1)
  }

  /** It is the only one. */
  lemma {:induction false} MatchIs(bits: Counts, p: nat, l: nat, code: nat)
    requires |bits| == 17 && l <= 16 && p < Total(bits, 16)
    requires var s := SizeAt(bits, p, 16);
      s <= l && code / Pow2(l - s) == CodeAt(bits, p)
    ensures code < Scaled(bits, l) && Match(bits, code, l) == p
    decreases l
  {
    var s := SizeAt(bits, p, 16);
    assert Total(bits, s) == Total(bits, s - 1) + bits[s];
    if l == s {
      assert Pow2(0) == 1 && code / 1 == code;
    } else {
      HalfFirst(code, Pow2(l - 1 - s));
      assert Pow2(l - s) == 2 * Pow2(l - 1 - s);
      MatchIs(bits, p, l - 1, code / 2);
    }
  }

  lemma HalfFirst(x: nat, p: nat)
    requires p > 0
    ensures x / (2 * p) == x / 2 / p
  {
    KraftInequality.QuotientTwice(x, 2, p);
  }

  /** What a decoder derives from a table. */
  ghost predicate DecoderLimits(t: Table, maxcode: seq<int>, valoffset: seq<int>)
  {
    && |maxcode| == 18 && |valoffset| == 17 && maxcode[17] == 0xF_FFFF
    && forall l :: 1 <= l <= 16 ==> LimitsAt(t, l, maxcode[l], valoffset[l])
  }

  /** The greatest code word of l bits, and what leads from a code word to its symbol. */
  ghost predicate LimitsAt(t: Table, l: nat, maxcode: int, valoffset: int)
    requires 1 <= l <= 16
  {
    if t.bits[l] == 0 then maxcode == -1
    else maxcode == Scaled(t.bits, l) - 1 && valoffset == Total(t.bits, l - 1) - 2 * Scaled(t.bits, l - 1)
  }

  ghost predicate LookedUp(t: Table, nbits: seq<nat>, sym: seq<nat>, x: nat)
    requires x < |nbits| && x < |sym|
  {
    if x < Scaled(t.bits, 8) then
      nbits[x] == SizeAt(t.bits, Match(t.bits, x, 8), 8) && Match(t.bits, x, 8) < 256
        && sym[x] == t.values[Match(t.bits, x, 8)]
    else nbits[x] == 0
  }

  ghost predicate DecoderLookahead(t: Table, nbits: seq<nat>, sym: seq<nat>)
  {
    |nbits| == |sym| == 256 && forall x :: 0 <= x < 256 ==> LookedUp(t, nbits, sym, x)
  }

  /** Tables a decoder accepts; it does not object to a symbol listed twice. */
  predicate DecoderAccepts(t: Table, isDc: bool)
  {
    Total(t.bits, 16) <= 256 && LeavesRoom(t.bits)
    && (isDc ==> forall p :: 0 <= p < Total(t.bits, 16) ==> t.values[p] <= 15)
  }

  /** The limits of each length (figure F.15). */
  method MakeLimits(t: Table, huffsize: seq<nat>, huffcode: seq<nat>, maxcode: array<int>, valoffset: array<int>)
    requires maxcode.Length == 18 && valoffset.Length == 17 && maxcode != valoffset
    requires Generated(t.bits, huffsize, huffcode, Total(t.bits, 16))
    modifies maxcode, valoffset
    ensures DecoderLimits(t, maxcode[..], valoffset[..])
  {
    assert |t.bits| == 17 && |huffcode| == 257;
    hide SizeAt, CodeAt, Total, Scaled, Generated;
    var p := 0;
    TotalZero(t.bits);
    for l := 1 to 17
      invariant p == Total(t.bits, l - 1)
      invariant forall k :: 1 <= k < l ==> LimitsAt(t, k, maxcode[k], valoffset[k])
    {
      EndsGenerated(t.bits, huffsize, huffcode, l);
      if t.bits[l] != 0 {
        valoffset[l] := p - huffcode[p];
        p := p + t.bits[l];
        maxcode[l] := huffcode[p - 1];
      } else {
        maxcode[l] := -1;
      }
    }
    maxcode[17] := 0xF_FFFF;
  }

  lemma TotalZero(bits: Counts)
    requires bits != []
    ensures Total(bits, 0) == 0 && Scaled(bits, 0) == 0
  {
  }

  /** The first and the last code word of a length. */
  lemma ScaledStep(bits: Counts, l: nat)
    requires 1 <= l < |bits|
    ensures Scaled(bits, l) == 2 * Scaled(bits, l - 1) + bits[l]
  {
  }

  lemma EndCodes(bits: Counts, l: nat)
    requires |bits| == 17 && 1 <= l <= 16
    ensures Total(bits, l) == Total(bits, l - 1) + bits[l] <= Total(bits, 16)
    ensures bits[l] > 0 ==>
      CodeAt(bits, Total(bits, l - 1)) == 2 * Scaled(bits, l - 1)
        && CodeAt(bits, Total(bits, l) - 1) == Scaled(bits, l) - 1
  {
    hide Total, Scaled, SizeAt;
    TotalStep(bits, l);
    ScaledStep(bits, l);
    if bits[l] > 0 {
      SizeIs(bits, Total(bits, l - 1), 16, l);
      SizeIs(bits, Total(bits, l) - 1, 16, l);
    }
  }

  lemma EndsGenerated(bits: Counts, huffsize: seq<nat>, huffcode: seq<nat>, l: nat)
    requires |bits| == 17 && Generated(bits, huffsize, huffcode, Total(bits, 16)) && 1 <= l <= 16
    ensures Total(bits, l) == Total(bits, l - 1) + bits[l] <= 256
    ensures bits[l] > 0 ==>
      huffcode[Total(bits, l - 1)] == 2 * Scaled(bits, l - 1) && huffcode[Total(bits, l) - 1] == Scaled(bits, l) - 1
  {
    hide SizeAt, CodeAt, Total, Scaled;
    EndCodes(bits, l);
  }

  /** Left-justified to 8 bits, code words follow each other without gaps. */
  ghost predicate Filled(t: Table, nbits: seq<nat>, sym: seq<nat>, end: nat)
  {
    && |nbits| == |sym| == 256 && end <= 256 && end <= Scaled(t.bits, 8)
    && (forall x :: 0 <= x < end ==> LookedUp(t, nbits, sym, x))
    && forall x :: end <= x < 256 ==> nbits[x] == 0
  }

  /** The code word at index p is `code`, of l bits. */
  ghost predicate CodeWord(bits: Counts, p: nat, l: nat, code: nat) {
    |bits| == 17 && p < Total(bits, 16) && SizeAt(bits, p, 16) == l && code == CodeAt(bits, p)
  }

  /** The entries that start with one code word. */
  method FillEntries(t: Table, p: nat, l: nat, code: nat, nbits: array<nat>, sym: array<nat>)
    requires nbits.Length == sym.Length == 256 && nbits != sym
    requires 1 <= l <= 8 && LeavesRoom(t.bits) && CodeWord(t.bits, p, l, code) && p < 256
    requires Filled(t, nbits[..], sym[..], code * Pow2(8 - l))
    modifies nbits, sym
    ensures Filled(t, nbits[..], sym[..], (code + 1) * Pow2(8 - l))
  {
    hide LeavesRoom, CodeAt, Scaled, Total, SizeAt, Match, Filled, Pow2;
    var lookbits := code * Pow2(8 - l);
    ghost var start := lookbits;
    EntriesFit(t.bits, p, l);
    var ctr := Pow2(8 - l);
    assert (code + 1) * Pow2(8 - l) == start + Pow2(8 - l);
    while ctr > 0
      invariant 0 <= ctr <= Pow2(8 - l) && lookbits == start + Pow2(8 - l) - ctr
      invariant Filled(t, nbits[..], sym[..], lookbits)
    {
      EntryMatches(t.bits, p, l, lookbits);
      ghost var n0, s0 := nbits[..], sym[..];
      nbits[lookbits] := l;
      sym[lookbits] := t.values[p];
      FilledOneMore(t, n0, s0, lookbits, l, p);
      assert nbits[..] == n0[lookbits := l] && sym[..] == s0[lookbits := t.values[p]];
      lookbits := lookbits + 1;
      ctr := ctr - 1;
    }
  }

  lemma FilledOneMore(t: Table, nbits: seq<nat>, sym: seq<nat>, x: nat, l: nat, p: nat)
    requires Filled(t, nbits, sym, x) && x < 256 && x < Scaled(t.bits, 8) && p < 256
    requires Match(t.bits, x, 8) == p && p < Total(t.bits, 8) && SizeAt(t.bits, p, 8) == l
    ensures Filled(t, nbits[x := l], sym[x := t.values[p]], x + 1)
  {
    var n1, s1 := nbits[x := l], sym[x := t.values[p]];
    EntrySet(t, n1, s1, x, l, p);
    forall y: nat | y < x
      ensures LookedUp(t, n1, s1, y)
    {
      assert LookedUp(t, nbits, sym, y);
      EntryKept(t, nbits, sym, n1, s1, y);
    }
    hide LookedUp;
  }

  lemma EntrySet(t: Table, nbits: seq<nat>, sym: seq<nat>, x: nat, l: nat, p: nat)
    requires x < |nbits| && x < |sym| && x < Scaled(t.bits, 8) && p < 256
    requires Match(t.bits, x, 8) == p && p < Total(t.bits, 8) && SizeAt(t.bits, p, 8) == l
    requires nbits[x] == l && sym[x] == t.values[p]
    ensures LookedUp(t, nbits, sym, x)
  {
  }

  lemma EntryKept(t: Table, nbits: seq<nat>, sym: seq<nat>, n1: seq<nat>, s1: seq<nat>, y: nat)
    requires y < |nbits| && y < |sym| && y < |n1| && y < |s1|
    requires LookedUp(t, nbits, sym, y) && n1[y] == nbits[y] && s1[y] == sym[y]
    ensures LookedUp(t, n1, s1, y)
  {
  }

  lemma EntriesFit(bits: Counts, p: nat, l: nat)
    requires |bits| == 17 && LeavesRoom(bits) && 1 <= l <= 8 && p < Total(bits, 16) && SizeAt(bits, p, 16) == l
    ensures (CodeAt(bits, p) + 1) * Pow2(8 - l) <= 256 && (CodeAt(bits, p) + 1) * Pow2(8 - l) <= Scaled(bits, 8)
  {
    NotAllOnes(bits, p);
    AtSize(bits, p, l);
    assert Total(bits, l) == Total(bits, l - 1) + bits[l];
    hide Pow2, Total, LeavesRoom, CodeAt;
    AtMost(CodeAt(bits, p) + 1, Scaled(bits, l), Pow2(8 - l));
    ScaledGrows(bits, l, 8);
    AtMost(CodeAt(bits, p) + 1, Pow2(l), Pow2(8 - l));
    Pow2Sum(l, 8 - l);
    Pow2Eight();
  }

  lemma EntryMatches(bits: Counts, p: nat, l: nat, x: nat)
    requires |bits| == 17 && 1 <= l <= 8 && p < Total(bits, 16) && SizeAt(bits, p, 16) == l
    requires CodeAt(bits, p) * Pow2(8 - l) <= x < CodeAt(bits, p) * Pow2(8 - l) + Pow2(8 - l)
    ensures x < Scaled(bits, 8) && Match(bits, x, 8) == p && p < Total(bits, 8) && SizeAt(bits, p, 8) == l
  {
    AtSize(bits, p, l);
    TotalGrows(bits, l, 8);
    SizeIs(bits, p, 8, l);
    hide Pow2, CodeAt;
    Remainder(x, Pow2(8 - l), CodeAt(bits, p), x - CodeAt(bits, p) * Pow2(8 - l));
    MatchIs(bits, p, 8, x);
  }

  /** The next code word starts where the last one ends. */
  lemma NextStart(bits: Counts, l: nat, i: nat)
    requires |bits| == 17 && 1 <= l <= 8 && i < bits[l] && Total(bits, 16) <= 256
    ensures CodeWord(bits, Total(bits, l - 1) + i, l, 2 * Scaled(bits, l - 1) + i)
    ensures Total(bits, l - 1) + i < Total(bits, 16)
  {
    hide Scaled, SizeAt, Total;
    TotalStep(bits, l);
    SizeIs(bits, Total(bits, l - 1) + i, 16, l);
  }

  /** Where code words of length l begin, left-justified to 8 bits. */
  lemma LengthStart(bits: Counts, l: nat)
    requires l < |bits| && 1 <= l <= 8
    ensures Scaled(bits, l) == 2 * Scaled(bits, l - 1) + bits[l]
    ensures l < 8 ==> Scaled(bits, l) * Pow2(8 - l) == 2 * Scaled(bits, l) * Pow2(8 - (l + 1))
  {
    if l < 8 {
      assert Pow2(8 - l) == 2 * Pow2(8 - (l + 1));
      Doubled(Scaled(bits, l), Pow2(8 - (l + 1)));
      Associate(2, Scaled(bits, l), Pow2(8 - (l + 1)));
    }
  }

  /** The lookahead tables. */
  method MakeLookahead(t: Table, huffsize: seq<nat>, huffcode: seq<nat>, nbits: array<nat>, sym: array<nat>)
    requires nbits.Length == sym.Length == 256 && nbits != sym
    requires LeavesRoom(t.bits) && Total(t.bits, 16) <= 256 && Generated(t.bits, huffsize, huffcode, Total(t.bits, 16))
    modifies nbits, sym
    ensures DecoderLookahead(t, nbits[..], sym[..])
  {
    hide SizeAt, CodeAt, Total, Scaled, Filled, LookedUp, LeavesRoom, Match;
    forall x | 0 <= x < 256 {
      nbits[x] := 0;
    }
    var p := 0;
    TotalZero(t.bits);
    NothingFilled(t, nbits[..], sym[..]);
    for l := 1 to HUFF_LOOKAHEAD + 1
      invariant p == Total(t.bits, l - 1)
      invariant Filled(t, nbits[..], sym[..],
        if l == 9 then Scaled(t.bits, 8) else 2 * Scaled(t.bits, l - 1) * Pow2(8 - l))
    {
      p := FillLength(t, huffsize, huffcode, l, p, nbits, sym);
      LengthStart(t.bits, l);
      Pow2Zero();
    }
    FilledAll(t, nbits[..], sym[..]);
  }

  /** The code words of one length. */
  method FillLength(t: Table, huffsize: seq<nat>, huffcode: seq<nat>, l: nat, start: nat, nbits: array<nat>,
      sym: array<nat>) returns (p: nat)
    requires nbits.Length == sym.Length == 256 && nbits != sym && 1 <= l <= 8
    requires LeavesRoom(t.bits) && Generated(t.bits, huffsize, huffcode, Total(t.bits, 16))
    requires start == Total(t.bits, l - 1) && Filled(t, nbits[..], sym[..], 2 * Scaled(t.bits, l - 1) * Pow2(8 - l))
    modifies nbits, sym
    ensures p == Total(t.bits, l) && Filled(t, nbits[..], sym[..], Scaled(t.bits, l) * Pow2(8 - l))
  {
    hide SizeAt, CodeAt, Total, Scaled, Filled, LeavesRoom, Pow2;
    p := start;
    EndCodes(t.bits, l);
    LengthStart(t.bits, l);
    for i := 1 to t.bits[l] + 1
      invariant p == start + i - 1
      invariant Filled(t, nbits[..], sym[..], (2 * Scaled(t.bits, l - 1) + (i - 1)) * Pow2(8 - l))
    {
      NextStart(t.bits, l, i - 1);
      assert huffcode[p] == 2 * Scaled(t.bits, l - 1) + (i - 1) by { CodeOf(t.bits, huffsize, huffcode, p, l); }
      FillEntries(t, p, l, huffcode[p], nbits, sym);
      p := p + 1;
    }
  }

  lemma CodeOf(bits: Counts, huffsize: seq<nat>, huffcode: seq<nat>, p: nat, l: nat)
    requires |bits| == 17 && Generated(bits, huffsize, huffcode, Total(bits, 16)) && p < Total(bits, 16)
    requires exists c :: CodeWord(bits, p, l, c)
    ensures CodeWord(bits, p, l, huffcode[p])
  {
  }

  lemma NothingFilled(t: Table, nbits: seq<nat>, sym: seq<nat>)
    requires |nbits| == |sym| == 256 && forall x :: 0 <= x < 256 ==> nbits[x] == 0
    ensures Filled(t, nbits, sym, 2 * Scaled(t.bits, 0) * Pow2(8 - 1))
  {
  }

  lemma FilledAll(t: Table, nbits: seq<nat>, sym: seq<nat>)
    requires Filled(t, nbits, sym, Scaled(t.bits, 8))
    ensures DecoderLookahead(t, nbits, sym)
  {
    hide Match, Scaled;
    forall x: nat | x < 256
      ensures LookedUp(t, nbits, sym, x)
    {
      if x >= Scaled(t.bits, 8) {
        assert nbits[x] == 0;
      }
    }
  }

  /** A decoder's table. */
  datatype Decoder = Decoder(t: Table, maxcode: seq<int>, valoffset: seq<int>, lookNbits: seq<nat>, lookSym: seq<nat>)

  ghost predicate ValidDecoder(d: Decoder) {
    && Total(d.t.bits, 16) <= 256 && LeavesRoom(d.t.bits)
    && DecoderLimits(d.t, d.maxcode, d.valoffset) && DecoderLookahead(d.t, d.lookNbits, d.lookSym)
  }

  datatype Option<T> = None | Some(value: T)

  method MakeDecoderTable(t: Table, isDc: bool) returns (r: Option<Decoder>)
    ensures r.Some? <==> DecoderAccepts(t, isDc)
    ensures r.Some? ==> r.value.t == t && ValidDecoder(r.value)
  {
    hide SizeAt, CodeAt, LeavesRoom, Total, Scaled;
    var huffsize := new CodeSize[257](_ => 0);
    var huffcode := new nat[257](_ => 0);
    var ok, numsymbols := MakeSizes(t.bits, huffsize);
    if !ok {
      return None;
    }
    ok := MakeCodes(t.bits, huffsize, huffcode);
    if !ok {
      return None;
    }
    var maxcode := new int[18](_ => 0);
    var valoffset := new int[17](_ => 0);
    MakeLimits(t, huffsize[..], huffcode[..], maxcode, valoffset);
    var nbits := new nat[256](_ => 0);
    var sym := new nat[256](_ => 0);
    MakeLookahead(t, huffsize[..], huffcode[..], nbits, sym);
    if isDc {
      for i := 0 to numsymbols
        invariant forall q :: 0 <= q < i ==> t.values[q] <= 15
      {
        if t.values[i] > 15 {
          return None;
        }
      }
    }
    r := Some(Decoder(t, maxcode[..], valoffset[..], nbits[..], sym[..]));
  }
}
