/** The recommended progressive script: what the generator fills in, that it is as long as announced,
    legal, and complete, for any number of components; and the cutting down of a script to the
    coefficients of smaller blocks. */
module SimpleProgression {
  import opened ScanScript

  // ----- what is generated -----

  function OneScan(c: nat, ss: int, se: int, ah: int, al: int): ScanInfo { ScanInfo([c], ss, se, ah, al) }

  /** One scan for each component. */
  function Scans(n: nat, ss: int, se: int, ah: int, al: int): (r: seq<ScanInfo>)
    ensures |r| == n
  {
    seq(n, c requires 0 <= c < n => OneScan(c, ss, se, ah, al))
  }

  function Indexes(n: nat): (r: seq<int>)
    ensures |r| == n
  {
    seq(n, c => c)
  }

  /** One interleaved DC scan if possible, else one for each component. */
  function DcScans(n: nat, ah: int, al: int): seq<ScanInfo> {
    if n <= MAX_COMPS_IN_SCAN then [ScanInfo(Indexes(n), 0, 0, ah, al)] else Scans(n, 0, 0, ah, al)
  }

  /** The script for three components of luminance and chrominance. */
  function ColourScript(): seq<ScanInfo> {
    DcScans(3, 0, 1)
    + [OneScan(0, 1, 5, 0, 2), OneScan(2, 1, 63, 0, 1), OneScan(1, 1, 63, 0, 1),
       OneScan(0, 6, 63, 0, 2), OneScan(0, 1, 63, 2, 1)]
    + DcScans(3, 1, 0)
    + [OneScan(2, 1, 63, 1, 0), OneScan(1, 1, 63, 1, 0), OneScan(0, 1, 63, 1, 0)]
  }

  /** The script for all else. */
  function PlainScript(n: nat): seq<ScanInfo> {
    DcScans(n, 0, 1) + Scans(n, 1, 5, 0, 2) + Scans(n, 6, 63, 0, 2) + Scans(n, 1, 63, 2, 1)
    + DcScans(n, 1, 0) + Scans(n, 1, 63, 1, 0)
  }

  function Recommended(n: nat, colour: bool): seq<ScanInfo> {
    if n == 3 && colour then ColourScript() else PlainScript(n)
  }

  // ----- the generator -----

  /** Entries from `at` on are those of `scans`, the ones before are as they were. */
  twostate predicate Filled(space: array<ScanInfo>, at: nat, scans: seq<ScanInfo>)
    reads space
  {
    at + |scans| <= space.Length && space[..at + |scans|] == old(space[..at]) + scans
  }

  method FillAScan(space: array<ScanInfo>, at: nat, c: nat, ss: int, se: int, ah: int, al: int) returns (next: nat)
    requires at < space.Length
    modifies space
    ensures next == at + 1 && Filled(space, at, [OneScan(c, ss, se, ah, al)])
  {
    space[at] := ScanInfo([c], ss, se, ah, al);
    next := at + 1;
  }

  method FillScans(space: array<ScanInfo>, at: nat, n: nat, ss: int, se: int, ah: int, al: int) returns (next: nat)
    requires at + n <= space.Length
    modifies space
    ensures next == at + n && Filled(space, at, Scans(n, ss, se, ah, al))
  {
    next := at;
    for c := 0 to n
      invariant next == at + c
      invariant space[..at] == old(space[..at])
      invariant forall i :: 0 <= i < c ==> space[at + i] == OneScan(i, ss, se, ah, al)
    {
      space[next] := ScanInfo([c], ss, se, ah, al);
      next := next + 1;
    }
  }

  method FillDcScans(space: array<ScanInfo>, at: nat, n: nat, ah: int, al: int) returns (next: nat)
    requires at + |DcScans(n, ah, al)| <= space.Length
    modifies space
    ensures next == at + |DcScans(n, ah, al)| && Filled(space, at, DcScans(n, ah, al))
  {
    if n <= MAX_COMPS_IN_SCAN {
      var comps: seq<int> := [];
      for c := 0 to n
        invariant comps == Indexes(c)
      {
        comps := comps + [c];
      }
      space[at] := ScanInfo(comps, 0, 0, ah, al);
      next := at + 1;
    } else {
      next := FillScans(space, at, n, 0, 0, ah, al);
    }
  }

  /** The number of scans, computed ahead of filling them in. */
  function ScanCount(n: nat, colour: bool): nat {
    if n == 3 && colour then 10
    else if n > MAX_COMPS_IN_SCAN then 6 * n else 2 + 4 * n
  }

  /** The computation matches what is filled in. */
  lemma CountMatches(n: nat, colour: bool)
    ensures |Recommended(n, colour)| == ScanCount(n, colour)
  {
  }

  /** Generate the recommended script.  Space is taken over from an earlier call if it is large
      enough; new space always has room for the ten scans of the colour script. */
  method Generate(n: nat, colour: bool, oldSpace: array?<ScanInfo>) returns (space: array<ScanInfo>, numScans: nat)
    modifies oldSpace
    ensures numScans == ScanCount(n, colour) <= space.Length
    ensures space[..numScans] == Recommended(n, colour)
    ensures if oldSpace == null || oldSpace.Length < numScans then fresh(space) && space.Length >= 10
            else space == oldSpace
  {
    hide Scans, DcScans;
    numScans := if n == 3 && colour then 10
                 else if n > MAX_COMPS_IN_SCAN then 6 * n else 2 + 4 * n;
    if oldSpace == null || oldSpace.Length < numScans {
      space := new ScanInfo[if numScans > 10 then numScans else 10](_ => ScanInfo([], 0, 0, 0, 0));
    } else {
      space := oldSpace;
    }
    if n == 3 && colour {
      GenerateColour(space);
    } else {
      GeneratePlain(n, space);
    }
  }

  method GenerateColour(space: array<ScanInfo>)
    requires 10 <= space.Length
    modifies space
    ensures space[..10] == ColourScript()
  {
    ColourFirst(space);
    var at := FillAScan(space, 5, 0, 1, 63, 2, 1);
    ColourLast(space, at);
  }

  /** First pass, colour. */
  method ColourFirst(space: array<ScanInfo>)
    requires 10 <= space.Length
    modifies space
    ensures space[..5] == ColourScript()[..5]
  {
    hide Scans, OneScan, Indexes;
    var at := FillDcScans(space, 0, 3, 0, 1);
    at := FillAScan(space, at, 0, 1, 5, 0, 2);
    at := FillAScan(space, at, 2, 1, 63, 0, 1);
    at := FillAScan(space, at, 1, 1, 63, 0, 1);
    at := FillAScan(space, at, 0, 6, 63, 0, 2);
  }

  /** Final pass, colour. */
  method ColourLast(space: array<ScanInfo>, start: nat)
    requires 10 <= space.Length && start == 6
    modifies space
    ensures space[..6] == old(space[..6]) && space[6..10] == ColourScript()[6..]
  {
    hide Scans, OneScan, Indexes;
    var at := FillDcScans(space, start, 3, 1, 0);
    at := FillAScan(space, at, 2, 1, 63, 1, 0);
    at := FillAScan(space, at, 1, 1, 63, 1, 0);
    at := FillAScan(space, at, 0, 1, 63, 1, 0);
  }

  method GeneratePlain(n: nat, space: array<ScanInfo>)
    requires ScanCount(n, false) <= space.Length
    modifies space
    ensures space[..ScanCount(n, false)] == PlainScript(n)
  {
    CountMatches(n, false);
    var at := FillFirstPasses(n, space);
    at := FillLastPasses(n, space, at);
    assert FirstPasses(n) + LastPasses(n) == PlainScript(n) by { TwoHalves(n); }
  }

  /** Successive approximation, first pass. */
  function FirstPasses(n: nat): seq<ScanInfo> {
    DcScans(n, 0, 1) + Scans(n, 1, 5, 0, 2) + Scans(n, 6, 63, 0, 2)
  }

  /** Second and final pass. */
  function LastPasses(n: nat): seq<ScanInfo> {
    Scans(n, 1, 63, 2, 1) + DcScans(n, 1, 0) + Scans(n, 1, 63, 1, 0)
  }

  lemma TwoHalves(n: nat)
    ensures FirstPasses(n) + LastPasses(n) == PlainScript(n)
  {
    hide Scans, DcScans;
  }

  method FillFirstPasses(n: nat, space: array<ScanInfo>) returns (next: nat)
    requires |FirstPasses(n)| <= space.Length
    modifies space
    ensures next == |FirstPasses(n)| && Filled(space, 0, FirstPasses(n))
  {
    hide Scans, DcScans;
    next := FillDcScans(space, 0, n, 0, 1);
    next := FillScans(space, next, n, 1, 5, 0, 2);
    next := FillScans(space, next, n, 6, 63, 0, 2);
  }

  method FillLastPasses(n: nat, space: array<ScanInfo>, at: nat) returns (next: nat)
    requires at + |LastPasses(n)| <= space.Length
    modifies space
    ensures next == at + |LastPasses(n)| && Filled(space, at, LastPasses(n))
  {
    hide Scans, DcScans;
    next := FillScans(space, at, n, 1, 63, 2, 1);
    next := FillDcScans(space, next, n, 1, 0);
    next := FillScans(space, next, n, 1, 63, 1, 0);
  }

  // ----- legality -----

  /** Progress of a component at the generator's granularity: the DC coefficient, AC coefficients 1 to 5,
      and the rest. */
  datatype Bits = Bits(dc: int, low: int, high: int)

  function Row(t: Bits): (r: seq<int>)
    ensures |r| == 64
  {
    seq(64, k => if k == 0 then t.dc else if k <= 5 then t.low else t.high)
  }

  function Rows(ts: seq<Bits>): (r: Progress)
    ensures |r| == |ts|
  {
    seq(|ts|, c requires 0 <= c < |ts| => Row(ts[c]))
  }

  /** The bands the generator uses. */
  predicate StockBand(s: ScanInfo) {
    (s.ss, s.se) == (0, 0) || (s.ss, s.se) == (1, 5) || (s.ss, s.se) == (6, 63) || (s.ss, s.se) == (1, 63)
  }

  function Send(t: Bits, s: ScanInfo): Bits {
    if s.ss == 0 then t.(dc := s.al)
    else if s.ss == 6 then t.(high := s.al)
    else if s.se == 5 then t.(low := s.al)
    else t.(low := s.al, high := s.al)
  }

  predicate Allowed(t: Bits, s: ScanInfo) {
    if s.ss == 0 then CoefficientOk(t.dc, s)
    else
      && 0 <= t.dc
      && (s.ss == 1 ==> CoefficientOk(t.low, s))
      && (s.se == 63 ==> CoefficientOk(t.high, s))
  }

  /** A script is legal so far and has made the progress ts. */
  ghost predicate Reached(n: nat, script: seq<ScanInfo>, ts: seq<Bits>) {
    |ts| == n && StepsOk(n, script) && AdvanceAll(NothingSent(n), script) == Rows(ts)
  }

  function SendAll(ts: seq<Bits>, s: ScanInfo): (r: seq<Bits>)
    ensures |r| == |ts|
  {
    seq(|ts|, c requires 0 <= c < |ts| => if c in s.comps then Send(ts[c], s) else ts[c])
  }

  lemma RowAllowed(t: Bits, s: ScanInfo)
    requires StockBand(s) && ParametersOk(s) && Allowed(t, s)
    ensures ComponentOk(Row(t), s)
  {
  }

  lemma RowsSent(ts: seq<Bits>, s: ScanInfo)
    requires StockBand(s)
    ensures Advance(Rows(ts), s) == Rows(SendAll(ts, s))
  {
    SameProgress(Advance(Rows(ts), s), Rows(SendAll(ts, s)));
  }

  lemma NothingReached(n: nat)
    ensures Reached(n, [], Uniform(n, Bits(-1, -1, -1)))
  {
    SameProgress(NothingSent(n), Rows(Uniform(n, Bits(-1, -1, -1))));
  }

  /** One more scan. */
  lemma Reach(n: nat, script: seq<ScanInfo>, ts: seq<Bits>, s: ScanInfo)
    requires Reached(n, script, ts) && ComponentsOk(n, s.comps) && ParametersOk(s) && StockBand(s)
    requires forall i :: 0 <= i < |s.comps| ==> Allowed(ts[s.comps[i]], s)
    ensures Reached(n, script + [s], SendAll(ts, s))
  {
    hide Row, Advance, Allowed, SendAll, ParametersOk, StockBand, Send, ComponentOk;
    assert (script + [s])[..|script|] == script;
    forall i | 0 <= i < |s.comps|
      ensures ComponentOk(Rows(ts)[s.comps[i]], s)
    {
      RowAllowed(ts[s.comps[i]], s);
    }
    RowsSent(ts, s);
  }

  function Uniform(n: nat, t: Bits): (ts: seq<Bits>)
    ensures |ts| == n
  {
    seq(n, _ => t)
  }

  /** The first c of n components have received the scan. */
  function PartlySent(n: nat, c: nat, t: Bits, s: ScanInfo): (ts: seq<Bits>)
    ensures |ts| == n
  {
    seq(n, i => if i < c then Send(t, s) else t)
  }

  lemma {:induction false} ReachSome(n: nat, script: seq<ScanInfo>, t: Bits, s: ScanInfo, c: nat)
    requires Reached(n, script, Uniform(n, t)) && |s.comps| == 1 && ParametersOk(s) && StockBand(s) && Allowed(t, s)
    requires c <= n
    ensures Reached(n, script + Scans(n, s.ss, s.se, s.ah, s.al)[..c], PartlySent(n, c, t, s))
    decreases c
  {
    hide Reached, Send, Allowed, ParametersOk, StockBand;
    var scans := Scans(n, s.ss, s.se, s.ah, s.al);
    if c == 0 {
      assert script + scans[..0] == script;
      assert PartlySent(n, 0, t, s) == Uniform(n, t);
    } else {
      ReachSome(n, script, t, s, c - 1);
      var one := OneScan(c - 1, s.ss, s.se, s.ah, s.al);
      assert script + scans[..c] == script + scans[..c - 1] + [one];
      SameScan(t, s, one);
      Reach(n, script + scans[..c - 1], PartlySent(n, c - 1, t, s), one);
      assert SendAll(PartlySent(n, c - 1, t, s), one) == PartlySent(n, c, t, s);
    }
  }

  lemma SameScan(t: Bits, s: ScanInfo, one: ScanInfo)
    requires one.ss == s.ss && one.se == s.se && one.ah == s.ah && one.al == s.al && |s.comps| == |one.comps|
    ensures Send(t, one) == Send(t, s) && Allowed(t, one) == Allowed(t, s)
    ensures ParametersOk(one) == ParametersOk(s) && StockBand(one) == StockBand(s)
  {
  }

  /** One scan for each component. */
  lemma ReachScans(n: nat, script: seq<ScanInfo>, t: Bits, ss: int, se: int, ah: int, al: int)
    requires var s := OneScan(0, ss, se, ah, al);
      Reached(n, script, Uniform(n, t)) && ParametersOk(s) && StockBand(s) && Allowed(t, s)
    ensures Reached(n, script + Scans(n, ss, se, ah, al), Uniform(n, Send(t, OneScan(0, ss, se, ah, al))))
  {
    hide Reached, Send, Allowed, ParametersOk, StockBand;
    var s := OneScan(0, ss, se, ah, al);
    ReachSome(n, script, t, s, n);
    assert Scans(n, ss, se, ah, al)[..n] == Scans(n, ss, se, ah, al);
    assert PartlySent(n, n, t, s) == Uniform(n, Send(t, s));
  }

  /** DC data for every component. */
  lemma ReachDc(n: nat, script: seq<ScanInfo>, t: Bits, ah: int, al: int)
    requires n >= 1 && Reached(n, script, Uniform(n, t))
    requires 0 <= ah <= MAX_AH_AL && 0 <= al <= MAX_AH_AL && Allowed(t, OneScan(0, 0, 0, ah, al))
    ensures Reached(n, script + DcScans(n, ah, al), Uniform(n, t.(dc := al)))
  {
    hide Reached;
    if n <= MAX_COMPS_IN_SCAN {
      var s := ScanInfo(Indexes(n), 0, 0, ah, al);
      Reach(n, script, Uniform(n, t), s);
      forall c | 0 <= c < n
        ensures c in s.comps
      {
        assert s.comps[c] == c;
      }
      assert SendAll(Uniform(n, t), s) == Uniform(n, t.(dc := al));
    } else {
      ReachScans(n, script, t, 0, 0, ah, al);
    }
  }

  lemma PlainReached(n: nat)
    requires n >= 1
    ensures Reached(n, PlainScript(n), Uniform(n, Bits(0, 0, 0)))
  {
    hide Reached, Scans, DcScans, Uniform;
    NothingReached(n);
    var script := DcScans(n, 0, 1);
    ReachDc(n, [], Bits(-1, -1, -1), 0, 1);
    assert [] + script == script;
    ReachScans(n, script, Bits(1, -1, -1), 1, 5, 0, 2);
    script := script + Scans(n, 1, 5, 0, 2);
    ReachScans(n, script, Bits(1, 2, -1), 6, 63, 0, 2);
    script := script + Scans(n, 6, 63, 0, 2);
    ReachScans(n, script, Bits(1, 2, 2), 1, 63, 2, 1);
    script := script + Scans(n, 1, 63, 2, 1);
    ReachDc(n, script, Bits(1, 1, 1), 1, 0);
    script := script + DcScans(n, 1, 0);
    ReachScans(n, script, Bits(0, 1, 1), 1, 63, 1, 0);
  }

  /** One more scan of the colour script. */
  lemma ReachOne(script: seq<ScanInfo>, ts: seq<Bits>, c: nat, ss: int, se: int, ah: int, al: int, next: seq<Bits>)
    requires c < 3 && Reached(3, script, ts)
    requires var s := OneScan(c, ss, se, ah, al);
      ParametersOk(s) && StockBand(s) && Allowed(ts[c], s) && next == ts[c := Send(ts[c], s)]
    ensures Reached(3, script + [OneScan(c, ss, se, ah, al)], next)
  {
    assert |ts| == 3;
    hide Reached;
    var s := OneScan(c, ss, se, ah, al);
    Reach(3, script, ts, s);
    assert forall i :: i in s.comps <==> i == c;
    assert SendAll(ts, s) == next;
  }

  lemma ColourReached()
    ensures Reached(3, ColourScript(), [Bits(0, 0, 0), Bits(0, 0, 0), Bits(0, 0, 0)])
  {
    hide Reached;
    var a := DcScans(3, 0, 1);
    NothingReached(3);
    ReachDc(3, [], Bits(-1, -1, -1), 0, 1);
    assert [] + a == a && Uniform(3, Bits(1, -1, -1)) == [Bits(1, -1, -1), Bits(1, -1, -1), Bits(1, -1, -1)];
    var b := ColourMiddle(a);
    ReachDc(3, b, Bits(1, 1, 1), 1, 0);
    ColourEnd(b + DcScans(3, 1, 0));
    assert b + DcScans(3, 1, 0) + [OneScan(2, 1, 63, 1, 0), OneScan(1, 1, 63, 1, 0), OneScan(0, 1, 63, 1, 0)]
      == ColourScript();
  }

  lemma ColourMiddle(a: seq<ScanInfo>) returns (b: seq<ScanInfo>)
    requires Reached(3, a, [Bits(1, -1, -1), Bits(1, -1, -1), Bits(1, -1, -1)])
    ensures b == a + [OneScan(0, 1, 5, 0, 2), OneScan(2, 1, 63, 0, 1), OneScan(1, 1, 63, 0, 1),
                      OneScan(0, 6, 63, 0, 2), OneScan(0, 1, 63, 2, 1)]
    ensures Reached(3, b, Uniform(3, Bits(1, 1, 1)))
  {
    hide Reached;
    var t := Bits(1, -1, -1);
    ReachOne(a, [t, t, t], 0, 1, 5, 0, 2, [Bits(1, 2, -1), t, t]);
    b := a + [OneScan(0, 1, 5, 0, 2)];
    ReachOne(b, [Bits(1, 2, -1), t, t], 2, 1, 63, 0, 1, [Bits(1, 2, -1), t, Bits(1, 1, 1)]);
    b := b + [OneScan(2, 1, 63, 0, 1)];
    ReachOne(b, [Bits(1, 2, -1), t, Bits(1, 1, 1)], 1, 1, 63, 0, 1, [Bits(1, 2, -1), Bits(1, 1, 1), Bits(1, 1, 1)]);
    b := b + [OneScan(1, 1, 63, 0, 1)];
    ReachOne(b, [Bits(1, 2, -1), Bits(1, 1, 1), Bits(1, 1, 1)], 0, 6, 63, 0, 2,
      [Bits(1, 2, 2), Bits(1, 1, 1), Bits(1, 1, 1)]);
    b := b + [OneScan(0, 6, 63, 0, 2)];
    ReachOne(b, [Bits(1, 2, 2), Bits(1, 1, 1), Bits(1, 1, 1)], 0, 1, 63, 2, 1, Uniform(3, Bits(1, 1, 1)));
    b := b + [OneScan(0, 1, 63, 2, 1)];
  }

  lemma ColourEnd(a: seq<ScanInfo>)
    requires Reached(3, a, Uniform(3, Bits(0, 1, 1)))
    ensures Reached(3, a + [OneScan(2, 1, 63, 1, 0), OneScan(1, 1, 63, 1, 0), OneScan(0, 1, 63, 1, 0)],
      [Bits(0, 0, 0), Bits(0, 0, 0), Bits(0, 0, 0)])
  {
    hide Reached;
    var t, z := Bits(0, 1, 1), Bits(0, 0, 0);
    ReachOne(a, Uniform(3, t), 2, 1, 63, 1, 0, [t, t, z]);
    var b := a + [OneScan(2, 1, 63, 1, 0)];
    ReachOne(b, [t, t, z], 1, 1, 63, 1, 0, [t, z, z]);
    var d := b + [OneScan(1, 1, 63, 1, 0)];
    ReachOne(d, [t, z, z], 0, 1, 63, 1, 0, [z, z, z]);
    assert a + [OneScan(2, 1, 63, 1, 0), OneScan(1, 1, 63, 1, 0), OneScan(0, 1, 63, 1, 0)]
      == d + [OneScan(0, 1, 63, 1, 0)];
  }

  /** The recommended script is accepted for any number of components and sends every coefficient of
      every component down to its last bit. */
  lemma RecommendedIsComplete(n: nat, colour: bool)
    requires n >= 1
    ensures LegalProgressive(n, Recommended(n, colour)) && IsProgressive(Recommended(n, colour))
    ensures forall c: nat, k: nat :: c < n && k < 64 ==> LastSent(Recommended(n, colour), c, k) == 0
  {
    hide StepsOk, AdvanceAll, LastSent;
    var script := Recommended(n, colour);
    if n == 3 && colour {
      ColourReached();
      AllSentDown(n, script, [Bits(0, 0, 0), Bits(0, 0, 0), Bits(0, 0, 0)]);
    } else {
      PlainReached(n);
      AllSentDown(n, script, Uniform(n, Bits(0, 0, 0)));
    }
    CountMatches(n, colour);
  }

  lemma AllSentDown(n: nat, script: seq<ScanInfo>, ts: seq<Bits>)
    requires Reached(n, script, ts) && forall c :: 0 <= c < n ==> ts[c] == Bits(0, 0, 0)
    ensures forall c: nat, k: nat :: c < n && k < 64 ==>
      LastSent(script, c, k) == 0 && AdvanceAll(NothingSent(n), script)[c][k] == 0
  {
    hide StepsOk, AdvanceAll, LastSent;
    forall c: nat, k: nat | c < n && k < 64
      ensures LastSent(script, c, k) == 0 && AdvanceAll(NothingSent(n), script)[c][k] == 0
    {
      ProgressIsLastSent(n, script, c, k);
    }
  }

  // ----- smaller blocks -----

  function CutScan(s: ScanInfo, last: int): ScanInfo { s.(se := if s.se > last then last else s.se) }

  /** A script cut down to coefficients 0 to `last`: scans wholly beyond are dropped. */
  function Reduced(script: seq<ScanInfo>, last: int): seq<ScanInfo>
    decreases |script|
  {
    if script == [] then []
    else
      var s := script[|script| - 1];
      Reduced(script[..|script| - 1], last)
      + (if s.ss > last then [] else [CutScan(s, last)])
  }

  /** Cut down a script where it stands. */
  method ReduceScript(script: array<ScanInfo>, numScans: nat, last: int) returns (idxout: nat)
    requires numScans <= script.Length
    modifies script
    ensures idxout <= numScans && script[..idxout] == Reduced(old(script[..numScans]), last)
  {
    ghost var was := script[..numScans];
    idxout := 0;
    for idxin := 0 to numScans
      invariant idxout <= idxin
      invariant script[..idxout] == Reduced(was[..idxin], last)
      invariant forall i :: idxin <= i < numScans ==> script[i] == was[i]
    {
      assert was[..idxin + 1][..idxin] == was[..idxin];
      if idxin != idxout {
        script[idxout] := script[idxin];
      }
      if script[idxout].ss > last {
        continue;
      }
      if script[idxout].se > last {
        script[idxout] := script[idxout].(se := last);
      }
      idxout := idxout + 1;
    }
    assert was[..numScans] == was;
  }

  /** The same progress, but nothing beyond `last`. */
  function Cut(bits: Progress, last: int): (r: Progress)
    ensures |r| == |bits|
  {
    seq(|bits|, c requires 0 <= c < |bits| =>
      seq(|bits[c]|, k requires 0 <= k < |bits[c]| => if k <= last then bits[c][k] else -1))
  }

  lemma CutNothing(n: nat, last: int)
    ensures Cut(NothingSent(n), last) == NothingSent(n)
  {
    SameProgress(Cut(NothingSent(n), last), NothingSent(n));
  }

  lemma CutAdvance(bits: Progress, s: ScanInfo, last: int)
    ensures s.ss <= last ==> Advance(Cut(bits, last), CutScan(s, last)) == Cut(Advance(bits, s), last)
    ensures s.ss > last ==> Cut(Advance(bits, s), last) == Cut(bits, last)
  {
    if s.ss <= last {
      SameProgress(Advance(Cut(bits, last), CutScan(s, last)), Cut(Advance(bits, s), last));
    } else {
      SameProgress(Cut(Advance(bits, s), last), Cut(bits, last));
    }
  }

  lemma CutStep(n: nat, bits: Progress, s: ScanInfo, last: int)
    requires ValidProgress(n, bits) && StepOk(n, bits, s) && 0 <= last < 64 && s.ss <= last
    ensures StepOk(n, Cut(bits, last), CutScan(s, last))
  {
    hide CoefficientOk;
    var cut := CutScan(s, last);
    forall i | 0 <= i < |s.comps|
      ensures ComponentOk(Cut(bits, last)[s.comps[i]], cut)
    {
      assert ComponentOk(bits[s.comps[i]], s);
      CutComponent(bits[s.comps[i]], Cut(bits, last)[s.comps[i]], s, last);
    }
  }

  lemma CutComponent(row: seq<int>, cutRow: seq<int>, s: ScanInfo, last: int)
    requires |row| == |cutRow| == 64 && ParametersOk(s) && ComponentOk(row, s) && s.ss <= last < 64 && 0 <= last
    requires forall k :: 0 <= k <= last ==> cutRow[k] == row[k]
    ensures ParametersOk(CutScan(s, last)) && ComponentOk(cutRow, CutScan(s, last))
  {
    forall k | s.ss <= k <= CutScan(s, last).se
      ensures CoefficientOk(cutRow[k], CutScan(s, last))
    {
      assert CoefficientOk(row[k], s);
    }
  }

  /** A legal script stays legal when cut down, and makes the same progress on the coefficients left. */
  lemma {:induction false} ReducedSteps(n: nat, script: seq<ScanInfo>, last: int)
    requires StepsOk(n, script) && 0 <= last < 64
    ensures StepsOk(n, Reduced(script, last))
    ensures AdvanceAll(NothingSent(n), Reduced(script, last)) == Cut(AdvanceAll(NothingSent(n), script), last)
    decreases |script|
  {
    hide Advance, StepOk, Cut, NothingSent, CutScan;
    if script == [] {
      CutNothing(n, last);
    } else {
      var s, front := script[|script| - 1], script[..|script| - 1];
      ReducedSteps(n, front, last);
      var bits, cut := AdvanceAll(NothingSent(n), front), CutScan(s, last);
      ProgressValid(n, front);
      CutAdvance(bits, s, last);
      if s.ss <= last {
        CutStep(n, bits, s, last);
      }
      assert (Reduced(front, last) + [cut])[..|Reduced(front, last)|] == Reduced(front, last);
      assert Reduced(front, last) + [] == Reduced(front, last);
    }
  }

  lemma ReducedLastSent(n: nat, script: seq<ScanInfo>, last: int, c: nat, k: nat)
    requires StepsOk(n, script) && 0 <= last < 64 && c < n && k < 64
    ensures LastSent(Reduced(script, last), c, k) == if k <= last then LastSent(script, c, k) else -1
  {
    hide StepsOk, LastSent, Reduced, AdvanceAll;
    ReducedSteps(n, script, last);
    ProgressIsLastSent(n, script, c, k);
    ProgressIsLastSent(n, Reduced(script, last), c, k);
  }

  lemma ReducedIsLegal(n: nat, script: seq<ScanInfo>, last: int)
    requires n >= 1 && LegalProgressive(n, script) && 0 <= last < 64
    ensures LegalProgressive(n, Reduced(script, last))
    ensures forall c: nat, k: nat :: c < n && k < 64 ==>
      LastSent(Reduced(script, last), c, k) == if k <= last then LastSent(script, c, k) else -1
  {
    hide StepsOk, LastSent, Reduced, StepOk;
    ReducedSteps(n, script, last);
    ProgressValid(n, script);
    forall c | 0 <= c < n
      ensures 0 <= AdvanceAll(NothingSent(n), Reduced(script, last))[c][0]
    {
    }
    assert 0 <= AdvanceAll(NothingSent(n), Reduced(script, last))[0][0];
    forall c: nat, k: nat | c < n && k < 64
      ensures LastSent(Reduced(script, last), c, k) == if k <= last then LastSent(script, c, k) else -1
    {
      ReducedLastSent(n, script, last, c, k);
    }
  }
}
