/** Scan scripts: the compressor's validation, and the progression check a decompressor makes at the
    start of every scan. */
module ScanScript {

  const MAX_COMPS_IN_SCAN := 4
  const MAX_AH_AL := 10

  /** One entry of a script: component indexes, spectral range, successive approximation bits. */
  datatype ScanInfo = ScanInfo(comps: seq<int>, ss: int, se: int, ah: int, al: int)

  /** For each component and coefficient, the low bit of the last scan that sent it, -1 if none. */
  type Progress = seq<seq<int>>

  ghost predicate ValidProgress(n: nat, bits: Progress) {
    |bits| == n && forall c :: 0 <= c < n ==> |bits[c]| == 64
  }

  function NothingSent(n: nat): (bits: Progress)
    ensures ValidProgress(n, bits)
  {
    seq(n, _ => seq(64, _ => -1))
  }

  /** Component indexes are in range and in frame order. */
  predicate ComponentsOk(n: nat, comps: seq<int>) {
    && 0 < |comps| <= MAX_COMPS_IN_SCAN
    && (forall i :: 0 <= i < |comps| ==> 0 <= comps[i] < n)
    && forall i :: 0 < i < |comps| ==> comps[i - 1] < comps[i]
  }

  /** Ranges of the progression parameters. */
  predicate ParametersOk(s: ScanInfo) {
    && 0 <= s.ss <= s.se < 64 && 0 <= s.ah <= MAX_AH_AL && 0 <= s.al <= MAX_AH_AL
    && (if s.ss == 0 then s.se == 0 else |s.comps| == 1)
  }

  /** A coefficient last sent down to bit `last` may be sent by scan s. */
  predicate CoefficientOk(last: int, s: ScanInfo) {
    if last < 0 then s.ah == 0 else s.ah == last && s.al == s.ah - 1
  }

  /** The rule for one component of a scan. */
  predicate ComponentOk(row: seq<int>, s: ScanInfo)
    requires |row| == 64 && ParametersOk(s)
  {
    && (s.ss != 0 ==> 0 <= row[0])
    && forall k :: s.ss <= k <= s.se ==> CoefficientOk(row[k], s)
  }

  /** A progressive scan is legal after the progress made so far. */
  predicate StepOk(n: nat, bits: Progress, s: ScanInfo)
    requires |bits| == n && forall c :: 0 <= c < n ==> |bits[c]| == 64
  {
    && ComponentsOk(n, s.comps) && ParametersOk(s)
    && forall i :: 0 <= i < |s.comps| ==> ComponentOk(bits[s.comps[i]], s)
  }

  /** Progress after a scan. */
  function Advance(bits: Progress, s: ScanInfo): (r: Progress)
    ensures |r| == |bits|
    ensures forall c :: 0 <= c < |bits| ==> |r[c]| == |bits[c]|
  {
    seq(|bits|, c requires 0 <= c < |bits| =>
      seq(|bits[c]|, k requires 0 <= k < |bits[c]| =>
        if c in s.comps && s.ss <= k <= s.se then s.al else bits[c][k]))
  }

  function AdvanceAll(bits: Progress, script: seq<ScanInfo>): (r: Progress)
    ensures |r| == |bits|
    ensures forall c :: 0 <= c < |bits| ==> |r[c]| == |bits[c]|
    decreases |script|
  {
    if script == [] then bits else Advance(AdvanceAll(bits, script[..|script| - 1]), script[|script| - 1])
  }

  /** Every scan is legal after the ones before it. */
  predicate StepsOk(n: nat, script: seq<ScanInfo>)
    decreases |script|
  {
    script == []
    || (StepsOk(n, script[..|script| - 1])
        && StepOk(n, AdvanceAll(NothingSent(n), script[..|script| - 1]), script[|script| - 1]))
  }

  /** A legal progressive script: every scan is legal, and some DC data are sent for every component. */
  predicate LegalProgressive(n: nat, script: seq<ScanInfo>) {
    && script != [] && StepsOk(n, script)
    && forall c :: 0 <= c < n ==> 0 <= AdvanceAll(NothingSent(n), script)[c][0]
  }

  /** A sequential scan after components have been sent. */
  predicate SequentialOk(n: nat, sent: set<int>, s: ScanInfo) {
    && ComponentsOk(n, s.comps)
    && s.ss == 0 && s.se == 63 && s.ah == 0 && s.al == 0
    && forall i :: 0 <= i < |s.comps| ==> s.comps[i] !in sent
  }

  function SentBy(script: seq<ScanInfo>): set<int> {
    set s, c | s in script && c in s.comps :: c
  }

  predicate SequentialsOk(n: nat, script: seq<ScanInfo>)
    decreases |script|
  {
    script == []
    || (SequentialsOk(n, script[..|script| - 1])
        && SequentialOk(n, SentBy(script[..|script| - 1]), script[|script| - 1]))
  }

  predicate LegalSequential(n: nat, script: seq<ScanInfo>) {
    && script != [] && SequentialsOk(n, script)
    && forall c :: 0 <= c < n ==> c in SentBy(script)
  }

  /** The first scan decides the mode. */
  predicate IsProgressive(script: seq<ScanInfo>)
    requires script != []
  {
    script[0].ss != 0 || script[0].se != 63
  }

  /** Outcome of validation; errors carry the number of the scan at fault, 0 for the whole script. */
  datatype Verdict = Accepted(progressive: bool) | Rejected(scan: nat)

  /** Check a scan's component indexes. */
  method CheckComponents(n: nat, comps: seq<int>) returns (ok: bool)
    ensures ok <==> ComponentsOk(n, comps)
  {
    if |comps| == 0 || |comps| > MAX_COMPS_IN_SCAN {
      return false;
    }
    for ci := 0 to |comps|
      invariant forall i :: 0 <= i < ci ==> 0 <= comps[i] < n
      invariant forall i :: 0 < i < ci ==> comps[i - 1] < comps[i]
    {
      var thisi := comps[ci];
      if thisi < 0 || thisi >= n {
        return false;
      }
      if ci > 0 && thisi <= comps[ci - 1] {
        return false;
      }
    }
    ok := true;
  }

  /** The working table holds the progress given. */
  ghost predicate Holds(table: array2<int>, n: nat, bits: Progress)
    reads table
  {
    && table.Length0 == n && table.Length1 == 64 && ValidProgress(n, bits)
    && forall c, k :: 0 <= c < n && 0 <= k < 64 ==> table[c, k] == bits[c][k]
  }

  /** Check one component of a scan against the table and record what the scan sends. */
  method CheckComponent(n: nat, table: array2<int>, c: int, s: ScanInfo, ghost bits: Progress) returns (ok: bool)
    requires Holds(table, n, bits) && 0 <= c < n && ParametersOk(s)
    modifies table
    ensures ok <==> ComponentOk(bits[c], s)
    ensures ok ==> Holds(table, n, Advance(bits, s.(comps := [c])))
  {
    if s.ss != 0 && table[c, 0] < 0 {
      return false;
    }
    for coefi := s.ss to s.se + 1
      invariant forall k :: s.ss <= k < coefi ==> CoefficientOk(bits[c][k], s)
      invariant forall b, k :: 0 <= b < n && 0 <= k < 64 ==>
        table[b, k] == if b == c && s.ss <= k < coefi then s.al else bits[b][k]
    {
      if table[c, coefi] < 0 {
        if s.ah != 0 {
          assert !CoefficientOk(bits[c][coefi], s);
          return false;
        }
      } else {
        if s.ah != table[c, coefi] || s.al != s.ah - 1 {
          assert !CoefficientOk(bits[c][coefi], s);
          return false;
        }
      }
      table[c, coefi] := s.al;
    }
    ok := true;
  }

  /** Sending components one after the other. */
  lemma AdvanceOneMore(n: nat, bits: Progress, s: ScanInfo, ci: nat)
    requires ValidProgress(n, bits) && ComponentsOk(n, s.comps) && ci < |s.comps|
    ensures var now := Advance(bits, s.(comps := s.comps[..ci]));
      && ValidProgress(n, now) && now[s.comps[ci]] == bits[s.comps[ci]]
      && Advance(now, s.(comps := [s.comps[ci]])) == Advance(bits, s.(comps := s.comps[..ci + 1]))
  {
    Ascending(s.comps);
    assert s.comps[ci] !in s.comps[..ci];
    assert s.comps[..ci + 1] == s.comps[..ci] + [s.comps[ci]];
    var now := Advance(bits, s.(comps := s.comps[..ci]));
    assert now[s.comps[ci]] == bits[s.comps[ci]];
    SameProgress(Advance(now, s.(comps := [s.comps[ci]])), Advance(bits, s.(comps := s.comps[..ci + 1])));
  }

  /** Check one progressive scan and record what it sends. */
  method CheckProgressive(n: nat, table: array2<int>, s: ScanInfo, ghost bits: Progress) returns (ok: bool)
    requires Holds(table, n, bits) && ComponentsOk(n, s.comps)
    modifies table
    ensures ok <==> StepOk(n, bits, s)
    ensures ok ==> Holds(table, n, Advance(bits, s))
  {
    hide Advance, CoefficientOk;
    if s.ss < 0 || s.ss >= 64 || s.se < s.ss || s.se >= 64
       || s.ah < 0 || s.ah > MAX_AH_AL || s.al < 0 || s.al > MAX_AH_AL {
      return false;
    }
    if s.ss == 0 {
      if s.se != 0 {
        return false;
      }
    } else {
      if |s.comps| != 1 {
        return false;
      }
    }
    AdvanceNone(bits, s);
    for ci := 0 to |s.comps|
      invariant forall i :: 0 <= i < ci ==> ComponentOk(bits[s.comps[i]], s)
      invariant Holds(table, n, Advance(bits, s.(comps := s.comps[..ci])))
    {
      AdvanceOneMore(n, bits, s, ci);
      ok := CheckComponent(n, table, s.comps[ci], s, Advance(bits, s.(comps := s.comps[..ci])));
      if !ok {
        return;
      }
    }
    assert s.comps[..|s.comps|] == s.comps;
    ok := true;
  }

  lemma AdvanceNone(bits: Progress, s: ScanInfo)
    ensures Advance(bits, s.(comps := s.comps[..0])) == bits
  {
    SameProgress(Advance(bits, s.(comps := s.comps[..0])), bits);
  }

  lemma SameProgress(a: Progress, b: Progress)
    requires |a| == |b| && forall c :: 0 <= c < |a| ==> |a[c]| == |b[c]|
    requires forall c, k :: 0 <= c < |a| && 0 <= k < |a[c]| ==> a[c][k] == b[c][k]
    ensures a == b
  {
    forall c | 0 <= c < |a|
      ensures a[c] == b[c]
    {
    }
  }

  lemma {:induction false} Ascending(comps: seq<int>)
    requires forall i :: 0 < i < |comps| ==> comps[i - 1] < comps[i]
    ensures forall i, j :: 0 <= i < j < |comps| ==> comps[i] < comps[j]
  {
    if comps != [] {
      var last := |comps| - 1;
      Ascending(comps[..last]);
      assert last > 0 ==> comps[last - 1] < comps[last];
    }
  }

  /** Validate a script and determine whether it is progressive. */
  method ValidateScript(n: nat, script: seq<ScanInfo>) returns (v: Verdict)
    ensures v == Accepted(true) <==> script != [] && IsProgressive(script) && LegalProgressive(n, script)
    ensures v == Accepted(false) <==> script != [] && !IsProgressive(script) && LegalSequential(n, script)
    ensures v.Rejected? && 0 < v.scan ==>
      v.scan <= |script|
      && if IsProgressive(script) then StepsOk(n, script[..v.scan - 1]) && !StepsOk(n, script[..v.scan])
         else SequentialsOk(n, script[..v.scan - 1]) && !SequentialsOk(n, script[..v.scan])
  {
    if |script| == 0 {
      return Rejected(0);
    }
    if script[0].ss != 0 || script[0].se != 63 {
      v := ValidateProgressive(n, script);
    } else {
      v := ValidateSequential(n, script);
    }
  }

  /** Failing at a scan is failing for good. */
  lemma {:induction false} StepsPrefix(n: nat, script: seq<ScanInfo>, i: nat)
    requires i <= |script| && StepsOk(n, script)
    ensures StepsOk(n, script[..i])
    decreases |script|
  {
    if i < |script| {
      StepsPrefix(n, script[..|script| - 1], i);
      assert script[..|script| - 1][..i] == script[..i];
    } else {
      assert script[..i] == script;
    }
  }

  lemma StepsExtend(n: nat, script: seq<ScanInfo>, i: nat)
    requires i < |script|
    ensures StepsOk(n, script[..i + 1]) <==>
      StepsOk(n, script[..i]) && StepOk(n, AdvanceAll(NothingSent(n), script[..i]), script[i])
    ensures AdvanceAll(NothingSent(n), script[..i + 1]) == Advance(AdvanceAll(NothingSent(n), script[..i]), script[i])
  {
    hide StepOk, Advance;
    assert script[..i + 1][..i] == script[..i];
  }

  method ValidateProgressive(n: nat, script: seq<ScanInfo>) returns (v: Verdict)
    requires script != []
    ensures v == Accepted(true) || v.Rejected?
    ensures v == Accepted(true) <==> LegalProgressive(n, script)
    ensures v.Rejected? && 0 < v.scan ==>
      v.scan <= |script| && StepsOk(n, script[..v.scan - 1]) && !StepsOk(n, script[..v.scan])
  {
    hide StepOk, Advance;
    var table := new int[n, 64]((_, _) => -1);
    for scanno := 0 to |script|
      invariant Holds(table, n, AdvanceAll(NothingSent(n), script[..scanno]))
      invariant StepsOk(n, script[..scanno])
    {
      var s := script[scanno];
      StepsExtend(n, script, scanno);
      ghost var bits := AdvanceAll(NothingSent(n), script[..scanno]);
      var ok := CheckComponents(n, s.comps);
      if ok {
        ok := CheckProgressive(n, table, s, bits);
      } else {
        assert !StepOk(n, bits, s) by { BadComponents(n, bits, s); }
      }
      if !ok {
        if StepsOk(n, script) {
          StepsPrefix(n, script, scanno + 1);
        }
        return Rejected(scanno + 1);
      }
    }
    assert script[..|script|] == script;
    for ci := 0 to n
      invariant forall c :: 0 <= c < ci ==> 0 <= AdvanceAll(NothingSent(n), script)[c][0]
    {
      if table[ci, 0] < 0 {
        return Rejected(0);
      }
    }
    v := Accepted(true);
  }

  lemma BadComponents(n: nat, bits: Progress, s: ScanInfo)
    requires ValidProgress(n, bits) && !ComponentsOk(n, s.comps)
    ensures !StepOk(n, bits, s)
  {
  }

  lemma {:induction false} SequentialsPrefix(n: nat, script: seq<ScanInfo>, i: nat)
    requires i <= |script| && SequentialsOk(n, script)
    ensures SequentialsOk(n, script[..i])
    decreases |script|
  {
    if i < |script| {
      SequentialsPrefix(n, script[..|script| - 1], i);
      assert script[..|script| - 1][..i] == script[..i];
    } else {
      assert script[..i] == script;
    }
  }

  lemma SequentialsExtend(n: nat, script: seq<ScanInfo>, i: nat)
    requires i < |script|
    ensures SequentialsOk(n, script[..i + 1]) <==>
      SequentialsOk(n, script[..i]) && SequentialOk(n, SentBy(script[..i]), script[i])
    ensures forall c :: c in SentBy(script[..i + 1]) <==> c in SentBy(script[..i]) || c in script[i].comps
  {
    hide SequentialOk;
    assert script[..i + 1][..i] == script[..i];
    assert script[..i + 1] == script[..i] + [script[i]];
  }

  /** The working flags record the components sent. */
  ghost predicate Flags(flags: array<bool>, n: nat, sent: set<int>)
    reads flags
  {
    flags.Length == n && forall c :: 0 <= c < n ==> (flags[c] <==> c in sent)
  }

  method CheckSequential(n: nat, flags: array<bool>, s: ScanInfo, ghost sent: set<int>) returns (ok: bool)
    requires Flags(flags, n, sent) && ComponentsOk(n, s.comps)
    modifies flags
    ensures ok <==> SequentialOk(n, sent, s)
    ensures ok ==> forall c :: 0 <= c < n ==> (flags[c] <==> c in sent || c in s.comps)
  {
    if s.ss != 0 || s.se != 63 || s.ah != 0 || s.al != 0 {
      return false;
    }
    Ascending(s.comps);
    for ci := 0 to |s.comps|
      invariant forall i :: 0 <= i < ci ==> s.comps[i] !in sent
      invariant forall c :: 0 <= c < n ==> (flags[c] <==> c in sent || c in s.comps[..ci])
    {
      var thisi := s.comps[ci];
      assert thisi !in s.comps[..ci];
      if flags[thisi] {
        return false;
      }
      flags[thisi] := true;
      assert s.comps[..ci + 1] == s.comps[..ci] + [thisi];
    }
    assert s.comps[..|s.comps|] == s.comps;
    ok := true;
  }

  method ValidateSequential(n: nat, script: seq<ScanInfo>) returns (v: Verdict)
    requires script != []
    ensures v == Accepted(false) || v.Rejected?
    ensures v == Accepted(false) <==> LegalSequential(n, script)
    ensures v.Rejected? && 0 < v.scan ==>
      v.scan <= |script| && SequentialsOk(n, script[..v.scan - 1]) && !SequentialsOk(n, script[..v.scan])
  {
    hide SequentialOk, SentBy;
    var flags := new bool[n](_ => false);
    SentByNone(script);
    for scanno := 0 to |script|
      invariant Flags(flags, n, SentBy(script[..scanno]))
      invariant SequentialsOk(n, script[..scanno])
    {
      var s := script[scanno];
      SequentialsExtend(n, script, scanno);
      var ok := CheckComponents(n, s.comps);
      if ok {
        ok := CheckSequential(n, flags, s, SentBy(script[..scanno]));
      } else {
        assert !SequentialOk(n, SentBy(script[..scanno]), s) by { BadSequential(n, SentBy(script[..scanno]), s); }
      }
      if !ok {
        if SequentialsOk(n, script) {
          SequentialsPrefix(n, script, scanno + 1);
        }
        return Rejected(scanno + 1);
      }
    }
    assert script[..|script|] == script;
    for ci := 0 to n
      invariant forall c :: 0 <= c < ci ==> c in SentBy(script)
    {
      if !flags[ci] {
        return Rejected(0);
      }
    }
    v := Accepted(false);
  }

  lemma SentByNone(script: seq<ScanInfo>)
    ensures SentBy(script[..0]) == {}
  {
  }

  lemma BadSequential(n: nat, sent: set<int>, s: ScanInfo)
    requires !ComponentsOk(n, s.comps)
    ensures !SequentialOk(n, sent, s)
  {
  }

  // ----- what a legal script achieves -----

  /** The low bit of the last scan that sends coefficient k of component c; -1 if none does. */
  function LastSent(script: seq<ScanInfo>, c: int, k: int): int
    decreases |script|
  {
    if script == [] then -1
    else
      var s := script[|script| - 1];
      if c in s.comps && s.ss <= k <= s.se then s.al else LastSent(script[..|script| - 1], c, k)
  }

  /** The progress table is the record of the last scan for each coefficient. */
  lemma {:induction false} ProgressIsLastSent(n: nat, script: seq<ScanInfo>, c: nat, k: nat)
    requires c < n && k < 64
    ensures ValidProgress(n, AdvanceAll(NothingSent(n), script))
    ensures AdvanceAll(NothingSent(n), script)[c][k] == LastSent(script, c, k)
    decreases |script|
  {
    if script != [] {
      ProgressIsLastSent(n, script[..|script| - 1], c, k);
    }
  }

  // ----- the decompressor's check -----

  /** What a decompressor makes of a scan header: a fatal error, a warning, or nothing to say. */
  datatype Header = Fatal | Warned | Clean

  /** The fatal checks, for blocks of 64 coefficients. */
  predicate HeaderFatal(s: ScanInfo) {
    || (s.ss == 0 && s.se != 0)
    || (s.ss != 0 && (s.se < s.ss || s.se > 63 || |s.comps| != 1))
    || (s.ah != 0 && s.ah - 1 != s.al)
    || s.al > 13
  }

  /** The bit a scan should refine, from the decompressor's own record. */
  function ExpectedHigh(bits: int): int { if bits < 0 then 0 else bits }

  predicate HeaderWarned(bits: Progress, s: ScanInfo)
    requires (forall i :: 0 <= i < |s.comps| ==> 0 <= s.comps[i] < |bits|) && 0 <= s.ss && s.se < 64
    requires forall c :: 0 <= c < |bits| ==> |bits[c]| == 64
  {
    exists i :: 0 <= i < |s.comps| &&
      ((s.ss != 0 && bits[s.comps[i]][0] < 0)
       || exists k :: s.ss <= k <= s.se && s.ah != ExpectedHigh(bits[s.comps[i]][k]))
  }

  /** Scans of a legal script never raise a progression error or warning in the decompressor, whose
      record of the coefficients stays the validator's. */
  lemma LegalIsClean(n: nat, script: seq<ScanInfo>, i: nat)
    requires StepsOk(n, script) && i < |script|
    ensures var bits, s := AdvanceAll(NothingSent(n), script[..i]), script[i];
      && ComponentsOk(n, s.comps) && ParametersOk(s) && ValidProgress(n, bits)
      && !HeaderFatal(s) && !HeaderWarned(bits, s)
      && AdvanceAll(NothingSent(n), script[..i + 1]) == Advance(bits, s)
  {
    hide StepOk, Advance, HeaderFatal, HeaderWarned;
    StepsPrefix(n, script, i + 1);
    StepsExtend(n, script, i);
    ProgressValid(n, script[..i]);
    StepIsClean(n, AdvanceAll(NothingSent(n), script[..i]), script[i]);
  }

  lemma ProgressValid(n: nat, script: seq<ScanInfo>)
    ensures ValidProgress(n, AdvanceAll(NothingSent(n), script))
  {
  }

  lemma StepIsClean(n: nat, bits: Progress, s: ScanInfo)
    requires ValidProgress(n, bits) && StepOk(n, bits, s)
    ensures ComponentsOk(n, s.comps) && ParametersOk(s) && !HeaderFatal(s) && !HeaderWarned(bits, s)
  {
    assert ComponentOk(bits[s.comps[0]], s);
    assert CoefficientOk(bits[s.comps[0]][s.ss], s);
  }
}
