/** What a decompressor does with the progression parameters of a scan header: fatal errors, warnings, and its
    record of the coefficients received so far. */
module HeaderCheck {
  import opened ScanScript

  /** The components of a scan, in any order but each once. */
  predicate Components(n: nat, comps: seq<int>) {
    && comps != []
    && (forall i :: 0 <= i < |comps| ==> 0 <= comps[i] < n)
    && forall i, j :: 0 <= i < j < |comps| ==> comps[i] != comps[j]
  }

  /** A warning for component c. */
  predicate WarnsOf(row: seq<int>, s: ScanInfo)
    requires |row| == 64 && 0 <= s.ss && s.se < 64
  {
    (s.ss != 0 && row[0] < 0) || exists k :: s.ss <= k <= s.se && s.ah != ExpectedHigh(row[k])
  }

  /** Compare one component's record with the scan and bring it up to date. */
  method CheckComponent(n: nat, coefBits: array2<int>, c: int, s: ScanInfo, ghost bits: Progress)
    returns (warned: bool)
    requires Holds(coefBits, n, bits) && 0 <= c < n && 0 <= s.ss <= s.se < 64
    modifies coefBits
    ensures warned <==> WarnsOf(bits[c], s)
    ensures Holds(coefBits, n, Advance(bits, s.(comps := [c])))
  {
    warned := s.ss != 0 && coefBits[c, 0] < 0;
    ghost var first := warned;
    for coefi := s.ss to s.se + 1
      invariant warned <==> first || exists k :: s.ss <= k < coefi && s.ah != ExpectedHigh(bits[c][k])
      invariant forall b, k :: 0 <= b < n && 0 <= k < 64 ==>
        coefBits[b, k] == if b == c && s.ss <= k < coefi then s.al else bits[b][k]
    {
      var expected := if coefBits[c, coefi] < 0 then 0 else coefBits[c, coefi];
      if s.ah != expected {
        warned := true;
      }
      coefBits[c, coefi] := s.al;
    }
  }

  lemma NextComponent(n: nat, bits: Progress, s: ScanInfo, ci: nat)
    requires ValidProgress(n, bits) && Components(n, s.comps) && ci < |s.comps|
    ensures var now := Advance(bits, s.(comps := s.comps[..ci]));
      && ValidProgress(n, now) && now[s.comps[ci]] == bits[s.comps[ci]]
      && Advance(now, s.(comps := [s.comps[ci]])) == Advance(bits, s.(comps := s.comps[..ci + 1]))
  {
    assert s.comps[ci] !in s.comps[..ci];
    assert s.comps[..ci + 1] == s.comps[..ci] + [s.comps[ci]];
    var now := Advance(bits, s.(comps := s.comps[..ci]));
    assert now[s.comps[ci]] == bits[s.comps[ci]];
    SameProgress(Advance(now, s.(comps := [s.comps[ci]])), Advance(bits, s.(comps := s.comps[..ci + 1])));
  }

  /** Some of the first m components of a scan gives cause for a warning. */
  ghost predicate SomeWarns(bits: Progress, s: ScanInfo, m: nat)
    requires m <= |s.comps| && 0 <= s.ss && s.se < 64
    requires forall i :: 0 <= i < |s.comps| ==> 0 <= s.comps[i] < |bits| && |bits[s.comps[i]]| == 64
  {
    exists i :: 0 <= i < m && WarnsOf(bits[s.comps[i]], s)
  }

  lemma WarnsIs(bits: Progress, s: ScanInfo, n: nat)
    requires ValidProgress(n, bits) && Components(n, s.comps) && 0 <= s.ss && s.se < 64
    ensures HeaderWarned(bits, s) <==> SomeWarns(bits, s, |s.comps|)
  {
    forall i | 0 <= i < |s.comps|
      ensures WarnsOf(bits[s.comps[i]], s) <==>
        ((s.ss != 0 && bits[s.comps[i]][0] < 0)
         || exists k :: s.ss <= k <= s.se && s.ah != ExpectedHigh(bits[s.comps[i]][k]))
    {
    }
  }

  /** Update the record, component by component. */
  method CheckComponents(n: nat, coefBits: array2<int>, s: ScanInfo, ghost bits: Progress) returns (warned: bool)
    requires Holds(coefBits, n, bits) && Components(n, s.comps) && 0 <= s.ss <= s.se < 64
    modifies coefBits
    ensures warned <==> SomeWarns(bits, s, |s.comps|)
    ensures Holds(coefBits, n, Advance(bits, s))
  {
    hide Advance, WarnsOf;
    warned := false;
    AdvanceNone(bits, s);
    for ci := 0 to |s.comps|
      invariant warned <==> SomeWarns(bits, s, ci)
      invariant Holds(coefBits, n, Advance(bits, s.(comps := s.comps[..ci])))
    {
      NextComponent(n, bits, s, ci);
      var one := CheckComponent(n, coefBits, s.comps[ci], s, Advance(bits, s.(comps := s.comps[..ci])));
      warned := warned || one;
    }
    assert s.comps[..|s.comps|] == s.comps;
  }

  /** Check a scan header.  Parameters come from bytes and half-bytes. */
  method CheckHeader(n: nat, coefBits: array2<int>, s: ScanInfo, ghost bits: Progress) returns (h: Header)
    requires Holds(coefBits, n, bits) && Components(n, s.comps) && 0 <= s.ss && 0 <= s.se && 0 <= s.ah && 0 <= s.al
    modifies coefBits
    ensures h == Fatal <==> HeaderFatal(s)
    ensures h == Fatal ==> Holds(coefBits, n, bits)
    ensures h != Fatal ==> (h == Warned <==> HeaderWarned(bits, s)) && Holds(coefBits, n, Advance(bits, s))
  {
    hide HeaderWarned, SomeWarns, Advance;
    if s.ss == 0 {
      if s.se != 0 {
        return Fatal;
      }
    } else {
      if s.se < s.ss || s.se > 63 {
        return Fatal;
      }
      if |s.comps| != 1 {
        return Fatal;
      }
    }
    if s.ah != 0 {
      if s.ah - 1 != s.al {
        return Fatal;
      }
    }
    if s.al > 13 {
      return Fatal;
    }
    var warned := CheckComponents(n, coefBits, s, bits);
    WarnsIs(bits, s, n);
    h := if warned then Warned else Clean;
  }
}
