/** Which scripts are legal, in plain numbers, and how that compares with what a decompressor lets pass. */
module ScriptLegality {
  import opened ScanScript
  import opened SimpleProgression
  import ImageGeometry

  // ----- components in a scan -----

  /** For ascending components of an image, the number that validation accepts is the one that setting up the
      scan does: up to four. */
  lemma ComponentCounts(g: ImageGeometry.Geometry, scan: seq<int>)
    requires ImageGeometry.ValidGeometry(g) && scan != []
    requires forall i :: 0 <= i < |scan| ==> 0 <= scan[i] < |g.comps|
    requires forall i :: 0 < i < |scan| ==> scan[i - 1] < scan[i]
    ensures ComponentsOk(|g.comps|, scan) <==> |scan| <= ImageGeometry.MAX_COMPS_IN_SCAN
    ensures ComponentsOk(|g.comps|, scan) <==> |scan| <= 4
  {
  }

  /** All components fit into one sequential scan just when there are one to four. */
  lemma OneScanForAll(n: nat)
    ensures SequentialOk(n, {}, ScanInfo(Indexes(n), 0, 63, 0, 0)) <==> 1 <= n <= 4
    ensures LegalSequential(n, [ScanInfo(Indexes(n), 0, 63, 0, 0)]) <==> 1 <= n <= 4
  {
    hide SequentialOk;
    var s := ScanInfo(Indexes(n), 0, 63, 0, 0);
    OneScan(n);
    assert [s][..0] == [];
    SentByNone([s]);
    assert SequentialsOk(n, []);
    forall c | 0 <= c < n
      ensures c in SentBy([s])
    {
      assert [s][0] == s && s.comps[c] == c;
      assert c in s.comps;
    }
  }

  lemma OneScan(n: nat)
    ensures SequentialOk(n, {}, ScanInfo(Indexes(n), 0, 63, 0, 0)) <==> 1 <= n <= 4
  {
  }

  /** The recommended script interleaves its DC scans just when there are up to four components. */
  lemma DcInterleaved(n: nat)
    requires n > 0
    ensures var script := Recommended(n, false);
      if n <= 4 then
        && |script| == 2 + 4 * n && |script[0].comps| == n && |script[1 + 3 * n].comps| == n
        && (script[0].ss, script[0].se, script[0].ah, script[0].al) == (0, 0, 0, 1)
        && (script[1 + 3 * n].ss, script[1 + 3 * n].se, script[1 + 3 * n].ah, script[1 + 3 * n].al) == (0, 0, 1, 0)
      else
        && |script| == 6 * n
        && (forall c :: 0 <= c < n ==> script[c] == ScanInfo([c], 0, 0, 0, 1))
        && forall c :: 0 <= c < n ==> script[4 * n + c] == ScanInfo([c], 0, 0, 1, 0)
  {
    hide Scans;
    ScansAt(n);
    var dc, dc1 := DcScans(n, 0, 1), DcScans(n, 1, 0);
    var front := dc + Scans(n, 1, 5, 0, 2) + Scans(n, 6, 63, 0, 2) + Scans(n, 1, 63, 2, 1);
    assert Recommended(n, false) == front + dc1 + Scans(n, 1, 63, 1, 0);
    forall i | 0 <= i < |dc|
      ensures Recommended(n, false)[i] == dc[i] && Recommended(n, false)[|front| + i] == dc1[i]
    {
      assert (front + dc1)[|front| + i] == dc1[i];
    }
  }

  /** All scans of the recommended script for n components, of which the DC scans are one or n at a time. */
  lemma PlainScriptIs(n: nat, c: nat)
    requires c < n
    ensures var script, d := Recommended(n, false), if n <= 4 then 1 else n;
      && |script| == 2 * d + 4 * n
      && script[d + c] == ScanInfo([c], 1, 5, 0, 2)
      && script[d + n + c] == ScanInfo([c], 6, 63, 0, 2)
      && script[d + 2 * n + c] == ScanInfo([c], 1, 63, 2, 1)
      && script[2 * d + 3 * n + c] == ScanInfo([c], 1, 63, 1, 0)
  {
    ScansAt(n);
    hide Scans;
    var dc, low, high := DcScans(n, 0, 1), Scans(n, 1, 5, 0, 2), Scans(n, 6, 63, 0, 2);
    var all, dc1, last := Scans(n, 1, 63, 2, 1), DcScans(n, 1, 0), Scans(n, 1, 63, 1, 0);
    var d := if n <= 4 then 1 else n;
    assert |dc| == |dc1| == d;
    hide DcScans;
    var script := Recommended(n, false);
    assert script == dc + low + (high + all + dc1 + last);
    Middle(dc, low, high + all + dc1 + last, c);
    assert script == dc + low + high + (all + dc1 + last);
    Middle(dc + low, high, all + dc1 + last, c);
    assert script == dc + low + high + all + (dc1 + last);
    Middle(dc + low + high, all, dc1 + last, c);
    assert script == dc + low + high + all + dc1 + last + [];
    Middle(dc + low + high + all + dc1, last, [], c);
  }

  lemma Middle(a: seq<ScanInfo>, b: seq<ScanInfo>, rest: seq<ScanInfo>, i: nat)
    requires i < |b|
    ensures (a + b + rest)[|a| + i] == b[i]
  {
  }

  lemma ScansAt(n: nat)
    ensures forall c, ss, se, ah, al :: 0 <= c < n ==> Scans(n, ss, se, ah, al)[c] == ScanInfo([c], ss, se, ah, al)
  {
  }

  /** The script for colour images: luminance coarse first, then both chrominances whole but for their last bit,
      Cr before Cb, and Cr before Cb again when that bit is sent. */
  lemma ColourScriptIs()
    ensures Recommended(3, true) == [
      ScanInfo([0, 1, 2], 0, 0, 0, 1), ScanInfo([0], 1, 5, 0, 2), ScanInfo([2], 1, 63, 0, 1),
      ScanInfo([1], 1, 63, 0, 1), ScanInfo([0], 6, 63, 0, 2), ScanInfo([0], 1, 63, 2, 1),
      ScanInfo([0, 1, 2], 0, 0, 1, 0), ScanInfo([2], 1, 63, 1, 0), ScanInfo([1], 1, 63, 1, 0),
      ScanInfo([0], 1, 63, 1, 0)]
  {
    assert Indexes(3) == [0, 1, 2];
  }

  // ----- legal progressive scripts -----

  /** What scan i must be, given the scans before it. */
  ghost predicate PlainlyOk(n: nat, script: seq<ScanInfo>, i: nat)
    requires i < |script|
  {
    var s, before := script[i], script[..i];
    && 1 <= |s.comps| <= 4
    && (forall j :: 0 <= j < |s.comps| ==> 0 <= s.comps[j] < n)
    && (forall j, l :: 0 <= j < l < |s.comps| ==> s.comps[j] < s.comps[l])
    && 0 <= s.ss <= s.se <= 63 && 0 <= s.ah <= 10 && 0 <= s.al <= 10
    && (s.ss == 0 ==> s.se == 0)
    && (s.ss > 0 ==> |s.comps| == 1 && 0 <= LastSent(before, s.comps[0], 0))
    && forall c, k :: c in s.comps && s.ss <= k <= s.se ==>
         var last := LastSent(before, c, k);
         if last < 0 then s.ah == 0 else s.ah == last && s.al == last - 1
  }

  lemma OneOk(n: nat, script: seq<ScanInfo>, i: nat)
    requires i < |script|
    ensures StepOk(n, AdvanceAll(NothingSent(n), script[..i]), script[i]) <==> PlainlyOk(n, script, i)
  {
    hide LastSent, AdvanceAll, NothingSent;
    var s, bits := script[i], AdvanceAll(NothingSent(n), script[..i]);
    forall c, k | 0 <= c < n && 0 <= k < 64
      ensures bits[c][k] == LastSent(script[..i], c, k)
    {
      ProgressIsLastSent(n, script[..i], c, k);
    }
    if forall j :: 0 < j < |s.comps| ==> s.comps[j - 1] < s.comps[j] {
      Ascending(s.comps);
    }
    assert (forall j, l :: 0 <= j < l < |s.comps| ==> s.comps[j] < s.comps[l]) ==>
        forall j :: 0 < j < |s.comps| ==> s.comps[j - 1] < s.comps[j];
    if ComponentsOk(n, s.comps) && ParametersOk(s) {
      assert StepOk(n, bits, s) <==> PlainlyOk(n, script, i);
    }
  }

  lemma {:induction false} StepByStep(n: nat, script: seq<ScanInfo>)
    ensures StepsOk(n, script)
      <==> forall i :: 0 <= i < |script| ==> StepOk(n, AdvanceAll(NothingSent(n), script[..i]), script[i])
    decreases |script|
  {
    hide StepOk, AdvanceAll;
    if script != [] {
      var front := script[..|script| - 1];
      StepByStep(n, front);
      assert forall i :: 0 <= i < |front| ==> front[i] == script[i] && front[..i] == script[..i];
    }
  }

  ghost predicate DcSent(n: nat, script: seq<ScanInfo>) { forall c :: 0 <= c < n ==> 0 <= LastSent(script, c, 0) }

  lemma DcRecorded(n: nat, script: seq<ScanInfo>, bits: Progress)
    requires bits == AdvanceAll(NothingSent(n), script)
    ensures (forall c :: 0 <= c < n ==> 0 <= bits[c][0]) <==> DcSent(n, script)
  {
    hide AdvanceAll;
    forall c | 0 <= c < n
      ensures bits[c][0] == LastSent(script, c, 0)
    {
      ProgressIsLastSent(n, script, c, 0);
    }
  }

  lemma AllOk(n: nat, script: seq<ScanInfo>)
    ensures StepsOk(n, script) <==> forall i :: 0 <= i < |script| ==> PlainlyOk(n, script, i)
  {
    hide StepsOk, StepOk, PlainlyOk;
    StepByStep(n, script);
    forall i | 0 <= i < |script|
      ensures StepOk(n, AdvanceAll(NothingSent(n), script[..i]), script[i]) <==> PlainlyOk(n, script, i)
    {
      OneOk(n, script, i);
    }
  }

  /** A progressive script is legal if and only if every scan is plainly right after those before it, and the DC
      coefficients of every component are sent. */
  lemma LegalPlainly(n: nat, script: seq<ScanInfo>)
    ensures LegalProgressive(n, script) <==>
      && script != [] && (forall i :: 0 <= i < |script| ==> PlainlyOk(n, script, i))
      && DcSent(n, script)
  {
    AllOk(n, script);
    DcRecorded(n, script, AdvanceAll(NothingSent(n), script));
    hide PlainlyOk, DcSent;
  }

  // ----- legal sequential scripts -----

  /** The parameters that every sequential scan must have. */
  predicate PlainlySequential(n: nat, s: ScanInfo) {
    && 1 <= |s.comps| <= 4
    && (forall j :: 0 <= j < |s.comps| ==> 0 <= s.comps[j] < n)
    && (forall j, l :: 0 <= j < l < |s.comps| ==> s.comps[j] < s.comps[l])
    && s.ss == 0 && s.se == 63 && s.ah == 0 && s.al == 0
  }

  /** No component is in two scans. */
  predicate SentOnce(script: seq<ScanInfo>) {
    forall i, j, c :: 0 <= i < j < |script| && c in script[i].comps ==> c !in script[j].comps
  }

  predicate SentIn(script: seq<ScanInfo>, c: int) { exists i :: 0 <= i < |script| && c in script[i].comps }

  lemma SequentialPlainly(n: nat, sent: set<int>, s: ScanInfo)
    ensures SequentialOk(n, sent, s) <==> PlainlySequential(n, s) && forall c :: c in s.comps ==> c !in sent
  {
    if forall j :: 0 < j < |s.comps| ==> s.comps[j - 1] < s.comps[j] {
      Ascending(s.comps);
    }
    assert (forall j, l :: 0 <= j < l < |s.comps| ==> s.comps[j] < s.comps[l]) ==>
        forall j :: 0 < j < |s.comps| ==> s.comps[j - 1] < s.comps[j];
  }

  lemma {:induction false} SequentialsPlainly(n: nat, script: seq<ScanInfo>)
    ensures SequentialsOk(n, script) <==>
      (forall i :: 0 <= i < |script| ==> PlainlySequential(n, script[i])) && SentOnce(script)
    decreases |script|
  {
    hide SequentialOk, PlainlySequential;
    if script != [] {
      var front, s := script[..|script| - 1], script[|script| - 1];
      SequentialsPlainly(n, front);
      SequentialPlainly(n, SentBy(front), s);
      assert forall i :: 0 <= i < |front| ==> front[i] == script[i];
      assert SentOnce(script) <==> SentOnce(front) && forall c :: c in s.comps ==> c !in SentBy(front);
    }
  }

  /** A sequential script is legal if and only if every scan has the parameters of a sequential scan and every
      component is in exactly one of them. */
  lemma LegalSequentialPlainly(n: nat, script: seq<ScanInfo>)
    ensures LegalSequential(n, script) <==>
      && script != [] && (forall i :: 0 <= i < |script| ==> PlainlySequential(n, script[i])) && SentOnce(script)
      && forall c :: 0 <= c < n ==> SentIn(script, c)
  {
    hide PlainlySequential;
    SequentialsPlainly(n, script);
    forall c: nat
      ensures c in SentBy(script) <==> SentIn(script, c)
    {
      InSome(script, c);
    }
  }

  lemma InSome(script: seq<ScanInfo>, c: int)
    ensures c in SentBy(script) <==> SentIn(script, c)
  {
    if c in SentBy(script) {
      var s :| s in script && c in s.comps;
      var i :| 0 <= i < |script| && script[i] == s;
    }
  }

  // ----- the decompressor's check -----

  /** For a scan of a progressive file with good components and parameters that are bytes and half-bytes: what
      the compressor allows is what the decompressor lets pass without a warning, except that it also lets
      pass Ah and Al above ten and coefficients sent again although they were complete. */
  lemma DecoderIsLaxer(n: nat, bits: Progress, s: ScanInfo)
    requires ValidProgress(n, bits) && ComponentsOk(n, s.comps)
    requires 0 <= s.ss <= 255 && 0 <= s.se <= 63 && 0 <= s.ah <= 15 && 0 <= s.al <= 15
    ensures StepOk(n, bits, s) <==>
      && !HeaderFatal(s) && !HeaderWarned(bits, s) && s.ah <= 10 && s.al <= 10
      && forall i, k :: 0 <= i < |s.comps| && s.ss <= k <= s.se ==> bits[s.comps[i]][k] != 0
  {
    if StepOk(n, bits, s) {
      forall i, k | 0 <= i < |s.comps| && s.ss <= k <= s.se
        ensures bits[s.comps[i]][k] != 0 && s.ah == ExpectedHigh(bits[s.comps[i]][k])
      {
        assert ComponentOk(bits[s.comps[i]], s);
      }
      assert forall i :: 0 <= i < |s.comps| ==> ComponentOk(bits[s.comps[i]], s);
      assert CoefficientOk(bits[s.comps[0]][s.ss], s);
    } else if !HeaderFatal(s) && s.ah <= 10 && s.al <= 10 {
      var i :| 0 <= i < |s.comps| && !ComponentOk(bits[s.comps[i]], s);
      var row := bits[s.comps[i]];
      if s.ss == 0 || 0 <= row[0] {
        var k :| s.ss <= k <= s.se && !CoefficientOk(row[k], s);
        assert row[k] == 0 || s.ah != ExpectedHigh(row[k]);
      }
    }
  }
}
