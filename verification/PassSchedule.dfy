/** The schedule of passes of a compression: statistics and output passes, headers, and the loop that
    runs the passes left when the last scanline has been handed over. */
module PassSchedule {
  import opened ScanScript

  datatype PassType = MainPass | HuffOptPass | OutputPass

  /** What the other modules see: the entropy coder started on a scan to gather statistics or to put out
      data, headers written, all MCU rows run through, the entropy coder's end of pass. */
  datatype Event = Gather(scan: nat) | Output(scan: nat) | FrameHeader | ScanHeader(scan: nat) | Rows | EndOfPass

  /** A DC refinement scan needs no Huffman table. */
  predicate NeedsNoTable(s: ScanInfo) { s.ss == 0 && s.ah != 0 }

  /** The events of the output pass of scan k. */
  function OutputEvents(k: nat): seq<Event> {
    [Output(k)] + (if k == 0 then [FrameHeader] else []) + [ScanHeader(k), Rows, EndOfPass]
  }

  /** Whether scan k gets a statistics pass of its own. */
  predicate Gathered(optimise: bool, transcode: bool, script: seq<ScanInfo>, k: nat)
    requires k < |script|
  {
    optimise && !(NeedsNoTable(script[k]) && (transcode || k > 0))
  }

  /** All events of scan k. */
  function ScanEvents(optimise: bool, transcode: bool, script: seq<ScanInfo>, k: nat): seq<Event>
    requires k < |script|
  {
    (if Gathered(optimise, transcode, script, k) then [Gather(k), Rows, EndOfPass] else []) + OutputEvents(k)
  }

  /** The events of the first k scans. */
  function Schedule(optimise: bool, transcode: bool, script: seq<ScanInfo>, k: nat): seq<Event>
    requires k <= |script|
  {
    if k == 0 then [] else Schedule(optimise, transcode, script, k - 1) + ScanEvents(optimise, transcode, script, k - 1)
  }

  class Master {
    const optimise: bool
    const transcode: bool
    const script: seq<ScanInfo>
    const totalPasses: nat
    var passType: PassType
    var passNumber: nat
    var scanNumber: nat
    var isLastPass: bool
    var callPassStartup: bool
    var current: nat              // the scan whose parameters are selected
    var events: seq<Event>

    /** Script entries need not be legal, but there is at least one. */
    constructor (optimise: bool, transcode: bool, script: seq<ScanInfo>)
      requires script != []
      ensures this.optimise == optimise && this.transcode == transcode && this.script == script
      ensures Between(0) && events == [] && !isLastPass
    {
      this.optimise := optimise;
      this.transcode := transcode;
      this.script := script;
      passType := if !transcode then MainPass else if optimise then HuffOptPass else OutputPass;
      scanNumber := 0;
      passNumber := 0;
      totalPasses := if optimise then |script| * 2 else |script|;
      isLastPass := false;
      callPassStartup := false;
      current := 0;
      events := [];
    }

    predicate Consistent()
      reads this
    {
      script != [] && totalPasses == if optimise then |script| * 2 else |script|
    }

    /** Scans before k are done, and nothing of scan k. */
    predicate Between(k: nat)
      reads this
    {
      && Consistent() && k <= |script| && scanNumber == k
      && passNumber == (if optimise then 2 * k else k)
      && events == Schedule(optimise, transcode, script, k)
      && passType == (if k == 0 && !transcode then MainPass else if optimise then HuffOptPass else OutputPass)
      && (k > 0 ==> (isLastPass <==> k == |script|))
      && !callPassStartup
    }

    /** Statistics of scan k have been gathered, and its output is next. */
    predicate HasGathered(k: nat)
      reads this
    {
      && Consistent() && k < |script| && optimise && scanNumber == current == k && passNumber == 2 * k + 1
      && passType == OutputPass && !isLastPass && !callPassStartup
      && events == Schedule(optimise, transcode, script, k) + [Gather(k), Rows, EndOfPass]
      && Gathered(optimise, transcode, script, k)
    }

    /** A pass is under way; headers are still to be written if `callPassStartup`. */
    predicate Under(k: nat, gathering: bool)
      reads this
    {
      && Consistent() && k < |script| && scanNumber == current == k
      && if gathering then
           && Gathered(optimise, transcode, script, k) && passNumber == 2 * k && !isLastPass && !callPassStartup
           && passType == (if k == 0 && !transcode then MainPass else HuffOptPass)
           && events == Schedule(optimise, transcode, script, k) + [Gather(k)]
         else
           && passNumber == (if optimise then 2 * k + 1 else k)
           && (isLastPass <==> k == |script| - 1)
           && passType == (if k == 0 && !transcode && !optimise then MainPass else OutputPass)
           && (callPassStartup ==> passType == MainPass)
           && (passType == MainPass ==> !optimise)
           && var before := Schedule(optimise, transcode, script, k)
                + (if Gathered(optimise, transcode, script, k) then [Gather(k), Rows, EndOfPass] else []);
              events == before + [Output(k)]
                + if callPassStartup then [] else (if k == 0 then [FrameHeader] else []) + [ScanHeader(k)]
    }

    method SelectScanParameters()
      modifies this`current
      ensures current == scanNumber
    {
      current := scanNumber;
    }

    /** Start the next pass. */
    method PrepareForPass(ghost k: nat)
      requires k < |script| && (Between(k) || HasGathered(k))
      modifies this
      ensures Under(k, old(Between(k)) && Gathered(optimise, transcode, script, k))
      ensures callPassStartup <==> old(passType) == MainPass && !optimise
    {
      hide Schedule;
      match passType {
        case MainPass =>
          SelectScanParameters();
          events := events + [if optimise then Gather(current) else Output(current)];
          callPassStartup := !optimise;
        case HuffOptPass =>
          SelectScanParameters();
          if script[current].ss != 0 || script[current].ah == 0 {
            events := events + [Gather(current)];
            callPassStartup := false;
          } else {
            passType := OutputPass;
            passNumber := passNumber + 1;
            StartOutput();
          }
        case OutputPass =>
          if !optimise {
            SelectScanParameters();
          }
          StartOutput();
      }
      isLastPass := passNumber == totalPasses - 1;
    }

    /** Start a data output pass and write its headers. */
    method StartOutput()
      modifies this`events, this`callPassStartup
      ensures events
        == old(events) + [Output(current)] + ((if scanNumber == 0 then [FrameHeader] else []) + [ScanHeader(current)])
      ensures !callPassStartup
    {
      events := events + [Output(current)];
      if scanNumber == 0 {
        events := events + [FrameHeader];
      }
      events := events + [ScanHeader(current)];
      callPassStartup := false;
    }

    /** The headers, at the first scanline of a single-pass compression. */
    method PassStartup()
      requires Under(0, false) && callPassStartup
      modifies this`events, this`callPassStartup
      ensures Under(0, false) && !callPassStartup
    {
      callPassStartup := false;
      events := events + [FrameHeader];
      events := events + [ScanHeader(current)];
    }

    /** Run all MCU rows through the coder. */
    method RunRows()
      modifies this`events
      ensures events == old(events) + [Rows]
    {
      events := events + [Rows];
    }

    /** End of a pass whose MCU rows have been run through. */
    method FinishPass(ghost k: nat, ghost gathering: bool, ghost before: seq<Event>)
      requires events == before + [Rows] && !callPassStartup && Consistent() && k < |script|
      requires scanNumber == current == k
      requires passType == MainPass ==> k == 0 && !transcode && gathering == optimise
      requires passType == HuffOptPass ==> optimise && gathering
      requires passType == OutputPass ==> !gathering
      modifies this
      ensures events == old(events) + [EndOfPass] && passNumber == old(passNumber) + 1
      ensures isLastPass == old(isLastPass) && callPassStartup == old(callPassStartup) && current == old(current)
      ensures scanNumber == if gathering then k else k + 1
      ensures passType == if gathering then OutputPass else if optimise then HuffOptPass else OutputPass
    {
      events := events + [EndOfPass];
      match passType {
        case MainPass =>
          passType := OutputPass;
          if !optimise {
            scanNumber := scanNumber + 1;
          }
        case HuffOptPass =>
          passType := OutputPass;
        case OutputPass =>
          if optimise {
            passType := HuffOptPass;
          }
          scanNumber := scanNumber + 1;
      }
      passNumber := passNumber + 1;
    }

    /** Run a pass that has been prepared. */
    method RunPass(ghost k: nat, ghost gathering: bool)
      requires Under(k, gathering) && !callPassStartup
      modifies this
      ensures if gathering then HasGathered(k) else Between(k + 1)
    {
      ghost var before := events;
      PassDone(optimise, transcode, script, k, gathering, before);
      hide Schedule;
      RunRows();
      FinishPass(k, gathering, before);
      assert before + [Rows] + [EndOfPass] == before + [Rows, EndOfPass];
    }

    /** Passes until the last one. */
    method FinishCompress(ghost k0: nat)
      requires Between(k0) || HasGathered(k0)
      requires k0 == 0 && Between(0) ==> transcode && !isLastPass
      modifies this
      ensures Between(|script|) && isLastPass
    {
      ghost var k := k0;
      while !isLastPass
        invariant k <= |script| && (Between(k) || HasGathered(k))
        invariant k == 0 && Between(0) ==> transcode && !isLastPass
        decreases |script| - k, HasGathered(k) ==> false
      {
        ghost var gathering := Between(k) && Gathered(optimise, transcode, script, k);
        PrepareForPass(k);
        RunPass(k, gathering);
        if !gathering {
          k := k + 1;
        }
      }
    }
  }

  /** With the rows of a pass, its events are complete. */
  lemma PassDone(optimise: bool, transcode: bool, script: seq<ScanInfo>, k: nat, gathering: bool, before: seq<Event>)
    requires k < |script|
    ensures gathering && before == Schedule(optimise, transcode, script, k) + [Gather(k)] ==>
      before + [Rows, EndOfPass] == Schedule(optimise, transcode, script, k) + [Gather(k), Rows, EndOfPass]
    ensures var statistics := if Gathered(optimise, transcode, script, k) then [Gather(k), Rows, EndOfPass] else [];
      var headers := (if k == 0 then [FrameHeader] else []) + [ScanHeader(k)];
      before == Schedule(optimise, transcode, script, k) + statistics + [Output(k)] + headers ==>
        before + [Rows, EndOfPass] == Schedule(optimise, transcode, script, k + 1)
  {
  }

  /** A whole compression of a complete image.  Transcoding has no main pass. */
  method Compress(optimise: bool, transcode: bool, script: seq<ScanInfo>)
    returns (events: seq<Event>, passes: nat, counted: nat)
    requires script != []
    ensures events == Schedule(optimise, transcode, script, |script|)
    ensures passes == counted == if optimise then |script| * 2 else |script|
  {
    var m := new Master(optimise, transcode, script);
    ghost var k := 0;
    if !transcode {
      m.PrepareForPass(0);
      if m.callPassStartup {
        m.PassStartup();
      }
      m.RunPass(0, optimise);
      k := if optimise then 0 else 1;
    }
    m.FinishCompress(k);
    return m.events, m.passNumber, m.totalPasses;
  }

  // ----- what the schedule means -----

  predicate IsHeader(e: Event) { e.FrameHeader? || e.ScanHeader? }

  function Headers(events: seq<Event>): seq<Event> {
    if events == [] then []
    else (if IsHeader(events[0]) then [events[0]] else []) + Headers(events[1..])
  }

  lemma HeadersFirst(e: Event, rest: seq<Event>)
    ensures Headers([e] + rest) == (if IsHeader(e) then [e] else []) + Headers(rest)
  {
    assert ([e] + rest)[1..] == rest;
  }

  lemma {:induction false} HeadersConcat(a: seq<Event>, b: seq<Event>)
    ensures Headers(a + b) == Headers(a) + Headers(b)
    decreases |a|
  {
    if a == [] {
      assert a + b == b;
    } else {
      hide Headers, IsHeader;
      var e, rest := a[0], a[1..];
      HeadersFirst(e, rest);
      HeadersFirst(e, rest + b);
      HeadersConcat(rest, b);
      assert a == [e] + rest && a + b == [e] + (rest + b);
    }
  }

  lemma ScanEventsHeaders(optimise: bool, transcode: bool, script: seq<ScanInfo>, k: nat)
    requires k < |script|
    ensures Headers(ScanEvents(optimise, transcode, script, k))
      == (if k == 0 then [FrameHeader] else []) + [ScanHeader(k)]
  {
    var tail := [ScanHeader(k), Rows, EndOfPass];
    assert tail[1..] == [Rows, EndOfPass] && [Rows, EndOfPass][1..] == [EndOfPass] && [EndOfPass][1..] == [];
    assert Headers(tail) == [ScanHeader(k)];
    assert [Output(k)][1..] == [] && [Gather(k), Rows, EndOfPass][1..] == [Rows, EndOfPass];
    HeadersConcat([Output(k)] + (if k == 0 then [FrameHeader] else []), tail);
    HeadersConcat([Output(k)], if k == 0 then [FrameHeader] else []);
    HeadersConcat(if Gathered(optimise, transcode, script, k) then [Gather(k), Rows, EndOfPass] else [],
      OutputEvents(k));
  }

  function ScanHeaders(k: nat): (r: seq<Event>)
    ensures |r| == k
  {
    seq(k, i requires 0 <= i < k => ScanHeader(i))
  }

  /** The frame header is written once, before any scan header, and the scan headers once each in order,
      whether or not statistics passes are skipped. */
  lemma {:induction false} HeadersInOrder(optimise: bool, transcode: bool, script: seq<ScanInfo>, k: nat)
    requires 0 < k <= |script|
    ensures Headers(Schedule(optimise, transcode, script, k)) == [FrameHeader] + ScanHeaders(k)
    decreases k
  {
    hide ScanEvents, Headers;
    ScanEventsHeaders(optimise, transcode, script, k - 1);
    if k > 1 {
      HeadersInOrder(optimise, transcode, script, k - 1);
      HeadersConcat(Schedule(optimise, transcode, script, k - 1), ScanEvents(optimise, transcode, script, k - 1));
    } else {
      assert Schedule(optimise, transcode, script, 0) == [];
      assert [] + ScanEvents(optimise, transcode, script, 0) == ScanEvents(optimise, transcode, script, 0);
    }
    assert ScanHeaders(k) == ScanHeaders(k - 1) + [ScanHeader(k - 1)];
  }

  /** With optimised tables, no scan that needs a table is put out unless the pass just before gathered
      that scan's statistics. */
  lemma {:induction false} TablesAreReady(optimise: bool, transcode: bool, script: seq<ScanInfo>, k: nat, i: nat)
    requires k <= |script| && i < |Schedule(optimise, transcode, script, k)|
    ensures var events := Schedule(optimise, transcode, script, k);
      events[i].Output? && optimise ==>
        && events[i].scan < k
        && ((script[events[i].scan].ss == 0 && script[events[i].scan].ah != 0)
            || (i >= 3 && events[i - 3] == Gather(events[i].scan) && events[i - 1] == EndOfPass))
    decreases k
  {
    if k > 0 {
      var front := Schedule(optimise, transcode, script, k - 1);
      if i < |front| {
        TablesAreReady(optimise, transcode, script, k - 1, i);
      }
    }
  }

  /** What a pass over scan k consists of. */
  function WholePass(e: Event): seq<Event> {
    match e
    case Gather(k) => [Gather(k), Rows, EndOfPass]
    case Output(0) => [Output(0), FrameHeader, ScanHeader(0), Rows, EndOfPass]
    case Output(k) => [Output(k), ScanHeader(k), Rows, EndOfPass]
    case _ => []
  }

  lemma LaterPart(a: seq<Event>, b: seq<Event>, j: nat, m: nat)
    requires j + m <= |b|
    ensures (a + b)[|a| + j..|a| + j + m] == b[j..j + m]
  {
  }

  lemma ScanPasses(optimise: bool, transcode: bool, script: seq<ScanInfo>, k: nat, i: nat)
    requires k < |script| && i < |ScanEvents(optimise, transcode, script, k)|
    ensures var events := ScanEvents(optimise, transcode, script, k);
      events[i].Gather? || events[i].Output? ==>
        i + |WholePass(events[i])| <= |events| && events[i..i + |WholePass(events[i])|] == WholePass(events[i])
  {
  }

  /** A pass once started is run to its end: the headers, if it puts out data, then the rows, then the end. */
  lemma {:induction false} PassesAreWhole(optimise: bool, transcode: bool, script: seq<ScanInfo>, n: nat, i: nat)
    requires n <= |script| && i < |Schedule(optimise, transcode, script, n)|
    ensures var events := Schedule(optimise, transcode, script, n);
      events[i].Gather? || events[i].Output? ==>
        i + |WholePass(events[i])| <= |events| && events[i..i + |WholePass(events[i])|] == WholePass(events[i])
    decreases n
  {
    hide ScanEvents, WholePass;
    if n > 0 {
      var front, back := Schedule(optimise, transcode, script, n - 1), ScanEvents(optimise, transcode, script, n - 1);
      var events := Schedule(optimise, transcode, script, n);
      assert events == front + back;
      if i < |front| {
        PassesAreWhole(optimise, transcode, script, n - 1, i);
        var m := |WholePass(events[i])|;
        assert i + m <= |front| ==> events[i..i + m] == front[i..i + m];
      } else {
        ScanPasses(optimise, transcode, script, n - 1, i - |front|);
        var j, m := i - |front|, |WholePass(events[i])|;
        assert events[i] == back[j];
        if j + m <= |back| {
          LaterPart(front, back, j, m);
        }
      }
    }
  }

  /** How often an event occurs. */
  function Times(events: seq<Event>, e: Event): nat {
    if events == [] then 0 else (if events[0] == e then 1 else 0) + Times(events[1..], e)
  }

  lemma {:induction false} TimesConcat(a: seq<Event>, b: seq<Event>, e: Event)
    ensures Times(a + b, e) == Times(a, e) + Times(b, e)
  {
    if a == [] {
      assert a + b == b;
    } else {
      assert (a + b)[1..] == a[1..] + b;
      TimesConcat(a[1..], b, e);
    }
  }

  lemma Never(e: Event)
    ensures Times([], e) == 0
  {
  }

  lemma TimesOne(a: Event, e: Event)
    ensures Times([a], e) == if a == e then 1 else 0
  {
    assert [a][1..] == [];
  }

  lemma TimesThree(a: Event, b: Event, c: Event, e: Event)
    ensures Times([a, b, c], e) == (if a == e then 1 else 0) + (if b == e then 1 else 0) + if c == e then 1 else 0
  {
    hide Times;
    TimesOne(a, e);
    TimesOne(b, e);
    TimesOne(c, e);
    TimesConcat([a], [b], e);
    TimesConcat([a] + [b], [c], e);
    assert [a, b, c] == [a] + [b] + [c];
  }

  /** How often an event occurs in the passes of one scan. */
  lemma ScanEventsTimes(optimise: bool, transcode: bool, script: seq<ScanInfo>, k: nat, e: Event)
    requires k < |script|
    ensures var gathers := optimise && (script[k].ss != 0 || script[k].ah == 0 || (k == 0 && !transcode));
      Times(ScanEvents(optimise, transcode, script, k), e)
      == (if gathers then (if e == Gather(k) || e == Rows || e == EndOfPass then 1 else 0) else 0)
         + if e == Output(k) || (e == FrameHeader && k == 0) || e == ScanHeader(k) || e == Rows || e == EndOfPass then 1
           else 0
  {
    var gathered := if Gathered(optimise, transcode, script, k) then [Gather(k), Rows, EndOfPass] else [];
    var header := if k == 0 then [FrameHeader] else [];
    var tail := [ScanHeader(k), Rows, EndOfPass];
    hide Times;
    Never(e);
    TimesThree(Gather(k), Rows, EndOfPass, e);
    TimesThree(ScanHeader(k), Rows, EndOfPass, e);
    TimesOne(Output(k), e);
    TimesOne(FrameHeader, e);
    TimesConcat([Output(k)], header, e);
    TimesConcat([Output(k)] + header, tail, e);
    TimesConcat(gathered, [Output(k)] + header + tail, e);
  }

  /** The scans among the first n whose statistics are worth a pass: with optimisation, all but those that only
      refine DC coefficients; the first, unless transcoding, even then. */
  function WorthPass(optimise: bool, transcode: bool, script: seq<ScanInfo>, n: nat): (count: nat)
    requires n <= |script|
  {
    if n == 0 then 0
    else
      WorthPass(optimise, transcode, script, n - 1)
      + (if !optimise then 0
         else if script[n - 1].ss != 0 || script[n - 1].ah == 0 then 1
         else if n == 1 && !transcode then 1
         else 0)
  }

  /** Every scan is put out exactly once, and its statistics are gathered exactly once or never: never without
      optimisation, nor for a DC refinement scan that is not the first.  As many passes are run as these. */
  lemma {:induction false} GatheredExactly(optimise: bool, transcode: bool, script: seq<ScanInfo>, n: nat, k: nat)
    requires n <= |script|
    ensures var events := Schedule(optimise, transcode, script, n);
      && Times(events, Output(k)) == (if k < n then 1 else 0)
      && Times(events, Gather(k))
         == (if k < n && optimise && (script[k].ss != 0 || script[k].ah == 0 || (k == 0 && !transcode)) then 1 else 0)
      && Times(events, EndOfPass) == n + WorthPass(optimise, transcode, script, n)
    decreases n
  {
    hide ScanEvents, Times;
    if n > 0 {
      GatheredExactly(optimise, transcode, script, n - 1, k);
      var front := Schedule(optimise, transcode, script, n - 1);
      TimesBoth(optimise, transcode, script, n - 1, front, Output(k));
      TimesBoth(optimise, transcode, script, n - 1, front, Gather(k));
      TimesBoth(optimise, transcode, script, n - 1, front, EndOfPass);
    } else {
      Never(Output(k));
      Never(Gather(k));
      Never(EndOfPass);
    }
  }

  lemma TimesBoth(optimise: bool, transcode: bool, script: seq<ScanInfo>, k: nat, front: seq<Event>, e: Event)
    requires k < |script|
    ensures var gathers := optimise && (script[k].ss != 0 || script[k].ah == 0 || (k == 0 && !transcode));
      Times(front + ScanEvents(optimise, transcode, script, k), e)
      == Times(front, e) + (if gathers then (if e == Gather(k) || e == Rows || e == EndOfPass then 1 else 0) else 0)
         + if e == Output(k) || (e == FrameHeader && k == 0) || e == ScanHeader(k) || e == Rows || e == EndOfPass then 1
           else 0
  {
    hide ScanEvents, Times;
    TimesConcat(front, ScanEvents(optimise, transcode, script, k), e);
    ScanEventsTimes(optimise, transcode, script, k, e);
  }
}
