/** The way of a channel from a reset through the scan into tracking, on a stationary
    curve, and a run in which the working voltage wraps. */
module TesterJourney {
  import opened Words
  import opened TesterSpec
  import opened TesterRuns
  import opened TesterTracking
  import opened TesterCycles

  // ---- a scan measures the curve ----

  /** What a scan of the curve has logged when `n` codes are measured. */
  function CurveLog(c: Curve, n: nat): (log: seq<(u8, u16)>)
    requires n <= 256
    ensures |log| == n && forall k :: 0 <= k < n ==> log[k] == (k, c[k])
  {
    seq(n, k requires 0 <= k < n => (k, c[k]))
  }

  ghost predicate ScanOnCurve(c: Curve, s: Snap) {
    SumsCurve(c, s) && s.data.vScan <= V_SCAN_MAX + 1 && ScanProgress(s, CurveLog(c, s.data.vScan))
  }

  lemma ScanMeasures(c: Curve, s: Snap, x: Inputs, now: nat)
    requires Inv(s) && s.state.MeasureScan? && ScanOnCurve(c, s) && WindowInv(s, now) && Obeys(c, s, now, x)
    ensures var r := Step(s, x); (r.state.MeasureScan? || r.state.ScanningMode?) && ScanOnCurve(c, r)
  {
    var log := CurveLog(c, s.data.vScan);
    ScanProgressStep(s, x, log);
    hide Step, EndMeasure, InPace, WindowInv, Inv, InWindow, ScanProgress;
    if InWindow(s, x) {
      RoomForOne(s, x, now);
      SampleAdds(c, s, x);
    } else {
      MeasureCases(s, x);
      if s.data.nSamples > 0 {
        ScanStores(c, s);
        assert log + [(s.dac, c[s.dac])] == CurveLog(c, s.data.vScan + 1);
      }
    }
  }

  lemma ScanStores(c: Curve, s: Snap)
    requires Inv(s) && SumsCurve(c, s) && s.state.MeasureScan? && s.data.nSamples > 0
    ensures var r := EndMeasure(s);
            r.state.ScanningMode? && r.data.iScan == c[s.dac] && r.data.vScan == s.data.vScan + 1 &&
                s.dac == s.data.vScan
  {
    StoresCurve(c, s);
    hide EndMeasure;
  }

  lemma BeforeScan(c: Curve, s: Snap, x: Inputs)
    requires Inv(s) && s.state == Initialise
    ensures var r := Step(s, x);
            r.state == Initialise || r.state == Error || (r.state.ScanningMode? && ScanOnCurve(c, r))
    ensures var r := Step(s, x); r.error in {s.error, Ok, CurrentThreshold, CurrentLimit}
  {}

  lemma BetweenCodes(c: Curve, s: Snap, x: Inputs)
    requires Inv(s) && s.state.ScanningMode? && s.data.vScan <= V_SCAN_MAX && ScanOnCurve(c, s)
    ensures Step(s, x).state.MeasureScan? && ScanOnCurve(c, Step(s, x))
  {
    hide Best, PowerAt, CurveLog;
  }

  ghost predicate ScansCurve(c: Curve, s: Snap) { s.state.ScanningMode? || s.state.MeasureScan? ==> ScanOnCurve(c, s) }

  lemma ScansCurveStep(c: Curve, s: Snap, x: Inputs, now: nat)
    requires Inv(s) && ScansCurve(c, s) && WindowInv(s, now) && Obeys(c, s, now, x)
    ensures ScansCurve(c, Step(s, x))
  {
    hide ScanOnCurve, WindowInv, InPace;
    if s.state == Initialise {
      BeforeScan(c, s, x);
    } else if s.state.MeasureScan? {
      ScanMeasures(c, s, x, now);
    } else if s.state.ScanningMode? && s.data.vScan <= V_SCAN_MAX {
      BetweenCodes(c, s, x);
    } else {
      ScanStepCases(s, x);
    }
  }

  /** On any curve, at every point of every run from a reset, the scan has logged the
      curve's currents at the codes it has passed. */
  lemma {:induction false} ScanFollowsCurve(c: Curve, start: Snap, clock: nat, xs: seq<Inputs>)
    requires RunObeys(c, ResetAt(start, clock), clock, xs)
    ensures var r := Updates(ResetAt(start, clock), xs); ScansCurve(c, r) && WindowInv(r, ClockAfter(clock, xs))
  {
    hide Step, Obeys, Inv, WindowInv, ScansCurve, Reset;
    var s := ResetAt(start, clock);
    if |xs| == 0 {
      ScanIsAhead(c, start, clock);
    } else {
      var ys, x := xs[..|xs| - 1], xs[|xs| - 1];
      ScanFollowsCurve(c, start, clock, ys);
      ObeyedPace(c, Updates(s, ys), ClockAfter(clock, ys), x);
      WindowInvStep(Updates(s, ys), x, ClockAfter(clock, ys));
      ScansCurveStep(c, Updates(s, ys), x, ClockAfter(clock, ys));
    }
  }

  lemma ScanIsAhead(c: Curve, start: Snap, clock: nat)
    ensures ScansCurve(c, ResetAt(start, clock)) && WindowInv(ResetAt(start, clock), clock)
  {}

  function ResetAt(start: Snap, clock: nat): (s: Snap)
    ensures Inv(s)
  {
    InvReset(start, clock);
    Reset(start, clock)
  }

  lemma ObeyedPace(c: Curve, s: Snap, now: nat, x: Inputs)
    requires Obeys(c, s, now, x)
    ensures InPace(s, now, x.clock)
  {}

  // ---- the verdict on a hill ----

  lemma {:induction false} RisesTo(c: Curve, m: u8, k: u8, end: u8)
    requires Hill(c, m) && k < end <= m
    ensures PowerOf(c, k) < PowerOf(c, end)
    decreases end as int - k
  {
    assert PowerOf(c, k) < PowerOf(c, k + 1);
    if k + 1 < end {
      RisesTo(c, m, k + 1, end);
    }
  }

  lemma {:induction false} FallsFrom(c: Curve, m: u8, k: u8)
    requires Hill(c, m) && m <= k
    ensures PowerOf(c, k) <= PowerOf(c, m)
  {
    if m < k {
      assert PowerOf(c, k - 1 + 1) <= PowerOf(c, k - 1);
      FallsFrom(c, m, k - 1);
    }
  }

  /** Is the top strictly inside the scan, and the last code scanned below it? */
  ghost predicate Peaks(c: Curve, m: u8) { 0 < m < V_SCAN_MAX && PowerOf(c, V_SCAN_MAX) < PowerOf(c, m) }

  /** A scan of a hill has the shape of one exactly if it peaks inside, and then its first
      peak is the top. */
  lemma HillIsShaped(c: Curve, m: u8)
    requires Hill(c, m)
    ensures var log := CurveLog(c, V_SCAN_MAX + 1);
            && (HillShaped(log) <==> Peaks(c, m))
            && (0 < m < V_SCAN_MAX ==> forall v: nat :: FirstPeak(log, v) <==> v == m)
  {
    var log := CurveLog(c, V_SCAN_MAX + 1);
    assert forall k :: 0 <= k <= V_SCAN_MAX ==> PowerAt(log, k) == PowerOf(c, k);
    if m < V_SCAN_MAX {
      TopIsFirstPeak(c, m);
    } else {
      forall v | 0 < v < V_SCAN_MAX ensures PowerOf(c, v) < PowerOf(c, V_SCAN_MAX) {
        RisesTo(c, m, v, V_SCAN_MAX);
      }
    }
    hide Hill, PowerOf;
  }

  lemma TopIsFirstPeak(c: Curve, m: u8)
    requires Hill(c, m) && m < V_SCAN_MAX
    ensures var log := CurveLog(c, V_SCAN_MAX + 1); forall v: nat :: FirstPeak(log, v) <==> v == m
  {
    var log := CurveLog(c, V_SCAN_MAX + 1);
    forall k | 0 <= k <= V_SCAN_MAX
      ensures PowerAt(log, k) == PowerOf(c, k) <= PowerAt(log, m) && (k < m ==> PowerOf(c, k) < PowerAt(log, m))
    {
      if k < m { RisesTo(c, m, k, m); } else { FallsFrom(c, m, k); }
    }
    assert FirstPeak(log, m);
    hide Hill, PowerOf;
  }

  lemma HandsOver(c: Curve, m: u8, p: Snap, x: Inputs)
    requires Hill(c, m)
    requires Inv(p) && p.state.ScanningMode? && p.data.vScan > V_SCAN_MAX && ScanOnCurve(c, p)
    ensures var r := Step(p, x);
            if Peaks(c, m)
            then CycleStart(r) && r.data.vThis == m && r.data.nErrorReads == p.data.nErrorReads
            else r.state == Error && r.error == InvalidScan
  {
    EndScanVerdict(p, x, CurveLog(c, V_SCAN_MAX + 1));
    HillIsShaped(c, m);
    ScanEnds(p, x);
    hide Step, EndScan, Hill, PowerOf, ScanProgress, HillShaped, FirstPeak;
  }

  lemma ScanEnds(p: Snap, x: Inputs)
    requires Inv(p) && p.state.ScanningMode? && p.data.vScan > V_SCAN_MAX
    ensures Step(p, x) == EndScan(p, x) && EndScan(p, x).data.nErrorReads == p.data.nErrorReads
    ensures EndScan(p, x).state.TrackingMode? ==> CycleStart(EndScan(p, x))
  {
    InvStep(p, x);
  }

  // ---- from a reset ----

  /** Where a channel can be, with `n` tracking cycles complete. */
  ghost predicate OnJourney(c: Curve, m: u8, s: Snap, n: nat) {
    match s.state
    case NoState => false
    case Initialise => n == 0 && s.error in {Ok, CurrentThreshold, CurrentLimit}
    case ScanningMode => n == 0 && ScanOnCurve(c, s)
    case MeasureScan => n == 0 && ScanOnCurve(c, s)
    case Error =>
      n == 0 && (s.error in {CurrentThreshold, CurrentLimit} || (s.error == InvalidScan && !Peaks(c, m)))
    case _ => CycleOk(c, s) && s.data.vThis == Walk(m, m, n) && Peaks(c, m)
  }

  lemma JourneyStep(c: Curve, m: u8, s: Snap, x: Inputs, now: nat, n: nat)
    requires Hill(c, m) && (Peaks(c, m) ==> GoodOnWay(c, m, m))
    requires Inv(s) && OnJourney(c, m, s, n) && WindowInv(s, now) && Obeys(c, s, now, x)
    ensures OnJourney(c, m, Step(s, x), n + if Climbs(s) then 1 else 0)
  {
    if s.state == Initialise {
      BeforeScan(c, s, x);
    } else if s.state.MeasureScan? {
      ScanMeasures(c, s, x, now);
    } else if s.state.Tracking() {
      ConvergeStep(c, m, m, s, x, now, n);
    } else if s.state.ScanningMode? {
      if s.data.vScan > V_SCAN_MAX {
        HandsOver(c, m, s, x);
      } else {
        BetweenCodes(c, s, x);
      }
    }
    hide Step, ScanOnCurve, Hill, GoodOnWay, WindowInv, InPace, Inv, PowerOf;
  }

  /** On a stationary hill, wherever its top `m` is, every run from a reset that gets
      past the current threshold scans, and then tracks if and only if the top is
      strictly inside the scan and the last code scanned has less power; it begins at
      the top and from then on alternates between m-1 and m. Otherwise the channel stops
      with an invalid scan: the top is at or beyond the last code, or the power is level
      from the top to there, or there is none at all. */
  lemma {:induction false} ScanThenTrack(c: Curve, m: u8, start: Snap, clock: nat, xs: seq<Inputs>)
    requires Hill(c, m) && (Peaks(c, m) ==> GoodOnWay(c, m, m))
    requires RunObeys(c, ResetAt(start, clock), clock, xs)
    ensures var s := ResetAt(start, clock);
            var r, n := Updates(s, xs), Cycles(s, xs);
            OnJourney(c, m, r, n) && WindowInv(r, ClockAfter(clock, xs))
  {
    hide Step, Obeys, Hill, GoodOnWay, Climbs, Inv, WindowInv, OnJourney, Peaks;
    var s := ResetAt(start, clock);
    if |xs| == 0 {
      JourneyBegins(c, m, start, clock);
    } else {
      var ys, x := xs[..|xs| - 1], xs[|xs| - 1];
      ScanThenTrack(c, m, start, clock, ys);
      ObeyedPace(c, Updates(s, ys), ClockAfter(clock, ys), x);
      WindowInvStep(Updates(s, ys), x, ClockAfter(clock, ys));
      JourneyStep(c, m, Updates(s, ys), x, ClockAfter(clock, ys), Cycles(s, ys));
    }
  }

  lemma JourneyBegins(c: Curve, m: u8, start: Snap, clock: nat)
    ensures OnJourney(c, m, ResetAt(start, clock), 0) && WindowInv(ResetAt(start, clock), clock)
  {}

  // ---- a run that scans ----

  /** Saturated readings of an initialising channel are counted, here `bad` of them. */
  lemma {:induction false} ReadsBadly(c: Curve, start: Snap, clock: nat, bad: nat, cfg: Inputs)
    returns (xs: seq<Inputs>, q: Snap, t: nat)
    requires bad <= MAX_ERROR_READS
    ensures Leads(c, ResetAt(start, clock), clock, xs, q, t, 0) && Initial(q, clock, bad)
    ensures t == clock + bad * (cfg.settle + CONVERSION_TIME)
  {
    var s := ResetAt(start, clock);
    hide RunObeys, Cycles, Updates, Inv, Rested, ResetAt, Step, Initial;
    if bad == 0 {
      xs, q, t := [], s, clock;
      ResetIsInitial(start, clock);
      Nowhere(c, s, clock);
    } else {
      var ys, p, u := ReadsBadly(c, start, clock, bad - 1, cfg);
      var x := Later(cfg, u, cfg.settle, MAX_CURRENT);
      WaitsShortly(bad, cfg);
      Paces(c, s, clock, ys, p, u, 0, x);
      ReadsOnce(p, x, clock, bad - 1);
      InitialObeys(c, p, clock, bad - 1, u, x);
      q := Push(c, s, clock, ys, p, u, 0, x);
      xs, t := ys + [x], x.clock;
    }
  }

  /** Initialising since `since`, with `bad` bad readings. */
  ghost predicate Initial(s: Snap, since: nat, bad: nat) {
    && s.state == Initialise && s.since == since && s.timer == Millis(since)
    && s.data.nErrorReads == bad && s.data.vScan == 0
  }

  lemma ResetIsInitial(s: Snap, clock: nat)
    ensures Initial(ResetAt(s, clock), clock, 0) && Rested(ResetAt(s, clock), clock)
  {}

  lemma InitialObeys(c: Curve, s: Snap, since: nat, bad: nat, t: nat, x: Inputs)
    requires Initial(s, since, bad) && InPace(s, t, x.clock)
    ensures Obeys(c, s, t, x) && !Climbs(s)
  {}

  lemma WaitsShortly(bad: nat, cfg: Inputs)
    requires 0 < bad <= MAX_ERROR_READS + 1
    ensures var one := cfg.settle + CONVERSION_TIME;
            (bad - 1) * one + one == bad * one && one <= bad * one < 0x1_0000_0000
  {
    TimesMonotone(bad, MAX_ERROR_READS + 1, cfg.settle + CONVERSION_TIME);
    TimesMonotone(1, bad, cfg.settle + CONVERSION_TIME);
  }

  lemma ReadsOnce(p: Snap, x: Inputs, since: nat, bad: nat)
    requires Inv(p) && Initial(p, since, bad) && bad <= MAX_ERROR_READS
    requires x.settle <= x.clock - since < 0x1_0000_0000
    ensures x.adc == MAX_CURRENT ==> Initial(Step(p, x), since, bad + 1)
    ensures x.threshold <= x.adc < MAX_CURRENT ==>
              var q := Step(p, x); q.state == ScanningMode && q.data.vScan == 0 && q.data.nErrorReads == bad
  {
    ElapsesExactly(since, x.clock - since);
    hide Elapsed;
  }

  /** An initial update that is late enough and reads a good current starts the scan. */
  lemma Starts(c: Curve, start: Snap, clock: nat, bad: nat, cfg: Inputs) returns (xs: seq<Inputs>, q: Snap, t: nat)
    requires cfg.threshold < MAX_CURRENT && bad <= MAX_ERROR_READS
    ensures var s := ResetAt(start, clock);
            Leads(c, s, clock, xs, q, t, 0) && q.state == ScanningMode && q.data.vScan == 0 && q.data.nErrorReads == bad
  {
    hide RunObeys, Cycles, Updates, Inv, Rested, ResetAt, Step, Initial;
    var s := ResetAt(start, clock);
    var ys, p, u := ReadsBadly(c, start, clock, bad, cfg);
    var x := Later(cfg, u, cfg.settle, MAX_CURRENT - 1);
    WaitsShortly(bad + 1, cfg);
    Paces(c, s, clock, ys, p, u, 0, x);
    ReadsOnce(p, x, clock, bad);
    InitialObeys(c, p, clock, bad, u, x);
    q := Push(c, s, clock, ys, p, u, 0, x);
    xs, t := ys + [x], x.clock;
  }

  lemma ScanMeasured(c: Curve, p: Snap, x: Inputs)
    requires Inv(p) && Ready(p) && p.state.ScanningMode?
    ensures var r := LeaveMeasure(Measured(c, p, x));
            r.state.ScanningMode? && r.data.vScan == p.data.vScan + 1 && r.data.nErrorReads == p.data.nErrorReads
  {}

  /** On any curve and with any configuration that samples at all, some run from a reset
      measures the first `k` codes, even after bad initial readings. */
  lemma {:induction false} ScansTo(c: Curve, start: Snap, clock: nat, k: nat, bad: nat, cfg: Inputs)
    returns (xs: seq<Inputs>, q: Snap, t: nat)
    requires bad <= MAX_ERROR_READS
    requires k <= V_SCAN_MAX + 1 && cfg.threshold < MAX_CURRENT && cfg.sample > 0
    ensures Leads(c, ResetAt(start, clock), clock, xs, q, t, 0)
    ensures q.state == ScanningMode && q.data.vScan == k && q.data.nErrorReads == bad
  {
    hide RunObeys, Cycles, Updates, Step, LeaveMeasure, Measured, Inv, Reset;
    if k == 0 {
      xs, q, t := Starts(c, start, clock, bad, cfg);
    } else {
      var ys, p, u := ScansTo(c, start, clock, k - 1, bad, cfg);
      ScanMeasured(c, p, cfg);
      xs, q, t := MeasureOnce(c, ResetAt(start, clock), clock, ys, p, u, 0, cfg);
    }
  }

  /** So a scan of any curve is completed, with the verdict on that curve. */
  lemma ScanCompletes(c: Curve, start: Snap, clock: nat, bad: nat, cfg: Inputs)
    returns (xs: seq<Inputs>, q: Snap, t: nat)
    requires bad <= MAX_ERROR_READS && cfg.threshold < MAX_CURRENT && cfg.sample > 0
    ensures Leads(c, ResetAt(start, clock), clock, xs, q, t, 0)
    ensures Verdict(q, CurveLog(c, V_SCAN_MAX + 1)) && q.data.nErrorReads == bad
    ensures q.state == TrackingMode ==> CycleStart(q)
  {
    hide Step, LeaveMeasure, Measured, Inv, Reset, ScanProgress, Verdict, EndScan;
    var ys, p, u := ScansTo(c, start, clock, V_SCAN_MAX + 1, bad, cfg);
    ScanFollowsCurve(c, start, clock, ys);
    var x := Later(cfg, u, 0, 0);
    Paces(c, ResetAt(start, clock), clock, ys, p, u, 0, x);
    EndScanVerdict(p, x, CurveLog(c, V_SCAN_MAX + 1));
    ScanEnds(p, x);
    q := Push(c, ResetAt(start, clock), clock, ys, p, u, 0, x);
    xs, t := ys + [x], x.clock;
  }

  /** On a hill that peaks inside the scan, tracking is reached. */
  lemma TrackingIsReached(c: Curve, m: u8, start: Snap, clock: nat, bad: nat, cfg: Inputs)
    returns (xs: seq<Inputs>, q: Snap, t: nat)
    requires bad <= MAX_ERROR_READS && Hill(c, m) && Peaks(c, m) && cfg.threshold < MAX_CURRENT && cfg.sample > 0
    ensures Leads(c, ResetAt(start, clock), clock, xs, q, t, 0)
    ensures CycleStart(q) && q.data.vThis == m && q.data.nErrorReads == bad
  {
    xs, q, t := ScanCompletes(c, start, clock, bad, cfg);
    HillIsShaped(c, m);
    hide Leads, Reset, Hill, PowerOf, HillShaped, FirstPeak;
  }

  /** 2000 at code 50 and 1000 at code 100 are the same power. */
  const TIED: Curve := seq(256, k => if k == 50 then 2000 else if k == 100 then 1000 else 0)

  /** The scan of that curve has its first peak strictly inside and is rejected for the
      tie, whatever state the reset finds. */
  lemma TiedScanIsRejected(start: Snap, clock: nat, cfg: Inputs) returns (xs: seq<Inputs>, q: Snap, t: nat)
    requires cfg.threshold < MAX_CURRENT && cfg.sample > 0
    ensures Leads(TIED, ResetAt(start, clock), clock, xs, q, t, 0) && FirstPeak(CurveLog(TIED, V_SCAN_MAX + 1), 50)
    ensures q.state == Error && q.error == InvalidScan
  {
    var log := CurveLog(TIED, V_SCAN_MAX + 1);
    assert forall k :: 0 <= k <= V_SCAN_MAX ==> PowerAt(log, k) == if k == 50 || k == 100 then 100000 else 0;
    InteriorPeak(log, 50);
    hide Leads, Reset, HillShaped;
    xs, q, t := ScanCompletes(TIED, start, clock, 0, cfg);
  }

  // ---- a run in which the voltage wraps ----

  /** The commands of a run from a reset. */
  function FromReset(clock: nat, xs: seq<Inputs>): (cmds: seq<Command>)
    ensures |cmds| == |xs| + 1 && Started(cmds)
  {
    [DoReset(clock)] + seq(|xs|, k requires 0 <= k < |xs| => DoUpdate(xs[k]))
  }

  ghost predicate RunPaced(s: Snap, now: nat, xs: seq<Inputs>)
    requires Inv(s)
  {
    var last := |xs| - 1;
    last < 0 || (RunPaced(s, now, xs[..last]) &&
        InPace(Updates(s, xs[..last]), ClockAfter(now, xs[..last]), xs[last].clock))
  }

  lemma {:induction false} ObeyedIsPaced(c: Curve, s: Snap, now: nat, xs: seq<Inputs>)
    requires Inv(s) && RunObeys(c, s, now, xs)
    ensures RunPaced(s, now, xs)
  {
    hide Inv, InPace, Step;
    if |xs| > 0 {
      ObeyedIsPaced(c, s, now, xs[..|xs| - 1]);
    }
  }

  /** Runs follow one another. */
  lemma {:induction false} RunsJoin(s: Snap, now: nat, xs: seq<Inputs>, ys: seq<Inputs>)
    requires Inv(s) && RunPaced(s, now, xs) && RunPaced(Updates(s, xs), ClockAfter(now, xs), ys)
    ensures Updates(s, xs + ys) == Updates(Updates(s, xs), ys) && RunPaced(s, now, xs + ys)
    ensures ClockAfter(now, xs + ys) == ClockAfter(ClockAfter(now, xs), ys)
  {
    hide Inv, InPace, Step;
    var last := |ys| - 1;
    if last < 0 {
      assert xs + ys == xs;
    } else {
      assert (xs + ys)[..|xs + ys| - 1] == xs + ys[..last];
      RunsJoin(s, now, xs, ys[..last]);
    }
  }

  lemma {:induction false} RunFromReset(start: Snap, clock: nat, xs: seq<Inputs>)
    requires RunPaced(ResetAt(start, clock), clock, xs)
    ensures Run(start, FromReset(clock, xs)) == Updates(ResetAt(start, clock), xs)
    ensures Paced(start, FromReset(clock, xs)) && FromReset(clock, xs)[|xs|].Clock() == ClockAfter(clock, xs)
  {
    hide Inv, InPace, Step, Reset;
    var cmds, last := FromReset(clock, xs), |xs| - 1;
    if last >= 0 {
      assert cmds[..|xs|] == FromReset(clock, xs[..last]);
      RunFromReset(start, clock, xs[..last]);
    }
  }

  const DARK: Curve := seq(256, _ => 0)

  /** Only code 1 gives current. */
  const DIM: Curve := seq(256, k => if k == 1 then 1000 else 0)

  lemma DimIsHill()
    ensures Hill(DIM, 1) && Peaks(DIM, 1)
  {
    assert forall v: u8 :: PowerOf(DIM, v) == if v == 1 then 1000 else 0;
  }

  lemma DarkHasNoPower(v: u8)
    ensures PowerOf(DARK, v) == 0 && !GoodCurrent(DARK[v])
  {}

  /** In the dark the voltage steps down, also from code 0. */
  lemma StepsDown(s: Snap, now: nat, xs: seq<Inputs>, p: Snap, t: nat, n: nat, cfg: Inputs)
    returns (ys: seq<Inputs>, q: Snap, u: nat)
    requires Leads(DARK, s, now, xs, p, t, n) && CycleStart(p) && cfg.sample > 0 &&
             p.data.nErrorReads <= MAX_ERROR_READS - 2
    ensures Leads(DARK, s, now, ys, q, u, n + 1) && CycleStart(q)
    ensures q.data.vThis == Wrap8(p.data.vThis - 1) && q.data.nErrorReads == p.data.nErrorReads + 2
    ensures |ys| > 0 && ClimbsLast(s, ys, p.data.vThis)
  {
    DarkHasNoPower(p.data.vThis);
    DarkHasNoPower(p.data.vNext);
    DarkHasNoPower(NextCode(p.data.vThis));
    hide Leads, PowerOf, GoodCurrent;
    ys, q, u := CycleCompletes(DARK, s, now, xs, p, t, n, cfg);
  }

  /** The wrap of `VoltageMoves` does happen: a channel scans a cell that works at code
      1 only, and then the light goes out. Two cycles later, with four bad readings of
      the twenty allowed, the voltage has gone from code 0 to code 255. All of this is
      at the pace of the converter. */
  lemma VoltageWraps(start: Snap, clock: nat, cfg: Inputs) returns (cmds: seq<Command>)
    requires cfg.threshold < MAX_CURRENT && cfg.sample > 0
    ensures Started(cmds) && Paced(start, cmds) && |cmds| > 1 && cmds[|cmds| - 1].DoUpdate?
    ensures Climbs(Before(start, cmds)) && Before(start, cmds).data.vThis == 0
    ensures Run(start, cmds).data.vThis == 255 && Run(start, cmds).state == TrackingMode
  {
    hide Leads, Reset, Step, Updates, Paced, Run, RunPaced, Inv, Climbs, Rested, Hill;
    DimIsHill();
    var s := ResetAt(start, clock);
    var xs, p, t := TrackingIsReached(DIM, 1, start, clock, 0, cfg);
    var ys, q, u := GoesDark(DIM, s, clock, xs, p, t, cfg);
    RunFromReset(start, clock, xs + ys);
    cmds := FromReset(clock, xs + ys);
    var zs := ys[..|ys| - 1];
    assert xs + zs == (xs + ys)[..|xs + ys| - 1];
    RunFromReset(start, clock, xs + zs);
    assert cmds[..|cmds| - 1] == FromReset(clock, xs + zs);
  }

  lemma GoesDark(c: Curve, s: Snap, now: nat, xs: seq<Inputs>, p: Snap, t: nat, cfg: Inputs)
    returns (ys: seq<Inputs>, q: Snap, u: nat)
    requires Leads(c, s, now, xs, p, t, 0) && CycleStart(p) && p.data.vThis == 1 && p.data.nErrorReads == 0 &&
             cfg.sample > 0
    ensures |ys| > 0 && RunPaced(s, now, xs + ys) && RunPaced(s, now, xs + ys[..|ys| - 1])
    ensures var r := Updates(s, xs + ys[..|ys| - 1]); Climbs(r) && r.data.vThis == 0
    ensures Updates(s, xs + ys) == q && q.data.vThis == 255 && q.state == TrackingMode
  {
    hide Step, Inv;
    Nowhere(DARK, p, t);
    var y1, q1, u1 := StepsDown(p, t, [], p, t, 0, cfg);
    ys, q, u := StepsDown(p, t, y1, q1, u1, 1, cfg);
    ObeyedIsPaced(c, s, now, xs);
    ObeyedIsPaced(DARK, p, t, ys);
    RunsJoin(s, now, xs, ys);
    RunsJoin(s, now, xs, ys[..|ys| - 1]);
  }

  /** Bad initial readings are not forgotten: after twenty of them, a good reading and a
      scan of DIM, a single dark measurement stops the channel, before the first cycle is
      complete. */
  lemma OldReadingsStop(start: Snap, clock: nat, cfg: Inputs) returns (cmds: seq<Command>, n: nat)
    requires cfg.threshold < MAX_CURRENT && cfg.sample > 0
    ensures Started(cmds) && Paced(start, cmds) && 0 < n < |cmds| && CycleStart(Run(start, cmds[..n]))
    ensures var r := Run(start, cmds);
            r.state == Error && r.error == LowCurrent && r.data.thisDone && !r.data.nextDone
  {
    hide Leads, ResetAt, Step, Updates, Paced, Run, RunPaced, Inv, Hill, CycleStart, Rested;
    DimIsHill();
    var s := ResetAt(start, clock);
    var xs, p, t := TrackingIsReached(DIM, 1, start, clock, MAX_ERROR_READS, cfg);
    var ys, q, u := StopsInTheDark(p, t, cfg, DIM, s, clock, xs);
    Joins(DIM, s, clock, xs, p, t, ys, q, u);
    RunFromReset(start, clock, xs + ys);
    RunFromReset(start, clock, xs);
    cmds, n := FromReset(clock, xs + ys), |xs| + 1;
    assert cmds[..n] == FromReset(clock, xs);
  }

  lemma StopsInTheDark(p: Snap, t: nat, cfg: Inputs, c: Curve, s: Snap, now: nat, xs: seq<Inputs>)
    returns (ys: seq<Inputs>, q: Snap, u: nat)
    requires Leads(c, s, now, xs, p, t, 0) && CycleStart(p) && p.data.nErrorReads == MAX_ERROR_READS && cfg.sample > 0
    ensures Leads(DARK, p, t, ys, q, u, 0) && |ys| > 0
    ensures q.state == Error && q.error == LowCurrent && q.data.thisDone && !q.data.nextDone
  {
    hide RunObeys, Cycles, Updates, Inv, Rested, Step, LeaveMeasure, Measured, GoodCurrent;
    StartsWell(p);
    LeadsRested(c, s, now, xs, p, t);
    Nowhere(DARK, p, t);
    CycleStarts(p);
    var y1, p1, t1 := WaitOnce(DARK, p, t, [], p, t, 0, cfg);
    TrackMeasured(DARK, p1, cfg);
    DarkMeasured(p1, cfg);
    DarkHasNoPower(p1.data.vThis);
    var y2, p2, t2 := MeasureOnce(DARK, p, t, y1, p1, t1, 0, cfg);
    var x := Later(cfg, t2, 0, 0);
    Paces(DARK, p, t, y2, p2, t2, 0, x);
    StopsNow(p2, x);
    q := Push(DARK, p, t, y2, p2, t2, 0, x);
    ys, u := y2 + [x], x.clock;
  }

  lemma LeadsRested(c: Curve, s: Snap, now: nat, xs: seq<Inputs>, p: Snap, t: nat)
    requires Leads(c, s, now, xs, p, t, 0)
    ensures Inv(p) && Rested(p, t)
  {}

  lemma DarkMeasured(p: Snap, x: Inputs)
    requires Inv(p) && Ready(p) && p.state.TrackingMode?
    ensures LeaveMeasure(Measured(DARK, p, x)).error == LowCurrent
  {}

  lemma StopsNow(p: Snap, x: Inputs)
    requires Inv(p) && p.state.TrackingMode? && p.data.nErrorReads == MAX_ERROR_READS + 1
    ensures var r := Step(p, x); r.state == Error && r.error == p.error && r.data == p.data && !Climbs(p)
  {}

  lemma Joins(c: Curve, s: Snap, now: nat, xs: seq<Inputs>, p: Snap, t: nat, ys: seq<Inputs>, q: Snap, u: nat)
    requires Leads(c, s, now, xs, p, t, 0) && Leads(DARK, p, t, ys, q, u, 0)
    ensures Inv(s) && RunPaced(s, now, xs) && RunPaced(s, now, xs + ys)
    ensures Updates(s, xs) == p && Updates(s, xs + ys) == q
  {
    hide Step, Inv;
    ObeyedIsPaced(c, s, now, xs);
    ObeyedIsPaced(DARK, p, t, ys);
    RunsJoin(s, now, xs, ys);
  }
}
