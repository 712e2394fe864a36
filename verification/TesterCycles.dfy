/** How long a tracking cycle takes, and runs that complete any number of them. */
module TesterCycles {
  import opened Words
  import opened TesterSpec
  import opened TesterRuns
  import opened TesterTracking

  // ---- every steady run completes its cycles ----

  /** A configuration of the three times that stays as it is. */
  datatype Timing = Timing(settle: u16, sample: u16, delay: u16)

  ghost predicate Steady(cfg: Timing, gap: nat, now: nat, x: Inputs) {
    x.settle == cfg.settle && x.sample == cfg.sample && x.delay == cfg.delay && x.clock <= now + gap
  }

  /** The configuration stays, and no two updates are more than `gap` apart. */
  ghost predicate RunSteady(cfg: Timing, gap: nat, now: nat, xs: seq<Inputs>) {
    var last := |xs| - 1;
    last < 0 || (RunSteady(cfg, gap, now, xs[..last]) && Steady(cfg, gap, ClockAfter(now, xs[..last]), xs[last]))
  }

  /** Is this the first update in a sampling window, and too late? */
  ghost predicate Misses(s: Snap, x: Inputs) {
    s.state.Measuring() && s.data.nSamples == 0 && x.clock >= s.since + x.settle + x.sample
  }

  ghost predicate RunHits(s: Snap, xs: seq<Inputs>)
    requires Inv(s)
  {
    var last := |xs| - 1;
    last < 0 || (RunHits(s, xs[..last]) && !Misses(Updates(s, xs[..last]), xs[last]))
  }

  /** A delay, two measurements, and for each step of them the time to the next update. */
  function CycleTime(cfg: Timing, gap: nat): nat { cfg.delay + 2 * (cfg.settle + cfg.sample) + 7 * gap }

  /** The time until the cycle is complete, at most. */
  ghost function Remaining(cfg: Timing, gap: nat, s: Snap, now: nat): int {
    var d, window := s.data, cfg.settle + cfg.sample;
    match s.state
    case TrackingDelay => (cfg.delay - (now - s.since)) + 2 * window + 6 * gap
    case MeasureThis => (window - (now - s.since)) + window + 4 * gap
    case MeasureNext => (window - (now - s.since)) + 2 * gap
    case _ => gap + (if d.nextDone then 0 else window + 2 * gap) + (if d.thisDone then 0 else window + 2 * gap) +
              (if d.delayDone then 0 else cfg.delay + 2 * gap)
  }

  /** What has been waited for is not over. */
  ghost predicate Underway(cfg: Timing, s: Snap, now: nat) {
    && (s.state.TrackingDelay? ==> s.timer == Millis(s.since) && s.since <= now <= s.since + cfg.delay)
    && (s.state.Measuring() ==> now <= s.since + cfg.settle + cfg.sample)
  }

  /** Does the step from `s` to `r` use up the time that has passed? */
  ghost predicate Advances(cfg: Timing, gap: nat, s: Snap, now: nat, r: Snap, clock: nat) {
    && Underway(cfg, r, clock)
    && if Climbs(s)
       then Remaining(cfg, gap, r, clock) == CycleTime(cfg, gap) && clock - now <= Remaining(cfg, gap, s, now)
       else Remaining(cfg, gap, r, clock) <= Remaining(cfg, gap, s, now) - (clock - now)
  }

  lemma DelayCases(s: Snap, x: Inputs)
    requires Inv(s) && s.state.TrackingDelay?
    ensures !s.data.thisDone && !s.data.nextDone && !Climbs(s)
    ensures Step(s, x) == if Elapsed(x.clock, s.timer) >= x.delay
              then s.(state := TrackingMode, data := s.data.(delayDone := true)) else s
  {}

  lemma DelayAdvances(s: Snap, x: Inputs, now: nat, cfg: Timing, gap: nat)
    requires Inv(s) && s.state.TrackingDelay? && InPace(s, now, x.clock)
    requires Steady(cfg, gap, now, x) && Underway(cfg, s, now)
    ensures Advances(cfg, gap, s, now, Step(s, x), x.clock)
  {
    DelayCases(s, x);
    ElapsesExactly(s.since, x.clock - s.since);
    hide Elapsed, Inv, Step, Climbs;
  }

  lemma ModeCases(s: Snap, x: Inputs)
    requires Inv(s) && s.state.TrackingMode? && s.data.nErrorReads <= MAX_ERROR_READS
    ensures (s.data.nextDone ==> s.data.thisDone) && (s.data.thisDone ==> s.data.delayDone)
    ensures var r, d := Step(s, x), s.data;
            && (r.state != TrackingMode ==> r.since == x.clock && r.timer == Millis(x.clock) && !Climbs(s))
            && r.state == (if !d.delayDone then TrackingDelay else if !d.thisDone then MeasureThis
                           else if !d.nextDone then MeasureNext else TrackingMode)
            && (r.state == TrackingMode ==> Climbs(s) && !r.data.delayDone && !r.data.thisDone && !r.data.nextDone)
  {}

  lemma ModeAdvances(s: Snap, x: Inputs, now: nat, cfg: Timing, gap: nat)
    requires Inv(s) && s.state.TrackingMode? && s.data.nErrorReads <= MAX_ERROR_READS && InPace(s, now, x.clock)
    requires Steady(cfg, gap, now, x)
    ensures Advances(cfg, gap, s, now, Step(s, x), x.clock)
  {
    ModeCases(s, x);
    hide Inv, Step, Climbs;
  }

  lemma MeasureAdvances(c: Curve, s: Snap, x: Inputs, now: nat, cfg: Timing, gap: nat)
    requires Inv(s) && CycleOk(c, s) && s.state.Measuring() && GoodCurrent(c[s.dac])
    requires WindowInv(s, now) && Obeys(c, s, now, x) && !Misses(s, x)
    requires Steady(cfg, gap, now, x) && Underway(cfg, s, now)
    ensures Advances(cfg, gap, s, now, Step(s, x), x.clock)
  {
    ElapsesExactly(s.since, x.clock - s.since);
    hide Elapsed, EndMeasure, Step;
    if InWindow(s, x) {
      InWindowSamples(s, x);
    } else {
      OutOfWindow(s, x);
      if s.data.nSamples > 0 {
        MeasureEnds(c, s);
      }
    }
  }

  lemma OutOfWindow(s: Snap, x: Inputs)
    requires Inv(s) && s.state.Measuring() && !InWindow(s, x) && s.since <= x.clock
    requires Elapsed(x.clock, s.timer) == x.clock - s.since && !Misses(s, x)
    ensures x.clock < s.since + x.settle + x.sample ==> x.clock < s.since + x.settle && Step(s, x) == s
    ensures x.clock >= s.since + x.settle + x.sample ==> s.data.nSamples > 0 && Step(s, x) == EndMeasure(s)
  {
    hide EndMeasure, Elapsed;
  }

  lemma StepAdvances(c: Curve, s: Snap, x: Inputs, now: nat, cfg: Timing, gap: nat)
    requires Inv(s) && CycleOk(c, s) && GoodCurrent(c[s.data.vThis]) && GoodCurrent(c[s.data.vNext])
    requires WindowInv(s, now) && Obeys(c, s, now, x) && !Misses(s, x)
    requires Steady(cfg, gap, now, x) && Underway(cfg, s, now)
    ensures Advances(cfg, gap, s, now, Step(s, x), x.clock)
  {
    if s.state.Measuring() {
      MeasureAdvances(c, s, x, now, cfg, gap);
    } else if s.state.TrackingDelay? {
      DelayAdvances(s, x, now, cfg, gap);
    } else {
      ModeAdvances(s, x, now, cfg, gap);
    }
    hide Step, Advances, WindowInv, Steady, Underway;
  }

  /** The walk stays on codes where the current is good. */
  lemma WalkIsGood(c: Curve, m: u8, v0: u8, p: Snap, n: nat)
    requires 1 <= m <= 254 && GoodOnWay(c, v0, m) && Inv(p) && CycleOk(c, p) && p.data.vThis == Walk(v0, m, n)
    ensures GoodCurrent(c[p.data.vThis]) && GoodCurrent(c[p.data.vNext])
  {
    WalkStep(v0, m, n);
    assert OnWay(v0, m, p.data.vThis);
  }

  lemma {:induction false} CyclesKeepUp(c: Curve, m: u8, s: Snap, now: nat, xs: seq<Inputs>, cfg: Timing, gap: nat)
    requires 1 <= m <= 254 && Hill(c, m) && CycleStart(s) && GoodOnWay(c, s.data.vThis, m)
    requires RunObeys(c, s, now, xs) && RunSteady(cfg, gap, now, xs) && RunHits(s, xs)
    ensures var r, t, n := Updates(s, xs), ClockAfter(now, xs), Cycles(s, xs);
            && Underway(cfg, r, t) && t - now + Remaining(cfg, gap, r, t) <= (n + 1) * CycleTime(cfg, gap)
  {
    hide Step, CycleOk, Obeys, Hill, GoodOnWay, Climbs, Walk, Inv, WindowInv, Underway, Steady, Remaining, CycleTime,
        Misses;
    if |xs| == 0 {
      CycleBegins(s, now, cfg, gap);
    } else {
      var ys, x := xs[..|xs| - 1], xs[|xs| - 1];
      StartsWell(s);
      var p, t, n := Updates(s, ys), ClockAfter(now, ys), Cycles(s, ys);
      TrackingConverges(c, m, s, now, ys);
      CyclesKeepUp(c, m, s, now, ys, cfg, gap);
      WalkIsGood(c, m, s.data.vThis, p, n);
      StepAdvances(c, p, x, t, cfg, gap);
      assert (n + 2) * CycleTime(cfg, gap) == (n + 1) * CycleTime(cfg, gap) + CycleTime(cfg, gap);
    }
  }

  lemma CycleBegins(s: Snap, now: nat, cfg: Timing, gap: nat)
    requires CycleStart(s)
    ensures Underway(cfg, s, now) && Remaining(cfg, gap, s, now) == CycleTime(cfg, gap)
  {}

  /** On a stationary hill, in every run with a fixed configuration whose clock keeps
      advancing by at most `gap` and that misses no sampling window, a cycle takes at
      most CycleTime. So once more time has passed than one cycle for every code between
      the start and the top, the voltage is at the top or one below it, and stays there. */
  lemma TopIsReached(c: Curve, m: u8, s: Snap, now: nat, xs: seq<Inputs>, cfg: Timing, gap: nat)
    requires 1 <= m <= 254 && Hill(c, m) && CycleStart(s) && GoodOnWay(c, s.data.vThis, m)
    requires RunObeys(c, s, now, xs) && RunSteady(cfg, gap, now, xs) && RunHits(s, xs)
    ensures var passed := ClockAfter(now, xs) - now;
            && passed <= (Cycles(s, xs) + 1) * CycleTime(cfg, gap)
            && (passed > Distance(s.data.vThis, m) * CycleTime(cfg, gap) ==> m - 1 <= Updates(s, xs).data.vThis <= m)
  {
    var n, d, time := Cycles(s, xs), Distance(s.data.vThis, m), CycleTime(cfg, gap);
    CyclesKeepUp(c, m, s, now, xs, cfg, gap);
    TrackingConverges(c, m, s, now, xs);
    if n < d {
      TimesMonotone(n + 1, d, time);
    }
    hide Updates, Cycles, RunObeys, Hill, CycleTime;
    RemainingIsTime(cfg, gap, Updates(s, xs), ClockAfter(now, xs));
  }

  lemma RemainingIsTime(cfg: Timing, gap: nat, s: Snap, now: nat)
    requires Underway(cfg, s, now)
    ensures Remaining(cfg, gap, s, now) >= 0
  {}

  /** Was the last command, at `now`, an update that made a conversion? */
  ghost predicate Converted(s: Snap, now: nat) {
    |s.bus| > 0 && s.bus[|s.bus| - 1].AdcRead? && s.bus[|s.bus| - 1].at == now
  }

  /** Unless the channel has just made a conversion, its next update comes before a
      sampling window could pass. */
  ghost predicate RunPrompt(cfg: Timing, s: Snap, now: nat, xs: seq<Inputs>)
    requires Inv(s)
  {
    var last := |xs| - 1;
    last < 0 ||
    (&& RunPrompt(cfg, s, now, xs[..last])
     && Prompt(cfg, Updates(s, xs[..last]), ClockAfter(now, xs[..last]), xs[last]))
  }

  ghost predicate Prompt(cfg: Timing, s: Snap, now: nat, x: Inputs) {
    !Converted(s, now) ==> x.clock < now + cfg.sample
  }

  /** A measurement without a sample is still settling, or has only just begun. */
  ghost predicate Settling(cfg: Timing, s: Snap, now: nat) {
    s.state.Measuring() && s.data.nSamples == 0 ==> now == s.since || now < s.since + cfg.settle
  }

  lemma NotConverted(s: Snap, now: nat)
    requires WindowInv(s, now) && s.state.Measuring() && s.data.nSamples == 0
    ensures !Converted(s, now)
  {}

  lemma SettlingMeasure(s: Snap, x: Inputs, now: nat, cfg: Timing, gap: nat)
    requires Inv(s) && s.state.Measuring() && WindowInv(s, now) && InPace(s, now, x.clock) && Settling(cfg, s, now)
    requires Steady(cfg, gap, now, x) && Prompt(cfg, s, now, x)
    ensures !Misses(s, x) && Settling(cfg, Step(s, x), x.clock)
  {
    ElapsesExactly(s.since, x.clock - s.since);
    hide Elapsed, EndMeasure, Step, Inv, InWindow;
    if s.data.nSamples == 0 {
      NotConverted(s, now);
    }
    hide Converted, Window;
    if InWindow(s, x) {
      InWindowSamples(s, x);
      RoomForOne(s, x, now);
    } else {
      OutOfWindow(s, x);
      MeasureTraffic(s, x);
    }
  }

  lemma SettlingStep(s: Snap, x: Inputs, now: nat, cfg: Timing, gap: nat)
    requires Inv(s) && WindowInv(s, now) && InPace(s, now, x.clock) && Settling(cfg, s, now)
    requires Steady(cfg, gap, now, x) && Prompt(cfg, s, now, x)
    ensures !Misses(s, x) && Settling(cfg, Step(s, x), x.clock)
  {
    if s.state.Measuring() {
      SettlingMeasure(s, x, now, cfg, gap);
    } else {
      StepTraffic(s, x);
    }
    hide Step, Inv, WindowInv, InPace;
  }

  /** No window is missed if the updates after which this channel has made no conversion
      are followed by another before the window could pass. How long its conversions
      take, and with them the gaps after them, does not matter. */
  lemma {:induction false} ShortGapsHit(c: Curve, m: u8, s: Snap, now: nat, xs: seq<Inputs>, cfg: Timing, gap: nat)
    requires 1 <= m <= 254 && Hill(c, m) && CycleStart(s) && GoodOnWay(c, s.data.vThis, m)
    requires RunObeys(c, s, now, xs) && RunSteady(cfg, gap, now, xs) && RunPrompt(cfg, s, now, xs)
    ensures RunHits(s, xs) && Settling(cfg, Updates(s, xs), ClockAfter(now, xs))
  {
    hide Step, CycleOk, Hill, GoodOnWay, Climbs, Walk, Inv, WindowInv, Settling, Steady, Misses, InPace, Prompt;
    if |xs| == 0 {
      NotSettling(s, now, cfg);
    } else {
      var ys, x := xs[..|xs| - 1], xs[|xs| - 1];
      StartsWell(s);
      TrackingConverges(c, m, s, now, ys);
      ShortGapsHit(c, m, s, now, ys, cfg, gap);
      SettlingStep(Updates(s, ys), x, ClockAfter(now, ys), cfg, gap);
    }
  }

  lemma NotSettling(s: Snap, now: nat, cfg: Timing)
    requires CycleStart(s)
    ensures Settling(cfg, s, now)
  {}

  // ---- such runs exist ----

  ghost predicate Rested(s: Snap, now: nat) {
    |s.bus| > 0 && s.bus[|s.bus| - 1].AdcRead? ==> s.bus[|s.bus| - 1].at <= now
  }

  /** `xs`, after a command at `now`, is a run on the curve from `s` to `r`, which it
      reaches at time `t` with `n` cycles complete. */
  ghost predicate Leads(c: Curve, s: Snap, now: nat, xs: seq<Inputs>, r: Snap, t: nat, n: nat) {
    && Inv(s) && RunObeys(c, s, now, xs) && Updates(s, xs) == r && ClockAfter(now, xs) == t && Cycles(s, xs) == n
    && Inv(r) && Rested(r, t)
  }

  lemma Nowhere(c: Curve, s: Snap, now: nat)
    requires Inv(s) && Rested(s, now)
    ensures Leads(c, s, now, [], s, now, 0)
  {}

  lemma RestedStep(p: Snap, t: nat, x: Inputs)
    requires Inv(p) && Rested(p, t) && t <= x.clock
    ensures Rested(Step(p, x), x.clock)
  {
    StepTraffic(p, x);
    hide Step, Inv;
  }

  lemma Push(c: Curve, s: Snap, now: nat, xs: seq<Inputs>, p: Snap, t: nat, n: nat, x: Inputs) returns (q: Snap)
    requires Leads(c, s, now, xs, p, t, n) && Obeys(c, p, t, x)
    ensures q == Step(p, x) && Leads(c, s, now, xs + [x], q, x.clock, n + if Climbs(p) then 1 else 0)
  {
    q := Step(p, x);
    InvStep(p, x);
    RestedStep(p, t, x);
    assert (xs + [x])[..|xs|] == xs;
    hide Step, Inv, Obeys, Climbs, Rested;
  }

  /** An update `wait` milliseconds after the least time a conversion takes. */
  function Later(cfg: Inputs, t: nat, wait: nat, adc: u16): Inputs {
    cfg.(clock := t + CONVERSION_TIME + wait, adc := adc)
  }

  /** Two updates wait for the tracking delay. */
  lemma WaitOnce(c: Curve, s: Snap, now: nat, xs: seq<Inputs>, p: Snap, t: nat, n: nat, cfg: Inputs)
    returns (ys: seq<Inputs>, q: Snap, u: nat)
    requires Leads(c, s, now, xs, p, t, n) && p.state == TrackingMode && !p.data.delayDone
    requires p.data.nErrorReads <= MAX_ERROR_READS
    ensures Leads(c, s, now, ys, q, u, n) &&
            q == p.(data := p.data.(delayDone := true), timer := q.timer, since := q.since)
  {
    hide RunObeys, Cycles, Updates, Inv, Rested;
    var x1 := Later(cfg, t, 0, 0);
    Paces(c, s, now, xs, p, t, n, x1);
    var p1 := Push(c, s, now, xs, p, t, n, x1);
    var x2 := Later(cfg, x1.clock, cfg.delay, 0);
    Paces(c, s, now, xs + [x1], p1, x1.clock, n, x2);
    ElapsesExactly(x1.clock, cfg.delay + CONVERSION_TIME);
    q := Push(c, s, now, xs + [x1], p1, x1.clock, n, x2);
    ys, u := xs + [x1] + [x2], x2.clock;
  }

  lemma Paces(c: Curve, s: Snap, now: nat, xs: seq<Inputs>, p: Snap, t: nat, n: nat, x: Inputs)
    requires Leads(c, s, now, xs, p, t, n) && t + CONVERSION_TIME <= x.clock < t + MAX_GAP
    ensures InPace(p, t, x.clock)
  {}

  /** Is a measurement what comes next? */
  ghost predicate Ready(p: Snap) {
    p.data.nErrorReads <= MAX_ERROR_READS &&
    if p.state.ScanningMode? then p.data.vScan <= V_SCAN_MAX
    else p.state.TrackingMode? && p.data.delayDone && !p.data.nextDone
  }

  function PointOf(p: Snap): Point {
    if p.state.ScanningMode? then Scan else if p.data.thisDone then Next else This
  }

  /** The state in which a measurement of one reading, the curve's, ends. */
  ghost function Measured(c: Curve, p: Snap, x: Inputs): Snap
    requires Inv(p) && Ready(p)
    ensures var r := Measured(c, p, x); r.state.Measuring() && r.data.active != NoPoint
  {
    var r := BeginMeasure(p, PointOf(p), x);
    var i := c[r.dac];
    r.(data := r.data.(iSampleSum := i, nSamples := 1).Store(i))
  }

  lemma Begins(p: Snap, x: Inputs)
    requires Inv(p) && Ready(p)
    ensures Step(p, x) == BeginMeasure(p, PointOf(p), x) && !Climbs(p)
    ensures var r := Step(p, x);
            && r.state.Measuring() && r.timer == Millis(x.clock) && r.since == x.clock
            && |r.bus| > 0 && r.bus[|r.bus| - 1].DacWrite? && r.data.nSamples == r.data.iSampleSum == 0
  {}

  /** Just at the end of the settling time the first sample is taken. */
  lemma FirstSample(c: Curve, p: Snap, t: nat, x: Inputs)
    requires Inv(p) && p.state.Measuring() && p.data.nSamples == p.data.iSampleSum == 0
    requires p.timer == Millis(t) && |p.bus| > 0 && p.bus[|p.bus| - 1].DacWrite?
    requires x.clock == t + x.settle && x.adc == c[p.dac] && x.sample > 0
    ensures Obeys(c, p, t, x) && Step(p, x) == ReadAdc(p, x).(data := p.data.(iSampleSum := x.adc, nSamples := 1))
  {
    hide Step, Inv, Elapsed;
    ElapsesExactly(t, x.settle);
    assert InWindow(p, x);
    InWindowSamples(p, x);
    hide InWindow, Millis;
  }

  /** One update begins a measurement and the next one samples. */
  lemma SampleOnce(c: Curve, s: Snap, now: nat, xs: seq<Inputs>, p: Snap, t: nat, n: nat, cfg: Inputs)
    returns (ys: seq<Inputs>, q: Snap, u: nat)
    requires Leads(c, s, now, xs, p, t, n) && Ready(p) && cfg.sample > 0
    ensures Leads(c, s, now, ys, q, u, n) && q.state.Measuring() && q.data.nSamples == 1 &&
            q.data.iSampleSum == c[q.dac]
    ensures var r := BeginMeasure(p, PointOf(p), cfg);
            q == r.(data := r.data.(nSamples := 1, iSampleSum := c[q.dac]), timer := q.timer, since := q.since,
                bus := q.bus)
    ensures q.timer == Millis(q.since) && u == q.since + cfg.settle
  {
    hide RunObeys, Cycles, Updates, Inv, Rested, Step;
    var x1 := Later(cfg, t, 0, 0);
    Paces(c, s, now, xs, p, t, n, x1);
    Begins(p, x1);
    var p1 := Push(c, s, now, xs, p, t, n, x1);
    var x2 := cfg.(clock := x1.clock + cfg.settle, adc := c[p1.dac]);
    FirstSample(c, p1, x1.clock, x2);
    hide Obeys, BeginMeasure;
    q := Push(c, s, now, xs + [x1], p1, x1.clock, n, x2);
    ys, u := xs + [x1] + [x2], x2.clock;
  }

  /** Three updates make a measurement: one begins it, one samples, one ends it. */
  lemma MeasureOnce(c: Curve, s: Snap, now: nat, xs: seq<Inputs>, p: Snap, t: nat, n: nat, cfg: Inputs)
    returns (ys: seq<Inputs>, q: Snap, u: nat)
    requires Leads(c, s, now, xs, p, t, n) && Ready(p) && cfg.sample > 0
    ensures Leads(c, s, now, ys, q, u, n)
    ensures var r := LeaveMeasure(Measured(c, p, cfg)); q == r.(timer := q.timer, since := q.since, bus := q.bus)
  {
    hide RunObeys, Cycles, Updates, Inv, Rested, LeaveMeasure, Step;
    var zs, p2, v := SampleOnce(c, s, now, xs, p, t, n, cfg);
    var x3 := Later(cfg, v, cfg.sample - 1, c[p2.dac]);
    Paces(c, s, now, zs, p2, v, n, x3);
    q := Push(c, s, now, zs, p2, v, n, x3);
    ys, u := zs + [x3], x3.clock;
    ElapsesExactly(p2.since, x3.clock - p2.since);
    OutOfWindow(p2, x3);
    ConstantMean(1, c[p2.dac]);
    LeavesAlike(p2, Measured(c, p, cfg));
  }

  /** The end of a measurement depends on the timer and the bus in no way. */
  lemma LeavesAlike(a: Snap, b: Snap)
    requires a.state.Measuring() && a.data.active != NoPoint && a.data.nSamples == 1
    requires Wrap16(a.data.iSampleSum / 1) == a.data.iSampleSum
    requires b == a.(data := a.data.Store(a.data.iSampleSum), timer := b.timer, since := b.since, bus := b.bus)
    ensures EndMeasure(a) == LeaveMeasure(b).(timer := a.timer, since := a.since, bus := a.bus)
  {}

  /** The count of bad readings after one more. */
  function BadReads(i: u16, n: nat): nat { if GoodCurrent(i) then 0 else n + 1 }

  /** What a measurement of the curve leaves in the tracking data. */
  lemma TrackMeasured(c: Curve, p: Snap, x: Inputs)
    requires Inv(p) && Ready(p) && p.state.TrackingMode?
    ensures var r := LeaveMeasure(Measured(c, p, x));
            && r.state.TrackingMode? && r.data.vThis == p.data.vThis && r.data.vNext == p.data.vNext
            && r.data.delayDone && r.data.thisDone && r.data.nextDone == p.data.thisDone
            && r.data.pThis == (if p.data.thisDone then p.data.pThis else PowerOf(c, p.data.vThis))
            && (p.data.thisDone ==> r.data.pNext == PowerOf(c, p.data.vNext))
            && r.data.nErrorReads == BadReads(c[if p.data.thisDone then p.data.vNext else p.data.vThis],
                p.data.nErrorReads)
  {}

  /** From the start of a cycle, with any configuration that samples at all, and on any
      curve, some run completes the cycle: it waits, measures twice, and climbs. */
  lemma CycleCompletes(c: Curve, s: Snap, now: nat, xs: seq<Inputs>, p: Snap, t: nat, n: nat, cfg: Inputs)
    returns (ys: seq<Inputs>, q: Snap, u: nat)
    requires Leads(c, s, now, xs, p, t, n) && CycleStart(p) && cfg.sample > 0
    requires BadReads(c[p.data.vThis], p.data.nErrorReads) <= MAX_ERROR_READS
    requires BadReads(c[p.data.vNext], BadReads(c[p.data.vThis], p.data.nErrorReads)) <= MAX_ERROR_READS
    ensures Leads(c, s, now, ys, q, u, n + 1) && CycleStart(q)
    ensures q.data.nErrorReads == BadReads(c[p.data.vNext], BadReads(c[p.data.vThis], p.data.nErrorReads))
    ensures q.data.vThis == Wrap8(if PowerOf(c, NextCode(p.data.vThis)) > PowerOf(c, p.data.vThis)
                                  then p.data.vThis + 1 else p.data.vThis - 1)
    ensures |ys| > 0 && ClimbsLast(s, ys, p.data.vThis)
  {
    hide RunObeys, Cycles, Updates, Inv, Rested, Step, LeaveMeasure, Measured, Power, GoodCurrent;
    CycleStarts(p);
    var zs, p2, t2 := WaitOnce(c, s, now, xs, p, t, n, cfg);
    TrackMeasured(c, p2, cfg);
    var vs, p3, t3 := MeasureOnce(c, s, now, zs, p2, t2, n, cfg);
    TrackMeasured(c, p3, cfg);
    var ws, p4, t4 := MeasureOnce(c, s, now, vs, p3, t3, n, cfg);
    var x := Later(cfg, t4, 0, 0);
    Paces(c, s, now, ws, p4, t4, n, x);
    Climbed(p4, x);
    q := Push(c, s, now, ws, p4, t4, n, x);
    ys, u := ws + [x], x.clock;
    assert ys[..|ys| - 1] == ws;
  }

  /** Did the last update of the run move the voltage away from `v`? */
  ghost predicate ClimbsLast(s: Snap, xs: seq<Inputs>, v: u8)
    requires |xs| > 0
  {
    Inv(s) && Climbs(Updates(s, xs[..|xs| - 1])) && Updates(s, xs[..|xs| - 1]).data.vThis == v
  }

  lemma CycleStarts(p: Snap)
    requires CycleStart(p)
    ensures p.data.vNext == NextCode(p.data.vThis) && !p.data.thisDone && !p.data.nextDone
  {}

  lemma Climbed(p: Snap, x: Inputs)
    requires Inv(p) && Climbs(p)
    ensures Step(p, x) == Climb(p) && CycleStart(Step(p, x))
  {
    InvStep(p, x);
  }

  /** So every number of cycles is reached, and with `TrackingConverges` the voltage
      after it is known: the top is reached, and held to within one code. */
  lemma {:induction false} EveryCycleIsReached(c: Curve, m: u8, s: Snap, now: nat, n: nat, cfg: Inputs)
    returns (xs: seq<Inputs>, r: Snap, t: nat)
    requires 1 <= m <= 254 && Hill(c, m) && CycleStart(s) && GoodOnWay(c, s.data.vThis, m)
    requires Rested(s, now) && cfg.sample > 0
    ensures Leads(c, s, now, xs, r, t, n) && CycleStart(r) && r.data.vThis == Walk(s.data.vThis, m, n)
    ensures n >= Distance(s.data.vThis, m) ==> m - 1 <= r.data.vThis <= m
  {
    hide Hill, CycleOk, Obeys, RunObeys, Cycles, Updates;
    if n == 0 {
      xs, r, t := [], s, now;
      Nowhere(c, s, now);
    } else {
      var ys, p, u := EveryCycleIsReached(c, m, s, now, n - 1, cfg);
      TrackingConverges(c, m, s, now, ys);
      WalkIsGood(c, m, s.data.vThis, p, n - 1);
      xs, r, t := CycleCompletes(c, s, now, ys, p, u, n - 1, cfg);
    }
    TrackingConverges(c, m, s, now, xs);
  }
}
