/** When a channel converts, waits and moves on: what an update does, told by the clock
    and the bus alone, from the four configured numbers. */
module TesterTimes {
  import opened Words
  import opened TesterSpec
  import opened TesterRuns

  /** No conversion comes earlier than `settle` after the last write to the DAC; the
      tracking delay lasts at least `delay`, and a measurement at least its settling and
      sampling times; the scan begins only with a conversion from `threshold` up, below
      saturation. */
  ghost predicate NeverEarly(s: Snap, r: Snap, clock: nat, adc: u16,
                             settle: u16, delay: u16, sample: u16, threshold: u16) {
    && (r.bus == s.bus + [AdcRead(adc, clock, settle)] ==> Written(s.bus) && clock >= LastWrite(s.bus).at + settle)
    && (s.state.TrackingDelay? && !r.state.TrackingDelay? ==> clock >= s.since + delay)
    && (s.state.Measuring() && !r.state.Measuring() ==> clock >= s.since + settle + sample)
    && (s.state == Initialise && r.state == ScanningMode ==>
          threshold <= adc < 0xFFFF && r.bus == s.bus + [AdcRead(adc, clock, settle)])
  }

  /** What an update does, `e` milliseconds after the timer was set. While it initialises,
      the channel converts at every update once it has settled, up to 21 times. */
  ghost predicate OnTime(s: Snap, r: Snap, clock: nat, adc: u16, settle: u16, delay: u16, sample: u16, threshold: u16) {
    var e, w, read := clock - s.since, Window(s.bus), s.bus + [AdcRead(adc, clock, settle)];
    match s.state
    case Initialise =>
      if |w| == 21 then r.state == Error && r.error == s.error
      else if e < settle then r == s
      else
        && r.bus == read && r.since == s.since
        && r.state == (if threshold <= adc < 0xFFFF then ScanningMode else Initialise)
        && r.error == (if adc < threshold then CurrentThreshold else if adc == 0xFFFF then CurrentLimit else Ok)
    case TrackingDelay => if e < delay then r == s else r.state == TrackingMode && r.bus == s.bus
    case TrackingMode => r.state.TrackingDelay? ==> r.since == clock && r.bus == s.bus
    case ScanningMode => true
    case NoState => true
    case Error => r == s
    case _ =>
      if e < settle then r == s
      else if e < settle + sample then r.bus == read && r.state == s.state && r.since == s.since
      else if w == [] then r.bus == s.bus && r.state == s.state && r.since == clock
      else r.bus == s.bus && !r.state.Measuring()
  }

  /** A measurement begins with a write to the DAC, and the timer. */
  ghost predicate Begins(s: Snap, r: Snap, clock: nat) {
    !s.state.Measuring() && r.state.Measuring() ==> r.bus == s.bus + [DacWrite(r.dac, clock)] && r.since == clock
  }

  ghost predicate KeepsTimes(s: Snap, r: Snap, clock: nat, adc: u16,
                             settle: u16, delay: u16, sample: u16, threshold: u16) {
    && NeverEarly(s, r, clock, adc, settle, delay, sample, threshold)
    && (clock - s.since < 0x1_0000_0000 ==> OnTime(s, r, clock, adc, settle, delay, sample, threshold))
    && Begins(s, r, clock)
  }

  ghost predicate TimesInv(s: Snap, now: nat) {
    && BusInv(s) && Settled(s, now) && WindowInv(s, now)
    && (s.state == Initialise ==> s.data.nErrorReads == |Window(s.bus)| && LastWrite(s.bus).at == s.since)
    && (s.state.TrackingDelay? ==> now - s.since < 0x1_0000)
  }

  lemma TimesReset(s: Snap, clock: nat)
    ensures TimesInv(Reset(s, clock), clock)
  {
    ResetIsSettled(s, clock);
    BusWrite(s.bus, DacWrite(0, clock));
  }

  // ---- initialising ----

  lemma StartTimes(s: Snap, x: Inputs)
    requires Inv(s) && s.state == Initialise && s.timer == Millis(s.since) && s.since <= x.clock
    requires Written(s.bus) && LastWrite(s.bus).at == s.since && s.data.nErrorReads == |Window(s.bus)|
    ensures KeepsTimes(s, Step(s, x), x.clock, x.adc, x.settle, x.delay, x.sample, x.threshold)
    ensures var r := Step(s, x);
            r.state == Initialise ==>
              Written(r.bus) && r.data.nErrorReads == |Window(r.bus)| && LastWrite(r.bus).at == r.since
  {
    hide Elapsed, Window, LastWrite, Written, Sum, Step, Inv, Millis;
    var e := AdcRead(x.adc, x.clock, x.settle);
    ElapsedIsLowerBound(s.since, x.clock);
    if x.clock - s.since < 0x1_0000_0000 {
      ElapsesExactly(s.since, x.clock - s.since);
    }
    BusRead(s.bus, e);
    WindowRead(s.bus, e);
    StartDoes(s, x);
    NotAppended(s.bus, e);
    Distinct(s.bus, DacWrite(0, x.clock), e);
  }

  lemma StartDoes(s: Snap, x: Inputs)
    requires Inv(s) && s.state == Initialise
    ensures var r, e := Step(s, x), Elapsed(x.clock, s.timer);
            if s.data.nErrorReads == 21 then
              r.state == Error && r.error == s.error && r.bus == s.bus + [DacWrite(0, x.clock)]
            else if e < x.settle then r == s
            else
              && r.bus == s.bus + [AdcRead(x.adc, x.clock, x.settle)] && r.since == s.since
              && if x.threshold <= x.adc < 0xFFFF then r.state == ScanningMode && r.error == Ok
                 else r.state == Initialise && r.data.nErrorReads == s.data.nErrorReads + 1
                      && r.error == if x.adc < x.threshold then CurrentThreshold else CurrentLimit
  {
    hide Elapsed;
  }

  lemma NotAppended(bus: seq<BusEvent>, e: BusEvent)
    ensures bus != bus + [e]
  {
    assert |bus + [e]| == |bus| + 1;
  }

  // ---- waiting ----

  lemma DelayTimes(s: Snap, x: Inputs)
    requires Inv(s) && s.state.TrackingDelay? && s.timer == Millis(s.since)
    requires s.since <= x.clock && x.clock - s.since < 0x1_0000_0000
    ensures KeepsTimes(s, Step(s, x), x.clock, x.adc, x.settle, x.delay, x.sample, x.threshold)
    ensures Step(s, x).state.TrackingDelay? ==> x.clock - Step(s, x).since < 0x1_0000
  {
    hide Elapsed, Millis, Window, LastWrite, Written, Inv, Step;
    ElapsesExactly(s.since, x.clock - s.since);
    NotAppended(s.bus, AdcRead(x.adc, x.clock, x.settle));
    DelayDoes(s, x);
  }

  lemma DelayDoes(s: Snap, x: Inputs)
    requires Inv(s) && s.state.TrackingDelay?
    ensures var r := Step(s, x);
            if Elapsed(x.clock, s.timer) < x.delay then r == s else r.state == TrackingMode && r.bus == s.bus
  {
    hide Elapsed;
  }

  // ---- measuring ----

  lemma MeasureTimes(s: Snap, x: Inputs, now: nat)
    requires Inv(s) && s.state.Measuring() && TimesInv(s, now) && InPace(s, now, x.clock)
    ensures KeepsTimes(s, Step(s, x), x.clock, x.adc, x.settle, x.delay, x.sample, x.threshold)
  {
    ElapsesExactly(s.since, x.clock - s.since);
    NotAppended(s.bus, AdcRead(x.adc, x.clock, x.settle));
    NoConversions(s, now);
    MeasureDoes(s, x);
    hide Elapsed, Window, LastWrite, Step, InWindow, Inv;
  }

  lemma NoConversions(s: Snap, now: nat)
    requires WindowInv(s, now) && s.state.Measuring()
    ensures s.data.nSamples == 0 <==> Window(s.bus) == []
  {}

  lemma MeasureDoes(s: Snap, x: Inputs)
    requires Inv(s) && s.state.Measuring() && s.since <= x.clock && Elapsed(x.clock, s.timer) == x.clock - s.since
    ensures var r, e := Step(s, x), x.clock - s.since;
            if e < x.settle then r == s
            else if e < x.settle + x.sample then
              r.bus == s.bus + [AdcRead(x.adc, x.clock, x.settle)] && r.state == s.state && r.since == s.since
            else if s.data.nSamples == 0 then r.bus == s.bus && r.state == s.state && r.since == x.clock
            else r.bus == s.bus && !r.state.Measuring() && !r.state.TrackingDelay?
  {
    hide Elapsed;
    if s.data.nSamples > 0 {
      Ends(s);
    }
    hide EndMeasure;
  }

  lemma Ends(s: Snap)
    requires Inv(s) && s.state.Measuring() && s.data.nSamples > 0
    ensures var r := EndMeasure(s); r.bus == s.bus && (r.state.ScanningMode? || r.state.TrackingMode?)
  {}

  // ---- between ----

  lemma OtherTimes(s: Snap, x: Inputs, now: nat)
    requires Inv(s) && (s.state.ScanningMode? || s.state.TrackingMode? || s.state == Error)
    ensures KeepsTimes(s, Step(s, x), x.clock, x.adc, x.settle, x.delay, x.sample, x.threshold)
    ensures var r := Step(s, x); r.state != Initialise && (r.state.TrackingDelay? ==> r.since == x.clock)
  {
    NotAppended(s.bus, AdcRead(x.adc, x.clock, x.settle));
    Distinct(s.bus, DacWrite(0, x.clock), AdcRead(x.adc, x.clock, x.settle));
    Distinct(s.bus, DacWrite(Step(s, x).dac, x.clock), AdcRead(x.adc, x.clock, x.settle));
    hide Window, LastWrite, Written, ScanInv, TrackInv;
  }

  lemma Distinct(bus: seq<BusEvent>, d: BusEvent, e: BusEvent)
    requires d != e
    ensures bus + [d] != bus + [e]
  {
    assert (bus + [d])[|bus|] == d && (bus + [e])[|bus|] == e;
  }

  /** Every update of a run at the pace of the converter keeps the times. */
  lemma TimesStep(s: Snap, x: Inputs, now: nat)
    requires Inv(s) && TimesInv(s, now) && InPace(s, now, x.clock)
    ensures TimesInv(Step(s, x), x.clock)
    ensures KeepsTimes(s, Step(s, x), x.clock, x.adc, x.settle, x.delay, x.sample, x.threshold)
  {
    BusInvStep(s, x);
    SettledStep(s, x, now);
    WindowInvStep(s, x, now);
    OnlyThere(s, x);
    if s.state == Initialise {
      StartTimes(s, x);
    } else if s.state.TrackingDelay? {
      DelayTimes(s, x);
    } else if s.state.Measuring() {
      MeasureTimes(s, x, now);
    } else {
      OtherTimes(s, x, now);
    }
    hide Step, Inv, KeepsTimes, BusInv, Settled, WindowInv, Window, LastWrite;
  }

  /** The two states with a timer of their own are only entered from where they wait. */
  lemma OnlyThere(s: Snap, x: Inputs)
    requires Inv(s)
    ensures Step(s, x).state == Initialise ==> s.state == Initialise
    ensures Step(s, x).state.TrackingDelay? ==> s.state.TrackingDelay? || s.state.TrackingMode?
  {
    if s.state.Measuring() {
      MeasureTraffic(s, x);
      if s.data.nSamples > 0 {
        Ends(s);
      }
    }
  }

  lemma {:induction false} RunTimes(start: Snap, cmds: seq<Command>)
    requires Started(cmds) && Paced(start, cmds)
    ensures TimesInv(Run(start, cmds), cmds[|cmds| - 1].Clock())
  {
    hide Step, Reset, TimesInv, Inv, InPace;
    var last := |cmds| - 1;
    if last > 0 {
      RunTimes(start, cmds[..last]);
      if cmds[last].DoUpdate? {
        TimesStep(Before(start, cmds), cmds[last].x, cmds[last - 1].Clock());
      } else {
        TimesReset(Before(start, cmds), cmds[last].clock);
      }
    } else {
      TimesReset(start, cmds[0].clock);
    }
  }

  /** The last update of a run at the pace of the converter keeps the times. */
  lemma UpdateKeepsTimes(start: Snap, cmds: seq<Command>)
    requires Started(cmds) && Paced(start, cmds) && |cmds| > 1 && cmds[|cmds| - 1].DoUpdate?
    ensures var x := cmds[|cmds| - 1].x;
            KeepsTimes(Before(start, cmds), Run(start, cmds), x.clock, x.adc, x.settle, x.delay, x.sample, x.threshold)
  {
    var last := |cmds| - 1;
    RunTimes(start, cmds[..last]);
    hide Step, TimesInv, Inv, InPace, KeepsTimes;
    TimesStep(Before(start, cmds), cmds[last].x, cmds[last - 1].Clock());
  }

  // ---- a configuration in force ----

  /** Do all updates from `from` on keep the times of these four numbers? */
  ghost predicate RunKeepsTimes(start: Snap, cmds: seq<Command>, from: nat,
                                settle: u16, delay: u16, sample: u16, threshold: u16)
    requires Started(cmds)
  {
    forall k :: 0 < k < |cmds| && from <= k && cmds[k].DoUpdate? ==>
      KeepsTimes(Run(start, cmds[..k]), Run(start, cmds[..k + 1]), cmds[k].x.clock, cmds[k].x.adc,
                 settle, delay, sample, threshold)
  }

  ghost predicate Configured(cmds: seq<Command>, from: nat, settle: u16, delay: u16, sample: u16, threshold: u16) {
    forall k :: from <= k < |cmds| && cmds[k].DoUpdate? ==>
      var x := cmds[k].x; x.settle == settle && x.delay == delay && x.sample == sample && x.threshold == threshold
  }

  lemma {:induction false} PacedBefore(start: Snap, cmds: seq<Command>, k: nat)
    requires Started(cmds) && Paced(start, cmds) && 0 < k <= |cmds|
    ensures Paced(start, cmds[..k])
    decreases |cmds|
  {
    hide Run;
    if k < |cmds| {
      assert cmds[..|cmds| - 1][..k] == cmds[..k];
      PacedBefore(start, cmds[..|cmds| - 1], k);
    } else {
      assert cmds[..k] == cmds;
    }
  }

  lemma ConfiguredRunKeepsTimes(start: Snap, cmds: seq<Command>, from: nat,
                                settle: u16, delay: u16, sample: u16, threshold: u16)
    requires Started(cmds) && Paced(start, cmds) && Configured(cmds, from, settle, delay, sample, threshold)
    ensures RunKeepsTimes(start, cmds, from, settle, delay, sample, threshold)
  {
    hide Run, Paced, KeepsTimes;
    forall k | 0 < k < |cmds| && from <= k && cmds[k].DoUpdate?
      ensures KeepsTimes(Run(start, cmds[..k]), Run(start, cmds[..k + 1]), cmds[k].x.clock, cmds[k].x.adc,
                         settle, delay, sample, threshold)
    {
      PacedBefore(start, cmds, k + 1);
      UpdateKeepsTimes(start, cmds[..k + 1]);
      assert cmds[..k + 1][..k] == cmds[..k];
    }
  }

  /** Every conversion from event `n` on comes at least `settle` after the write before. */
  ghost predicate BusSettled(bus: seq<BusEvent>, n: nat, settle: u16) {
    forall k :: n <= k < |bus| && bus[k].AdcRead? ==>
      Written(bus[..k]) && bus[k].at >= LastWrite(bus[..k]).at + settle
  }

  /** The bus grows by at most one event with each command. */
  lemma BusGrows(p: Snap, c: Command)
    requires Inv(p)
    ensures var r := Apply(p, c);
            || r.bus == p.bus
            || (|r.bus| == |p.bus| + 1 && r.bus[..|p.bus|] == p.bus
                && (r.bus[|p.bus|].AdcRead? ==>
                      c.DoUpdate? && r.bus[|p.bus|] == AdcRead(c.x.adc, c.x.clock, c.x.settle)))
  {
    if c.DoUpdate? {
      StepTraffic(p, c.x);
    }
    hide Step;
  }

  lemma BusSettledMore(bus: seq<BusEvent>, e: BusEvent, n: nat, settle: u16)
    requires BusSettled(bus, n, settle)
    requires e.AdcRead? && n <= |bus| ==> Written(bus) && e.at >= LastWrite(bus).at + settle
    ensures BusSettled(bus + [e], n, settle)
  {
    var more := bus + [e];
    forall k | n <= k < |more| && more[k].AdcRead?
      ensures Written(more[..k]) && more[k].at >= LastWrite(more[..k]).at + settle
    {
      assert more[..k] == bus[..k];
      assert k == |bus| ==> bus[..k] == bus;
    }
  }

  /** So from then on every conversion on the bus has settled. */
  lemma {:induction false} ConfiguredBusIsSettled(start: Snap, cmds: seq<Command>, from: nat,
                                                  settle: u16, delay: u16, sample: u16, threshold: u16)
    requires Started(cmds) && Paced(start, cmds) && Configured(cmds, from, settle, delay, sample, threshold)
    requires 0 < from <= |cmds|
    ensures |Run(start, cmds[..from]).bus| <= |Run(start, cmds).bus|
    ensures BusSettled(Run(start, cmds).bus, |Run(start, cmds[..from]).bus|, settle)
  {
    var last := |cmds| - 1;
    if from == |cmds| {
      assert cmds[..from] == cmds;
    } else {
      assert cmds[..last][..from] == cmds[..from];
      ConfiguredBusIsSettled(start, cmds[..last], from, settle, delay, sample, threshold);
      LastStepIsSettled(start, cmds, |Run(start, cmds[..from]).bus|, settle);
    }
  }

  lemma LastStepIsSettled(start: Snap, cmds: seq<Command>, n: nat, settle: u16)
    requires Started(cmds) && Paced(start, cmds) && |cmds| > 1
    requires cmds[|cmds| - 1].DoUpdate? ==> cmds[|cmds| - 1].x.settle == settle
    requires n <= |Before(start, cmds).bus| && BusSettled(Before(start, cmds).bus, n, settle)
    ensures n <= |Run(start, cmds).bus| && BusSettled(Run(start, cmds).bus, n, settle)
  {
    var p, r, c := Before(start, cmds), Run(start, cmds), cmds[|cmds| - 1];
    BusGrows(p, c);
    if r.bus != p.bus {
      var e := r.bus[|p.bus|];
      assert r.bus == p.bus + [e];
      if e.AdcRead? {
        UpdateKeepsTimes(start, cmds);
      }
      hide Run, Apply, BusSettled, OnTime, Begins, Paced;
      BusSettledMore(p.bus, e, n, settle);
    }
  }

  // ---- how a scan comes about ----

  /** The last reset of a run. */
  ghost predicate IsLastReset(cmds: seq<Command>, i: nat) {
    i < |cmds| && cmds[i].DoReset? && forall k :: i < k < |cmds| ==> cmds[k].DoUpdate?
  }

  lemma StaysLastReset(cmds: seq<Command>, i: nat)
    requires |cmds| > 0 && IsLastReset(cmds[..|cmds| - 1], i) && cmds[|cmds| - 1].DoUpdate?
    ensures IsLastReset(cmds, i)
  {
    var last := |cmds| - 1;
    assert forall k :: 0 <= k < last ==> cmds[..last][k] == cmds[k];
  }

  /** A channel that still initialises has its timer from there. */
  lemma {:induction false} LastReset(start: Snap, cmds: seq<Command>) returns (i: nat)
    requires Started(cmds)
    ensures IsLastReset(cmds, i) && (Run(start, cmds).state == Initialise ==> Run(start, cmds).since == cmds[i].clock)
  {
    hide Step, Inv, IsLastReset;
    var last := |cmds| - 1;
    if cmds[last].DoReset? {
      i := last;
      EndsInReset(start, cmds);
    } else {
      i := LastReset(start, cmds[..last]);
      StaysLastReset(cmds, i);
      WasInitialising(Before(start, cmds), cmds[last].x);
      LastResetIs(cmds, i);
    }
  }

  lemma EndsInReset(start: Snap, cmds: seq<Command>)
    requires Started(cmds) && cmds[|cmds| - 1].DoReset?
    ensures IsLastReset(cmds, |cmds| - 1) && Run(start, cmds).since == cmds[|cmds| - 1].clock
  {}

  lemma LastResetIs(cmds: seq<Command>, i: nat)
    requires IsLastReset(cmds, i) && |cmds| > 0 && cmds[|cmds| - 1].DoUpdate?
    ensures i < |cmds| - 1 && cmds[..|cmds| - 1][i] == cmds[i]
  {}

  lemma WasInitialising(s: Snap, x: Inputs)
    requires Inv(s)
    ensures Step(s, x).state == Initialise ==> s.state == Initialise && Step(s, x).since == s.since
  {
    OnlyThere(s, x);
    if s.state == Initialise {
      StartDoes(s, x);
    }
  }

  /** Is update `j` the one that begins the scan: from `Initialise`, with a conversion? */
  ghost predicate BeginsScan(start: Snap, cmds: seq<Command>, j: nat)
    requires Started(cmds)
  {
    && 0 < j < |cmds| && cmds[j].DoUpdate?
    && var p, r, x := Run(start, cmds[..j]), Run(start, cmds[..j + 1]), cmds[j].x;
       && p.state == Initialise && r.state == ScanningMode
       && r.bus == p.bus + [AdcRead(x.adc, x.clock, x.settle)]
  }

  /** In every run at the pace of the converter, a channel that scans or tracks has begun
      with a conversion of at least the threshold current, below saturation, and at least
      the settling time after the last reset. */
  lemma {:induction false} ScanNeedsThreshold(start: Snap, cmds: seq<Command>) returns (i: nat, j: nat)
    requires Started(cmds) && Paced(start, cmds)
    requires var s := Run(start, cmds).state; s.ScanningMode? || s.MeasureScan? || s.Tracking()
    ensures IsLastReset(cmds, i) && i < j && BeginsScan(start, cmds, j)
    ensures var x := cmds[j].x; x.threshold <= x.adc < 0xFFFF && x.clock >= cmds[i].clock + x.settle
  {
    hide Step, Inv, IsLastReset, BeginsScan, Paced;
    var last := |cmds| - 1;
    RunsOn(start, cmds);
    if Before(start, cmds).state == Initialise {
      i := LastReset(start, cmds[..last]);
      LastResetHas(cmds[..last], i);
      j := last;
      ScanBegins(start, cmds, i);
    } else {
      i, j := ScanNeedsThreshold(start, cmds[..last]);
      BeganBefore(start, cmds, j);
      LastResetHas(cmds[..last], i);
    }
    StaysLastReset(cmds, i);
    LastResetHas(cmds, i);
  }

  lemma LastResetHas(cmds: seq<Command>, i: nat)
    requires IsLastReset(cmds, i)
    ensures i < |cmds| && cmds[i].DoReset?
  {}

  lemma RunsOn(start: Snap, cmds: seq<Command>)
    requires Started(cmds) && Paced(start, cmds)
    requires var s := Run(start, cmds).state; s.ScanningMode? || s.MeasureScan? || s.Tracking()
    ensures |cmds| > 1 && cmds[|cmds| - 1].DoUpdate? && Paced(start, cmds[..|cmds| - 1])
    ensures var s := Before(start, cmds).state; s == Initialise || s.ScanningMode? || s.MeasureScan? || s.Tracking()
  {}

  lemma ScanBegins(start: Snap, cmds: seq<Command>, i: nat)
    requires Started(cmds) && |cmds| > 1 && cmds[|cmds| - 1].DoUpdate? && Paced(start, cmds)
    requires Before(start, cmds).state == Initialise && Run(start, cmds).state !in {Initialise, Error}
    requires IsLastReset(cmds[..|cmds| - 1], i) && Before(start, cmds).since == cmds[i].clock
    ensures BeginsScan(start, cmds, |cmds| - 1)
    ensures var x := cmds[|cmds| - 1].x; x.threshold <= x.adc < 0xFFFF && x.clock >= cmds[i].clock + x.settle
  {
    var last := |cmds| - 1;
    var p, x := Before(start, cmds), cmds[last].x;
    assert cmds[..last + 1] == cmds;
    PacedUpdate(start, cmds);
    hide Step, Elapsed, Inv, TimesInv, Run, Paced, IsLastReset;
    StartDoes(p, x);
    RunTimes(start, cmds[..last]);
    TimerIsSet(p, cmds[last - 1].Clock());
    ElapsedIsLowerBound(p.since, x.clock);
  }

  lemma PacedUpdate(start: Snap, cmds: seq<Command>)
    requires Started(cmds) && |cmds| > 1 && cmds[|cmds| - 1].DoUpdate? && Paced(start, cmds)
    ensures var last := |cmds| - 1;
            && Paced(start, cmds[..last]) && cmds[last - 1].Clock() <= cmds[last].x.clock
            && Run(start, cmds) == Step(Before(start, cmds), cmds[last].x)
  {
    hide Step, Inv;
  }

  lemma TimerIsSet(s: Snap, now: nat)
    requires TimesInv(s, now)
    ensures s.timer == Millis(s.since) && s.since <= now
  {}

  lemma BeganBefore(start: Snap, cmds: seq<Command>, j: nat)
    requires Started(cmds) && |cmds| > 1 && BeginsScan(start, cmds[..|cmds| - 1], j)
    ensures BeginsScan(start, cmds, j) && cmds[j] == cmds[..|cmds| - 1][j]
  {
    var last := |cmds| - 1;
    assert cmds[..last][..j] == cmds[..j] && cmds[..last][..j + 1] == cmds[..j + 1];
    hide Run;
  }
}
