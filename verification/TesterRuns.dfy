/** What holds over whole runs of a tester channel: any resets and updates, with
    any clock, converter and configuration readings. */
module TesterRuns {
  import opened Words
  import opened TesterSpec

  datatype Command = DoReset(clock: nat) | DoUpdate(x: Inputs)
  {
    function Clock(): nat { if DoReset? then clock else x.clock }
  }

  function Apply(s: Snap, c: Command): (r: Snap)
    requires Inv(s)
    ensures Inv(r)
  {
    match c
    case DoReset(clock) => InvReset(s, clock); Reset(s, clock)
    case DoUpdate(x) => InvStep(s, x); Step(s, x)
  }

  ghost predicate Started(cmds: seq<Command>) { |cmds| > 0 && cmds[0].DoReset? }

  /** The state after `cmds`, whose first command resets whatever was there. */
  function Run(start: Snap, cmds: seq<Command>): (r: Snap)
    requires Started(cmds)
    ensures Inv(r)
  {
    var last := |cmds| - 1;
    if last == 0 then
      InvReset(start, cmds[0].clock);
      Reset(start, cmds[0].clock)
    else
      Apply(Run(start, cmds[..last]), cmds[last])
  }

  /** The state one command before the end of the run. */
  function Before(start: Snap, cmds: seq<Command>): Snap
    requires Started(cmds) && |cmds| > 1
  {
    Run(start, cmds[..|cmds| - 1])
  }

  // ---- errors ----

  /** The count of bad readings is bounded, and an error is only ever entered from a
      state that is not measuring: the error transitions nested inside entry
      functions never happen. */
  lemma ErrorReadsBounded(start: Snap, cmds: seq<Command>)
    requires Started(cmds)
    ensures var s := Run(start, cmds);
            && s.data.nErrorReads <= MAX_ERROR_READS + 1
            && (s.state.ScanningMode? || s.state.TrackingDelay? || s.state.Measuring() ==>
                s.data.nErrorReads <= MAX_ERROR_READS)
            && (s.state == Error ==> s.dac == 0 && s.error != Ok)
    ensures |cmds| > 1 && Run(start, cmds).state == Error ==>
              var p := Before(start, cmds);
              p.state == Error || (!p.state.Measuring() && !p.state.TrackingDelay?)
  {
    if |cmds| > 1 {
      var last := cmds[|cmds| - 1];
      var p := Before(start, cmds);
      if last.DoUpdate? && p.state.Measuring() {
        InvMeasureStep(p, last.x);
      }
    }
  }

  /** The state after some updates without a reset. */
  function Updates(s: Snap, xs: seq<Inputs>): (r: Snap)
    requires Inv(s)
    ensures Inv(r)
  {
    if |xs| == 0 then s
    else
      var p := Updates(s, xs[..|xs| - 1]);
      InvStep(p, xs[|xs| - 1]);
      Step(p, xs[|xs| - 1])
  }

  /** Only a reset leaves the error state: there, updates do nothing. */
  lemma {:induction false} ErrorLatches(s: Snap, xs: seq<Inputs>)
    requires Inv(s) && s.state == Error
    ensures Updates(s, xs) == s
  {
    if |xs| > 0 {
      ErrorLatches(s, xs[..|xs| - 1]);
    }
  }

  // ---- the scan ----

  /** The log of a scan: for each measurement since the last reset, the code the DAC
      held and the averaged current. */
  ghost function LogStep(p: Snap, c: Command, log: seq<(u8, u16)>): seq<(u8, u16)>
    requires Inv(p)
  {
    var s := Apply(p, c);
    if c.DoReset? then []
    else if p.state.MeasureScan? && s.state.ScanningMode? then log + [(p.dac, s.data.iScan)]
    else log
  }

  ghost function ScanLog(start: Snap, cmds: seq<Command>): seq<(u8, u16)>
    requires Started(cmds)
  {
    var last := |cmds| - 1;
    if last == 0 then [] else LogStep(Before(start, cmds), cmds[last], ScanLog(start, cmds[..last]))
  }

  ghost function PowerAt(log: seq<(u8, u16)>, k: nat): u32
    requires k < |log|
  {
    Power(log[k].0, log[k].1)
  }

  /** Is `v` the first place of the log with the greatest power? */
  ghost predicate FirstPeak(log: seq<(u8, u16)>, v: nat) {
    && v < |log|
    && (forall k :: 0 <= k < |log| ==> PowerAt(log, k) <= PowerAt(log, v))
    && (forall k :: 0 <= k < v ==> PowerAt(log, k) < PowerAt(log, v))
  }

  /** `p` is the greatest power of the log, first seen at `v`, or zero. */
  ghost predicate Best(log: seq<(u8, u16)>, p: u32, v: u8) {
    && (forall k :: 0 <= k < |log| ==> PowerAt(log, k) <= p)
    && (p > 0 ==> FirstPeak(log, v) && PowerAt(log, v) == p)
  }

  /** One more code: a strictly greater power takes over. */
  lemma BestOfMore(log: seq<(u8, u16)>, p: u32, v: u8, code: u8, i: u16)
    requires Best(log, p, v) && code == |log|
    ensures var more := log + [(code, i)];
            && (forall k :: 0 <= k < |log| ==> PowerAt(more, k) == PowerAt(log, k))
            && PowerAt(more, code) == Power(code, i)
            && if Power(code, i) > p then Best(more, Power(code, i), code) else Best(more, p, v)
  {
    var more := log + [(code, i)];
    assert forall k :: 0 <= k < |log| ==> PowerAt(more, k) == PowerAt(log, k);
    if Power(code, i) > p {
      assert FirstPeak(more, code);
    } else if p > 0 {
      assert FirstPeak(more, v);
    }
  }

  ghost predicate ScanProgress(s: Snap, log: seq<(u8, u16)>) {
    var d := s.data;
    && |log| == d.vScan
    && (forall k :: 0 <= k < |log| ==> log[k].0 == k)
    && Best(log, d.pScanMpp, d.vScanMpp)
    && (d.pScanMpp > 0 ==> d.vScanMpp < |log| && d.iScanMpp == log[d.vScanMpp].1)
    && (|log| > 0 ==> d.pScanInitial == PowerAt(log, 0))
    && (|log| > V_SCAN_MAX ==> d.pScanFinal == PowerAt(log, V_SCAN_MAX))
  }

  /** One more code: the running peak stays the first peak of the longer log. */
  lemma RecordProgress(p: Snap, s: Snap, log: seq<(u8, u16)>, i: u16)
    requires p.data.vScan <= V_SCAN_MAX && ScanProgress(p, log)
    requires var d := RecordScan(p.data.(iScan := i));
             s.data == d.(iScan := s.data.iScan, nSamples := s.data.nSamples, iSampleSum := s.data.iSampleSum)
    ensures ScanProgress(s, log + [(p.data.vScan, i)])
  {
    BestOfMore(log, p.data.pScanMpp, p.data.vScanMpp, p.data.vScan, i);
    hide Best, FirstPeak, Power;
  }

  lemma ScanProgressStep(p: Snap, x: Inputs, log: seq<(u8, u16)>)
    requires Inv(p) && p.state.MeasureScan? && ScanProgress(p, log)
    ensures var s := Step(p, x);
            if s.state.ScanningMode? then ScanProgress(s, log + [(p.dac, s.data.iScan)])
            else s.state.MeasureScan? && ScanProgress(s, log)
  {
    var s := Step(p, x);
    if s.state.ScanningMode? {
      RecordProgress(p, s, log, s.data.iScan);
    }
  }

  /** How an update can enter or stay in the scanning states. */
  lemma ScanStepCases(p: Snap, x: Inputs)
    requires Inv(p)
    ensures var s := Step(p, x);
            && (s.state == Initialise ==> p.state == Initialise)
            && (s.state.MeasureScan? && !p.state.MeasureScan? ==>
                && p.state.ScanningMode?
                && s.data == p.data.(active := s.data.active, nSamples := s.data.nSamples,
                                     iSampleSum := s.data.iSampleSum))
            && (s.state.ScanningMode? && !p.state.MeasureScan? ==>
                p.state == Initialise && s.data == ZERO_DATA.(nErrorReads := s.data.nErrorReads, active := Scan))
  {
    if p.state.Measuring() {
      InvMeasureStep(p, x);
    }
  }

  ghost predicate ScanOk(s: Snap, log: seq<(u8, u16)>) {
    && (s.state == Initialise ==> log == [])
    && (s.state.ScanningMode? || s.state.MeasureScan? ==> ScanProgress(s, log))
  }

  lemma ScanOkStep(p: Snap, c: Command, log: seq<(u8, u16)>)
    requires Inv(p) && ScanOk(p, log)
    ensures ScanOk(Apply(p, c), LogStep(p, c, log))
  {
    if c.DoUpdate? {
      if p.state.MeasureScan? {
        ScanProgressStep(p, c.x, log);
      } else {
        ScanStepCases(p, c.x);
      }
    }
  }

  /** At every point of every run the scan has measured exactly the codes below vScan,
      in order, and keeps the first peak of their powers. */
  lemma {:induction false} ScanIsOrdered(start: Snap, cmds: seq<Command>)
    requires Started(cmds)
    ensures ScanOk(Run(start, cmds), ScanLog(start, cmds))
  {
    var last := |cmds| - 1;
    if last > 0 {
      ScanIsOrdered(start, cmds[..last]);
      ScanOkStep(Before(start, cmds), cmds[last], ScanLog(start, cmds[..last]));
    }
  }

  ghost predicate HillShaped(log: seq<(u8, u16)>) {
    exists v :: 0 < v < V_SCAN_MAX && FirstPeak(log, v) && V_SCAN_MAX < |log| &&
        PowerAt(log, V_SCAN_MAX) < PowerAt(log, v)
  }

  /** What the end of a scan must decide: all 101 codes were measured, once each and in
      order; tracking starts exactly when the first peak of v * i(v) is strictly inside
      and the last code is below it, and then starts at that peak; otherwise the channel
      stops with an invalid scan. */
  ghost predicate Verdict(s: Snap, log: seq<(u8, u16)>) {
    && |log| == 101 && (forall k :: 0 <= k < |log| ==> log[k].0 == k)
    && (s.state == TrackingMode <==> HillShaped(log))
    && (s.state == TrackingMode ==>
          && FirstPeak(log, s.data.vThis) && 0 < s.data.vThis < V_SCAN_MAX
          && s.data.vNext == s.data.vThis + 1 && s.error == Ok)
    && (s.state != TrackingMode ==> s.state == Error && s.error == InvalidScan)
  }

  lemma ScanShape(log: seq<(u8, u16)>, p: u32, v: u8)
    requires |log| == V_SCAN_MAX + 1 && log[0].0 == 0 && Best(log, p, v)
    ensures HillShaped(log) <==> PowerAt(log, 0) < p && PowerAt(log, V_SCAN_MAX) < p
    ensures HillShaped(log) ==> FirstPeak(log, v) && 0 < v < V_SCAN_MAX
  {
    assert PowerAt(log, 0) == 0;
    if HillShaped(log) {
      var u :| 0 < u < V_SCAN_MAX && FirstPeak(log, u) && PowerAt(log, V_SCAN_MAX) < PowerAt(log, u);
      assert PowerAt(log, u) <= p;
    } else if p > 0 {
      assert FirstPeak(log, v);
    }
  }

  /** A first peak strictly inside is not enough: the last code must not tie with it. */
  lemma InteriorPeak(log: seq<(u8, u16)>, v: nat)
    requires |log| == V_SCAN_MAX + 1 && 0 < v < V_SCAN_MAX && FirstPeak(log, v)
    ensures HillShaped(log) <==> PowerAt(log, V_SCAN_MAX) != PowerAt(log, v)
  {
    assert PowerAt(log, V_SCAN_MAX) <= PowerAt(log, v);
    if HillShaped(log) {
      var u :| 0 < u < V_SCAN_MAX && FirstPeak(log, u) && PowerAt(log, V_SCAN_MAX) < PowerAt(log, u);
      assert PowerAt(log, u) <= PowerAt(log, v);
    }
  }

  lemma EndScanVerdict(p: Snap, x: Inputs, log: seq<(u8, u16)>)
    requires Inv(p) && p.state.ScanningMode? && p.data.vScan > V_SCAN_MAX && ScanProgress(p, log)
    ensures Verdict(EndScan(p, x), log)
  {
    ScanShape(log, p.data.pScanMpp, p.data.vScanMpp);
    hide HillShaped, FirstPeak, Best;
  }

  lemma ScanVerdict(start: Snap, cmds: seq<Command>)
    requires Started(cmds) && |cmds| > 1 && cmds[|cmds| - 1].DoUpdate?
    requires Before(start, cmds).state == ScanningMode && Run(start, cmds).state != MeasureScan
    ensures Verdict(Run(start, cmds), ScanLog(start, cmds))
  {
    var last := |cmds| - 1;
    ScanIsOrdered(start, cmds[..last]);
    EndScanVerdict(Before(start, cmds), cmds[last].x, ScanLog(start, cmds[..last]));
  }

  /** Tracking is entered in no other way. */
  lemma TrackingOnlyAfterScan(start: Snap, cmds: seq<Command>)
    requires Started(cmds) && |cmds| > 1
    requires Run(start, cmds).state.Tracking() && !Before(start, cmds).state.Tracking()
    ensures cmds[|cmds| - 1].DoUpdate? && Before(start, cmds).state == ScanningMode
    ensures Run(start, cmds).state == TrackingMode && ScanLog(start, cmds) == ScanLog(start, cmds[..|cmds| - 1])
  {
    var p := Before(start, cmds);
    if p.state.MeasureScan? {
      InvMeasureStep(p, cmds[|cmds| - 1].x);
    }
  }

  // ---- measurements ----

  /** The conversions since the DAC was last written. */
  ghost function Window(bus: seq<BusEvent>): seq<BusEvent> {
    var last := |bus| - 1;
    if last < 0 || bus[last].DacWrite? then [] else Window(bus[..last]) + [bus[last]]
  }

  ghost predicate Written(bus: seq<BusEvent>) { exists e :: e in bus && e.DacWrite? }

  /** The last write to the DAC. */
  ghost function LastWrite(bus: seq<BusEvent>): (e: BusEvent)
    requires Written(bus)
    ensures e.DacWrite? && e in bus
  {
    var last := |bus| - 1;
    if bus[last].DacWrite? then bus[last]
    else assert Written(bus[..last]); LastWrite(bus[..last])
  }

  ghost function Sum(w: seq<BusEvent>): nat {
    if |w| == 0 then 0 else Sum(w[..|w| - 1]) + Value(w[|w| - 1])
  }

  function Value(e: BusEvent): u16 { if e.AdcRead? then e.value else 0 }

  lemma WindowRead(bus: seq<BusEvent>, e: BusEvent)
    requires e.AdcRead?
    ensures Window(bus + [e]) == Window(bus) + [e] && Sum(Window(bus + [e])) == Sum(Window(bus)) + e.value
  {
    assert (bus + [e])[..|bus|] == bus;
    var w := Window(bus);
    assert (w + [e])[..|w|] == w;
  }

  lemma BusRead(bus: seq<BusEvent>, e: BusEvent)
    requires Written(bus) && e.AdcRead?
    ensures Written(bus + [e]) && LastWrite(bus + [e]) == LastWrite(bus)
  {
    var w :| w in bus && w.DacWrite?;
    assert w in bus + [e];
    assert (bus + [e])[..|bus|] == bus;
  }

  lemma BusWrite(bus: seq<BusEvent>, e: BusEvent)
    requires e.DacWrite?
    ensures Written(bus + [e]) && LastWrite(bus + [e]) == e && Window(bus + [e]) == []
  {
    assert e in bus + [e];
  }

  /** The running sums are those of the conversions, modulo the widths of the counters. */
  ghost predicate Tallied(sum: u32, n: u16, bus: seq<BusEvent>) {
    sum == Wrap32(Sum(Window(bus))) && n == Wrap16(|Window(bus)|)
  }

  lemma TalliedRead(sum: u32, n: u16, bus: seq<BusEvent>, e: BusEvent)
    requires e.AdcRead? && Tallied(sum, n, bus)
    ensures Tallied(Wrap32(sum as int + e.value), Wrap16(n as int + 1), bus + [e])
  {
    WindowRead(bus, e);
    WrapSums(Sum(Window(bus)), e.value, |Window(bus)|);
    hide Wrap32, Wrap16, Window, Sum;
  }

  lemma WrapSums(sum: nat, value: u16, n: nat)
    ensures Wrap32(Wrap32(sum) + value) == Wrap32(sum + value)
    ensures Wrap16(Wrap16(n) + 1) == Wrap16(n + 1)
  {}

  ghost predicate BusInv(s: Snap) {
    && Written(s.bus) && LastWrite(s.bus).code == s.dac
    && (s.state.Measuring() ==> Tallied(s.data.iSampleSum, s.data.nSamples, s.bus))
  }

  lemma BusInvReset(s: Snap, clock: nat)
    ensures BusInv(Reset(s, clock))
  {
    BusWrite(s.bus, DacWrite(0, clock));
  }

  /** The three things an update can do to the bus. */
  ghost predicate Silent(s: Snap, r: Snap) {
    && r.bus == s.bus && r.dac == s.dac
    && (r.state.Measuring() ==> s.state == r.state && r.data == s.data)
  }

  ghost predicate Sampled(s: Snap, r: Snap, x: Inputs) {
    && r == ReadAdc(s, x).(state := r.state, data := r.data, error := r.error)
    && (r.state.Measuring() ==>
          && s.state == r.state && x.settle <= Elapsed(x.clock, s.timer)
          && r.data == s.data.(iSampleSum := Wrap32(s.data.iSampleSum + x.adc),
              nSamples := Wrap16(s.data.nSamples + 1)))
  }

  ghost predicate Drove(s: Snap, r: Snap, x: Inputs) {
    && !s.state.Measuring()
    && r.bus == s.bus + [DacWrite(r.dac, x.clock)]
    && (r.state.Measuring() ==>
          r.timer == Millis(x.clock) && r.since == x.clock && r.data.iSampleSum == r.data.nSamples == 0)
  }

  lemma MeasureTraffic(s: Snap, x: Inputs)
    requires Inv(s) && s.state.Measuring()
    ensures var r := Step(s, x); Silent(s, r) || Sampled(s, r, x)
    ensures !Step(s, x).state.Measuring() ==> s.data.nSamples > 0 && Step(s, x) == EndMeasure(s)
  {}

  ghost predicate TimerStep(s: Snap, r: Snap, clock: nat) {
    (r.timer == s.timer && r.since == s.since) || (r.timer == Millis(clock) && r.since == clock)
  }

  lemma StepTraffic(s: Snap, x: Inputs)
    requires Inv(s)
    ensures TimerStep(s, Step(s, x), x.clock)
    ensures var r := Step(s, x); Silent(s, r) || Sampled(s, r, x) || Drove(s, r, x)
  {
    if s.state.Measuring() {
      MeasureTraffic(s, x);
    }
  }

  lemma BusInvStep(s: Snap, x: Inputs)
    requires Inv(s) && BusInv(s)
    ensures BusInv(Step(s, x))
  {
    StepTraffic(s, x);
    BusInvEffect(s, Step(s, x), x);
  }

  lemma BusInvEffect(s: Snap, r: Snap, x: Inputs)
    requires BusInv(s) && (Silent(s, r) || Sampled(s, r, x) || Drove(s, r, x))
    ensures BusInv(r)
  {
    if Drove(s, r, x) {
      BusWrite(s.bus, DacWrite(r.dac, x.clock));
    } else if Sampled(s, r, x) {
      SampleKeepsBus(s, r, x);
    }
  }

  lemma SampleKeepsBus(s: Snap, r: Snap, x: Inputs)
    requires BusInv(s) && Sampled(s, r, x)
    ensures BusInv(r)
  {
    var e := AdcRead(x.adc, x.clock, x.settle);
    SampledFacts(s, r, x);
    hide Sampled, Tallied, LastWrite, Written;
    BusRead(s.bus, e);
    if r.state.Measuring() {
      TalliedRead(s.data.iSampleSum, s.data.nSamples, s.bus, e);
    }
  }

  lemma SampledFacts(s: Snap, r: Snap, x: Inputs)
    requires Sampled(s, r, x)
    ensures r.bus == s.bus + [AdcRead(x.adc, x.clock, x.settle)] && r.dac == s.dac
    ensures r.timer == s.timer && r.since == s.since
    ensures r.state.Measuring() ==> x.settle <= Elapsed(x.clock, s.timer)
    ensures r.state.Measuring() ==>
              && s.state.Measuring() && r.data.iSampleSum == Wrap32(s.data.iSampleSum as int + x.adc)
              && r.data.nSamples == Wrap16(s.data.nSamples as int + 1)
  {}

  /** Every conversion of `w` came at least the settling time then in force after `t`. */
  ghost predicate AllSettled(w: seq<BusEvent>, t: nat) {
    forall k :: 0 <= k < |w| ==> w[k].AdcRead? && w[k].at >= t + w[k].settle
  }

  ghost predicate Settled(s: Snap, now: nat) {
    && s.timer == Millis(s.since) && s.since <= now && Written(s.bus)
    && (s.state.Measuring() ==>
          LastWrite(s.bus).at <= s.since && AllSettled(Window(s.bus), LastWrite(s.bus).at))
  }

  /** The wrapped difference of two clock readings never exceeds the real one, however
      many times the 32-bit clock has wrapped in between. */
  lemma ElapsedIsLowerBound(since: nat, now: nat)
    requires since <= now
    ensures Elapsed(now, Millis(since)) <= now - since
  {
    var q := now / 0x1_0000_0000 - since / 0x1_0000_0000;
    assert now - since == q * 0x1_0000_0000 + (Wrap32(now) - Wrap32(since));
    assert Wrap32(Wrap32(now) - Wrap32(since)) == Wrap32(now - since);
  }

  lemma SettledStep(s: Snap, x: Inputs, now: nat)
    requires Inv(s) && BusInv(s) && Settled(s, now) && now <= x.clock
    ensures Settled(Step(s, x), x.clock)
  {
    StepTraffic(s, x);
    BusInvStep(s, x);
    SettledEffect(s, Step(s, x), x);
  }

  lemma SettledEffect(s: Snap, r: Snap, x: Inputs)
    requires Written(s.bus) && Written(r.bus) && Settled(s, x.clock) && TimerStep(s, r, x.clock)
    requires Silent(s, r) || Sampled(s, r, x) || Drove(s, r, x)
    ensures Settled(r, x.clock)
  {
    if Drove(s, r, x) {
      BusWrite(s.bus, DacWrite(r.dac, x.clock));
    } else if Sampled(s, r, x) {
      SampleIsSettled(s, r, x);
    }
  }

  lemma SampleIsSettled(s: Snap, r: Snap, x: Inputs)
    requires Settled(s, x.clock) && Sampled(s, r, x)
    ensures Settled(r, x.clock)
  {
    var e := AdcRead(x.adc, x.clock, x.settle);
    SampledFacts(s, r, x);
    BusRead(s.bus, e);
    WindowRead(s.bus, e);
    ElapsedIsLowerBound(s.since, x.clock);
    hide Sampled, LastWrite, Window, Written, Elapsed, Millis;
  }

  ghost predicate Monotone(cmds: seq<Command>) {
    forall i, j :: 0 <= i <= j < |cmds| ==> cmds[i].Clock() <= cmds[j].Clock()
  }

  lemma {:induction false} RunIsSettled(start: Snap, cmds: seq<Command>)
    requires Started(cmds)
    ensures BusInv(Run(start, cmds))
    ensures Monotone(cmds) ==> Settled(Run(start, cmds), cmds[|cmds| - 1].Clock())
  {
    hide Step, Inv, BusInv, Settled;
    var last := |cmds| - 1;
    if last == 0 {
      ResetIsSettled(start, cmds[0].clock);
    } else {
      RunIsSettled(start, cmds[..last]);
      ApplySettled(Before(start, cmds), cmds[last]);
      if Monotone(cmds) {
        assert Monotone(cmds[..last]);
        assert cmds[last - 1].Clock() <= cmds[last].Clock();
      }
    }
  }

  lemma ResetIsSettled(s: Snap, clock: nat)
    ensures BusInv(Reset(s, clock)) && Settled(Reset(s, clock), clock)
  {
    BusInvReset(s, clock);
    BusWrite(s.bus, DacWrite(0, clock));
  }

  lemma ApplySettled(p: Snap, c: Command)
    requires Inv(p) && BusInv(p)
    ensures BusInv(Apply(p, c))
    ensures forall now: nat :: Settled(p, now) && now <= c.Clock() ==> Settled(Apply(p, c), c.Clock())
  {
    if c.DoReset? {
      ResetIsSettled(p, c.clock);
    } else {
      BusInvStep(p, c.x);
      forall now: nat | Settled(p, now) && now <= c.x.clock ensures Settled(Step(p, c.x), c.x.clock) {
        SettledStep(p, c.x, now);
      }
    }
  }

  /** The least time from one conversion to the next update, in milliseconds. The driver
      takes at least 160 for one, as it opens and closes the bus four times with a delay
      of 20 each (Hardware/MX7705.cpp:155-163 and 212-250, Common/SpiCommon.cpp:20-42);
      two are enough for what follows. */
  const CONVERSION_TIME := 2

  /** No measurement lasts longer than its settling and sampling times. */
  const MAX_WINDOW := 0xFFFF + 0xFFFF

  const MAX_GAP := 0x1_0000_0000 - MAX_WINDOW

  /** May a command come at `clock`, when `s` was reached by one at `now`? Time does not
      go backwards, updates do not stop for 49 days, and a conversion takes its time. */
  ghost predicate InPace(s: Snap, now: nat, clock: nat) {
    && now <= clock < now + MAX_GAP
    && (|s.bus| > 0 && s.bus[|s.bus| - 1].AdcRead? ==> s.bus[|s.bus| - 1].at + CONVERSION_TIME <= clock)
  }

  ghost predicate Paced(start: Snap, cmds: seq<Command>)
    requires Started(cmds)
  {
    var last := |cmds| - 1;
    last == 0 ||
    (Paced(start, cmds[..last]) && InPace(Before(start, cmds), cmds[last - 1].Clock(), cmds[last].Clock()))
  }

  /** So a running measurement has not outlived its times, and has made at most one
      conversion in each CONVERSION_TIME: the 16-bit counter counts them all. */
  ghost predicate WindowInv(s: Snap, now: nat) {
    s.state.Measuring() ==>
      && s.timer == Millis(s.since) && s.since <= now < s.since + MAX_WINDOW
      && s.data.nSamples == |Window(s.bus)|
      && (s.data.nSamples > 0 ==>
            && |s.bus| > 0 && s.bus[|s.bus| - 1].AdcRead?
            && s.since + CONVERSION_TIME * (s.data.nSamples - 1) <= s.bus[|s.bus| - 1].at <= now)
  }

  lemma ElapsesExactly(t: nat, d: nat)
    requires d < 0x1_0000_0000
    ensures Elapsed(t + d, Millis(t)) == d
  {
    var q := (t + d) / 0x1_0000_0000 - t / 0x1_0000_0000;
    assert d == q * 0x1_0000_0000 + (Wrap32(t + d) - Wrap32(t));
    assert Wrap32(Wrap32(t + d) - Wrap32(t)) == Wrap32(d);
  }

  lemma WindowInvStep(s: Snap, x: Inputs, now: nat)
    requires Inv(s) && WindowInv(s, now) && InPace(s, now, x.clock)
    ensures WindowInv(Step(s, x), x.clock)
  {
    if s.state.Measuring() {
      ElapsesExactly(s.since, x.clock - s.since);
      WindowInvMeasure(s, x, now);
    } else {
      StepTraffic(s, x);
      var r := Step(s, x);
      if r.state.Measuring() {
        BusWrite(s.bus, DacWrite(r.dac, x.clock));
      }
    }
  }

  lemma WindowInvMeasure(s: Snap, x: Inputs, now: nat)
    requires Inv(s) && WindowInv(s, now) && InPace(s, now, x.clock) && s.state.Measuring()
    requires Elapsed(x.clock, s.timer) == x.clock - s.since
    ensures WindowInv(MeasureStep(s, x), x.clock)
  {
    if InWindow(s, x) {
      WindowInvSample(s, x, now);
    } else if s.data.nSamples > 0 {
      MeasureTraffic(s, x);
    }
    hide EndMeasure, Elapsed, Window, Inv;
  }

  lemma WindowInvSample(s: Snap, x: Inputs, now: nat)
    requires Inv(s) && WindowInv(s, now) && InPace(s, now, x.clock) && s.state.Measuring()
    requires Elapsed(x.clock, s.timer) == x.clock - s.since && InWindow(s, x)
    ensures WindowInv(Step(s, x), x.clock)
  {
    InWindowSamples(s, x);
    WithinWindow(s, x);
    hide Step, EndMeasure, Elapsed, Inv, Sum, InWindow;
    var e := AdcRead(x.adc, x.clock, x.settle);
    WindowRead(s.bus, e);
    hide Window;
    CountFits(s.since, s.data.nSamples, if s.data.nSamples > 0 then s.bus[|s.bus| - 1].at else 0, x.clock);
    hide Wrap16, Wrap32;
    assert (s.bus + [e])[|s.bus|] == e;
  }

  lemma WithinWindow(s: Snap, x: Inputs)
    requires InWindow(s, x) && Elapsed(x.clock, s.timer) == x.clock - s.since
    ensures s.since <= x.clock < s.since + MAX_WINDOW
  {
    hide Elapsed;
  }

  /** One more conversion in a window, later than the last one by the time that took. */
  lemma CountFits(since: nat, n: u16, last: nat, clock: nat)
    requires n > 0 ==> since + CONVERSION_TIME * (n - 1) <= last && last + CONVERSION_TIME <= clock
    requires since <= clock < since + MAX_WINDOW
    ensures Wrap16(n as int + 1) == n as int + 1 && since + CONVERSION_TIME * n <= clock
  {}

  lemma {:induction false} RunKeepsWindow(start: Snap, cmds: seq<Command>)
    requires Started(cmds) && Paced(start, cmds)
    ensures WindowInv(Run(start, cmds), cmds[|cmds| - 1].Clock())
  {
    hide Step, Reset, WindowInv, Inv, InPace;
    var last := |cmds| - 1;
    if last > 0 {
      RunKeepsWindow(start, cmds[..last]);
      ApplyKeepsWindow(Before(start, cmds), cmds[last], cmds[last - 1].Clock());
    } else {
      ResetKeepsWindow(start, cmds[0].clock);
    }
  }

  lemma ApplyKeepsWindow(p: Snap, c: Command, now: nat)
    requires Inv(p) && WindowInv(p, now) && InPace(p, now, c.Clock())
    ensures WindowInv(Apply(p, c), c.Clock())
  {
    if c.DoUpdate? {
      WindowInvStep(p, c.x, now);
    } else {
      ResetKeepsWindow(p, c.clock);
    }
    hide Step, Reset, WindowInv;
  }

  lemma MonotoneMore(cmds: seq<Command>)
    requires |cmds| > 1 && Monotone(cmds[..|cmds| - 1]) && cmds[|cmds| - 2].Clock() <= cmds[|cmds| - 1].Clock()
    ensures Monotone(cmds)
  {
    var last := |cmds| - 1;
    assert forall i :: 0 <= i < last ==> cmds[..last][i] == cmds[i];
  }

  lemma {:induction false} PacedIsMonotone(start: Snap, cmds: seq<Command>)
    requires Started(cmds) && Paced(start, cmds)
    ensures Monotone(cmds)
  {
    var last := |cmds| - 1;
    if last > 0 {
      PacedIsMonotone(start, cmds[..last]);
      MonotoneMore(cmds);
      hide Run, Inv, Monotone;
    }
  }

  lemma ResetKeepsWindow(s: Snap, clock: nat)
    ensures WindowInv(Reset(s, clock), clock)
  {}

  lemma {:induction false} SumBounds(w: seq<BusEvent>, lo: nat, hi: nat)
    requires forall k :: 0 <= k < |w| ==> lo <= Value(w[k]) <= hi
    ensures lo * |w| <= Sum(w) <= hi * |w|
  {
    if |w| > 0 {
      var n := |w| - 1;
      SumBounds(w[..n], lo, hi);
      assert lo * n + lo == lo * (n + 1) && hi * n + hi == hi * (n + 1);
    }
  }

  /** Positions of a least and a greatest value. */
  lemma {:induction false} Extremes(w: seq<BusEvent>) returns (lo: nat, hi: nat)
    requires |w| > 0
    ensures lo < |w| && hi < |w|
    ensures forall k :: 0 <= k < |w| ==> Value(w[lo]) <= Value(w[k]) <= Value(w[hi])
  {
    lo, hi := 0, 0;
    for n := 1 to |w|
      invariant lo < n && hi < n
      invariant forall k :: 0 <= k < n ==> Value(w[lo]) <= Value(w[k]) <= Value(w[hi])
    {
      if Value(w[n]) < Value(w[lo]) { lo := n; }
      if Value(w[n]) > Value(w[hi]) { hi := n; }
    }
  }

  /** Is `i` the mean of the readings, and between two of them? */
  ghost predicate MeanOf(i: u16, w: seq<BusEvent>) {
    && |w| > 0 && i == Sum(w) / |w|
    && (exists k :: 0 <= k < |w| && Value(w[k]) <= i)
    && (exists k :: 0 <= k < |w| && i <= Value(w[k]))
  }

  lemma MeanIsMean(w: seq<BusEvent>)
    requires 0 < |w| <= 0xFFFF
    ensures Sum(w) <= 0xFFFF * 0xFFFF && Sum(w) / |w| <= 0xFFFF && MeanOf(Sum(w) / |w|, w)
  {
    var lo, hi := Extremes(w);
    SumBounds(w, Value(w[lo]), Value(w[hi]));
    TimesMonotone(Value(w[hi]), 0xFFFF, |w|);
    TimesMonotone(|w|, 0xFFFF, 0xFFFF);
    QuotientBounds(Sum(w), |w|, Value(w[lo]), Value(w[hi]));
  }

  lemma AverageIsMean(sum: u32, n: u16, bus: seq<BusEvent>)
    requires Tallied(sum, n, bus) && n > 0 && |Window(bus)| <= 0xFFFF
    ensures MeanOf(Wrap16(sum / n), Window(bus))
  {
    MeanIsMean(Window(bus));
    hide MeanOf, Window, Sum;
    assert sum == Sum(Window(bus)) && n == |Window(bus)|;
  }

  lemma QuotientBounds(sum: nat, n: nat, lo: nat, hi: nat)
    requires n > 0 && lo * n <= sum <= hi * n
    ensures lo <= sum / n <= hi
  {
    var q, r := sum / n, sum % n;
    assert sum == q * n + r;
    assert (q + 1) * n == q * n + n && (hi + 1) * n == hi * n + n;
    if q < lo {
      TimesMonotone(q + 1, lo, n);
    }
    if q > hi {
      TimesMonotone(hi + 1, q, n);
    }
  }

  lemma TimesMonotone(a: nat, b: nat, n: nat)
    requires a <= b
    ensures a * n <= b * n
  {}

  /** What a finished measurement means: the DAC held the active point's code, each
      conversion came after the settling time, the stored current is the mean of all of
      them, and the stored power that of the point. */
  ghost predicate SoundMeasurement(p: Snap, s: Snap) {
    && p.data.active != NoPoint && s.data.active == p.data.active && Written(p.bus)
    && s.bus == p.bus && LastWrite(p.bus).code == p.data.VActive()
    && AllSettled(Window(p.bus), LastWrite(p.bus).at)
    && MeanOf(s.data.IActive(), Window(p.bus))
    && s.data.PActive() == Power(p.data.VActive(), s.data.IActive())
  }

  lemma MeasurementSound(start: Snap, cmds: seq<Command>)
    requires Started(cmds) && Paced(start, cmds) && |cmds| > 1 && cmds[|cmds| - 1].DoUpdate?
    requires Before(start, cmds).state.Measuring() && !Run(start, cmds).state.Measuring()
    ensures SoundMeasurement(Before(start, cmds), Run(start, cmds))
  {
    var last := |cmds| - 1;
    RunKeepsWindow(start, cmds[..last]);
    PacedIsMonotone(start, cmds[..last]);
    RunIsSettled(start, cmds[..last]);
    FinishedIsSound(Before(start, cmds), cmds[last].x, cmds[last - 1].Clock());
  }

  lemma FinishedIsSound(p: Snap, x: Inputs, now: nat)
    requires Inv(p) && BusInv(p) && Settled(p, now) && WindowInv(p, now)
    requires p.state.Measuring() && !Step(p, x).state.Measuring()
    ensures SoundMeasurement(p, Step(p, x))
  {
    MeasureTraffic(p, x);
    AverageIsMean(p.data.iSampleSum, p.data.nSamples, p.bus);
    EndMeasureStores(p);
  }

  lemma EndMeasureStores(p: Snap)
    requires p.state.Measuring() && p.data.nSamples > 0
    requires p.data.active == (match p.state case MeasureThis => This case MeasureNext => Next case _ => Scan)
    ensures var s := EndMeasure(p);
            && s.bus == p.bus && s.data.active == p.data.active
            && s.data.IActive() == Wrap16(p.data.iSampleSum / p.data.nSamples)
            && s.data.PActive() == Power(p.data.VActive(), s.data.IActive())
  {}

  // ---- without the pace of the converter ----

  /** Do all these updates fall into the sampling window of the measurement in `s`? */
  ghost predicate AllSample(s: Snap, xs: seq<Inputs>) { forall k :: 0 <= k < |xs| ==> InWindow(s, xs[k]) }

  /** The conversions they make. */
  function ReadsOf(xs: seq<Inputs>): (w: seq<BusEvent>)
    ensures |w| == |xs|
  {
    seq(|xs|, k requires 0 <= k < |xs| => AdcRead(xs[k].adc, xs[k].clock, xs[k].settle))
  }

  /** A measurement that has just begun. */
  ghost predicate Fresh(s: Snap) {
    && Inv(s) && BusInv(s) && s.state.Measuring()
    && s.data.nSamples == s.data.iSampleSum == 0 && Window(s.bus) == []
  }

  lemma InWindowSamples(r: Snap, x: Inputs)
    requires Inv(r) && r.state.Measuring() && InWindow(r, x)
    ensures Step(r, x) == ReadAdc(r, x).(data := r.data.(iSampleSum := Wrap32(r.data.iSampleSum + x.adc),
                                                         nSamples := Wrap16(r.data.nSamples + 1)))
  {}

  lemma {:induction false} SampleAll(s: Snap, xs: seq<Inputs>)
    requires Fresh(s) && AllSample(s, xs)
    ensures Inv(s) && AfterReadings(s, Updates(s, xs), ReadsOf(xs))
  {
    hide Step, Inv, BusInv, AfterReadings, Fresh, InWindow;
    FreshIsInv(s);
    var n := |xs| - 1;
    if n >= 0 {
      SampleAll(s, xs[..n]);
      SampleAgain(s, Updates(s, xs[..n]), ReadsOf(xs[..n]), xs[n]);
      assert ReadsOf(xs) == ReadsOf(xs[..n]) + [AdcRead(xs[n].adc, xs[n].clock, xs[n].settle)];
    }
  }

  lemma FreshIsInv(s: Snap)
    requires Fresh(s)
    ensures Inv(s) && AfterReadings(s, s, [])
  {}

  ghost predicate AfterReadings(s: Snap, r: Snap, w: seq<BusEvent>) {
    r.state == s.state && r.timer == s.timer && BusInv(r) && Window(r.bus) == w
  }

  lemma SampleAgain(s: Snap, r: Snap, w: seq<BusEvent>, x: Inputs)
    requires Fresh(s) && InWindow(s, x) && Inv(r) && AfterReadings(s, r, w)
    ensures AfterReadings(s, Step(r, x), w + [AdcRead(x.adc, x.clock, x.settle)])
  {
    InWindowSamples(r, x);
    BusInvStep(r, x);
    WindowRead(r.bus, AdcRead(x.adc, x.clock, x.settle));
    hide Step, Inv, BusInv, Window, Elapsed;
  }

  /** Does the measurement, ended after these updates, store the mean of their readings? */
  ghost predicate Averages(s: Snap, xs: seq<Inputs>) {
    Inv(s) &&
    var r := Updates(s, xs);
    r.state.Measuring() && r.data.nSamples > 0 && MeanOf(EndMeasure(r).data.IActive(), ReadsOf(xs))
  }

  lemma StoresQuotient(s: Snap, xs: seq<Inputs>)
    requires Fresh(s) && AllSample(s, xs) && Wrap16(|xs|) != 0
    ensures Inv(s)
    ensures var r := Updates(s, xs);
            && r.state.Measuring() && r.data.nSamples > 0 && r.data.nSamples == Wrap16(|xs|)
            && Tallied(r.data.iSampleSum, r.data.nSamples, r.bus) && Window(r.bus) == ReadsOf(xs)
            && EndMeasure(r).data.IActive() == Wrap16(Wrap32(Sum(ReadsOf(xs))) / Wrap16(|xs|))
  {
    SampleAll(s, xs);
    EndMeasureStores(Updates(s, xs));
    hide EndMeasure, Updates, Step;
  }

  ghost predicate AlwaysAverages(s: Snap, n: nat) {
    forall xs: seq<Inputs> {:trigger Averages(s, xs)} :: |xs| == n && AllSample(s, xs) ==> Averages(s, xs)
  }

  /** Whatever the pace, `n` conversions in a window (which `x` shows not to be empty)
      are averaged correctly, all of them at any times and values, exactly if the 16-bit
      counter can count them. (After a multiple of 65536 the measurement does not end.) */
  lemma MeansAreExact(s: Snap, x: Inputs, n: nat)
    requires Fresh(s) && InWindow(s, x) && Wrap16(n) != 0
    ensures AlwaysAverages(s, n) <==> n <= 0xFFFF
  {
    hide Fresh, Averages, InWindow;
    if n <= 0xFFFF {
      forall xs: seq<Inputs> | |xs| == n && AllSample(s, xs) ensures Averages(s, xs) {
        ShortAverages(s, xs);
      }
    } else {
      var xs := OneReading(s, x, n);
      LongMisaverages(s, xs);
    }
  }

  lemma ShortAverages(s: Snap, xs: seq<Inputs>)
    requires Fresh(s) && AllSample(s, xs) && 0 < |xs| <= 0xFFFF
    ensures Averages(s, xs)
  {
    StoresQuotient(s, xs);
    hide Fresh, MeanOf, Updates, EndMeasure;
    var r := Updates(s, xs);
    AverageIsMean(r.data.iSampleSum, r.data.nSamples, r.bus);
  }

  lemma LongMisaverages(s: Snap, xs: seq<Inputs>)
    requires Fresh(s) && AllSample(s, xs) && Wrap16(|xs|) != 0
    requires Sum(ReadsOf(xs)) == Wrap16(|xs|) && Wrap16(|xs|) / |xs| == 0
    requires Wrap16(Wrap32(Wrap16(|xs|)) / Wrap16(|xs|)) == 1
    ensures !Averages(s, xs)
  {
    StoresQuotient(s, xs);
    hide Fresh, Updates, EndMeasure;
  }

  /** One reading of what is left of the count, and zeros: their mean is 0, and 1 is stored. */
  lemma OneReading(s: Snap, x: Inputs, n: nat) returns (xs: seq<Inputs>)
    requires InWindow(s, x) && n > 0xFFFF && Wrap16(n) != 0
    ensures |xs| == n && AllSample(s, xs) && Sum(ReadsOf(xs)) == Wrap16(n)
    ensures Wrap16(Wrap32(Wrap16(n)) / Wrap16(n)) == 1 && Wrap16(n) / n == 0
  {
    Quotients(n, Wrap16(n));
    hide InWindow, Wrap16, Wrap32;
    xs := [x.(adc := Wrap16(n))] + seq(n - 1, _ => x.(adc := 0));
    SumOfFirst(ReadsOf(xs));
    OnlyClockCounts(s, x);
  }

  lemma Quotients(n: nat, r: u16)
    requires 0 < r < n
    ensures Wrap16(Wrap32(r) / r) == 1 && r / n == 0
  {
    QuotientBounds(r, r, 1, 1);
    QuotientIsZero(r, n);
  }

  lemma OnlyClockCounts(s: Snap, x: Inputs)
    requires InWindow(s, x)
    ensures forall i: u16 :: InWindow(s, x.(adc := i))
  {}

  lemma QuotientIsZero(a: nat, n: nat)
    requires a < n
    ensures a / n == 0
  {}

  lemma {:induction false} SumOfFirst(w: seq<BusEvent>)
    requires |w| > 0 && forall k :: 1 <= k < |w| ==> Value(w[k]) == 0
    ensures Sum(w) == Value(w[0])
  {
    if |w| > 1 {
      SumOfFirst(w[..|w| - 1]);
    } else {
      assert Sum(w[..0]) == 0;
    }
  }
}
