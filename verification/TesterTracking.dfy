/** Maximum power point tracking: where the working voltage goes. */
module TesterTracking {
  import opened Words
  import opened TesterSpec
  import opened TesterRuns

  // ---- one cycle moves the voltage by one ----

  /** How the update from `p` to `s` moves the working voltage. It does so only at the
      end of a cycle, and then by exactly one, as integers, unless it steps down from
      code 0: that happens exactly when the current measured at code 1 was zero. Code
      255, whose neighbour wraps to code 0, always steps down. A step up means that the
      neighbour gave more power. */
  ghost predicate Moves(p: Snap, s: Snap) {
    var v, v' := p.data.vThis, s.data.vThis;
    if !Climbs(p) then v' == v
    else
      && (v' == v + 1 || v' == v - 1 <==> !(v == 0 && p.data.iNext == 0))
      && (v == 255 ==> v' == 254)
      && (v' == v + 1 ==> Power(p.data.vNext, p.data.iNext) > Power(v, p.data.iThis))
  }

  lemma VoltageMoves(start: Snap, cmds: seq<Command>)
    requires Started(cmds) && |cmds| > 1 && cmds[|cmds| - 1].DoUpdate?
    requires Before(start, cmds).state.Tracking()
    ensures Moves(Before(start, cmds), Run(start, cmds))
  {
    StepMoves(Before(start, cmds), cmds[|cmds| - 1].x);
  }

  lemma StepMoves(p: Snap, x: Inputs)
    requires Inv(p) && p.state.Tracking()
    ensures Moves(p, Step(p, x))
  {
    if p.state.Measuring() {
      MeasureKeepsVoltage(p, x);
    } else if Climbs(p) {
      ClimbMoves(p);
    }
  }

  lemma MeasureKeepsVoltage(p: Snap, x: Inputs)
    requires Inv(p) && p.state.Tracking() && p.state.Measuring()
    ensures MeasureStep(p, x).data.vThis == p.data.vThis
  {}

  lemma ClimbMoves(p: Snap)
    requires TrackInv(p) && Climbs(p)
    ensures Moves(p, Climb(p))
  {
    assert p.data.vNext <= 1 ==> p.data.pNext == (if p.data.vNext == 0 then 0 else p.data.iNext);
    assert p.data.vThis == 0 ==> p.data.pThis == 0;
  }

  // ---- convergence on a stationary curve ----

  /** A current for every DAC code. */
  type Curve = c: seq<u16> | |c| == 256 witness seq(256, _ => 0)

  function PowerOf(c: Curve, v: u8): u32 { Power(v, c[v]) }

  /** The power rises strictly up to code `m` and never rises after it. */
  ghost predicate Hill(c: Curve, m: u8) {
    && (forall v :: 0 <= v < m ==> PowerOf(c, v) < PowerOf(c, v + 1))
    && (forall v :: m <= v < 255 ==> PowerOf(c, v + 1) <= PowerOf(c, v))
  }

  /** The code compared with `v`. */
  function NextCode(v: u8): u8 { Wrap8(v + 1) }

  /** The codes that a walk from `v0` to `m` and back and forth there measures. */
  predicate OnWay(v0: u8, m: u8, v: u8) {
    (if v0 < m then v0 else m - 1) <= v <= (if v0 < m then m else v0)
  }

  ghost predicate GoodOnWay(c: Curve, v0: u8, m: u8) {
    forall v: u8 :: OnWay(v0, m, v) ==> GoodCurrent(c[v]) && GoodCurrent(c[NextCode(v)])
  }

  function Distance(v0: u8, m: u8): nat { if v0 < m then m - v0 else v0 - m }

  /** The working voltage after `n` cycles: straight to `m`, then m-1, m, m-1, ... */
  function Walk(v0: u8, m: u8, n: nat): int {
    if n <= Distance(v0, m) then (if v0 < m then v0 + n else v0 - n)
    else m - (n - Distance(v0, m)) % 2
  }

  /** The clock of the last command, when `xs` follow one at `now`. */
  function ClockAfter(now: nat, xs: seq<Inputs>): nat { if |xs| == 0 then now else xs[|xs| - 1].clock }

  /** An update that samples reads the curve's current at the code the DAC holds, and
      it keeps the pace of the converter. */
  ghost predicate Obeys(c: Curve, s: Snap, now: nat, x: Inputs) {
    (s.state.Measuring() ==> x.adc == c[s.dac]) && InPace(s, now, x.clock)
  }

  ghost predicate RunObeys(c: Curve, s: Snap, now: nat, xs: seq<Inputs>)
    requires Inv(s)
  {
    var last := |xs| - 1;
    last < 0 || (RunObeys(c, s, now, xs[..last]) &&
        Obeys(c, Updates(s, xs[..last]), ClockAfter(now, xs[..last]), xs[last]))
  }

  /** The number of completed cycles. */
  ghost function Cycles(s: Snap, xs: seq<Inputs>): nat
    requires Inv(s)
  {
    var last := |xs| - 1;
    if last < 0 then 0
    else Cycles(s, xs[..last]) + if Climbs(Updates(s, xs[..last])) then 1 else 0
  }

  /** What has been summed so far is the curve's current. */
  ghost predicate SumsCurve(c: Curve, s: Snap) {
    s.state.Measuring() ==> s.data.iSampleSum == s.data.nSamples as int * c[s.dac]
  }

  /** The measurements of the running cycle are those of the curve. */
  ghost predicate CycleOk(c: Curve, s: Snap) {
    var d := s.data;
    && s.state.Tracking() && d.nErrorReads <= MAX_ERROR_READS
    && (d.thisDone ==> d.iThis == c[d.vThis])
    && (d.nextDone ==> d.iNext == c[d.vNext])
    && SumsCurve(c, s)
  }

  /** The start of a cycle, as a scan hands over. */
  ghost predicate CycleStart(s: Snap) {
    && Inv(s) && s.state == TrackingMode && s.data.nErrorReads <= MAX_ERROR_READS
    && !s.data.delayDone
  }

  lemma WalkStep(v0: u8, m: u8, n: nat)
    requires 1 <= m <= 254
    ensures 0 <= Walk(v0, m, n) <= 255 && OnWay(v0, m, Walk(v0, m, n))
    ensures Walk(v0, m, n + 1) == if Walk(v0, m, n) < m then Walk(v0, m, n) + 1 else Walk(v0, m, n) - 1
  {}

  /** On a hill the next code has more power exactly below the top. */
  lemma HillTurns(c: Curve, m: u8, v: u8)
    requires Hill(c, m) && m <= 254
    ensures PowerOf(c, NextCode(v)) > PowerOf(c, v) <==> v < m
  {
    if v == 255 {
      assert NextCode(v) == 0 && PowerOf(c, 0) == 0;
    } else {
      assert NextCode(v) == v + 1;
      hide PowerOf, NextCode;
      if v < m {
        assert PowerOf(c, v) < PowerOf(c, v + 1);
      } else {
        assert PowerOf(c, v + 1) <= PowerOf(c, v);
      }
    }
  }

  /** The sum of `n` equal readings has them as its mean, and one more fits 32 bits. */
  lemma ConstantMean(n: nat, i: nat)
    requires n <= 0xFFFF && i <= 0xFFFF
    ensures n > 0 ==> Wrap16((n * i) / n) == i
    ensures n < 0xFFFF ==> Wrap32(n * i + i) == (n + 1) * i
  {
    if n > 0 {
      QuotientBounds(n * i, n, i, i);
    }
    assert (n + 1) * i == n * i + i;
    if n < 0xFFFF {
      TimesMonotone(n + 1, 0xFFFF, i);
      TimesMonotone(i, 0xFFFF, 0xFFFF);
    }
  }

  lemma SampleAdds(c: Curve, s: Snap, x: Inputs)
    requires Inv(s) && SumsCurve(c, s) && s.state.Measuring() && x.adc == c[s.dac] && InWindow(s, x)
    requires s.data.nSamples < 0xFFFF
    ensures Step(s, x) == ReadAdc(s, x).(data := s.data.(iSampleSum := Wrap32(s.data.iSampleSum + x.adc),
                                                         nSamples := Wrap16(s.data.nSamples + 1)))
    ensures SumsCurve(c, Step(s, x))
  {
    ConstantMean(s.data.nSamples, c[s.dac]);
    InWindowSamples(s, x);
    hide Step, InWindow, Inv;
  }

  /** The curve is measured exactly: the mean of equal readings is the reading. */
  lemma StoresCurve(c: Curve, s: Snap)
    requires Inv(s) && SumsCurve(c, s) && s.state.Measuring() && s.data.nSamples > 0
    ensures EndMeasure(s) == LeaveMeasure(s.(data := s.data.Store(c[s.dac])))
  {
    ConstantMean(s.data.nSamples, c[s.dac]);
    hide LeaveMeasure, Inv;
  }

  lemma MeasureEnds(c: Curve, s: Snap)
    requires Inv(s) && CycleOk(c, s) && s.state.Measuring() && s.data.nSamples > 0
    requires GoodCurrent(c[s.dac])
    ensures CycleOk(c, EndMeasure(s))
    ensures EndMeasure(s) == s.(state := TrackingMode, data := EndMeasure(s).data, error := Ok)
    ensures EndMeasure(s).data == if s.state.MeasureThis?
              then s.data.(iThis := c[s.dac], pThis := PowerOf(c, s.dac), thisDone := true, nErrorReads := 0)
              else s.data.(iNext := c[s.dac], pNext := PowerOf(c, s.dac), nextDone := true, nErrorReads := 0)
  {
    StoresCurve(c, s);
    hide EndMeasure;
  }

  /** At the pace of the converter there is room for one more sample. */
  lemma RoomForOne(s: Snap, x: Inputs, now: nat)
    requires WindowInv(s, now) && InPace(s, now, x.clock) && s.state.Measuring() && InWindow(s, x)
    ensures s.data.nSamples < 0xFFFF
  {
    ElapsesExactly(s.since, x.clock - s.since);
    WithinWindow(s, x);
    hide Elapsed, InWindow;
    CountFits(s.since, s.data.nSamples, if s.data.nSamples > 0 then s.bus[|s.bus| - 1].at else 0, x.clock);
  }

  /** A measuring update samples, ends the measurement, or only moves its timer. */
  lemma MeasureCases(s: Snap, x: Inputs)
    requires Inv(s) && s.state.Measuring() && !InWindow(s, x)
    ensures Step(s, x) == s || Step(s, x) == SetTimer(s, x.clock) ||
            (s.data.nSamples > 0 && Step(s, x) == EndMeasure(s))
  {
    hide EndMeasure;
  }

  lemma SampleStep(c: Curve, s: Snap, x: Inputs, now: nat)
    requires Inv(s) && CycleOk(c, s) && s.state.Measuring() && WindowInv(s, now) && Obeys(c, s, now, x)
    requires GoodCurrent(c[s.dac])
    ensures CycleOk(c, Step(s, x))
  {
    hide Step, EndMeasure, InPace, WindowInv, Inv, InWindow;
    if InWindow(s, x) {
      RoomForOne(s, x, now);
      SampleAdds(c, s, x);
    } else {
      MeasureCases(s, x);
      if s.data.nSamples > 0 {
        MeasureEnds(c, s);
      }
    }
  }

  lemma CycleOkStep(c: Curve, s: Snap, x: Inputs, now: nat)
    requires Inv(s) && CycleOk(c, s) && WindowInv(s, now) && Obeys(c, s, now, x)
    requires GoodCurrent(c[s.data.vThis]) && GoodCurrent(c[s.data.vNext])
    ensures CycleOk(c, Step(s, x)) && WindowInv(Step(s, x), x.clock)
  {
    WindowInvStep(s, x, now);
    hide WindowInv, InPace;
    if s.state.Measuring() {
      SampleStep(c, s, x, now);
    }
  }

  /** On a stationary hill, in every run from the start of a cycle, the channel never
      stops with an error, and after `n` cycles its voltage is where the walk is. So it
      reaches the top `m` after exactly |v0 - m| cycles and then alternates m-1, m. */
  lemma {:induction false} TrackingConverges(c: Curve, m: u8, s: Snap, now: nat, xs: seq<Inputs>)
    requires 1 <= m <= 254 && Hill(c, m) && CycleStart(s) && GoodOnWay(c, s.data.vThis, m)
    requires RunObeys(c, s, now, xs)
    ensures var r := Updates(s, xs);
            && CycleOk(c, r) && WindowInv(r, ClockAfter(now, xs))
            && r.data.vThis == Walk(s.data.vThis, m, Cycles(s, xs))
  {
    hide Step, CycleOk, Obeys, Hill, GoodOnWay, Climbs, Walk, CycleStart, Inv, WindowInv;
    if |xs| == 0 {
      StartsOnWalk(c, m, s, xs, now);
    } else {
      var p, x := xs[..|xs| - 1], xs[|xs| - 1];
      StartsWell(s);
      TrackingConverges(c, m, s, now, p);
      ConvergeStep(c, m, s.data.vThis, Updates(s, p), x, ClockAfter(now, p), Cycles(s, p));
    }
  }

  lemma StartsWell(s: Snap)
    requires CycleStart(s)
    ensures Inv(s)
  {}

  lemma StartsOnWalk(c: Curve, m: u8, s: Snap, xs: seq<Inputs>, now: nat)
    requires CycleStart(s) && |xs| == 0
    ensures Updates(s, xs) == s && Cycles(s, xs) == 0 && CycleOk(c, s) && Walk(s.data.vThis, m, 0) == s.data.vThis
    ensures WindowInv(s, now)
  {}

  lemma ConvergeStep(c: Curve, m: u8, v0: u8, p: Snap, x: Inputs, now: nat, n: nat)
    requires 1 <= m <= 254 && Hill(c, m) && GoodOnWay(c, v0, m)
    requires Inv(p) && CycleOk(c, p) && WindowInv(p, now) && p.data.vThis == Walk(v0, m, n) && Obeys(c, p, now, x)
    ensures CycleOk(c, Step(p, x)) && WindowInv(Step(p, x), x.clock)
    ensures Step(p, x).data.vThis == Walk(v0, m, n + if Climbs(p) then 1 else 0)
  {
    WalkStep(v0, m, n);
    var v := p.data.vThis;
    assert OnWay(v0, m, v);
    assert GoodCurrent(c[v]) && GoodCurrent(c[NextCode(v)]);
    CycleOkStep(c, p, x, now);
    StepMoves(p, x);
    hide WindowInv, InPace;
    if Climbs(p) {
      HillTurns(c, m, v);
      ClimbOnCurve(c, p);
    }
  }

  lemma ClimbOnCurve(c: Curve, p: Snap)
    requires TrackInv(p) && CycleOk(c, p) && Climbs(p)
    ensures Climb(p).data.vThis == Wrap8(if PowerOf(c, NextCode(p.data.vThis)) > PowerOf(c, p.data.vThis)
                                         then p.data.vThis + 1 else p.data.vThis - 1)
  {}
}
