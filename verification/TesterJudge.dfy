/** How a channel judges its readings over a whole run, and what it keeps of its
    measurements: told by the conversions on the bus. */
module TesterJudge {
  import opened Words
  import opened TesterSpec
  import opened TesterRuns
  import opened TesterTimes

  /** The mean of the conversions since the DAC was set. */
  ghost function Mean(bus: seq<BusEvent>): nat {
    if Window(bus) == [] then 0 else Sum(Window(bus)) / |Window(bus)|
  }

  /** The error that a tracking measurement with this mean must set. */
  function Judgement(i: nat): ErrorCode { if i < 200 then LowCurrent else if i >= 0xFFFF then CurrentLimit else Ok }

  ghost predicate Ends(p: Snap, r: Snap) { p.state.Measuring() && !r.state.Measuring() }

  // ---- the end of a measurement ----

  lemma EndStores(p: Snap, x: Inputs, now: nat)
    requires Inv(p) && BusInv(p) && WindowInv(p, now) && Ends(p, Step(p, x))
    ensures p.data.nSamples > 0 && Step(p, x) == EndMeasure(p) && Mean(p.bus) <= 0xFFFF
    ensures EndMeasure(p) == LeaveMeasure(p.(data := p.data.Store(Mean(p.bus))))
  {
    MeasureTraffic(p, x);
    AverageIsMean(p.data.iSampleSum, p.data.nSamples, p.bus);
    MeanIsMean(Window(p.bus));
    hide Window, Sum, LeaveMeasure, Step, Inv;
  }

  lemma TrackingEnds(p: Snap, i: u16)
    requires Inv(p) && (p.state.MeasureThis? || p.state.MeasureNext?)
    ensures var r := LeaveMeasure(p.(data := p.data.Store(i)));
            && r.error == Judgement(i)
            && r.data.nErrorReads == if Judgement(i) == Ok then 0 else p.data.nErrorReads + 1
  {}

  // ---- what has been judged ----

  /** The judgements since the last reset: of the bad initial readings and of all tracking
      measurements. The scan is not judged, nor is the reading that begins it. */
  ghost function JudgedStep(p: Snap, c: Command, r: Snap, log: seq<ErrorCode>): seq<ErrorCode> {
    if c.DoReset? then []
    else if p.state == Initialise && r.bus == p.bus + [AdcRead(c.x.adc, c.x.clock, c.x.settle)] then
      if c.x.adc < c.x.threshold then log + [CurrentThreshold]
      else if c.x.adc >= 0xFFFF then log + [CurrentLimit] else log
    else if (p.state.MeasureThis? || p.state.MeasureNext?) && Ends(p, r) then log + [Judgement(Mean(p.bus))]
    else log
  }

  ghost function Judged(start: Snap, cmds: seq<Command>): seq<ErrorCode>
    requires Started(cmds)
  {
    var last := |cmds| - 1;
    if last == 0 then [] else JudgedStep(Before(start, cmds), cmds[last], Run(start, cmds), Judged(start, cmds[..last]))
  }

  /** How many of the last judgements were bad, without a good one among them. */
  function BadInARow(log: seq<ErrorCode>): nat {
    var last := |log| - 1;
    if last < 0 || log[last] == Ok then 0 else BadInARow(log[..last]) + 1
  }

  lemma OneMoreJudged(log: seq<ErrorCode>, e: ErrorCode)
    ensures BadInARow(log + [e]) == if e == Ok then 0 else BadInARow(log) + 1
  {
    assert (log + [e])[..|log|] == log;
  }

  ghost predicate Follows(s: Snap, log: seq<ErrorCode>) {
    if s.state == Error then
      s.error == InvalidScan || (BadInARow(log) == 21 && log != [] && s.error == log[|log| - 1])
    else
      s.data.nErrorReads == BadInARow(log) && (s.error == Ok || (log != [] && s.error == log[|log| - 1]))
  }

  lemma FollowsStart(p: Snap, x: Inputs, log: seq<ErrorCode>)
    requires Inv(p) && p.state == Initialise && Follows(p, log)
    ensures Follows(Step(p, x), JudgedStep(p, DoUpdate(x), Step(p, x), log))
  {
    StartDoes(p, x);
    Distinct(p.bus, DacWrite(0, x.clock), AdcRead(x.adc, x.clock, x.settle));
    NotAppended(p.bus, AdcRead(x.adc, x.clock, x.settle));
    OneMoreJudged(log, CurrentThreshold);
    OneMoreJudged(log, CurrentLimit);
    StartKeepsCount(p, x);
    hide Step, Elapsed, BadInARow;
  }

  /** The reading that begins the scan leaves the count of bad readings alone. */
  lemma StartKeepsCount(p: Snap, x: Inputs)
    requires Inv(p) && p.state == Initialise
    ensures Step(p, x).state == ScanningMode ==> Step(p, x).data.nErrorReads == p.data.nErrorReads
    ensures p.data.nErrorReads == 21 ==> p.error != Ok
  {}

  lemma FollowsMeasure(p: Snap, x: Inputs, now: nat, log: seq<ErrorCode>)
    requires Inv(p) && p.state.Measuring() && Follows(p, log) && BusInv(p) && WindowInv(p, now)
    ensures Follows(Step(p, x), JudgedStep(p, DoUpdate(x), Step(p, x), log))
  {
    hide WindowInv, BusInv, Step, BadInARow, Mean, LeaveMeasure, EndMeasure;
    if Ends(p, Step(p, x)) {
      EndStores(p, x, now);
      OneMoreJudged(log, Judgement(Mean(p.bus)));
      if p.state.MeasureScan? {
        ScanEnds(p, Mean(p.bus));
      } else {
        TrackingEnds(p, Mean(p.bus));
      }
      LeavesToParent(p, Mean(p.bus));
    } else {
      StillMeasures(p, x);
    }
  }

  lemma ScanEnds(p: Snap, i: u16)
    requires Inv(p) && p.state.MeasureScan?
    ensures var r := LeaveMeasure(p.(data := p.data.Store(i)));
            r.error == p.error && r.data.nErrorReads == p.data.nErrorReads
  {}

  lemma LeavesToParent(p: Snap, i: u16)
    requires Inv(p) && p.state.Measuring()
    ensures var r := LeaveMeasure(p.(data := p.data.Store(i))); r.state == ScanningMode || r.state == TrackingMode
  {}

  lemma StillMeasures(p: Snap, x: Inputs)
    requires Inv(p) && p.state.Measuring() && Step(p, x).state.Measuring()
    ensures Step(p, x).error == p.error && Step(p, x).data.nErrorReads == p.data.nErrorReads
    ensures Step(p, x).state != Error
  {
    if p.data.nSamples > 0 {
      TesterTimes.Ends(p);
    }
    hide EndMeasure;
  }

  lemma FollowsOther(p: Snap, x: Inputs, log: seq<ErrorCode>)
    requires Inv(p) && p.state != Initialise && !p.state.Measuring() && Follows(p, log)
    ensures Follows(Step(p, x), log)
  {
    hide BadInARow;
  }

  lemma FollowsStep(p: Snap, c: Command, now: nat, log: seq<ErrorCode>)
    requires Inv(p) && Follows(p, log) && BusInv(p) && WindowInv(p, now)
    ensures Follows(Apply(p, c), JudgedStep(p, c, Apply(p, c), log))
  {
    if c.DoUpdate? {
      hide Follows, Step, WindowInv, BusInv;
      if p.state == Initialise {
        FollowsStart(p, c.x, log);
      } else if p.state.Measuring() {
        FollowsMeasure(p, c.x, now, log);
      } else {
        FollowsOther(p, c.x, log);
      }
    }
  }

  /** In every run at the pace of the converter, the channel counts the bad judgements in
      a row, and its error is the last one, if it was bad. */
  lemma {:induction false} JudgedIsCounted(start: Snap, cmds: seq<Command>)
    requires Started(cmds) && Paced(start, cmds)
    ensures Follows(Run(start, cmds), Judged(start, cmds))
  {
    hide Step, Reset, JudgedStep, Inv, InPace, BusInv, WindowInv, TimesInv;
    var last := |cmds| - 1;
    if last > 0 {
      JudgedIsCounted(start, cmds[..last]);
      RunTimes(start, cmds[..last]);
      InvParts(Before(start, cmds), cmds[last - 1].Clock());
      hide Follows;
      FollowsStep(Before(start, cmds), cmds[last], cmds[last - 1].Clock(), Judged(start, cmds[..last]));
    } else {
      FollowsReset(start, cmds[0].clock, Judged(start, cmds));
    }
  }

  lemma InvParts(s: Snap, now: nat)
    requires TimesInv(s, now)
    ensures BusInv(s) && WindowInv(s, now)
  {}

  lemma FollowsReset(s: Snap, clock: nat, log: seq<ErrorCode>)
    requires |log| == 0
    ensures Follows(Reset(s, clock), log)
  {
    ResetClears(s, clock);
    hide Reset;
  }

  lemma ResetClears(s: Snap, clock: nat)
    ensures var r := Reset(s, clock); r.state == Initialise && r.data.nErrorReads == 0 && r.error == Ok
  {}

  /** The end of a tracking measurement sets the error that the mean of its conversions
      deserves. */
  lemma MeasurementIsJudged(start: Snap, cmds: seq<Command>)
    requires Started(cmds) && Paced(start, cmds) && |cmds| > 1 && cmds[|cmds| - 1].DoUpdate?
    requires var p := Before(start, cmds); (p.state.MeasureThis? || p.state.MeasureNext?) && Ends(p, Run(start, cmds))
    ensures var i, r := Mean(Before(start, cmds).bus), Run(start, cmds);
            && (r.error == LowCurrent <==> i < 200) && (r.error == CurrentLimit <==> i == 0xFFFF)
            && (r.error == Ok <==> 200 <= i < 0xFFFF)
            && r.data.nErrorReads == BadInARow(Judged(start, cmds))
  {
    var last := |cmds| - 1;
    var p := Before(start, cmds);
    RunTimes(start, cmds[..last]);
    InvParts(p, cmds[last - 1].Clock());
    PacedUpdate(start, cmds);
    JudgedIsCounted(start, cmds);
    hide Step, Inv, TimesInv, Run, Paced, Mean, Judged, LeaveMeasure, EndMeasure, BusInv, WindowInv;
    EndStores(p, cmds[last].x, cmds[last - 1].Clock());
    TrackingEnds(p, Mean(p.bus));
    LeavesToParent(p, Mean(p.bus));
  }

  /** A channel that initialises or tracks stops exactly when 21 judgements in a row were
      bad, with the error of the last. */
  lemma StopsAfter21(start: Snap, cmds: seq<Command>)
    requires Started(cmds) && Paced(start, cmds) && |cmds| > 1 && cmds[|cmds| - 1].DoUpdate?
    requires Before(start, cmds).state in {Initialise, TrackingMode, TrackingDelay, MeasureThis, MeasureNext}
    ensures var log, r := Judged(start, cmds[..|cmds| - 1]), Run(start, cmds);
            && (r.state == Error <==> BadInARow(log) == 21)
            && (r.state == Error ==> log != [] && r.error == log[|log| - 1])
  {
    var last := |cmds| - 1;
    var p := Before(start, cmds);
    JudgedIsCounted(start, cmds[..last]);
    PacedUpdate(start, cmds);
    hide Run, Paced, Judged, BadInARow, Step;
    Stops(p, cmds[last].x);
  }

  lemma Stops(p: Snap, x: Inputs)
    requires Inv(p) && p.state in {Initialise, TrackingMode, TrackingDelay, MeasureThis, MeasureNext}
    ensures Step(p, x).state == Error <==> p.data.nErrorReads == 21
    ensures Step(p, x).state == Error ==> Step(p, x).error == p.error && p.error != Ok
  {
    if p.state.Measuring() && p.data.nSamples > 0 {
      TesterTimes.Ends(p);
    }
    hide EndMeasure;
  }

  // ---- what is kept ----

  function PointOf(s: State): Point {
    match s case MeasureThis => This case MeasureNext => Next case MeasureScan => Scan case _ => NoPoint
  }

  /** The mean of the last measurement of a point that has ended since the reset. */
  ghost function LastMean(start: Snap, cmds: seq<Command>, point: Point): nat
    requires Started(cmds)
  {
    var last := |cmds| - 1;
    if last == 0 || cmds[last].DoReset? then 0
    else if Ends(Before(start, cmds), Run(start, cmds)) && PointOf(Before(start, cmds).state) == point then
      Mean(Before(start, cmds).bus)
    else LastMean(start, cmds[..last], point)
  }

  function Kept(d: Data, point: Point): nat {
    match point case This => d.iThis case Next => d.iNext case Scan => d.iScan case NoPoint => 0
  }

  lemma KeptStep(p: Snap, x: Inputs, now: nat, point: Point)
    requires Inv(p) && BusInv(p) && WindowInv(p, now) && point != NoPoint
    ensures var r := Step(p, x);
            Kept(r.data, point) ==
              if Ends(p, r) && PointOf(p.state) == point then Mean(p.bus) else Kept(p.data, point)
  {
    hide WindowInv, BusInv, Mean;
    if Ends(p, Step(p, x)) {
      EndStores(p, x, now);
      Stored(p, Mean(p.bus), point);
    } else {
      NotStored(p, x, point);
    }
  }

  lemma Stored(p: Snap, i: u16, point: Point)
    requires Inv(p) && p.state.Measuring() && point != NoPoint
    ensures Kept(LeaveMeasure(p.(data := p.data.Store(i))).data, point) ==
              if PointOf(p.state) == point then i as nat else Kept(p.data, point)
  {}

  lemma NotStored(p: Snap, x: Inputs, point: Point)
    requires Inv(p) && !Ends(p, Step(p, x)) && point != NoPoint
    ensures Kept(Step(p, x).data, point) == Kept(p.data, point)
  {
    if p.state.Measuring() && p.data.nSamples > 0 {
      TesterTimes.Ends(p);
    }
    hide EndMeasure;
  }

  lemma {:induction false} KeptIsLastMean(start: Snap, cmds: seq<Command>, point: Point)
    requires Started(cmds) && Paced(start, cmds) && point != NoPoint
    ensures Kept(Run(start, cmds).data, point) == LastMean(start, cmds, point)
  {
    hide Step, Inv, TimesInv, InPace, BusInv, WindowInv, Mean;
    var last := |cmds| - 1;
    if last > 0 && cmds[last].DoUpdate? {
      KeptIsLastMean(start, cmds[..last], point);
      RunTimes(start, cmds[..last]);
      InvParts(Before(start, cmds), cmds[last - 1].Clock());
      KeptStep(Before(start, cmds), cmds[last].x, cmds[last - 1].Clock(), point);
    }
  }

  /** The point that a data frame shows: the last one measured, or under measurement; This
      from the end of the scan, and Scan from its beginning. */
  ghost function Shown(start: Snap, cmds: seq<Command>): Point
    requires Started(cmds)
  {
    var last := |cmds| - 1;
    if last == 0 || cmds[last].DoReset? then NoPoint
    else ShownAfter(Before(start, cmds).state, Run(start, cmds).state, Shown(start, cmds[..last]))
  }

  function ShownAfter(p: State, r: State, before: Point): Point {
    if r.Measuring() then PointOf(r)
    else if p.Initialise? && r.ScanningMode? then Scan
    else if p.ScanningMode? && r.TrackingMode? then This
    else before
  }

  lemma ShownStep(p: Snap, x: Inputs)
    requires Inv(p)
    ensures Step(p, x).data.active == ShownAfter(p.state, Step(p, x).state, p.data.active)
  {
    if p.state.Measuring() && p.data.nSamples > 0 {
      TesterTimes.Ends(p);
    }
    hide EndMeasure;
  }

  lemma {:induction false} ActiveIsShown(start: Snap, cmds: seq<Command>)
    requires Started(cmds)
    ensures Run(start, cmds).data.active == Shown(start, cmds)
  {
    hide Step, Inv, ShownAfter;
    var last := |cmds| - 1;
    if last > 0 && cmds[last].DoUpdate? {
      ActiveIsShown(start, cmds[..last]);
      ShownStep(Before(start, cmds), cmds[last].x);
    }
  }

  /** Its code: while tracking, the working voltage or the one above it. */
  lemma ShownCode(s: Snap)
    requires Inv(s) && s.state.Tracking()
    ensures s.data.active in {This, Next}
    ensures s.data.VActive() == if s.data.active == This then s.data.vThis else Wrap8(s.data.vThis + 1)
  {}
}
