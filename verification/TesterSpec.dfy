/** The solar-cell tester of LifeTester/StateMachine.cpp as a flat machine: one
    function from a snapshot and the readings of one update to the next snapshot.
    `Tester.LifeTester` runs the hierarchical code and is proved to refine it. */
module TesterSpec {
  import opened Words

  // Common/Config.h
  const V_SCAN_MAX := 100
  const MAX_ERROR_READS := 20
  const MAX_CURRENT := 0xFFFF
  const MIN_CURRENT := 200

  datatype ErrorCode = Ok | LowCurrent | CurrentLimit | CurrentThreshold | InvalidScan | DacSetFailed

  /** The states; `MeasureScan` is a child of `ScanningMode`, and `TrackingDelay`,
      `MeasureThis` and `MeasureNext` are children of `TrackingMode`. */
  datatype State =
    | NoState | Initialise | Error
    | ScanningMode | MeasureScan
    | TrackingMode | TrackingDelay | MeasureThis | MeasureNext
  {
    predicate Measuring() { MeasureScan? || MeasureThis? || MeasureNext? }

    predicate Tracking() { TrackingMode? || TrackingDelay? || MeasureThis? || MeasureNext? }
  }

  /** Which triple of fields the pointers vActive, iActive and pActive select. */
  datatype Point = NoPoint | This | Next | Scan

  datatype Data = Data(
    vThis: u8, vNext: u8, vScan: u8, vScanMpp: u8, active: Point,
    pThis: u32, pNext: u32, pScan: u32, pScanInitial: u32, pScanFinal: u32, pScanMpp: u32,
    iThis: u16, iNext: u16, iScan: u16, iScanMpp: u16,
    iSampleSum: u32, nSamples: u16, nErrorReads: u16,
    thisDone: bool, nextDone: bool, delayDone: bool)
  {
    function VActive(): u8
      requires active != NoPoint
    {
      match active case This => vThis case Next => vNext case Scan => vScan
    }

    function IActive(): u16
      requires active != NoPoint
    {
      match active case This => iThis case Next => iNext case Scan => iScan
    }

    function PActive(): u32
      requires active != NoPoint
    {
      match active case This => pThis case Next => pNext case Scan => pScan
    }

    /** Stores an averaged current and its power through iActive and pActive. */
    function Store(i: u16): Data
      requires active != NoPoint
    {
      match active
      case This => this.(iThis := i, pThis := Power(vThis, i))
      case Next => this.(iNext := i, pNext := Power(vNext, i))
      case Scan => this.(iScan := i, pScan := Power(vScan, i))
    }
  }

  /** `uint8_t` times `uint16_t`, in an `int` of at least 32 bits. */
  function Power(v: u8, i: u16): u32 { v * i }

  const ZERO_DATA := Data(0, 0, 0, 0, NoPoint, 0, 0, 0, 0, 0, 0, 0, 0, 0, 0, 0, 0, 0, false, false, false)

  /** What one update reads from outside: the millisecond clock (unwrapped), the
      converter, and the four configurable parameters. All are arbitrary. */
  datatype Inputs = Inputs(clock: nat, adc: u16, settle: u16, sample: u16, delay: u16, threshold: u16)

  /** The channel's traffic with its converters. The write that begins a measurement
      carries the first clock reading after it, a read the last one before it. */
  datatype BusEvent =
    | DacWrite(code: u8, at: nat)
    | AdcRead(value: u16, at: nat, settle: u16)

  /** `since` is the unwrapped clock reading that `timer` is the low 32 bits of. */
  datatype Snap = Snap(state: State, data: Data, timer: u32, error: ErrorCode, dac: u8,
                       since: nat, bus: seq<BusEvent>)

  function Millis(clock: nat): u32 { Wrap32(clock) }

  function Elapsed(clock: nat, timer: u32): u32 { Wrap32(Millis(clock) - timer) }

  function SetDac(s: Snap, code: u8, clock: nat): Snap {
    s.(dac := code, bus := s.bus + [DacWrite(code, clock)])
  }

  function SetTimer(s: Snap, clock: nat): Snap { s.(timer := Millis(clock), since := clock) }

  function ReadAdc(s: Snap, x: Inputs): Snap {
    s.(bus := s.bus + [AdcRead(x.adc, x.clock, x.settle)])
  }

  function Fail(s: Snap, clock: nat): Snap { SetDac(s.(state := Error), 0, clock) }

  /** StateMachine_Reset. */
  function Reset(s: Snap, clock: nat): Snap {
    SetDac(SetTimer(s.(state := Initialise, data := ZERO_DATA, error := Ok), clock), 0, clock)
  }

  function InitialiseStep(s: Snap, x: Inputs): Snap {
    var n := Wrap16(s.data.nErrorReads + 1);
    if s.data.nErrorReads > MAX_ERROR_READS then
      Fail(s, x.clock)
    else if Elapsed(x.clock, s.timer) < x.settle then
      s
    else if x.adc < x.threshold then
      ReadAdc(s, x).(error := CurrentThreshold, data := s.data.(nErrorReads := n))
    else if x.adc >= MAX_CURRENT then
      ReadAdc(s, x).(error := CurrentLimit, data := s.data.(nErrorReads := n))
    else
      ReadAdc(s, x).(error := Ok, data := s.data.(active := Scan, vScan := 0), state := ScanningMode)
  }

  function BeginMeasure(s: Snap, p: Point, x: Inputs): Snap
    requires p != NoPoint
  {
    var d := s.data.(active := p, nSamples := 0, iSampleSum := 0);
    var target := match p case This => MeasureThis case Next => MeasureNext case Scan => MeasureScan;
    SetTimer(SetDac(s.(state := target, data := d), d.VActive(), x.clock), x.clock)
  }

  function EndScan(s: Snap, x: Inputs): Snap {
    var d := s.data;
    if d.pScanInitial < d.pScanMpp && d.pScanFinal < d.pScanMpp && s.error == Ok then
      s.(state := TrackingMode, data := d.(vThis := d.vScanMpp, vNext := Wrap8(d.vScanMpp + 1), active := This))
    else
      var e := if d.pScanInitial < d.pScanMpp && d.pScanFinal < d.pScanMpp then s.error else InvalidScan;
      Fail(s.(error := e), x.clock)
  }

  /** Is this update one that samples the converter for a measurement? */
  predicate InWindow(s: Snap, x: Inputs) {
    x.settle <= Elapsed(x.clock, s.timer) < x.settle + x.sample
  }

  /** UpdateScanData followed by the advance to the next code. */
  function RecordScan(d: Data): Data {
    var p := Power(d.vScan, d.iScan);
    var d1 := d.(pScan := p);
    var d2 := if p > d.pScanMpp then d1.(pScanMpp := p, iScanMpp := d.iScan, vScanMpp := d.vScan) else d1;
    var d3 := if d.vScan == 0 then d2.(pScanInitial := p)
              else if d.vScan == V_SCAN_MAX then d2.(pScanFinal := p) else d2;
    d3.(vScan := Wrap8(d.vScan + 1))
  }

  predicate GoodCurrent(i: u16) { MIN_CURRENT <= i < MAX_CURRENT }

  /** UpdateErrorReadings. */
  function JudgeReading(s: Snap, i: u16): Snap {
    if GoodCurrent(i) then
      s.(error := Ok, data := s.data.(nErrorReads := 0))
    else
      s.(error := if i < MIN_CURRENT then LowCurrent else CurrentLimit,
         data := s.data.(nErrorReads := Wrap16(s.data.nErrorReads + 1)))
  }

  /** The exit function of a measuring state, and the return to its parent. */
  function LeaveMeasure(s: Snap): Snap
    requires s.state.Measuring() && s.data.active != NoPoint
  {
    var d := s.data;
    if s.state.MeasureScan? then
      s.(state := ScanningMode, data := RecordScan(d))
    else
      JudgeReading(s.(state := TrackingMode,
                      data := if s.state.MeasureThis? then d.(thisDone := true) else d.(nextDone := true)),
                   d.IActive())
  }

  /** The end of a sampling window: the average is truncated to 16 bits and stored. */
  function EndMeasure(s: Snap): Snap
    requires s.state.Measuring() && s.data.active != NoPoint && s.data.nSamples > 0
  {
    LeaveMeasure(s.(data := s.data.Store(Wrap16(s.data.iSampleSum / s.data.nSamples))))
  }

  function MeasureStep(s: Snap, x: Inputs): Snap
    requires s.state.Measuring() && s.data.active != NoPoint
  {
    if InWindow(s, x) then
      ReadAdc(s, x).(data := s.data.(iSampleSum := Wrap32(s.data.iSampleSum + x.adc),
                                     nSamples := Wrap16(s.data.nSamples + 1)))
    else if Elapsed(x.clock, s.timer) >= x.settle + x.sample then
      if s.data.nSamples > 0 then EndMeasure(s) else SetTimer(s, x.clock)
    else
      s
  }

  /** Is the next update from `s` the one that moves the working point? */
  predicate Climbs(s: Snap) {
    s.state.TrackingMode? && s.data.nErrorReads <= MAX_ERROR_READS &&
    s.data.delayDone && s.data.thisDone && s.data.nextDone
  }

  /** UpdateTrackingData and the restart of the cycle. */
  function Climb(s: Snap): Snap {
    var v := Wrap8(if s.data.pNext > s.data.pThis then s.data.vThis + 1 else s.data.vThis - 1);
    s.(data := s.data.(vThis := v, vNext := Wrap8(v + 1), thisDone := false, nextDone := false, delayDone := false))
  }

  function TrackingStep(s: Snap, x: Inputs): Snap {
    if s.data.nErrorReads > MAX_ERROR_READS then Fail(s, x.clock)
    else if !s.data.delayDone then SetTimer(s.(state := TrackingDelay), x.clock)
    else if !s.data.thisDone then BeginMeasure(s, This, x)
    else if !s.data.nextDone then BeginMeasure(s, Next, x)
    else Climb(s)
  }

  /** StateMachine_UpdateStep, flattened. */
  function Step(s: Snap, x: Inputs): Snap
    requires s.state.Measuring() ==> s.data.active != NoPoint
  {
    match s.state
    case NoState => s
    case Initialise => InitialiseStep(s, x)
    case ScanningMode => if s.data.vScan > V_SCAN_MAX then EndScan(s, x) else BeginMeasure(s, Scan, x)
    case TrackingMode => TrackingStep(s, x)
    case TrackingDelay =>
      if Elapsed(x.clock, s.timer) >= x.delay
      then s.(state := TrackingMode, data := s.data.(delayDone := true)) else s
    case Error => s
    case _ => MeasureStep(s, x)
  }

  /** What holds of a channel after any reset and any updates since. */
  ghost predicate Inv(s: Snap) {
    var d := s.data;
    && d.nErrorReads <= MAX_ERROR_READS + 1
    && (s.state == Initialise || s.state.TrackingMode? || s.state == Error || d.nErrorReads <= MAX_ERROR_READS)
    && match s.state
       case NoState => false
       case Initialise =>
         d == ZERO_DATA.(nErrorReads := d.nErrorReads) && (d.nErrorReads > 0 ==> s.error != Ok) && s.dac == 0
       case Error => s.dac == 0 && s.error != Ok
       case ScanningMode => d.vScan <= V_SCAN_MAX + 1 && ScanInv(s)
       case MeasureScan => d.vScan <= V_SCAN_MAX && s.dac == d.vScan && ScanInv(s)
       case TrackingMode =>
         && TrackInv(s) && (d.nErrorReads > MAX_ERROR_READS ==> s.error != Ok)
         && (d.nextDone ==> d.thisDone) && (d.thisDone ==> d.delayDone)
       case TrackingDelay => TrackInv(s) && !d.delayDone && !d.thisDone && !d.nextDone
       case MeasureThis =>
         TrackInv(s) && d.active == This && s.dac == d.vThis && d.delayDone && !d.thisDone && !d.nextDone
       case MeasureNext =>
         TrackInv(s) && d.active == Next && s.dac == d.vNext && d.delayDone && d.thisDone && !d.nextDone
  }

  ghost predicate ScanInv(s: Snap) {
    && s.error == Ok && s.data.active == Scan
    && !s.data.thisDone && !s.data.nextDone && !s.data.delayDone
  }

  ghost predicate TrackInv(s: Snap) {
    && s.data.active in {This, Next}
    && s.data.vNext == Wrap8(s.data.vThis + 1)
    && (s.data.thisDone ==> s.data.pThis == Power(s.data.vThis, s.data.iThis))
    && (s.data.nextDone ==> s.data.pNext == Power(s.data.vNext, s.data.iNext))
  }

  lemma InvReset(s: Snap, clock: nat)
    ensures Inv(Reset(s, clock))
  {}

  lemma InvScanEnds(s: Snap)
    requires Inv(s) && s.state.MeasureScan? && s.data.nSamples > 0
    ensures Inv(EndMeasure(s))
  {}

  lemma InvTrackEnds(s: Snap)
    requires Inv(s) && (s.state.MeasureThis? || s.state.MeasureNext?) && s.data.nSamples > 0
    ensures Inv(EndMeasure(s))
  {
    InvTrackStores(s, Wrap16(s.data.iSampleSum / s.data.nSamples));
    hide Inv, LeaveMeasure;
  }

  lemma InvTrackStores(s: Snap, i: u16)
    requires Inv(s) && (s.state.MeasureThis? || s.state.MeasureNext?)
    ensures Inv(LeaveMeasure(s.(data := s.data.Store(i))))
  {
    hide Power, GoodCurrent, Wrap16;
    assert Wrap16(s.data.nErrorReads + 1) == s.data.nErrorReads + 1 by {
      WrapSmall(s.data.nErrorReads);
    }
  }

  lemma WrapSmall(n: nat)
    requires n <= MAX_ERROR_READS
    ensures Wrap16(n + 1) == n + 1
  {}

  lemma InvMeasureStep(s: Snap, x: Inputs)
    requires Inv(s) && s.state.Measuring()
    ensures Inv(MeasureStep(s, x))
  {
    if s.data.nSamples > 0 {
      if s.state.MeasureScan? { InvScanEnds(s); } else { InvTrackEnds(s); }
    }
    hide EndMeasure;
  }

  lemma InvStep(s: Snap, x: Inputs)
    requires Inv(s)
    ensures Inv(Step(s, x))
  {
    if s.state.Measuring() {
      InvMeasureStep(s, x);
    }
  }
}
