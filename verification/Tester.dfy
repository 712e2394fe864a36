/** The hierarchical state machine of LifeTester/StateMachine.cpp, in the source's
    own form: an object whose step, entry, exit and transition functions update its
    fields. `UpdateStep` and `Reset` are proved to do what `TesterSpec` says, so
    everything proved there about whole runs holds of this code. */
module Tester {
  import opened Options
  import opened Words
  import opened TesterSpec

  datatype Event =
    NoneEvent | DacNotSetEvent | MeasurementStartEvent | MeasurementDoneEvent |
    ScanningDoneEvent | TrackDelayStartEvent | ResetEvent | ErrorEvent

  /** The parent pointer of a state. */
  function Parent(s: State): Option<State> {
    match s
    case MeasureScan => Some(ScanningMode)
    case TrackingDelay => Some(TrackingMode)
    case MeasureThis => Some(TrackingMode)
    case MeasureNext => Some(TrackingMode)
    case _ => None
  }

  /** The transitions that the step functions ask for. */
  ghost predicate Allowed(s: Snap, target: State) {
    match target
    case NoState => false
    case Initialise => s.state == NoState
    case Error => s.state.Initialise? || s.state.ScanningMode? || s.state.TrackingMode?
    case ScanningMode => s.state.Initialise? || (s.state.MeasureScan? && s.data.active == Scan)
    case TrackingMode =>
      s.state.ScanningMode? || s.state.TrackingDelay? ||
      ((s.state.MeasureThis? || s.state.MeasureNext?) && s.data.active != NoPoint)
    case TrackingDelay => s.state.TrackingMode?
    case _ =>
      Some(s.state) == Parent(target) && s.data.nErrorReads <= MAX_ERROR_READS && s.data.active == PointOf(target)
  }

  function PointOf(s: State): Point {
    match s case MeasureThis => This case MeasureNext => Next case MeasureScan => Scan case _ => NoPoint
  }

  /** What an allowed transition does. */
  ghost function Arrive(s: Snap, target: State, x: Inputs): Snap
    requires Allowed(s, target)
  {
    if target.Initialise? then TesterSpec.Reset(s, x.clock)
    else if target.Error? then Fail(s, x.clock)
    else if target.Measuring() then BeginMeasure(s, PointOf(target), x)
    else if target.TrackingDelay? then SetTimer(s.(state := target), x.clock)
    else if s.state.Measuring() then LeaveMeasure(s)
    else if target.ScanningMode? then s.(state := target, data := s.data.(vScan := 0))
    else if s.state.TrackingDelay? then s.(state := target, data := s.data.(delayDone := true))
    else s.(state := target)
  }

  /** The point a transition function activates and the state it goes to, if any. */
  ghost function Reaction(s: Snap, e: Event): (Point, State) {
    match s.state
    case Initialise =>
      if e == MeasurementDoneEvent then (Scan, ScanningMode)
      else if e == ErrorEvent then (s.data.active, Error) else (s.data.active, Initialise)
    case ScanningMode =>
      if e == MeasurementStartEvent then (Scan, MeasureScan)
      else if e == ScanningDoneEvent then (This, TrackingMode)
      else if e == ErrorEvent then (s.data.active, Error) else (s.data.active, NoState)
    case TrackingMode =>
      if e == MeasurementStartEvent then
        if !s.data.thisDone then (This, MeasureThis)
        else if !s.data.nextDone then (Next, MeasureNext) else (s.data.active, NoState)
      else if e == TrackDelayStartEvent then (s.data.active, TrackingDelay)
      else if e == ErrorEvent then (s.data.active, Error) else (s.data.active, NoState)
    case MeasureScan => (s.data.active, if e == MeasurementDoneEvent then ScanningMode else NoState)
    case MeasureThis => (s.data.active, if e == MeasurementDoneEvent then TrackingMode else NoState)
    case MeasureNext => (s.data.active, if e == MeasurementDoneEvent then TrackingMode else NoState)
    case _ => (s.data.active, NoState)
  }

  ghost function Activated(s: Snap, e: Event): Snap {
    s.(data := s.data.(active := Reaction(s, e).0))
  }

  ghost predicate Reacts(s: Snap, e: Event) {
    var t := Reaction(s, e).1;
    t == NoState || t == s.state || Allowed(Activated(s, e), t)
  }

  /** The effect of an event in a state. */
  ghost function Reacted(s: Snap, e: Event, x: Inputs): Snap
    requires Reacts(s, e)
  {
    var t := Reaction(s, e).1;
    if t == NoState || t == s.state then Activated(s, e) else Arrive(Activated(s, e), t, x)
  }

  class LifeTester {
    const ch: nat               // this channel's slot in the copy of the DAC outputs
    const dacOutput: array<u8>  // shared by both channels
    var data: Data
    var timer: u32
    var error: ErrorCode
    var state: State
    ghost var since: nat
    ghost var bus: seq<BusEvent>

    ghost predicate Valid() { dacOutput.Length == 2 && ch < 2 }

    ghost function Now(): Snap
      requires Valid()
      reads this, dacOutput
    {
      Snap(state, data, timer, error, dacOutput[ch], since, bus)
    }

    constructor (ch: nat, dacOutput: array<u8>)
      requires ch < 2 && dacOutput.Length == 2
      ensures Valid() && this.ch == ch && this.dacOutput == dacOutput && state == NoState
    {
      this.ch, this.dacOutput := ch, dacOutput;
      data, timer, error, state := ZERO_DATA, 0, Ok, NoState;
      since, bus := 0, [];
    }

    // ---- LifeTester/IoWrapper.cpp ----

    method DacSetOutput(code: u8, clock: nat)
      requires Valid()
      modifies this`bus, dacOutput
      ensures Valid() && Now() == SetDac(old(Now()), code, clock)
      ensures dacOutput[1 - ch] == old(dacOutput[1 - ch])
    {
      dacOutput[ch] := code;
      bus := bus + [DacWrite(code, clock)];
    }

    method AdcReadCurrent(x: Inputs) returns (i: u16)
      requires Valid()
      modifies this`bus
      ensures Valid() && Now() == ReadAdc(old(Now()), x) && i == x.adc
    {
      i := x.adc;
      bus := bus + [AdcRead(x.adc, x.clock, x.settle)];
    }

    method ResetTimer(clock: nat)
      requires Valid()
      modifies this`timer, this`since
      ensures Valid() && Now() == SetTimer(old(Now()), clock)
    {
      timer, since := Millis(clock), clock;
    }

    // ---- entry functions ----

    method InitialiseEntry(clock: nat)
      requires Valid()
      modifies this, dacOutput
      ensures Valid() && Now() == TesterSpec.Reset(old(Now()), clock).(state := old(state))
      ensures dacOutput[1 - ch] == old(dacOutput[1 - ch])
    {
      data := ZERO_DATA;
      ResetTimer(clock);
      error := Ok;
      DacSetOutput(0, clock);
      if dacOutput[ch] != 0 {
        assert false;  // the copy always agrees: LifeTester/StateMachine.cpp:293 is never reached
      }
    }

    method MeasureDataPointEntry(x: Inputs)
      requires Valid() && data.active != NoPoint
      requires data.nErrorReads <= MAX_ERROR_READS
      modifies this, dacOutput
      ensures Valid()
      ensures Now() == BeginMeasure(old(Now()), old(data.active), x).(state := old(state))
      ensures dacOutput[1 - ch] == old(dacOutput[1 - ch])
    {
      if data.nErrorReads > MAX_ERROR_READS {
        assert false;  // LifeTester/StateMachine.cpp:460 is never reached
      }
      DacSetOutput(data.VActive(), x.clock);
      if dacOutput[ch] != data.VActive() {
        assert false;  // nor is LifeTester/StateMachine.cpp:468
      } else {
        data := data.(nSamples := 0, iSampleSum := 0);
        ResetTimer(x.clock);
      }
    }

    method RunEntry(target: State, x: Inputs)
      requires Valid()
      requires target.Measuring() ==> data.active == PointOf(target) && data.nErrorReads <= MAX_ERROR_READS
      modifies this, dacOutput
      ensures Valid() && dacOutput[1 - ch] == old(dacOutput[1 - ch])
      ensures Now() == (match target
        case Initialise => TesterSpec.Reset(old(Now()), x.clock)
        case Error => Fail(old(Now()), x.clock)
        case ScanningMode => old(Now()).(data := old(data).(vScan := 0))
        case TrackingDelay => SetTimer(old(Now()), x.clock)
        case NoState => old(Now())
        case TrackingMode => old(Now())
        case _ => BeginMeasure(old(Now()), PointOf(target), x)).(state := old(state))
    {
      match target {
        case Initialise => InitialiseEntry(x.clock);
        case Error => DacSetOutput(0, x.clock);
        case ScanningMode => data := data.(vScan := 0);
        case TrackingDelay => ResetTimer(x.clock);
        case NoState =>
        case TrackingMode =>
        case _ => MeasureDataPointEntry(x);
      }
    }

    // ---- exit functions ----

    method UpdateErrorReadings()
      requires Valid() && data.active != NoPoint
      modifies this`data, this`error
      ensures Now() == JudgeReading(old(Now()), old(data.IActive()))
    {
      if data.IActive() < MIN_CURRENT {
        error := LowCurrent;
        data := data.(nErrorReads := Wrap16(data.nErrorReads + 1));
      } else if data.IActive() >= MAX_CURRENT {
        error := CurrentLimit;
        data := data.(nErrorReads := Wrap16(data.nErrorReads + 1));
      } else {
        error := Ok;
        data := data.(nErrorReads := 0);
      }
    }

    method UpdateScanData()
      requires Valid()
      modifies this`data
      ensures Now() == old(Now()).(data := data)
      ensures data.(vScan := Wrap8(data.vScan + 1)) == RecordScan(old(data))
      ensures data.vScan == old(data.vScan)
    {
      data := data.(pScan := Power(data.vScan, data.iScan));
      if data.pScan > data.pScanMpp {
        data := data.(pScanMpp := Power(data.vScan, data.iScan));
        data := data.(iScanMpp := data.iScan);
        data := data.(vScanMpp := data.vScan);
      }
      if data.vScan == 0 {
        data := data.(pScanInitial := Power(data.vScan, data.iScan));
      } else if data.vScan == V_SCAN_MAX {
        data := data.(pScanFinal := Power(data.vScan, data.iScan));
      }
    }

    method RunExit(s: State)
      requires Valid()
      requires s.Measuring() ==> s == state && data.active != NoPoint
      modifies this`data, this`error
      ensures Valid()
      ensures s.Measuring() ==> Now() == LeaveMeasure(old(Now())).(state := old(state))
      ensures s.TrackingDelay? ==> Now() == old(Now()).(data := old(data).(delayDone := true))
      ensures !s.Measuring() && !s.TrackingDelay? ==> Now() == old(Now())
    {
      match s {
        case MeasureScan =>
          UpdateScanData();
          data := data.(vScan := Wrap8(data.vScan + 1));
        case MeasureThis =>
          data := data.(thisDone := true);
          UpdateErrorReadings();
        case MeasureNext =>
          data := data.(nextDone := true);
          UpdateErrorReadings();
        case TrackingDelay => data := data.(delayDone := true);
        case _ =>
      }
    }

    // ---- transitions ----

    method TransitionToState(target: State, x: Inputs)
      requires Valid() && (target == state || Allowed(Now(), target))
      modifies this, dacOutput
      ensures Valid() && dacOutput[1 - ch] == old(dacOutput[1 - ch])
      ensures Now() == if target == old(state) then old(Now()) else Arrive(old(Now()), target, x)
    {
      if target == state {
      } else if Some(target) == Parent(state) {
        RunExit(state);
      } else if Parent(target) == Some(state) {
        RunEntry(target, x);
      } else if Parent(target) == Parent(state) {
        RunExit(state);
        RunEntry(target, x);
      } else {
        assert false;  // no transition of the machine crosses both levels
      }
      state := target;
    }

    /** The transition function of the current state, where it has one. */
    method TransitionOnEvent(e: Event, x: Inputs)
      requires Valid()
      requires e != ErrorEvent || !state.Measuring()
      requires Reacts(Now(), e)
      modifies this, dacOutput
      ensures Valid() && dacOutput[1 - ch] == old(dacOutput[1 - ch])
      ensures Now() == Reacted(old(Now()), e, x)
    {
      match state {
        case Initialise => InitialiseTran(e, x);
        case ScanningMode => ScanningModeTran(e, x);
        case TrackingMode => TrackingModeTran(e, x);
        case MeasureScan => MeasureDataPointTran(e, x);
        case MeasureThis => MeasureDataPointTran(e, x);
        case MeasureNext => MeasureDataPointTran(e, x);
        case _ =>  // no transition function
      }
    }

    method InitialiseTran(e: Event, x: Inputs)
      requires Valid() && state == Initialise
      modifies this, dacOutput
      ensures Valid() && dacOutput[1 - ch] == old(dacOutput[1 - ch])
      ensures Now() == Reacted(old(Now()), e, x)
    {
      if e == MeasurementDoneEvent {
        data := data.(active := Scan);
        TransitionToState(ScanningMode, x);
      } else if e == ErrorEvent {
        TransitionToState(Error, x);
      } else {
        TransitionToState(Initialise, x);
      }
    }

    method ScanningModeTran(e: Event, x: Inputs)
      requires Valid() && state == ScanningMode && Reacts(Now(), e)
      modifies this, dacOutput
      ensures Valid() && dacOutput[1 - ch] == old(dacOutput[1 - ch])
      ensures Now() == Reacted(old(Now()), e, x)
    {
      if e == MeasurementStartEvent {
        data := data.(active := Scan);
        TransitionToState(MeasureScan, x);
      } else if e == ScanningDoneEvent {
        data := data.(active := This);
        TransitionToState(TrackingMode, x);
      } else if e == ErrorEvent {
        TransitionToState(Error, x);
      }
    }

    method TrackingModeTran(e: Event, x: Inputs)
      requires Valid() && state == TrackingMode && Reacts(Now(), e)
      modifies this, dacOutput
      ensures Valid() && dacOutput[1 - ch] == old(dacOutput[1 - ch])
      ensures Now() == Reacted(old(Now()), e, x)
    {
      if e == MeasurementStartEvent {
        if !data.thisDone {
          data := data.(active := This);
          TransitionToState(MeasureThis, x);
        } else if !data.nextDone {
          data := data.(active := Next);
          TransitionToState(MeasureNext, x);
        }
      } else if e == TrackDelayStartEvent {
        TransitionToState(TrackingDelay, x);
      } else if e == ErrorEvent {
        TransitionToState(Error, x);
      }
    }

    method MeasureDataPointTran(e: Event, x: Inputs)
      requires Valid() && state.Measuring() && e != ErrorEvent
      requires e == MeasurementDoneEvent ==> Allowed(Now(), Parent(state).value)
      modifies this, dacOutput
      ensures Valid() && dacOutput[1 - ch] == old(dacOutput[1 - ch])
      ensures Now() == if e == MeasurementDoneEvent then LeaveMeasure(old(Now())) else old(Now())
    {
      if e == MeasurementDoneEvent {
        TransitionToState(Parent(state).value, x);
      }
      if e == ErrorEvent {
        assert false;  // a measurement is never left for the error state directly
      }
    }

    // ---- step functions ----

    method InitialiseStep(x: Inputs)
      requires Valid() && state == Initialise
      modifies this, dacOutput
      ensures Valid() && dacOutput[1 - ch] == old(dacOutput[1 - ch])
      ensures Now() == TesterSpec.InitialiseStep(old(Now()), x)
    {
      var tElapsed := Wrap32(Millis(x.clock) - timer);
      var stabilised := tElapsed >= x.settle;
      if data.nErrorReads > MAX_ERROR_READS {
        TransitionOnEvent(ErrorEvent, x);
      } else if !stabilised {
      } else {
        var iShortCircuit := AdcReadCurrent(x);
        if iShortCircuit < x.threshold {
          error := CurrentThreshold;
          data := data.(nErrorReads := Wrap16(data.nErrorReads + 1));
        } else if iShortCircuit >= MAX_CURRENT {
          data := data.(nErrorReads := Wrap16(data.nErrorReads + 1));
          error := CurrentLimit;
        } else {
          error := Ok;
          TransitionOnEvent(MeasurementDoneEvent, x);
        }
      }
    }

    method ScanningModeStep(x: Inputs)
      requires Valid() && Inv(Now()) && (state.ScanningMode? || state.MeasureScan?)
      modifies this, dacOutput
      ensures Valid() && dacOutput[1 - ch] == old(dacOutput[1 - ch])
      ensures Now() == if old(state).MeasureScan? then old(Now()) else Step(old(Now()), x)
    {
      if data.vScan > V_SCAN_MAX {
        var scanShapeOk := data.pScanInitial < data.pScanMpp && data.pScanFinal < data.pScanMpp;
        error := if !scanShapeOk then InvalidScan else error;
        if error == Ok {
          data := data.(vThis := data.vScanMpp);
          data := data.(vNext := Wrap8(data.vScanMpp + 1));
          TransitionOnEvent(ScanningDoneEvent, x);
        } else {
          TransitionOnEvent(ErrorEvent, x);
        }
      } else {
        TransitionOnEvent(MeasurementStartEvent, x);
      }
    }

    /** Step function of TrackingMode; run as a parent's step it changes nothing. */
    method TrackingModeStep(x: Inputs)
      requires Valid() && Inv(Now()) && state.Tracking()
      modifies this, dacOutput
      ensures Valid() && dacOutput[1 - ch] == old(dacOutput[1 - ch])
      ensures Now() == if old(state).TrackingMode? then Step(old(Now()), x) else old(Now())
    {
      var measurementsDone := data.thisDone && data.nextDone;
      var trackDelayDone := data.delayDone;
      if data.nErrorReads > MAX_ERROR_READS {
        TransitionOnEvent(ErrorEvent, x);
      } else if !trackDelayDone {
        TransitionOnEvent(TrackDelayStartEvent, x);
      } else if !measurementsDone {
        TransitionOnEvent(MeasurementStartEvent, x);
      } else {
        UpdateTrackingData();
        data := data.(thisDone := false, nextDone := false, delayDone := false);
      }
    }

    method UpdateTrackingData()
      requires Valid()
      modifies this`data
      ensures Now() == Climb(old(Now())).(data := data)
      ensures data.(thisDone := false, nextDone := false, delayDone := false) == Climb(old(Now())).data
    {
      if data.pNext > data.pThis {
        data := data.(vThis := Wrap8(data.vThis + 1));
        data := data.(vNext := Wrap8(data.vThis + 1));
      } else {
        data := data.(vThis := Wrap8(data.vThis - 1));
        data := data.(vNext := Wrap8(data.vThis + 1));
      }
    }

    method MeasureDataPointStep(x: Inputs)
      requires Valid() && Inv(Now()) && state.Measuring()
      modifies this, dacOutput
      ensures Valid() && dacOutput[1 - ch] == old(dacOutput[1 - ch])
      ensures Now() == MeasureStep(old(Now()), x)
    {
      var tElapsed := Wrap32(Millis(x.clock) - timer);
      var readAdc := tElapsed >= x.settle && tElapsed < x.settle + x.sample;
      var samplingExpired := tElapsed >= x.settle + x.sample;
      var adcRead := data.nSamples > 0;
      if readAdc {
        var sample := AdcReadCurrent(x);
        data := data.(iSampleSum := Wrap32(data.iSampleSum + sample));
        data := data.(nSamples := Wrap16(data.nSamples + 1));
      } else if samplingExpired {
        if adcRead {
          data := data.Store(Wrap16(data.iSampleSum / data.nSamples));
          TransitionOnEvent(MeasurementDoneEvent, x);
        } else {
          timer, since := Millis(x.clock), x.clock;
        }
      }
    }

    method TrackingDelayStep(x: Inputs)
      requires Valid() && state.TrackingDelay?
      modifies this, dacOutput
      ensures Valid() && dacOutput[1 - ch] == old(dacOutput[1 - ch])
      ensures Now() == Step(old(Now()), x)
    {
      var tElapsed := Wrap32(Millis(x.clock) - timer);
      if tElapsed >= x.delay {
        TransitionToState(TrackingMode, x);
      }
    }

    /** Runs the step function of `s`, which is the current state or its parent. */
    method RunStep(s: State, x: Inputs)
      requires Valid() && Inv(Now()) && (s == state || Some(s) == Parent(state))
      modifies this, dacOutput
      ensures Valid() && dacOutput[1 - ch] == old(dacOutput[1 - ch])
      ensures Now() == if s == old(state) then Step(old(Now()), x) else old(Now())
    {
      match s {
        case Initialise => InitialiseStep(x);
        case ScanningMode => ScanningModeStep(x);
        case TrackingMode => TrackingModeStep(x);
        case TrackingDelay => TrackingDelayStep(x);
        case NoState =>
        case Error =>
        case _ => MeasureDataPointStep(x);
      }
    }

    // ---- public functions ----

    method UpdateStep(x: Inputs)
      requires Valid() && Inv(Now())
      modifies this, dacOutput
      ensures Valid() && Inv(Now())
      ensures Now() == Step(old(Now()), x)
      ensures dacOutput[1 - ch] == old(dacOutput[1 - ch])
    {
      InvStep(Now(), x);
      if Parent(state) != None {
        RunStep(Parent(state).value, x);
      }
      RunStep(state, x);
    }

    method Reset(clock: nat)
      requires Valid()
      modifies this, dacOutput
      ensures Valid() && Inv(Now())
      ensures Now() == TesterSpec.Reset(old(Now()), clock)
      ensures dacOutput[1 - ch] == old(dacOutput[1 - ch])
    {
      InvReset(Now(), clock);
      state := NoState;
      TransitionToState(Initialise, Inputs(clock, 0, 0, 0, 0, 0));
    }
  }
}
