/** The whole firmware of LifeTester/LifeTester.cpp: two channels, the controller, and
    the main loop. Whatever the readings and the bus traffic are, each channel is
    always the result of a run of `TesterRuns`, and the controller of a run of
    `ControllerSpec`, so all that is proved there holds of both at once. */
module Firmware {
  import opened Words
  import TesterSpec
  import TesterRuns
  import TesterTimes
  import Tester
  import ControllerSpec
  import ControllerDevice

  /** What one channel's update reads: the clock and the converter. */
  datatype Reading = Reading(clock: nat, adc: u16)

  const DEFAULTS := ControllerSpec.Params(200, 200, 200, 100)

  function InputsOf(r: Reading, p: ControllerSpec.Params): TesterSpec.Inputs {
    TesterSpec.Inputs(r.clock, r.adc, p.settle, p.sample, p.delay, p.threshold)
  }

  predicate ResetsChannel(reg: ControllerSpec.Reg, channelB: bool) {
    ControllerSpec.ConsumesReset(reg) && reg.channelB == channelB
  }

  /** What the bus can do between two steps of the main loop. */
  predicate IsTraffic(es: seq<ControllerSpec.Event>) {
    forall e :: e in es ==> !e.Consumed? && (e.Received? ==> |e.rx| <= ControllerDevice.BUFFER_MAX_SIZE)
  }

  /** One pass of the main loop: what each channel's update read and made of it, and the
      register when the command is carried out. */
  datatype Pass = Pass(xA: TesterSpec.Inputs, xB: TesterSpec.Inputs, sA: TesterSpec.Snap, sB: TesterSpec.Snap,
                       reg: ControllerSpec.Reg)
  {
    function Named(): TesterSpec.Snap { if reg.channelB then sB else sA }

    function Resetting(channelB: bool, clock: nat): seq<TesterRuns.Command> {
      if ResetsChannel(reg, channelB) then [TesterRuns.DoReset(clock)] else []
    }

    function Final(channelB: bool, clock: nat): TesterSpec.Snap {
      var s := if channelB then sB else sA;
      if ResetsChannel(reg, channelB) then TesterSpec.Reset(s, clock) else s
    }
  }

  ghost function PassOf(sA: TesterSpec.Snap, sB: TesterSpec.Snap, es: seq<ControllerSpec.Event>,
                        a: Reading, afterA: seq<ControllerSpec.Event>,
                        b: Reading, afterB: seq<ControllerSpec.Event>): Pass
    requires TesterSpec.Inv(sA) && TesterSpec.Inv(sB)
  {
    var xA := InputsOf(a, ControllerSpec.Run(DEFAULTS, es).params);
    var xB := InputsOf(b, ControllerSpec.Run(DEFAULTS, es + afterA).params);
    Pass(xA, xB, TesterSpec.Step(sA, xA), TesterSpec.Step(sB, xB),
        ControllerSpec.Run(DEFAULTS, es + afterA + afterB).reg)
  }

  function Resets(cmds: seq<TesterRuns.Command>): nat {
    if cmds == [] then 0
    else Resets(cmds[..|cmds| - 1]) + if cmds[|cmds| - 1].DoReset? then 1 else 0
  }

  lemma RunOneMore(start: TesterSpec.Snap, cmds: seq<TesterRuns.Command>, c: TesterRuns.Command)
    requires TesterRuns.Started(cmds)
    ensures TesterRuns.Run(start, cmds + [c]) == TesterRuns.Apply(TesterRuns.Run(start, cmds), c)
    ensures Resets(cmds + [c]) == Resets(cmds) + if c.DoReset? then 1 else 0
  {
    assert (cmds + [c])[..|cmds|] == cmds;
  }

  lemma EventOneMore(p: ControllerSpec.Params, es: seq<ControllerSpec.Event>, e: ControllerSpec.Event, b: bool)
    ensures ControllerSpec.Run(p, es + [e]) == ControllerSpec.Next(ControllerSpec.Run(p, es), e)
    ensures ControllerSpec.Performed(p, es + [e], b) ==
            ControllerSpec.Performed(p, es, b) + if ControllerSpec.PerformsReset(ControllerSpec.Run(p, es), e, b)
                then 1 else 0
  {
    assert (es + [e])[..|es|] == es;
  }

  lemma OnPace(start: TesterSpec.Snap, cmds: seq<TesterRuns.Command>, x: TesterSpec.Inputs)
    requires TesterRuns.Started(cmds)
    ensures var s, r := TesterRuns.Run(start, cmds), TesterRuns.Run(start, cmds + [TesterRuns.DoUpdate(x)]);
            TesterRuns.Paced(start, cmds + [TesterRuns.DoUpdate(x)]) ==>
              TesterTimes.KeepsTimes(s, r, x.clock, x.adc, x.settle, x.delay, x.sample, x.threshold)
  {
    var more := cmds + [TesterRuns.DoUpdate(x)];
    assert more[..|cmds|] == cmds;
    if TesterRuns.Paced(start, more) {
      TesterTimes.UpdateKeepsTimes(start, more);
    }
    hide TesterRuns.Paced, TesterRuns.Run, TesterTimes.KeepsTimes;
  }

  /** What one pass of the main loop reads, and the bus traffic between its steps. */
  datatype PassInput = PassInput(a: Reading, afterA: seq<ControllerSpec.Event>,
                                 b: Reading, afterB: seq<ControllerSpec.Event>,
                                 clock: nat, temperature: u16, light: u16, stray: (u8, u16))
  {
    /** No message of the pass is one of eight bytes, as new parameters are. */
    ghost predicate KeepsParams() { IsTraffic(afterA) && IsTraffic(afterB) && NoParams(afterA) && NoParams(afterB) }
  }

  /** `cmds` goes on from `before` with updates of these parameters, and resets. */
  ghost predicate Extends(cmds: seq<TesterRuns.Command>, before: seq<TesterRuns.Command>,
                          settle: u16, delay: u16, sample: u16, threshold: u16) {
    before <= cmds && TesterTimes.Configured(cmds, |before|, settle, delay, sample, threshold)
  }

  lemma PassIsConfigured(pass: Pass, es: seq<ControllerSpec.Event>, sA: TesterSpec.Snap, sB: TesterSpec.Snap,
                         p: PassInput, a: seq<TesterRuns.Command>, b: seq<TesterRuns.Command>,
                         settle: u16, delay: u16, sample: u16, threshold: u16)
    requires TesterSpec.Inv(sA) && TesterSpec.Inv(sB) && pass == PassOf(sA, sB, es, p.a, p.afterA, p.b, p.afterB)
    requires ControllerSpec.Run(DEFAULTS, es).params == ControllerSpec.Params(settle, delay, sample, threshold)
    requires ControllerSpec.Run(DEFAULTS, es + p.afterA).params ==
               ControllerSpec.Params(settle, delay, sample, threshold)
    ensures Extends(a + [TesterRuns.DoUpdate(pass.xA)] + pass.Resetting(false, p.clock), a,
                    settle, delay, sample, threshold)
    ensures Extends(b + [TesterRuns.DoUpdate(pass.xB)] + pass.Resetting(true, p.clock), b,
                    settle, delay, sample, threshold)
  {
    hide TesterSpec.Step, TesterSpec.Inv, ControllerSpec.Run;
  }

  lemma ConsumeKeepsParams(s: ControllerSpec.Ctl, report: ControllerSpec.Report)
    ensures ControllerSpec.Consume(s, report).params == s.params
  {}

  /** What a channel does from `before` on, at the pace of the converter. */
  ghost predicate Operates(start: TesterSpec.Snap, before: seq<TesterRuns.Command>, cmds: seq<TesterRuns.Command>,
                           settle: u16, delay: u16, sample: u16, threshold: u16) {
    && TesterRuns.Started(before) && before <= cmds
    && (TesterRuns.Paced(start, cmds) ==>
          && TesterTimes.RunKeepsTimes(start, cmds, |before|, settle, delay, sample, threshold)
          && TesterTimes.BusSettled(TesterRuns.Run(start, cmds).bus, |TesterRuns.Run(start, before).bus|, settle))
  }

  lemma ExtendedOperates(start: TesterSpec.Snap, before: seq<TesterRuns.Command>, cmds: seq<TesterRuns.Command>,
                         settle: u16, delay: u16, sample: u16, threshold: u16)
    requires TesterRuns.Started(before) && Extends(cmds, before, settle, delay, sample, threshold)
    ensures Operates(start, before, cmds, settle, delay, sample, threshold)
  {
    hide TesterRuns.Run, TesterRuns.Paced, TesterTimes.Configured;
    if TesterRuns.Paced(start, cmds) {
      TesterTimes.ConfiguredRunKeepsTimes(start, cmds, |before|, settle, delay, sample, threshold);
      TesterTimes.ConfiguredBusIsSettled(start, cmds, |before|, settle, delay, sample, threshold);
      assert cmds[..|before|] == before;
    }
  }

  ghost predicate NoParams(es: seq<ControllerSpec.Event>) { forall e :: e in es && e.Received? ==> |e.rx| != 8 }

  class Board {
    const chA: Tester.LifeTester
    const chB: Tester.LifeTester
    const controller: ControllerDevice.Controller
    ghost var startA: TesterSpec.Snap
    ghost var startB: TesterSpec.Snap
    ghost var cmdsA: seq<TesterRuns.Command>
    ghost var cmdsB: seq<TesterRuns.Command>
    ghost var events: seq<ControllerSpec.Event>

    ghost const Repr: set<object> :=
      {this, chA, chB, chA.dacOutput, controller, controller.tx, controller.tx.d,
       controller.wire, controller.wire.rxBuffer, controller.config}

    ghost predicate Shaped()
      reads Repr
    {
      && chA != chB && chA.dacOutput == chB.dacOutput && chA.Valid() && chB.Valid() && chA.ch == 0 && chB.ch == 1
      && controller.Valid() && controller.wire.Unread() == []
      && chA.dacOutput != controller.tx.d && chA.dacOutput != controller.wire.rxBuffer
    }

    ghost predicate ChannelsRun()
      requires Shaped()
      reads Repr
    {
      && TesterRuns.Started(cmdsA) && chA.Now() == TesterRuns.Run(startA, cmdsA)
      && TesterRuns.Started(cmdsB) && chB.Now() == TesterRuns.Run(startB, cmdsB)
    }

    /** Each channel has been reset once at the start, and then exactly once for every
        reset command carried out on it. */
    ghost predicate ControllerRuns()
      requires Shaped()
      reads Repr
    {
      && controller.Now() == ControllerSpec.Run(DEFAULTS, events)
      && Resets(cmdsA) == 1 + ControllerSpec.Performed(DEFAULTS, events, false)
      && Resets(cmdsB) == 1 + ControllerSpec.Performed(DEFAULTS, events, true)
    }

    ghost predicate Valid()
      reads Repr
    {
      Shaped() && ChannelsRun() && ControllerRuns()
    }

    /** setup(), from the channels and the freshly initialised controller on. */
    constructor (chA: Tester.LifeTester, chB: Tester.LifeTester, controller: ControllerDevice.Controller,
                 clockA: nat, clockB: nat)
      requires chA != chB && chA.dacOutput == chB.dacOutput && chA.Valid() && chB.Valid() && chA.ch == 0 && chB.ch == 1
      requires controller.Valid() && controller.wire.Unread() == []
      requires controller.Now() == ControllerSpec.Run(DEFAULTS, [])
      requires chA.dacOutput != controller.tx.d && chA.dacOutput != controller.wire.rxBuffer
      modifies chA, chB, chA.dacOutput
      ensures Valid() && events == []
      ensures this.chA == chA && this.chB == chB && this.controller == controller
    {
      this.chA, this.chB, this.controller := chA, chB, controller;
      startA, startB, events := chA.Now(), chB.Now(), [];
      cmdsA, cmdsB := [TesterRuns.DoReset(clockA)], [TesterRuns.DoReset(clockB)];
      FirstReset(chA.Now(), clockA);
      FirstReset(chB.Now(), clockB);
      new;
      hide TesterSpec.Reset, TesterSpec.Inv, TesterRuns.Run, Resets, ControllerSpec.Run;
      chA.Reset(clockA);
      chB.Reset(clockB);
    }

    static lemma FirstReset(start: TesterSpec.Snap, clock: nat)
      ensures var cmds := [TesterRuns.DoReset(clock)];
              TesterRuns.Run(start, cmds) == TesterSpec.Reset(start, clock) && Resets(cmds) == 1
    {
      assert [TesterRuns.DoReset(clock)][..0] == [];
    }

    lemma HasShape()
      requires Valid()
      ensures Shaped()
    {}

    lemma OnRuns()
      requires Valid()
      ensures controller.Now() == ControllerSpec.Run(DEFAULTS, events)
      ensures TesterSpec.Inv(chA.Now()) && TesterSpec.Inv(chB.Now())
    {
      hide TesterRuns.Run, TesterSpec.Inv, ControllerSpec.Run, ControllerSpec.Performed, Resets;
    }

    // What a step leaves alone: channel A, channel B, or the controller.
    twostate predicate KeepsA()
      requires old(Valid()) && Valid()
      reads Repr
    {
      startA == old(startA) && cmdsA == old(cmdsA) && chA.Now() == old(chA.Now())
    }

    twostate predicate KeepsB()
      requires old(Valid()) && Valid()
      reads Repr
    {
      startB == old(startB) && cmdsB == old(cmdsB) && chB.Now() == old(chB.Now())
    }

    twostate predicate KeepsController()
      requires old(Valid()) && Valid()
      reads Repr
    {
      events == old(events) && controller.Now() == old(controller.Now())
    }

    /** The parameters are read from the configuration at the time of the update. */
    method ReadInputs(r: Reading) returns (x: TesterSpec.Inputs)
      requires Valid()
      ensures x == InputsOf(r, controller.Now().params)
    {
      var c := controller.config;
      x := TesterSpec.Inputs(r.clock, r.adc, c.settleTime, c.sampleTime, c.trackDelay, c.thresholdCurrent);
    }

    /** One update of a channel adds one command to its run, and does nothing else. */
    method UpdateA(r: Reading)
      requires Valid()
      modifies Repr
      ensures Valid() && KeepsB() && KeepsController() && startA == old(startA)
      ensures var x := InputsOf(r, old(controller.Now().params));
              cmdsA == old(cmdsA) + [TesterRuns.DoUpdate(x)] && chA.Now() == TesterSpec.Step(old(chA.Now()), x)
      ensures var p := old(controller.Now().params);
              TesterRuns.Paced(startA, cmdsA) ==>
                TesterTimes.KeepsTimes(old(chA.Now()), chA.Now(), r.clock, r.adc,
                                       p.settle, p.delay, p.sample, p.threshold)
    {
      hide TesterRuns.Run, TesterSpec.Step, TesterSpec.Reset, TesterSpec.Inv;
      hide ControllerSpec.Run, ControllerSpec.Performed, Resets;
      var x := ReadInputs(r);
      ghost var b := chB.Now();
      RunOneMore(startA, cmdsA, TesterRuns.DoUpdate(x));
      chA.UpdateStep(x);
      OnPace(startA, cmdsA, x);
      cmdsA := cmdsA + [TesterRuns.DoUpdate(x)];
      assert chB.Now() == b;
    }

    method UpdateB(r: Reading)
      requires Valid()
      modifies Repr
      ensures Valid() && KeepsA() && KeepsController() && startB == old(startB)
      ensures var x := InputsOf(r, old(controller.Now().params));
              cmdsB == old(cmdsB) + [TesterRuns.DoUpdate(x)] && chB.Now() == TesterSpec.Step(old(chB.Now()), x)
      ensures var p := old(controller.Now().params);
              TesterRuns.Paced(startB, cmdsB) ==>
                TesterTimes.KeepsTimes(old(chB.Now()), chB.Now(), r.clock, r.adc,
                                       p.settle, p.delay, p.sample, p.threshold)
    {
      hide TesterRuns.Run, TesterSpec.Step, TesterSpec.Reset, TesterSpec.Inv;
      hide ControllerSpec.Run, ControllerSpec.Performed, Resets;
      var x := ReadInputs(r);
      ghost var a := chA.Now();
      RunOneMore(startB, cmdsB, TesterRuns.DoUpdate(x));
      chB.UpdateStep(x);
      OnPace(startB, cmdsB, x);
      cmdsB := cmdsB + [TesterRuns.DoUpdate(x)];
      assert chA.Now() == a;
    }

    /** Carries out the command in the register: a pending reset resets the channel it
        names, once, and only that one; and the report is the named channel's. */
    method Consume(clock: nat, temperature: u16, light: u16, stray: (u8, u16))
      requires Valid()
      modifies Repr
      ensures Valid() && startA == old(startA) && startB == old(startB)
      ensures var reg := old(controller.Now().reg);
              var named := if reg.channelB then old(chB.Now()) else old(chA.Now());
              var report := ControllerDevice.ReportOn(named, temperature, light, stray);
              && events == old(events) + [ControllerSpec.Consumed(report)]
              && controller.Now() == ControllerSpec.Consume(old(controller.Now()), report)
      ensures if ResetsChannel(old(controller.Now().reg), false)
              then cmdsA == old(cmdsA) + [TesterRuns.DoReset(clock)] &&
                  chA.Now() == TesterSpec.Reset(old(chA.Now()), clock)
              else KeepsA()
      ensures if ResetsChannel(old(controller.Now().reg), true)
              then cmdsB == old(cmdsB) + [TesterRuns.DoReset(clock)] &&
                  chB.Now() == TesterSpec.Reset(old(chB.Now()), clock)
              else KeepsB()
    {
      hide TesterRuns.Run, TesterSpec.Step, TesterSpec.Reset, TesterSpec.Inv;
      hide ControllerSpec.Run, ControllerSpec.Performed, Resets, ControllerSpec.Consume, ControllerDevice.ReportOn;
      ghost var reg := controller.Now().reg;
      ghost var named := if reg.channelB then chB.Now() else chA.Now();
      ghost var e := ControllerSpec.Consumed(ControllerDevice.ReportOn(named, temperature, light, stray));
      EventOneMore(DEFAULTS, events, e, false);
      EventOneMore(DEFAULTS, events, e, true);
      RunOneMore(startA, cmdsA, TesterRuns.DoReset(clock));
      RunOneMore(startB, cmdsB, TesterRuns.DoReset(clock));
      controller.ConsumeCommand(chA, chB, clock, temperature, light, stray);
      events := events + [e];
      if ControllerSpec.ConsumesReset(reg) {
        if reg.channelB {
          cmdsB := cmdsB + [TesterRuns.DoReset(clock)];
        } else {
          cmdsA := cmdsA + [TesterRuns.DoReset(clock)];
        }
      }
    }

    /** A message from the master, between two steps of the loop. */
    method OnReceive(inBytes: seq<u8>)
      requires Valid() && |inBytes| <= ControllerDevice.BUFFER_MAX_SIZE
      modifies Repr
      ensures Valid() && KeepsA() && KeepsB() && events == old(events) + [ControllerSpec.Received(inBytes)]
      ensures controller.Now() == ControllerSpec.Receive(old(controller.Now()), inBytes)
    {
      hide TesterRuns.Run, TesterSpec.Step, TesterSpec.Reset, TesterSpec.Inv;
      hide ControllerSpec.Run, ControllerSpec.Performed, Resets;
      EventOneMore(DEFAULTS, events, ControllerSpec.Received(inBytes), false);
      EventOneMore(DEFAULTS, events, ControllerSpec.Received(inBytes), true);
      ghost var a, b := chA.Now(), chB.Now();
      controller.OnReceive(inBytes);
      events := events + [ControllerSpec.Received(inBytes)];
      assert chA.Now() == a && chB.Now() == b;
    }

    /** A request of the master; unless it asked for the register it gets the frame that
        `ControllerSpec.ReplyIsFresh` tells about. */
    method OnRequest() returns (sent: ControllerDevice.Reply)
      requires Valid()
      modifies Repr
      ensures Valid() && KeepsA() && KeepsB() && events == old(events) + [ControllerSpec.Requested]
      ensures controller.Now() == ControllerSpec.Request(old(controller.Now()))
      ensures if old(controller.Now().readRequested)
              then sent.Status? && ControllerSpec.Decode(sent.reg) == old(controller.Now().reg)
              else sent == ControllerDevice.Bytes(old(controller.Now().tx))
    {
      hide TesterRuns.Run, TesterSpec.Step, TesterSpec.Reset, TesterSpec.Inv;
      hide ControllerSpec.Run, ControllerSpec.Performed, Resets, ControllerSpec.Decode;
      EventOneMore(DEFAULTS, events, ControllerSpec.Requested, false);
      EventOneMore(DEFAULTS, events, ControllerSpec.Requested, true);
      ghost var a, b := chA.Now(), chB.Now();
      sent := controller.RequestHandler();
      events := events + [ControllerSpec.Requested];
      assert chA.Now() == a && chB.Now() == b;
    }

    /** Any bus traffic between two steps of the loop. */
    method Serve(traffic: seq<ControllerSpec.Event>)
      requires Valid() && IsTraffic(traffic)
      modifies Repr
      ensures Valid() && KeepsA() && KeepsB() && events == old(events) + traffic
    {
      hide Valid;
      for i := 0 to |traffic|
        invariant Valid() && KeepsA() && KeepsB() && events == old(events) + traffic[..i]
      {
        assert traffic[i] in traffic;
        if traffic[i].Received? {
          OnReceive(traffic[i].rx);
        } else {
          var _ := OnRequest();
        }
        assert traffic[..i + 1] == traffic[..i] + [traffic[i]];
      }
      assert traffic[..|traffic|] == traffic;
    }

    /** loop(), with the bus traffic that comes between its steps: both channels are
        updated once with the parameters then in force, then the command that the
        register holds by then is carried out. */
    method Loop(a: Reading, afterA: seq<ControllerSpec.Event>, b: Reading, afterB: seq<ControllerSpec.Event>,
                clock: nat, temperature: u16, light: u16, stray: (u8, u16))
      requires Valid() && IsTraffic(afterA) && IsTraffic(afterB)
      modifies Repr
      ensures Valid() && startA == old(startA) && startB == old(startB)
      ensures var p := PassOf(old(chA.Now()), old(chB.Now()), old(events), a, afterA, b, afterB);
              && events == old(events) + afterA + afterB +
                           [ControllerSpec.Consumed(ControllerDevice.ReportOn(p.Named(), temperature, light, stray))]
              && cmdsA == old(cmdsA) + [TesterRuns.DoUpdate(p.xA)] + p.Resetting(false, clock)
              && cmdsB == old(cmdsB) + [TesterRuns.DoUpdate(p.xB)] + p.Resetting(true, clock)
              && chA.Now() == p.Final(false, clock) && chB.Now() == p.Final(true, clock)
              && controller.Now() ==
                   ControllerSpec.Consume(ControllerSpec.Run(DEFAULTS, old(events) + afterA + afterB),
                                          ControllerDevice.ReportOn(p.Named(), temperature, light, stray))
    {
      hide TesterSpec.Step, TesterSpec.Reset, TesterSpec.Inv, ControllerSpec.Run, ControllerDevice.ReportOn, Valid;
      hide TesterRuns.Paced, TesterRuns.Run, TesterTimes.KeepsTimes;
      OnRuns();
      UpdateA(a);
      Serve(afterA);
      OnRuns();
      UpdateB(b);
      Serve(afterB);
      OnRuns();
      Consume(clock, temperature, light, stray);
    }

    /** One pass of a configured board adds only configured updates. */
    method PassWith(p: PassInput, ghost settle: u16, ghost delay: u16, ghost sample: u16, ghost threshold: u16)
      requires Valid() && p.KeepsParams() && Holds(settle, delay, sample, threshold)
      modifies Repr
      ensures Valid() && startA == old(startA) && startB == old(startB) && Holds(settle, delay, sample, threshold)
      ensures Extends(cmdsA, old(cmdsA), settle, delay, sample, threshold)
      ensures Extends(cmdsB, old(cmdsB), settle, delay, sample, threshold)
    {
      HoldsParams(settle, delay, sample, threshold);
      OnRuns();
      ghost var es := events;
      ghost var pass := PassOf(chA.Now(), chB.Now(), es, p.a, p.afterA, p.b, p.afterB);
      ControllerSpec.ParamsStay(DEFAULTS, es, p.afterA);
      ControllerSpec.ParamsStay(DEFAULTS, es + p.afterA, p.afterB);
      hide Valid, ControllerSpec.Run, ControllerDevice.ReportOn, Extends, PassOf, Pass.Final, Holds;
      PassIsConfigured(pass, es, chA.Now(), chB.Now(), p, cmdsA, cmdsB, settle, delay, sample, threshold);
      Loop(p.a, p.afterA, p.b, p.afterB, p.clock, p.temperature, p.light, p.stray);
      OnRuns();
      ConsumeKeepsParams(ControllerSpec.Run(DEFAULTS, es + p.afterA + p.afterB),
                         ControllerDevice.ReportOn(pass.Named(), p.temperature, p.light, p.stray));
      HoldsParams(settle, delay, sample, threshold);
    }

    /** Are these the parameters of the controller? */
    ghost predicate Holds(settle: u16, delay: u16, sample: u16, threshold: u16)
      requires Valid()
      reads Repr
    {
      controller.Now().params == ControllerSpec.Params(settle, delay, sample, threshold)
    }

    lemma HoldsParams(settle: u16, delay: u16, sample: u16, threshold: u16)
      requires Valid()
      ensures Holds(settle, delay, sample, threshold) <==>
              ControllerSpec.Run(DEFAULTS, events).params == ControllerSpec.Params(settle, delay, sample, threshold)
    {
      OnRuns();
    }

    method Passes(ps: seq<PassInput>, ghost settle: u16, ghost delay: u16, ghost sample: u16, ghost threshold: u16)
      requires Valid() && Holds(settle, delay, sample, threshold) && forall p :: p in ps ==> p.KeepsParams()
      modifies Repr
      ensures Valid() && startA == old(startA) && startB == old(startB) && Holds(settle, delay, sample, threshold)
      ensures Extends(cmdsA, old(cmdsA), settle, delay, sample, threshold)
      ensures Extends(cmdsB, old(cmdsB), settle, delay, sample, threshold)
    {
      hide Valid, Holds;
      for i := 0 to |ps|
        invariant Valid() && startA == old(startA) && startB == old(startB) && Holds(settle, delay, sample, threshold)
        invariant Extends(cmdsA, old(cmdsA), settle, delay, sample, threshold)
        invariant Extends(cmdsB, old(cmdsB), settle, delay, sample, threshold)
      {
        assert ps[i] in ps;
        PassWith(ps[i], settle, delay, sample, threshold);
      }
    }

    /** Any number of passes of the main loop, and any bus traffic that writes no new
        parameters: from here on both channels keep the times of the four numbers that
        the parameters hold, and every conversion comes at least `settle` after the last
        write to its DAC. */
    method Operate(ps: seq<PassInput>, ghost settle: u16, ghost delay: u16, ghost sample: u16, ghost threshold: u16)
      requires Valid() && Holds(settle, delay, sample, threshold) && forall p :: p in ps ==> p.KeepsParams()
      modifies Repr
      ensures Valid() && startA == old(startA) && startB == old(startB) && Holds(settle, delay, sample, threshold)
      ensures Operates(startA, old(cmdsA), cmdsA, settle, delay, sample, threshold)
      ensures Operates(startB, old(cmdsB), cmdsB, settle, delay, sample, threshold)
    {
      ghost var a, b := cmdsA, cmdsB;
      Passes(ps, settle, delay, sample, threshold);
      hide Holds, ControllerRuns, TesterRuns.Run, Operates, Extends;
      ExtendedOperates(startA, a, cmdsA, settle, delay, sample, threshold);
      ExtendedOperates(startB, b, cmdsB, settle, delay, sample, threshold);
    }

    /** So every reset that was accepted has reset its own channel once, but for one
        that may still wait for the main loop. */
    lemma EveryResetOnce()
      requires Valid()
      ensures ControllerSpec.Accepted(DEFAULTS, events, false) + 1 ==
              Resets(cmdsA) + ControllerSpec.Pending(controller.Now(), false)
      ensures ControllerSpec.Accepted(DEFAULTS, events, true) + 1 ==
              Resets(cmdsB) + ControllerSpec.Pending(controller.Now(), true)
    {
      ControllerSpec.ResetsAreExact(DEFAULTS, events, false);
      ControllerSpec.ResetsAreExact(DEFAULTS, events, true);
    }
  }
}
