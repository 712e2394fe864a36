/** A master that talks to the firmware over the bus. The callbacks of twi.c join the two
    ends: a message that the slave's interrupt handler hands over goes to the handler of
    the controller, and what that answers to a request is queued for the next read. */
module Remote {
  import opened Words
  import opened ControllerSpec
  import ControllerDevice
  import Firmware
  import TesterJudge
  import TesterRuns
  import TesterSpec
  import TesterTimes
  import TwiLink
  import TwiSpec
  import TwiTransfers

  /** The calls of twi_transmit for an answer of the controller; an empty buffer is not
      sent at all. */
  function CallsOf(reply: ControllerDevice.Reply): seq<seq<u8>> {
    match reply
    case Status(reg) => [[reg as int]]
    case Bytes(bytes) => if bytes == [] then [] else [bytes]
  }

  /** The answer that a request gets. */
  ghost predicate Answers(s: Ctl, reply: ControllerDevice.Reply) {
    if s.readRequested then reply.Status? && Decode(reply.reg) == s.reg
    else reply == ControllerDevice.Bytes(s.tx)
  }

  /** Has no command been taken that is still to be carried out? */
  predicate Idle(s: Ctl) { s.reg.ready && !AwaitsParams(s.reg) && !s.readRequested }

  function ReadData(channelB: bool): u8 { if channelB then READ_DATA_B else READ_DATA_A }

  /** After the two messages of a data read, one pass of the main loop loads the frame. */
  lemma DataIsLoaded(s: Ctl, channelB: bool, report: Report)
    requires Idle(s)
    ensures var s2 := Receive(Receive(s, [WRITE_CMD_REG]), [ReadData(channelB)]);
            && s2.reg.channelB == channelB && !ConsumesReset(s2.reg)
            && Consume(s2, report).tx == DataFrame(report) && Idle(Consume(s2, report))
  {
    assert DecodeByte(WRITE_CMD_REG) == Reg(false, true, false, OK, CMD_REG);
    assert DecodeByte(READ_DATA_A) == Reg(false, false, false, OK, DATA_REG);
    assert DecodeByte(READ_DATA_B) == Reg(true, false, false, OK, DATA_REG);
    hide DecodeByte, DataFrame;
  }

  /** A master asks for the command register with a zero byte, and for new parameters
      with a write of their register. */
  const READ_CMD_REG: u8 := 0x00
  const WRITE_PARAMS: u8 := 0x41

  lemma StatusIsRequested(s: Ctl)
    requires !AwaitsParams(s.reg)
    ensures Receive(s, [READ_CMD_REG]) == s.(readRequested := true)
    ensures Request(s.(readRequested := true)) == s.(readRequested := false)
  {
    assert DecodeByte(READ_CMD_REG) == Reg(false, false, false, OK, CMD_REG);
  }

  /** The one byte that answers for the register. */
  lemma StatusIsRead(reg: bv8)
    ensures TwiTransfers.ReadBytes(TwiSpec.Answer([[reg as int]]), 1) == [reg as int]
    ensures DecodeByte(reg as int) == Decode(reg)
  {
    FrameIsRead([reg as int]);
  }

  /** The parameters as the master sends them: settling time, tracking delay, sampling time
      and threshold current, each low byte first. */
  function ConfigFrame(settle: u16, delay: u16, sample: u16, threshold: u16): (f: seq<u8>)
    ensures |f| == 8
  {
    [settle % 0x100, settle / 0x100, delay % 0x100, delay / 0x100,
     sample % 0x100, sample / 0x100, threshold % 0x100, threshold / 0x100]
  }

  lemma ParamsAreWritten(s: Ctl, settle: u16, delay: u16, sample: u16, threshold: u16)
    requires Idle(s)
    ensures var s2 := Receive(Receive(s, [WRITE_CMD_REG]), [WRITE_PARAMS]);
            Receive(s2, ConfigFrame(settle, delay, sample, threshold)).params ==
              Params(settle, delay, sample, threshold)
  {
    assert DecodeByte(WRITE_CMD_REG) == Reg(false, true, false, OK, CMD_REG);
    assert DecodeByte(WRITE_PARAMS) == Reg(false, true, false, OK, PARAMS_REG);
    hide DecodeByte;
  }

  const READ_PARAMS: u8 := 0x01

  function ResetCode(channelB: bool): u8 { if channelB then 0x83 else 0x03 }

  /** After the two messages of a parameters read, one pass loads the parameters in force. */
  lemma ParamsAreLoaded(s: Ctl, report: Report, settle: u16, delay: u16, sample: u16, threshold: u16)
    requires Idle(s) && s.params == Params(settle, delay, sample, threshold)
    ensures var s2 := Receive(Receive(s, [WRITE_CMD_REG]), [READ_PARAMS]);
            && s2.params == s.params
            && Consume(s2, report).tx == ConfigFrame(settle, delay, sample, threshold) && Idle(Consume(s2, report))
  {
    assert DecodeByte(WRITE_CMD_REG) == Reg(false, true, false, OK, CMD_REG);
    assert DecodeByte(READ_PARAMS) == Reg(false, false, false, OK, PARAMS_REG);
    hide DecodeByte;
  }

  /** After those of a reset, one pass resets the channel that it names. */
  lemma ResetIsTaken(s: Ctl, channelB: bool, report: Report)
    requires Idle(s)
    ensures var s2 := Receive(Receive(s, [WRITE_CMD_REG]), [ResetCode(channelB)]);
            && Firmware.ResetsChannel(s2.reg, channelB) && !Firmware.ResetsChannel(s2.reg, !channelB)
            && Idle(Consume(s2, report))
  {
    assert DecodeByte(WRITE_CMD_REG) == Reg(false, true, false, OK, CMD_REG);
    assert DecodeByte(0x03) == Reg(false, false, false, OK, RESET);
    assert DecodeByte(0x83) == Reg(true, false, false, OK, RESET);
    hide DecodeByte;
  }

  // ---- what the bytes of a data frame tell ----

  /** The errors in the order of LifeTester/LifeTesterTypes.h. */
  const ERRORS := [TesterSpec.Ok, TesterSpec.LowCurrent, TesterSpec.CurrentLimit, TesterSpec.CurrentThreshold,
                   TesterSpec.InvalidScan, TesterSpec.DacSetFailed]

  /** Temperature, light, the error by its number, and while the channel measures the code
      that its DAC holds. */
  ghost predicate TellsState(data: seq<u8>, s: TesterSpec.Snap, temperature: u16, light: u16) {
    && |data| == DATA_SEND_SIZE
    && data[7] + 0x100 * data[8] as int == temperature && data[9] + 0x100 * data[10] as int == light
    && data[11] < |ERRORS| && ERRORS[data[11]] == s.error
    && (s.state.Measuring() ==> data[4] == s.dac)
  }

  /** When the timer was last set, the mean of the last measurement of the point shown that
      has ended, and while tracking the code of that point: the working voltage or the one
      above it. Once a cycle has ended, the code is already the new one. */
  ghost predicate TellsRun(data: seq<u8>, start: TesterSpec.Snap, cmds: seq<TesterRuns.Command>)
    requires TesterRuns.Started(cmds)
  {
    var s := TesterRuns.Run(start, cmds);
    var point := TesterJudge.Shown(start, cmds);
    && |data| == DATA_SEND_SIZE
    && data[0] as int + 0x100 * data[1] as int + 0x1_0000 * data[2] as int + 0x100_0000 * data[3] as int ==
         Wrap32(s.since)
    && (point != TesterSpec.NoPoint ==>
          data[5] + 0x100 * data[6] as int == TesterJudge.LastMean(start, cmds, point))
    && (s.state.Tracking() ==>
          point in {TesterSpec.This, TesterSpec.Next} &&
          data[4] == if point == TesterSpec.This then s.data.vThis else Wrap8(s.data.vThis + 1))
  }

  /** A measurement that has just ended: the mean of its conversions, and the code they
      were made at; but at the end of one of a scan, the next code. */
  ghost predicate TellsEnd(data: seq<u8>, p: TesterSpec.Snap, s: TesterSpec.Snap) {
    && |data| == DATA_SEND_SIZE
    && (TesterJudge.Ends(p, s) ==>
          && data[5] + 0x100 * data[6] as int == TesterJudge.Mean(p.bus)
          && data[4] == if p.state.MeasureScan? then p.dac + 1 else p.dac)
  }

  lemma StateIsTold(data: seq<u8>, s: TesterSpec.Snap, temperature: u16, light: u16, stray: (u8, u16))
    requires |data| == DATA_SEND_SIZE && TesterSpec.Inv(s)
    requires ReportOf(data) == ControllerDevice.ReportOn(s, temperature, light, stray)
    ensures TellsState(data, s, temperature, light)
  {}

  lemma RunIsTold(data: seq<u8>, start: TesterSpec.Snap, cmds: seq<TesterRuns.Command>,
                  temperature: u16, light: u16, stray: (u8, u16))
    requires TesterRuns.Started(cmds) && TesterRuns.Paced(start, cmds) && |data| == DATA_SEND_SIZE
    requires ReportOf(data) == ControllerDevice.ReportOn(TesterRuns.Run(start, cmds), temperature, light, stray)
    ensures TellsRun(data, start, cmds)
  {
    hide TesterRuns.Run, TesterRuns.Paced, TesterTimes.TimesInv, TesterJudge.LastMean, TesterJudge.Shown;
    hide ControllerDevice.ReportOn, Wrap8, TesterSpec.Inv;
    var s := TesterRuns.Run(start, cmds);
    TesterTimes.RunTimes(start, cmds);
    TesterTimes.TimerIsSet(s, cmds[|cmds| - 1].Clock());
    TimerIsShown(data, s, temperature, light, stray);
    TesterJudge.ActiveIsShown(start, cmds);
    if s.state.Tracking() {
      TesterJudge.ShownCode(s);
    }
    if s.data.active != TesterSpec.NoPoint {
      TesterJudge.KeptIsLastMean(start, cmds, s.data.active);
      PointIsShown(data, s, temperature, light, stray);
    }
  }

  lemma TimerIsShown(data: seq<u8>, s: TesterSpec.Snap, temperature: u16, light: u16, stray: (u8, u16))
    requires |data| == DATA_SEND_SIZE
    requires ReportOf(data) == ControllerDevice.ReportOn(s, temperature, light, stray)
    ensures data[0] as int + 0x100 * data[1] as int + 0x1_0000 * data[2] as int + 0x100_0000 * data[3] as int == s.timer
  {}

  lemma EndIsTold(data: seq<u8>, start: TesterSpec.Snap, cmds: seq<TesterRuns.Command>,
                  temperature: u16, light: u16, stray: (u8, u16))
    requires TesterRuns.Started(cmds) && TesterRuns.Paced(start, cmds) && |data| == DATA_SEND_SIZE
    requires |cmds| > 1 && cmds[|cmds| - 1].DoUpdate?
    requires ReportOf(data) == ControllerDevice.ReportOn(TesterRuns.Run(start, cmds), temperature, light, stray)
    ensures TellsEnd(data, TesterRuns.Before(start, cmds), TesterRuns.Run(start, cmds))
  {
    var last := |cmds| - 1;
    var p, s := TesterRuns.Before(start, cmds), TesterRuns.Run(start, cmds);
    TesterTimes.RunTimes(start, cmds[..last]);
    TesterJudge.InvParts(p, cmds[last - 1].Clock());
    TesterTimes.PacedUpdate(start, cmds);
    hide TesterRuns.Run, TesterRuns.Paced, TesterTimes.TimesInv;
    hide TesterSpec.Step, TesterSpec.LeaveMeasure, TesterJudge.Mean;
    hide TesterSpec.EndMeasure, TesterRuns.BusInv, TesterRuns.WindowInv, TesterSpec.Inv, ControllerDevice.ReportOn;
    if TesterJudge.Ends(p, s) {
      TesterJudge.EndStores(p, cmds[last].x, cmds[last - 1].Clock());
      EndShows(p, TesterJudge.Mean(p.bus));
      PointIsShown(data, s, temperature, light, stray);
    }
  }

  lemma PointIsShown(data: seq<u8>, s: TesterSpec.Snap, temperature: u16, light: u16, stray: (u8, u16))
    requires |data| == DATA_SEND_SIZE && s.data.active != TesterSpec.NoPoint
    requires ReportOf(data) == ControllerDevice.ReportOn(s, temperature, light, stray)
    ensures data[4] == s.data.VActive() && data[5] + 0x100 * data[6] as int == s.data.IActive()
  {}

  lemma EndShows(p: TesterSpec.Snap, i: u16)
    requires TesterSpec.Inv(p) && p.state.Measuring()
    ensures var s := TesterSpec.LeaveMeasure(p.(data := p.data.Store(i)));
            && s.data.active != TesterSpec.NoPoint && s.data.IActive() == i
            && s.data.VActive() == if p.state.MeasureScan? then p.dac + 1 else p.dac
  {
    hide TesterSpec.Power, TesterSpec.GoodCurrent, Wrap16;
    if p.state.MeasureScan? {
      WrapOne(p.dac);
    }
    hide Wrap8;
  }

  lemma WrapOne(code: u8)
    requires code <= 100
    ensures Wrap8(code as int + 1) == code as int + 1
  {}

  /** The last byte of a data frame is the sum of the others and one empty byte. */
  function FourBytes(f: seq<u8>, at: nat): nat
    requires at + 4 <= |f|
  {
    f[at] as int + f[at + 1] as int + f[at + 2] as int + f[at + 3] as int
  }

  ghost predicate TellsCheck(f: seq<u8>) {
    && |f| == DATA_SEND_SIZE
    && f[12] == Wrap8(FourBytes(f, 0) + FourBytes(f, 4) + FourBytes(f, 8) + 0xFF)
  }

  lemma CheckIsTold(report: Report)
    ensures TellsCheck(DataFrame(report))
  {
    DataFrameRoundTrip(report);
    SumOfTwelve(DataFrame(report));
    hide DataFrame, SumOf, FourBytes, Wrap8;
  }

  lemma SumOfTwelve(f: seq<u8>)
    requires |f| >= 12
    ensures SumOf(f[..12]) == FourBytes(f, 0) + FourBytes(f, 4) + FourBytes(f, 8)
  {
    FourMore(f, 8);
    FourMore(f, 4);
    FourMore(f, 0);
    assert f[..0] == [];
    hide FourBytes;
  }

  lemma FourMore(f: seq<u8>, at: nat)
    requires at + 4 <= |f|
    ensures SumOf(f[..at + 4]) == SumOf(f[..at]) + FourBytes(f, at)
  {
    OneMore(f, at);
    OneMore(f, at + 1);
    OneMore(f, at + 2);
    OneMore(f, at + 3);
    hide SumOf;
  }

  lemma OneMore(f: seq<u8>, at: nat)
    requires at < |f|
    ensures SumOf(f[..at + 1]) == SumOf(f[..at]) + f[at]
  {
    assert f[..at + 1][..at] == f[..at];
  }

  /** A whole frame is read back when as many bytes are asked for. */
  lemma FrameIsRead(frame: seq<u8>)
    requires 1 <= |frame| <= TwiSpec.TWI_BUFFER_LENGTH
    ensures TwiTransfers.ReadBytes(TwiSpec.Answer([frame]), |frame|) == frame
  {
    assert [frame][..0] == [];
    assert TwiTransfers.Concat([frame]) == frame;
    TwiTransfers.ReadsWhatIsQueued([frame], |frame|);
  }

  /** As after StateMachine_Reset. */
  ghost predicate StartsAnew(s: TesterSpec.Snap, clock: nat) {
    && s.state == TesterSpec.Initialise && s.error == TesterSpec.Ok && s.dac == 0
    && s.since == clock && s.data.nErrorReads == 0
  }

  lemma AnewAfterReset(s: TesterSpec.Snap, clock: nat)
    ensures StartsAnew(TesterSpec.Reset(s, clock), clock)
  {}

  class Session {
    const link: TwiLink.Link
    const board: Firmware.Board

    ghost predicate Valid()
      reads link.Repr, board.Repr
    {
      && link.Valid() && TwiTransfers.Idle(link.Now()) && link.s.address < 0x80
      && board.Valid() && link.Repr !! board.Repr
    }

    constructor (link: TwiLink.Link, board: Firmware.Board)
      requires link.Valid() && TwiTransfers.Idle(link.Now()) && link.s.address < 0x80
      requires board.Valid() && link.Repr !! board.Repr
      ensures Valid() && this.link == link && this.board == board
    {
      this.link, this.board := link, board;
    }

    /** A message of the master reaches the handler of the controller, once and whole. */
    method Write(data: seq<u8>) returns (r: u8)
      requires Valid() && |data| <= TwiSpec.TWI_BUFFER_LENGTH
      modifies link.Repr, board.Repr
      ensures Valid() && r == 0 && board.KeepsA() && board.KeepsB()
      ensures board.events == old(board.events) + [Received(data)]
      ensures board.controller.Now() == Receive(old(board.controller.Now()), data)
    {
      assert board.chA.dacOutput == board.chB.dacOutput;
      hide board.Valid, TwiTransfers.Idle;
      r := link.WriteTo(link.s.address, data, true);
      board.OnReceive(link.s.received[|link.s.received| - 1]);
    }

    /** A read gets the answer of the controller, and behind its end a high line. */
    method Read(length: u8) returns (data: seq<u8>)
      requires Valid() && 1 <= length <= TwiSpec.TWI_BUFFER_LENGTH
      modifies link.Repr, board.Repr
      ensures Valid() && board.KeepsA() && board.KeepsB()
      ensures board.events == old(board.events) + [Requested]
      ensures board.controller.Now() == Request(old(board.controller.Now()))
      ensures exists reply :: Answers(old(board.controller.Now()), reply) &&
                data == TwiTransfers.ReadBytes(TwiSpec.Answer(CallsOf(reply)), length)
    {
      hide TwiTransfers.Read, TwiTransfers.Written, Request, Decode;
      var reply := Answer();
      hide board.Valid, TwiTransfers.Idle;
      data := link.ReadFrom(link.s.address, length, true);
      assert Answers(old(board.controller.Now()), reply);
    }

    /** The transmit callback: the controller's answer is queued. */
    method Answer() returns (reply: ControllerDevice.Reply)
      requires Valid()
      modifies link.s`queue, board.Repr
      ensures Valid() && board.KeepsA() && board.KeepsB()
      ensures board.events == old(board.events) + [Requested]
      ensures board.controller.Now() == Request(old(board.controller.Now()))
      ensures Answers(old(board.controller.Now()), reply) && link.s.queue == CallsOf(reply)
    {
      hide board.Valid, Request, Decode;
      reply := board.OnRequest();
      link.s.queue := CallsOf(reply);
    }

    /** Asks for the command register and reads it. Nothing else changes, and a request
        that was waiting is used up. */
    method ReadStatus() returns (status: u8)
      requires Valid() && !AwaitsParams(board.controller.Now().reg)
      modifies link.Repr, board.Repr
      ensures Valid() && board.KeepsA() && board.KeepsB()
      ensures board.controller.Now() == old(board.controller.Now()).(readRequested := false)
      ensures DecodeByte(status) == old(board.controller.Now().reg)
    {
      ghost var s := board.controller.Now();
      StatusIsRequested(s);
      var _ := Write([READ_CMD_REG]);
      hide board.Valid, TwiTransfers.Idle, Receive, Request, Decode, DecodeByte;
      var data := Read(1);
      ghost var reply :| Answers(s.(readRequested := true), reply) &&
                         data == TwiTransfers.ReadBytes(TwiSpec.Answer(CallsOf(reply)), 1);
      StatusIsRead(reply.reg);
      status := data[0];
    }

    /** The next read without a request gets the transmit buffer again. */
    method Poll(length: u8) returns (status: u8, data: seq<u8>)
      requires Valid() && !AwaitsParams(board.controller.Now().reg)
      requires 1 <= length <= TwiSpec.TWI_BUFFER_LENGTH
      modifies link.Repr, board.Repr
      ensures Valid() && board.KeepsA() && board.KeepsB()
      ensures DecodeByte(status) == old(board.controller.Now().reg)
      ensures var tx := old(board.controller.Now().tx);
              data == TwiTransfers.ReadBytes(TwiSpec.Answer(if tx == [] then [] else [tx]), length)
      ensures board.controller.Now().tx == old(board.controller.Now().tx)
    {
      status := ReadStatus();
      hide board.Valid, TwiTransfers.Idle, Decode, DecodeByte;
      data := Read(length);
    }

    /** The master writes new parameters. */
    method Configure(settle: u16, delay: u16, sample: u16, threshold: u16)
      requires Valid() && Idle(board.controller.Now())
      modifies link.Repr, board.Repr
      ensures Valid() && board.KeepsA() && board.KeepsB() && board.Holds(settle, delay, sample, threshold)
      ensures board.startA == old(board.startA) && board.startB == old(board.startB)
    {
      hide ConfigFrame;
      ParamsAreWritten(board.controller.Now(), settle, delay, sample, threshold);
      hide board.Valid, TwiTransfers.Idle, Receive;
      Announce(WRITE_PARAMS);
      SendFrame(ConfigFrame(settle, delay, sample, threshold), settle, delay, sample, threshold);
    }

    method Announce(code: u8)
      requires Valid()
      modifies link.Repr, board.Repr
      ensures Valid() && board.KeepsA() && board.KeepsB()
      ensures board.controller.Now() == Receive(Receive(old(board.controller.Now()), [WRITE_CMD_REG]), [code])
    {
      hide board.Valid, TwiTransfers.Idle, Receive;
      var _ := Write([WRITE_CMD_REG]);
      var _ := Write([code]);
    }

    method SendFrame(frame: seq<u8>, ghost settle: u16, ghost delay: u16, ghost sample: u16, ghost threshold: u16)
      requires Valid() && |frame| == 8
      requires Receive(board.controller.Now(), frame).params == Params(settle, delay, sample, threshold)
      modifies link.Repr, board.Repr
      ensures Valid() && board.KeepsA() && board.KeepsB() && board.Holds(settle, delay, sample, threshold)
    {
      var _ := Write(frame);
    }

    /** From then on, until the next message of eight bytes, both channels work with the
        four numbers. */
    method ConfigureAndOperate(settle: u16, delay: u16, sample: u16, threshold: u16, ps: seq<Firmware.PassInput>)
      requires Valid() && Idle(board.controller.Now()) && forall p :: p in ps ==> p.KeepsParams()
      modifies link.Repr, board.Repr
      ensures Valid()
      ensures Firmware.Operates(board.startA, old(board.cmdsA), board.cmdsA, settle, delay, sample, threshold)
      ensures Firmware.Operates(board.startB, old(board.cmdsB), board.cmdsB, settle, delay, sample, threshold)
    {
      hide board.Valid, TwiTransfers.Idle, Firmware.Operates;
      Configure(settle, delay, sample, threshold);
      board.Operate(ps, settle, delay, sample, threshold);
    }

    /** A data read in full: two messages, one pass of the main loop, and a read of the
        frame. From any idle controller the master gets the report that the channel it
        named makes of itself after the pass; what its bytes tell is said by the clauses
        that follow. */
    method ReadChannel(channelB: bool, a: Firmware.Reading, b: Firmware.Reading,
                       clock: nat, temperature: u16, light: u16, stray: (u8, u16)) returns (data: seq<u8>)
      requires Valid() && Idle(board.controller.Now())
      modifies link.Repr, board.Repr
      ensures Valid() && Idle(board.controller.Now()) && |data| == DATA_SEND_SIZE
      ensures ReportOf(data) == ControllerDevice.ReportOn(Named(channelB), temperature, light, stray)
      ensures TellsState(data, Named(channelB), temperature, light)
      ensures TellsCheck(data)
      ensures Paced(channelB) ==>
                TellsRun(data, Start(channelB), Commands(channelB)) &&
                TellsEnd(data, old(Named(channelB)), Named(channelB))
    {
      ghost var s := board.controller.Now();
      ghost var start, cmds, p := Start(channelB), Commands(channelB), Named(channelB);
      hide TellsCheck, TellsState, TellsRun, TellsEnd;
      OnItsRun(channelB);
      Announce(ReadData(channelB));
      ghost var x := Pass(s, channelB, a, b, clock, temperature, light, stray);
      ghost var report := ControllerDevice.ReportOn(Named(channelB), temperature, light, stray);
      hide board.Valid, TwiTransfers.Idle, Receive, DataFrame, ControllerDevice.ReportOn;
      data := Read(DATA_SEND_SIZE);
      FrameIsRead(DataFrame(report));
      DataFrameRoundTrip(report);
      CheckIsTold(report);
      OnItsRun(channelB);
      Told(data, channelB, start, cmds, x, temperature, light, stray);
    }

    /** A read of the parameters: the frame that would write those in force. */
    method ReadParams(a: Firmware.Reading, b: Firmware.Reading, clock: nat,
                      temperature: u16, light: u16, stray: (u8, u16),
                      ghost settle: u16, ghost delay: u16, ghost sample: u16, ghost threshold: u16)
      returns (data: seq<u8>)
      requires Valid() && Idle(board.controller.Now()) && board.Holds(settle, delay, sample, threshold)
      modifies link.Repr, board.Repr
      ensures Valid() && data == ConfigFrame(settle, delay, sample, threshold)
    {
      ghost var s := board.controller.Now();
      Announce(READ_PARAMS);
      PassAny(a, b, clock, temperature, light, stray);
      hide board.Valid, TwiTransfers.Idle, Receive, ConfigFrame;
      ghost var report :| board.controller.Now() ==
                            Consume(Receive(Receive(s, [WRITE_CMD_REG]), [READ_PARAMS]), report);
      ParamsAreLoaded(s, report, settle, delay, sample, threshold);
      hide Consume;
      data := Read(8);
      FrameIsRead(ConfigFrame(settle, delay, sample, threshold));
    }

    method PassAny(a: Firmware.Reading, b: Firmware.Reading, clock: nat, temperature: u16, light: u16, stray: (u8, u16))
      requires Valid()
      modifies board.Repr
      ensures Valid()
      ensures exists report :: board.controller.Now() == Consume(old(board.controller.Now()), report)
    {
      hide Receive, Consume, Run, DataFrame, ControllerDevice.ReportOn, board.Valid, TwiTransfers.Idle;
      hide TesterSpec.Step, TesterSpec.Reset, TesterSpec.Inv;
      board.OnRuns();
      assert board.events + [] + [] == board.events;
      board.Loop(a, [], b, [], clock, temperature, light, stray);
    }

    /** A reset over the bus: in the next pass the channel it names is updated once more
        and then starts anew, and the other is only updated. */
    method ResetChannel(channelB: bool, a: Firmware.Reading, b: Firmware.Reading,
                        clock: nat, temperature: u16, light: u16, stray: (u8, u16))
      requires Valid() && Idle(board.controller.Now())
      modifies link.Repr, board.Repr
      ensures Valid() && Idle(board.controller.Now())
      ensures exists x :: Commands(channelB) == old(Commands(channelB)) + [TesterRuns.DoUpdate(x)] +
                                                [TesterRuns.DoReset(clock)]
      ensures exists x :: Commands(!channelB) == old(Commands(!channelB)) + [TesterRuns.DoUpdate(x)]
      ensures StartsAnew(Named(channelB), clock)
    {
      ghost var s := board.controller.Now();
      Announce(ResetCode(channelB));
      PassReset(s, channelB, a, b, clock, temperature, light, stray);
    }

    method PassReset(ghost s: Ctl, channelB: bool, a: Firmware.Reading, b: Firmware.Reading,
                     clock: nat, temperature: u16, light: u16, stray: (u8, u16))
      requires Valid() && Idle(s)
      requires board.controller.Now() == Receive(Receive(s, [WRITE_CMD_REG]), [ResetCode(channelB)])
      modifies board.Repr
      ensures Valid() && Idle(board.controller.Now())
      ensures exists x :: Commands(channelB) == old(Commands(channelB)) + [TesterRuns.DoUpdate(x)] +
                                                [TesterRuns.DoReset(clock)]
      ensures exists x :: Commands(!channelB) == old(Commands(!channelB)) + [TesterRuns.DoUpdate(x)]
      ensures StartsAnew(Named(channelB), clock)
    {
      hide Receive, Consume, Run, DataFrame, ControllerDevice.ReportOn, board.Valid, TwiTransfers.Idle, StartsAnew;
      hide TesterSpec.Step, TesterSpec.Reset, TesterSpec.Inv;
      board.OnRuns();
      assert board.events + [] + [] == board.events;
      board.HasShape();
      ghost var p := Firmware.PassOf(board.chA.Now(), board.chB.Now(), board.events, a, [], b, []);
      ResetIsTaken(s, channelB, ControllerDevice.ReportOn(p.Named(), temperature, light, stray));
      board.Loop(a, [], b, [], clock, temperature, light, stray);
      board.HasShape();
      AnewAfterReset(if channelB then p.sB else p.sA, clock);
    }

    lemma Told(data: seq<u8>, channelB: bool, start: TesterSpec.Snap, cmds: seq<TesterRuns.Command>,
               x: TesterSpec.Inputs, temperature: u16, light: u16, stray: (u8, u16))
      requires Valid() && |data| == DATA_SEND_SIZE && TesterRuns.Started(cmds)
      requires start == Start(channelB) && Commands(channelB) == cmds + [TesterRuns.DoUpdate(x)]
      requires Named(channelB) == TesterRuns.Run(Start(channelB), Commands(channelB))
      requires ReportOf(data) == ControllerDevice.ReportOn(Named(channelB), temperature, light, stray)
      ensures TellsState(data, Named(channelB), temperature, light)
      ensures Paced(channelB) ==>
                TellsRun(data, Start(channelB), Commands(channelB)) &&
                TellsEnd(data, TesterRuns.Run(start, cmds), Named(channelB))
    {
      hide board.Valid, TesterRuns.Run, TesterRuns.Paced, TellsState, TellsRun, TellsEnd, ControllerDevice.ReportOn;
      StateIsTold(data, Named(channelB), temperature, light, stray);
      if Paced(channelB) {
        RunIsTold(data, start, Commands(channelB), temperature, light, stray);
        EndIsTold(data, start, Commands(channelB), temperature, light, stray);
        assert Commands(channelB)[..|cmds|] == cmds;
      }
    }

    // The channel that a command names.

    ghost function Named(channelB: bool): TesterSpec.Snap
      requires Valid()
      reads link.Repr, board.Repr
    {
      board.HasShape();
      if channelB then board.chB.Now() else board.chA.Now()
    }

    ghost function Start(channelB: bool): TesterSpec.Snap
      reads board
    {
      if channelB then board.startB else board.startA
    }

    ghost function Commands(channelB: bool): seq<TesterRuns.Command>
      reads board
    {
      if channelB then board.cmdsB else board.cmdsA
    }

    ghost predicate Paced(channelB: bool)
      reads board
    {
      TesterRuns.Started(Commands(channelB)) && TesterRuns.Paced(Start(channelB), Commands(channelB))
    }

    lemma OnItsRun(channelB: bool)
      requires Valid()
      ensures TesterRuns.Started(Commands(channelB))
      ensures Named(channelB) == TesterRuns.Run(Start(channelB), Commands(channelB))
    {
      hide TesterRuns.Run;
    }

    /** The pass that carries out the data read, and what the named channel reads in it. */
    method Pass(ghost s: Ctl, channelB: bool, a: Firmware.Reading, b: Firmware.Reading,
                clock: nat, temperature: u16, light: u16, stray: (u8, u16)) returns (ghost x: TesterSpec.Inputs)
      requires Valid() && Idle(s)
      requires board.controller.Now() == Receive(Receive(s, [WRITE_CMD_REG]), [ReadData(channelB)])
      modifies board.Repr
      ensures Valid() && Idle(board.controller.Now())
      ensures Start(channelB) == old(Start(channelB))
      ensures Commands(channelB) == old(Commands(channelB)) + [TesterRuns.DoUpdate(x)]
      ensures board.controller.Now().tx ==
                DataFrame(ControllerDevice.ReportOn(Named(channelB), temperature, light, stray))
    {
      hide Receive, Consume, Run, DataFrame, ControllerDevice.ReportOn, board.Valid, TwiTransfers.Idle;
      hide TesterSpec.Step, TesterSpec.Reset, TesterSpec.Inv;
      board.OnRuns();
      ghost var es := board.events;
      assert es + [] + [] == es;
      board.Loop(a, [], b, [], clock, temperature, light, stray);
      board.HasShape();
      DataIsLoaded(s, channelB, ControllerDevice.ReportOn(Named(channelB), temperature, light, stray));
      x := Commands(channelB)[|Commands(channelB)| - 1].x;
    }
  }
}
