/** The I2C command protocol of LifeTester/Controller.cpp on the fields of the command
    register, and what holds over whole runs of it. `ControllerDevice` holds the code. */
module ControllerSpec {
  import opened Words
  import opened Bits

  const CMD_REG: bv8 := 0
  const PARAMS_REG: bv8 := 1
  const DATA_REG: bv8 := 2
  const RESET: bv8 := 3

  const OK: bv8 := 0
  const BUSY_ERROR: bv8 := 1
  const UNKNOWN_CMD_ERROR: bv8 := 2
  const BAD_PARAMS_ERROR: bv8 := 3

  const EMPTY_BYTE: u8 := 0xFF
  const PARAMS_REG_SIZE := 8
  const DATA_SEND_SIZE := 13

  /** The command register: channel, read/write, ready, error and command. */
  datatype Reg = Reg(channelB: bool, write: bool, ready: bool, error: bv8, command: bv8)

  function Decode(r: bv8): Reg {
    Reg(BitRead(r, 7), BitRead(r, 6), BitRead(r, 5), BitExtract(r, 3, 3), BitExtract(r, 7, 0))
  }

  function DecodeByte(b: u8): Reg { Decode(b as bv8) }

  /** The fields are the whole register. */
  lemma DecodeIsInjective(r: bv8, q: bv8)
    ensures Decode(r) == Decode(q) <==> r == q
  {
    assert r == (r & 128) | (r & 64) | (r & 32) | (((r >> 3) & 3) << 3) | (r & 7);
    assert q == (q & 128) | (q & 64) | (q & 32) | (((q >> 3) & 3) << 3) | (q & 7);
    assert (r & 128 == 128 <==> BitRead(r, 7)) && (r & 128 == 0 <==> !BitRead(r, 7));
    assert (q & 128 == 128 <==> BitRead(q, 7)) && (q & 128 == 0 <==> !BitRead(q, 7));
    assert (r & 64 == 64 <==> BitRead(r, 6)) && (r & 64 == 0 <==> !BitRead(r, 6));
    assert (q & 64 == 64 <==> BitRead(q, 6)) && (q & 64 == 0 <==> !BitRead(q, 6));
    assert (r & 32 == 32 <==> BitRead(r, 5)) && (r & 32 == 0 <==> !BitRead(r, 5));
    assert (q & 32 == 32 <==> BitRead(q, 5)) && (q & 32 == 0 <==> !BitRead(q, 5));
  }

  /** Where they are in it. */
  lemma DecodeIs(r: bv8)
    ensures var d := Decode(r);
            && r == (if d.channelB then 0x80 else 0) | (if d.write then 0x40 else 0) | (if d.ready then 0x20 else 0)
                    | (d.error << 3) | d.command
            && d.error <= 3 && d.command <= 7
  {
    assert r == (r & 128) | (r & 64) | (r & 32) | (((r >> 3) & 3) << 3) | (r & 7);
    assert (r & 128 == 128 <==> BitRead(r, 7)) && (r & 128 == 0 <==> !BitRead(r, 7));
    assert (r & 64 == 64 <==> BitRead(r, 6)) && (r & 64 == 0 <==> !BitRead(r, 6));
    assert (r & 32 == 32 <==> BitRead(r, 5)) && (r & 32 == 0 <==> !BitRead(r, 5));
  }

  // ---- frames ----

  datatype Params = Params(settle: u16, delay: u16, sample: u16, threshold: u16)

  function Le16(x: u16): (s: seq<u8>)
    ensures |s| == 2
  {
    [x % 0x100, x / 0x100]
  }

  function Le32(x: u32): (s: seq<u8>)
    ensures |s| == 4
  {
    [x % 0x100, x / 0x100 % 0x100, x / 0x1_0000 % 0x100, x / 0x100_0000]
  }

  function Get16(s: seq<u8>, at: nat): u16
    requires at + 2 <= |s|
  {
    Word(s[at], s[at + 1])
  }

  function Word(lsb: u8, msb: u8): u16 { lsb as int + 0x100 * msb as int }

  function Get32(s: seq<u8>, at: nat): u32
    requires at + 4 <= |s|
  {
    s[at] as int + 0x100 * s[at + 1] as int + 0x1_0000 * s[at + 2] as int + 0x100_0000 * s[at + 3] as int
  }

  function ParamsFrame(p: Params): (f: seq<u8>)
    ensures |f| == PARAMS_REG_SIZE
  {
    Le16(p.settle) + Le16(p.delay) + Le16(p.sample) + Le16(p.threshold)
  }

  function ParamsOf(f: seq<u8>): Params
    requires |f| == PARAMS_REG_SIZE
  {
    Params(Get16(f, 0), Get16(f, 2), Get16(f, 4), Get16(f, 6))
  }

  /** What a data frame reports about a channel. */
  datatype Report = Report(timer: u32, v: u8, i: u16, temperature: u16, light: u16, error: u8)

  function Payload(r: Report): (f: seq<u8>)
    ensures |f| == DATA_SEND_SIZE - 1
  {
    Le32(r.timer) + [r.v] + Le16(r.i) + Le16(r.temperature) + Le16(r.light) + [r.error]
  }

  function SumOf(s: seq<u8>): nat {
    if s == [] then 0 else SumOf(s[..|s| - 1]) + s[|s| - 1]
  }

  /** The checksum loop runs one byte past the payload, over an empty byte. */
  function DataFrame(r: Report): (f: seq<u8>)
    ensures |f| == DATA_SEND_SIZE
  {
    Payload(r) + [Wrap8(SumOf(Payload(r)) + EMPTY_BYTE)]
  }

  function ReportOf(f: seq<u8>): Report
    requires |f| == DATA_SEND_SIZE
  {
    Report(Get32(f, 0), f[4], Get16(f, 5), Get16(f, 7), Get16(f, 9), f[11])
  }

  lemma Word16(x: u16, s: seq<u8>, at: nat)
    requires at + 2 <= |s| && s[at] == x % 0x100 && s[at + 1] == x / 0x100
    ensures Get16(s, at) == x
  {}

  lemma Word32(x: u32, s: seq<u8>, at: nat)
    requires at + 4 <= |s| && s[at] == x % 0x100 && s[at + 1] == x / 0x100 % 0x100
    requires s[at + 2] == x / 0x1_0000 % 0x100 && s[at + 3] == x / 0x100_0000
    ensures Get32(s, at) == x
  {
    assert x / 0x100 / 0x100 == x / 0x1_0000 && x / 0x1_0000 / 0x100 == x / 0x100_0000;
  }

  /** Every data frame gives back its report, and its last byte checks the others. */
  lemma DataFrameRoundTrip(r: Report)
    ensures ReportOf(DataFrame(r)) == r
    ensures var f := DataFrame(r); f[12] == Wrap8(SumOf(f[..12]) + 0xFF)
  {
    var f := DataFrame(r);
    assert f[..12] == Payload(r);
    Word32(r.timer, f, 0);
    Word16(r.i, f, 5);
    Word16(r.temperature, f, 7);
    Word16(r.light, f, 9);
  }

  lemma ParamsFrameRoundTrip(p: Params)
    ensures ParamsOf(ParamsFrame(p)) == p
  {
    var f := ParamsFrame(p);
    Word16(p.settle, f, 0);
    Word16(p.delay, f, 2);
    Word16(p.sample, f, 4);
    Word16(p.threshold, f, 6);
  }

  // ---- the protocol ----

  datatype Ctl = Ctl(reg: Reg, readRequested: bool, tx: seq<u8>, params: Params)

  const INITIAL := Reg(false, false, true, OK, CMD_REG)

  /** LoadNewCmdToReg: everything but the ready bit, and no error. */
  function Load(reg: Reg, cmd: Reg): Reg {
    Reg(cmd.channelB, cmd.write, reg.ready, OK, cmd.command)
  }

  /** UpdateStatusBits. */
  function UpdateStatus(reg: Reg, cmd: Reg): Reg {
    if cmd.write then
      if cmd.command in {RESET, PARAMS_REG, CMD_REG} then reg.(ready := false)
      else reg.(error := UNKNOWN_CMD_ERROR)
    else
      if cmd.command in {RESET, PARAMS_REG, DATA_REG} then reg.(ready := false)
      else if cmd.command == CMD_REG then reg
      else reg.(error := UNKNOWN_CMD_ERROR)
  }

  predicate AwaitsParams(reg: Reg) { reg.command == PARAMS_REG && reg.write }

  function FirstByte(rx: seq<u8>): u8 { if rx == [] then EMPTY_BYTE else rx[0] }

  /** Controller_ReceiveHandler. */
  function Receive(s: Ctl, rx: seq<u8>): Ctl {
    if AwaitsParams(s.reg) then
      if |rx| == PARAMS_REG_SIZE then s.(params := ParamsOf(rx), reg := s.reg.(write := false))
      else s.(reg := s.reg.(error := BAD_PARAMS_ERROR))
    else
      var cmd := DecodeByte(FirstByte(rx));
      if cmd.command == CMD_REG then
        if !cmd.write then s.(readRequested := true)
        else if s.reg.ready then s.(reg := Load(s.reg, cmd))
        else s.(reg := s.reg.(error := BUSY_ERROR))
      else if s.reg.command == CMD_REG then s.(reg := UpdateStatus(Load(s.reg, cmd), cmd))
      else s
  }

  /** Controller_RequestHandler; what it sends is `Reply`. */
  function Request(s: Ctl): Ctl {
    if s.readRequested then s.(readRequested := false)
    else if s.tx != [] then s
    else s.(reg := s.reg.(error := BUSY_ERROR))
  }

  /** Does Controller_ConsumeCommand reset the channel that the register names? */
  predicate ConsumesReset(reg: Reg) { reg.command == RESET && !reg.ready }

  /** Controller_ConsumeCommand; `report` is what the named channel would report. */
  function Consume(s: Ctl, report: Report): Ctl {
    if s.reg.command == RESET then s.(reg := s.reg.(ready := true))
    else if s.reg.command == PARAMS_REG then
      s.(reg := s.reg.(ready := true), tx := if s.reg.write then s.tx else ParamsFrame(s.params))
    else if s.reg.command == DATA_REG && !s.reg.write && !s.reg.ready then
      s.(reg := s.reg.(ready := true), tx := DataFrame(report))
    else s
  }

  datatype Event = Received(rx: seq<u8>) | Requested | Consumed(report: Report)

  function Next(s: Ctl, e: Event): Ctl {
    match e
    case Received(rx) => Receive(s, rx)
    case Requested => Request(s)
    case Consumed(report) => Consume(s, report)
  }

  function Run(params: Params, es: seq<Event>): Ctl {
    if es == [] then Ctl(INITIAL, false, [], params)
    else Next(Run(params, es[..|es| - 1]), es[|es| - 1])
  }

  /** A busy register always holds a command that the main loop will finish. */
  ghost predicate Inv(s: Ctl) {
    && (!s.reg.ready ==> s.reg.command in {RESET, PARAMS_REG} || (s.reg.command == DATA_REG && !s.reg.write))
    && (s.reg.command == CMD_REG ==> s.reg.ready)
    && |s.tx| in {0, PARAMS_REG_SIZE, DATA_SEND_SIZE}
  }

  lemma InvNext(s: Ctl, e: Event)
    requires Inv(s)
    ensures Inv(Next(s, e))
  {}

  lemma {:induction false} InvHolds(params: Params, es: seq<Event>)
    ensures Inv(Run(params, es))
  {
    if es != [] {
      InvHolds(params, es[..|es| - 1]);
      InvNext(Run(params, es[..|es| - 1]), es[|es| - 1]);
    }
  }

  /** One pass of the main loop ends every busy period, and nothing else does: until
      then the accepted command and its channel cannot change. */
  lemma BusyUntilConsumed(params: Params, es: seq<Event>, e: Event)
    ensures var s := Run(params, es);
            var r := Next(s, e).reg;
            && (e.Consumed? ==> r.ready)
            && (!s.reg.ready && !e.Consumed? ==>
                  !r.ready && r.command == s.reg.command && r.channelB == s.reg.channelB)
  {
    InvHolds(params, es);
  }

  /** Does this event accept a reset of the given channel? */
  predicate AcceptsReset(s: Ctl, e: Event, channelB: bool) {
    e.Received? && !AwaitsParams(s.reg) && s.reg.command == CMD_REG &&
    var cmd := DecodeByte(FirstByte(e.rx)); cmd.command == RESET && cmd.channelB == channelB
  }

  /** Does it carry one out? */
  predicate PerformsReset(s: Ctl, e: Event, channelB: bool) {
    e.Consumed? && ConsumesReset(s.reg) && s.reg.channelB == channelB
  }

  function Accepted(params: Params, es: seq<Event>, channelB: bool): nat {
    var last := |es| - 1;
    if last < 0 then 0
    else Accepted(params, es[..last], channelB) + if AcceptsReset(Run(params, es[..last]), es[last], channelB) then 1
        else 0
  }

  function Performed(params: Params, es: seq<Event>, channelB: bool): nat {
    var last := |es| - 1;
    if last < 0 then 0
    else Performed(params, es[..last], channelB) + if PerformsReset(Run(params, es[..last]), es[last], channelB)
        then 1 else 0
  }

  /** The reset of a channel that has been accepted but not carried out. */
  function Pending(s: Ctl, channelB: bool): nat {
    if ConsumesReset(s.reg) && s.reg.channelB == channelB then 1 else 0
  }

  lemma ResetStep(s: Ctl, e: Event, channelB: bool)
    requires Inv(s)
    ensures Pending(s, channelB) + (if AcceptsReset(s, e, channelB) then 1 else 0) ==
            Pending(Next(s, e), channelB) + if PerformsReset(s, e, channelB) then 1 else 0
  {
    hide DecodeByte;
  }

  /** Each accepted reset is carried out exactly once, on its own channel: at any time
      at most the last accepted one is still to come. */
  lemma {:induction false} ResetsAreExact(params: Params, es: seq<Event>, channelB: bool)
    ensures Accepted(params, es, channelB) == Performed(params, es, channelB) + Pending(Run(params, es), channelB)
  {
    var last := |es| - 1;
    if last >= 0 {
      ResetsAreExact(params, es[..last], channelB);
      InvHolds(params, es[..last]);
      ResetStep(Run(params, es[..last]), es[last], channelB);
      hide Next, Pending, AcceptsReset, PerformsReset, Inv;
    }
  }

  const WRITE_CMD_REG: u8 := 0x40

  /** The commands that the main loop has something to do for. */
  predicate IsCommand(reg: Reg) {
    reg.command in {RESET, PARAMS_REG} || (reg.command == DATA_REG && !reg.write)
  }

  /** What the register holds once `cmd` has been taken: busy for a command that the
      main loop acts on, ready with an error for any other. */
  function Taken(cmd: Reg): Reg {
    if IsCommand(cmd) then cmd.(ready := false, error := OK) else cmd.(ready := true, error := UNKNOWN_CMD_ERROR)
  }

  /** The master can always get a command in: whatever happened before, sending the
      parameters if they are awaited, one pass of the main loop, announcing a write and
      writing the command make the register take it, known or not. */
  lemma NeverStuck(params: Params, es: seq<Event>, code: u8, report: Report)
    requires DecodeByte(code).command != CMD_REG
    ensures var s := Run(params, es);
            var s1 := if AwaitsParams(s.reg) then Receive(s, ParamsFrame(s.params)) else s;
            var s2 := Receive(Receive(Consume(s1, report), [WRITE_CMD_REG]), [code]);
            s2.reg == Taken(DecodeByte(code)) && s2.params == s.params
  {
    InvHolds(params, es);
    var s := Run(params, es);
    ParamsFrameRoundTrip(s.params);
    var s1 := if AwaitsParams(s.reg) then Receive(s, ParamsFrame(s.params)) else s;
    AcceptedAfter(s1, report, code);
    hide Run, ParamsFrame, DecodeByte;
  }

  lemma AcceptedAfter(s: Ctl, report: Report, code: u8)
    requires !AwaitsParams(s.reg) && DecodeByte(code).command != CMD_REG && Inv(s)
    ensures var s2 := Receive(Receive(Consume(s, report), [WRITE_CMD_REG]), [code]);
            s2.reg == Taken(DecodeByte(code)) && s2.params == s.params
  {
    assert DecodeByte(WRITE_CMD_REG) == Reg(false, true, false, OK, CMD_REG);
    hide DecodeByte, DataFrame, ParamsFrame;
    var t := Consume(s, report);
    assert t.reg.ready && !AwaitsParams(t.reg);
    assert Receive(t, [WRITE_CMD_REG]).reg == Reg(false, true, true, OK, CMD_REG);
  }

  /** What the controller refuses: a new command while one is pending, parameters of the
      wrong length, and a command that was not announced. Only the first two set an
      error, and nothing else changes. */
  lemma Refusals(s: Ctl, rx: seq<u8>)
    ensures !AwaitsParams(s.reg) && !s.reg.ready && rx != [] && rx[0] == WRITE_CMD_REG ==>
              Receive(s, rx) == s.(reg := s.reg.(error := BUSY_ERROR))
    ensures AwaitsParams(s.reg) && |rx| != 8 ==> Receive(s, rx) == s.(reg := s.reg.(error := BAD_PARAMS_ERROR))
    ensures !AwaitsParams(s.reg) && s.reg.command != CMD_REG && DecodeByte(FirstByte(rx)).command != CMD_REG ==>
              Receive(s, rx) == s
    ensures |rx| != 8 ==> Receive(s, rx).params == s.params
  {
    assert DecodeByte(WRITE_CMD_REG) == Reg(false, true, false, OK, CMD_REG);
    hide DecodeByte;
  }

  /** Only a message of eight bytes can change the parameters. */
  lemma {:induction false} ParamsStay(params: Params, es: seq<Event>, more: seq<Event>)
    requires forall e :: e in more && e.Received? ==> |e.rx| != 8
    ensures Run(params, es + more).params == Run(params, es).params
  {
    if more == [] {
      assert es + more == es;
    } else {
      var last := |more| - 1;
      assert more[last] in more && (es + more)[..|es + more| - 1] == es + more[..last];
      ParamsStay(params, es, more[..last]);
      hide Run, Receive, DecodeByte, DataFrame, ParamsFrame;
      RunUnfolds(params, es + more);
      if more[last].Received? {
        Refusals(Run(params, es + more[..last]), more[last].rx);
      }
    }
  }

  lemma RunUnfolds(params: Params, es: seq<Event>)
    requires es != []
    ensures Run(params, es) == Next(Run(params, es[..|es| - 1]), es[|es| - 1])
  {}

  // ---- what a master read gets ----

  /** The frame in the transmit buffer: where in the run it was loaded, and from what. */
  datatype Frame = Nothing | ParamsLoaded(at: nat, params: Params) | DataLoaded(at: nat, channelB: bool, report: Report)
  {
    function Bytes(): seq<u8> {
      match this
      case Nothing => []
      case ParamsLoaded(_, p) => ParamsFrame(p)
      case DataLoaded(_, _, report) => DataFrame(report)
    }
  }

  predicate NamesRead(reg: Reg, command: bv8) { reg.command == command && !reg.write }

  /** The frame held after a run: the last one that a pass of the main loop loaded. */
  function Held(params: Params, es: seq<Event>): Frame {
    var last := |es| - 1;
    if last < 0 then Nothing else NextFrame(Run(params, es[..last]), es[last], Held(params, es[..last]), last)
  }

  /** The frame held after event `n`. */
  function NextFrame(s: Ctl, e: Event, f: Frame, n: nat): Frame {
    if e.Consumed? && NamesRead(s.reg, PARAMS_REG) then ParamsLoaded(n, s.params)
    else if e.Consumed? && NamesRead(s.reg, DATA_REG) && !s.reg.ready then DataLoaded(n, s.reg.channelB, e.report)
    else f
  }

  /** Does this event put a command into the register? */
  predicate TakesCommand(s: Ctl, e: Event) {
    e.Received? && !AwaitsParams(s.reg) && s.reg.command == CMD_REG && DecodeByte(FirstByte(e.rx)).command != CMD_REG
  }

  /** How much of the run there was before the last command was taken. */
  function TakenAt(params: Params, es: seq<Event>): nat {
    var last := |es| - 1;
    if last < 0 then 0
    else if TakesCommand(Run(params, es[..last]), es[last]) then last
    else TakenAt(params, es[..last])
  }

  /** The transmit buffer is that frame, and a data read is fresh exactly when ready. */
  ghost predicate FrameInv(s: Ctl, f: Frame, taken: nat, n: nat) {
    && s.tx == f.Bytes() && (f != Nothing ==> f.at < n) && (taken < n || (taken == n == 0 && s.reg.command == CMD_REG))
    && (NamesRead(s.reg, DATA_REG) ==>
          if s.reg.ready then f.DataLoaded? && f.channelB == s.reg.channelB && f.at > taken
          else f != Nothing ==> f.at < taken)
  }

  lemma FrameInvEffect(s: Ctl, e: Event, f: Frame, taken: nat, n: nat)
    requires FrameInv(s, f, taken, n)
    ensures FrameInv(Next(s, e), NextFrame(s, e, f, n), if TakesCommand(s, e) then n else taken, n + 1)
  {
    hide DecodeByte, DataFrame, ParamsFrame, ParamsOf;
  }

  lemma NothingHeld(params: Params)
    ensures FrameInv(Run(params, []), Held(params, []), TakenAt(params, []), 0)
  {}

  lemma {:induction false} FrameInvHolds(params: Params, es: seq<Event>)
    ensures FrameInv(Run(params, es), Held(params, es), TakenAt(params, es), |es|)
  {
    if es != [] {
      var last := |es| - 1;
      hide FrameInv, Next, NextFrame, TakesCommand;
      FrameInvHolds(params, es[..last]);
      FrameInvEffect(Run(params, es[..last]), es[last], Held(params, es[..last]), TakenAt(params, es[..last]), last);
    } else {
      NothingHeld(params);
    }
  }

  /** What a master that has commanded a data read finds in the transmit buffer. Once
      the register is ready it is the frame of the channel it named, loaded after the
      command. Until then it is whatever frame was loaded before the command, of either
      channel, sent without an error; only while there has never been one does the read
      report that the tester is busy. */
  lemma ReplyIsFresh(params: Params, es: seq<Event>)
    requires NamesRead(Run(params, es).reg, DATA_REG) && !Run(params, es).readRequested
    ensures var s, f := Run(params, es), Held(params, es);
            && s.tx == f.Bytes()
            && (s.reg.ready <==> f != Nothing && f.at > TakenAt(params, es))
            && (s.reg.ready ==> f.DataLoaded? && f.channelB == s.reg.channelB)
            && (Request(s) == if f == Nothing then s.(reg := s.reg.(error := BUSY_ERROR)) else s)
  {
    FrameInvHolds(params, es);
    hide Run, Held, TakenAt, DataFrame, ParamsFrame;
  }

  /** Commands as the master sends them: channel A is read, and then channel B. */
  const READ_DATA_A: u8 := 0x02
  const READ_DATA_B: u8 := 0x82

  /** A read that comes too early really gets the other channel's frame: from any idle
      register, channel A is read in full, and then channel B at once. */
  lemma EarlyReadIsStale(s: Ctl, report: Report)
    requires s.reg.ready && !AwaitsParams(s.reg) && !s.readRequested
    ensures var s1 := Consume(Receive(Receive(s, [WRITE_CMD_REG]), [READ_DATA_A]), report);
            var s2 := Receive(Receive(s1, [WRITE_CMD_REG]), [READ_DATA_B]);
            && NamesRead(s2.reg, DATA_REG) && s2.reg.channelB && !s2.readRequested
            && s2.tx == DataFrame(report) && Request(s2) == s2 && s2.reg.error == OK
  {
    assert DecodeByte(WRITE_CMD_REG) == Reg(false, true, false, OK, CMD_REG);
    assert DecodeByte(READ_DATA_A) == Reg(false, false, false, OK, DATA_REG);
    assert DecodeByte(READ_DATA_B) == Reg(true, false, false, OK, DATA_REG);
    hide DecodeByte, DataFrame;
  }

  /** Writing back a parameters frame restores all four parameters. */
  lemma ParamsRestored(s: Ctl, p: Params)
    requires AwaitsParams(s.reg)
    ensures Receive(s, ParamsFrame(p)).params == p && !AwaitsParams(Receive(s, ParamsFrame(p)).reg)
  {
    ParamsFrameRoundTrip(p);
  }
}
