/** LifeTester/Controller.cpp and the slave side of Arduino/Wire.cpp, in the source's
    own form: byte buffers with indices, and a register changed bit by bit. Every
    handler is proved to do what `ControllerSpec` says. */
module ControllerDevice {
  import opened Words
  import opened Bits
  import opened ControllerSpec
  import Tester
  import TesterSpec

  const BUFFER_MAX_SIZE := 32

  /** The receive side of TwoWire. */
  class Wire {
    const rxBuffer: array<u8>
    var rxIndex: u8
    var rxLength: u8

    ghost predicate Valid()
      reads this
    {
      rxBuffer.Length == BUFFER_MAX_SIZE && rxIndex <= rxLength <= BUFFER_MAX_SIZE
    }

    ghost function Unread(): seq<u8>
      requires Valid()
      reads this, rxBuffer
    {
      rxBuffer[rxIndex..rxLength]
    }

    constructor ()
      ensures Valid() && Unread() == [] && fresh(rxBuffer)
    {
      rxBuffer := new u8[BUFFER_MAX_SIZE];
      rxIndex, rxLength := 0, 0;
    }

    /** onReceiveService: a message is dropped while an earlier one is not read yet. */
    method OnReceiveService(inBytes: seq<u8>) returns (delivered: bool)
      requires Valid() && |inBytes| <= BUFFER_MAX_SIZE
      modifies this, rxBuffer
      ensures Valid() && delivered == (old(Unread()) == [])
      ensures Unread() == if delivered then inBytes else old(Unread())
    {
      if rxIndex < rxLength {
        return false;
      }
      for i := 0 to |inBytes|
        invariant forall k :: 0 <= k < i ==> rxBuffer[k] == inBytes[k]
      {
        rxBuffer[i] := inBytes[i];
      }
      rxIndex := 0;
      rxLength := |inBytes|;
      delivered := true;
    }

    method Available() returns (n: int)
      requires Valid()
      ensures n == |Unread()|
    {
      n := rxLength as int - rxIndex;
    }

    method Read() returns (value: int)
      requires Valid()
      modifies this`rxIndex
      ensures Valid()
      ensures if old(Unread()) == [] then value == -1 && Unread() == []
              else value == old(Unread())[0] && Unread() == old(Unread())[1..]
    {
      value := -1;
      if rxIndex < rxLength {
        value := rxBuffer[rxIndex];
        rxIndex := rxIndex + 1;
      }
    }

    /** ReadUint16 of the controller. */
    method ReadUint16() returns (x: u16)
      requires Valid() && |Unread()| >= 2
      modifies this`rxIndex
      ensures Valid() && Unread() == old(Unread())[2..] && x == Get16(old(Unread()), 0)
    {
      hide Word;
      ghost var rx := Unread();
      TwoDropped(rx);
      var lsb := Read();
      var msb := Read();
      x := Word(Wrap8(lsb), Wrap8(msb));
    }
  }

  lemma TwoDropped(rx: seq<u8>)
    requires |rx| >= 2
    ensures rx[1..][0] == rx[1] && rx[1..][1..] == rx[2..]
  {}

  lemma WordAt(rx: seq<u8>, at: nat)
    requires at + 2 <= |rx|
    ensures rx[at..][2..] == rx[at + 2..] && Get16(rx[at..], 0) == Get16(rx, at)
  {}

  /** The transmit buffer. What lies behind the tail is always empty bytes. */
  class DataBuffer {
    const d: array<u8>
    var tail: u8
    var head: u8

    ghost predicate Valid()
      reads this, d
    {
      && d.Length == BUFFER_MAX_SIZE && head == 0 && tail <= BUFFER_MAX_SIZE
      && forall k :: tail <= k < BUFFER_MAX_SIZE ==> d[k] == EMPTY_BYTE
    }

    ghost function Contents(): seq<u8>
      requires Valid()
      reads this, d
    {
      d[head..tail]
    }

    constructor ()
      ensures Valid() && Contents() == [] && fresh(d)
    {
      d := new u8[BUFFER_MAX_SIZE](_ => EMPTY_BYTE);
      tail, head := 0, 0;
    }

    method ResetBuffer()
      requires Valid()
      modifies this, d
      ensures Valid() && Contents() == []
    {
      for i := 0 to BUFFER_MAX_SIZE
        invariant forall k :: 0 <= k < i ==> d[k] == EMPTY_BYTE
      {
        d[i] := EMPTY_BYTE;
      }
      tail := 0;
      head := 0;
    }

    method NumBytes() returns (n: u8)
      requires Valid()
      ensures n == |Contents()|
    {
      n := tail - head;
    }

    method WriteUint8(data: u8)
      requires Valid()
      modifies this`tail, d
      ensures Valid()
      ensures Contents() == if |old(Contents())| < BUFFER_MAX_SIZE then old(Contents()) + [data] else old(Contents())
    {
      if tail < BUFFER_MAX_SIZE {
        d[tail] := data;
        tail := tail + 1;
      }
    }

    method WriteUint16(data: u16)
      requires Valid() && |Contents()| <= BUFFER_MAX_SIZE - 2
      modifies this`tail, d
      ensures Valid() && Contents() == old(Contents()) + Le16(data)
    {
      WriteUint8(data % 0x100);
      WriteUint8(data / 0x100 % 0x100);
    }

    method WriteUint32(data: u32)
      requires Valid() && |Contents()| <= BUFFER_MAX_SIZE - 4
      modifies this`tail, d
      ensures Valid() && Contents() == old(Contents()) + Le32(data)
    {
      for i := 0 to 4
        invariant Valid() && Contents() == old(Contents()) + Le32(data)[..i]
      {
        var byteToWrite := data / [1, 0x100, 0x1_0000, 0x100_0000][i] % 0x100;
        assert byteToWrite == Le32(data)[i];
        WriteUint8(byteToWrite);
      }
      assert Le32(data)[..4] == Le32(data);
    }

    method WriteReport(r: Report)
      requires Valid()
      modifies this, d
      ensures Valid() && Contents() == DataFrame(r)
    {
      hide Le16, Le32, SumOf;
      WriteMeasurement(r.timer, r.v, r.i);
      WriteUint16(r.temperature);
      WriteUint16(r.light);
      WriteUint8(r.error);
      assert Contents() == Payload(r);
      var checkSum := CheckSum();
      WriteUint8(checkSum);
    }

    method WriteMeasurement(timer: u32, v: u8, i: u16)
      requires Valid()
      modifies this, d
      ensures Valid() && Contents() == Le32(timer) + [v] + Le16(i)
    {
      hide Le16, Le32;
      ResetBuffer();
      WriteUint32(timer);
      WriteUint8(v);
      WriteUint16(i);
    }

    method WriteParams(p: Params)
      requires Valid()
      modifies this, d
      ensures Valid() && Contents() == ParamsFrame(p)
    {
      hide Le16;
      ResetBuffer();
      WriteUint16(p.settle);
      WriteUint16(p.delay);
      WriteUint16(p.sample);
      WriteUint16(p.threshold);
    }

    /** The loop includes the byte at the tail, which is an empty one. */
    method CheckSum() returns (checkSum: u8)
      requires Valid() && |Contents()| < BUFFER_MAX_SIZE
      ensures checkSum == Wrap8(SumOf(Contents()) + EMPTY_BYTE)
    {
      checkSum := 0;
      var i: int := head;
      assert d[..0] == [];
      while i <= tail
        invariant 0 <= i <= tail + 1
        invariant checkSum == Wrap8(SumOf(d[..i]))
      {
        assert d[..i + 1][..i] == d[..i];
        WrapSum(SumOf(d[..i]), d[i]);
        checkSum := Wrap8(checkSum as int + d[i]);
        i := i + 1;
      }
      assert d[..i][..tail] == Contents();
    }
  }

  lemma WrapSum(a: nat, b: u8)
    ensures Wrap8(Wrap8(a) + b) == Wrap8(a + b)
  {}

  class Config {
    var settleTime: u16
    var trackDelay: u16
    var sampleTime: u16
    var thresholdCurrent: u16

    constructor (p: Params)
      ensures Now() == p
    {
      settleTime, trackDelay, sampleTime, thresholdCurrent := p.settle, p.delay, p.sample, p.threshold;
    }

    ghost function Now(): Params
      reads this
    {
      Params(settleTime, trackDelay, sampleTime, thresholdCurrent)
    }
  }

  /** What a master read gets: the command register, or the transmit buffer. */
  datatype Reply = Status(reg: bv8) | Bytes(bytes: seq<u8>)

  function ErrorIndex(e: TesterSpec.ErrorCode): u8 {
    match e
    case Ok => 0 case LowCurrent => 1 case CurrentLimit => 2
    case CurrentThreshold => 3 case InvalidScan => 4 case DacSetFailed => 5
  }

  /** What a channel reports. Until its first measurement the pointers to the active
      point are null, and what is read through them, `stray`, is unspecified. */
  function ReportOn(s: TesterSpec.Snap, temperature: u16, light: u16, stray: (u8, u16)): Report {
    if s.data.active == TesterSpec.NoPoint then
      Report(s.timer, stray.0, stray.1, temperature, light, ErrorIndex(s.error))
    else
      Report(s.timer, s.data.VActive(), s.data.IActive(), temperature, light, ErrorIndex(s.error))
  }

  class Controller {
    var cmdReg: bv8
    var cmdRegReadRequested: bool
    const tx: DataBuffer
    const wire: Wire
    const config: Config

    ghost predicate Valid()
      reads this, tx, tx.d, wire
    {
      tx.Valid() && wire.Valid() && tx.d != wire.rxBuffer
    }

    ghost function Now(): Ctl
      requires Valid()
      reads this, tx, tx.d, wire, config
    {
      Ctl(Decode(cmdReg), cmdRegReadRequested, tx.Contents(), config.Now())
    }

    /** Controller_Init. */
    constructor (config: Config)
      ensures Valid() && wire.Unread() == [] && this.config == config
      ensures Now() == Run(config.Now(), [])
    {
      tx := new DataBuffer();
      wire := new Wire();
      this.config := config;
      cmdReg := 0x20;
      cmdRegReadRequested := false;
    }

    method FlushReadBuffer()
      requires Valid()
      modifies wire
      ensures Valid() && wire.Unread() == []
    {
      var n := wire.Available();
      while n > 0
        invariant Valid() && n == |wire.Unread()|
      {
        var _ := wire.Read();
        n := wire.Available();
      }
    }

    method ReadNewParamsFromMaster()
      requires Valid() && |wire.Unread()| == PARAMS_REG_SIZE
      modifies wire, config
      ensures Valid() && wire.Unread() == []
      ensures config.Now() == ParamsOf(old(wire.Unread()))
    {
      ghost var rx := wire.Unread();
      WordAt(rx, 2);
      WordAt(rx, 4);
      WordAt(rx, 6);
      hide Get16;
      var settle := wire.ReadUint16();
      config.settleTime := settle;
      var delay := wire.ReadUint16();
      config.trackDelay := delay;
      var sample := wire.ReadUint16();
      config.sampleTime := sample;
      var threshold := wire.ReadUint16();
      config.thresholdCurrent := threshold;
    }

    // ---- the register macros ----

    method SetError(e: bv8)
      requires e <= 3
      modifies this`cmdReg
      ensures Decode(cmdReg) == Decode(old(cmdReg)).(error := e)
    {
      cmdReg := BitInsert(cmdReg, e, 3, 3);
    }

    method SetReady()
      modifies this`cmdReg
      ensures Decode(cmdReg) == Decode(old(cmdReg)).(ready := true)
    {
      cmdReg := BitWrite(cmdReg, 5, true);
    }

    method ClearReady()
      modifies this`cmdReg
      ensures Decode(cmdReg) == Decode(old(cmdReg)).(ready := false)
    {
      cmdReg := BitWrite(cmdReg, 5, false);
    }

    method SetReadMode()
      modifies this`cmdReg
      ensures Decode(cmdReg) == Decode(old(cmdReg)).(write := false)
    {
      cmdReg := BitWrite(cmdReg, 6, false);
    }

    method LoadNewCmdToReg(newCmdReg: bv8)
      modifies this`cmdReg
      ensures Decode(cmdReg) == Load(Decode(old(cmdReg)), Decode(newCmdReg))
    {
      cmdReg := BitCopy(cmdReg, newCmdReg, 7);
      cmdReg := BitCopy(cmdReg, newCmdReg, 6);
      cmdReg := BitDelete(cmdReg, 3, 3);
      cmdReg := BitInsert(cmdReg, BitExtract(newCmdReg, 7, 0), 7, 0);
    }

    method UpdateStatusBits(newCmdReg: bv8)
      modifies this`cmdReg
      ensures Decode(cmdReg) == UpdateStatus(Decode(old(cmdReg)), Decode(newCmdReg))
    {
      var c := BitExtract(newCmdReg, 7, 0);
      if BitRead(newCmdReg, 6) {
        if c == RESET || c == PARAMS_REG || c == CMD_REG {
          ClearReady();
        } else {
          SetError(UNKNOWN_CMD_ERROR);
        }
      } else {
        if c == RESET {
          ClearReady();
        } else if c == PARAMS_REG || c == DATA_REG {
          ClearReady();
        } else if c == CMD_REG {
        } else {
          SetError(UNKNOWN_CMD_ERROR);
        }
      }
    }

    // ---- the handlers ----

    /** Controller_ReceiveHandler; afterwards nothing of the message is left unread. */
    method ReceiveHandler(numBytes: nat)
      requires Valid() && numBytes == |wire.Unread()|
      modifies this`cmdReg, this`cmdRegReadRequested, wire, config
      ensures Valid() && wire.Unread() == []
      ensures Now() == Receive(old(Now()), old(wire.Unread()))
    {
      if BitExtract(cmdReg, 7, 0) == PARAMS_REG && BitRead(cmdReg, 6) {
        if numBytes == PARAMS_REG_SIZE {
          ReadNewParamsFromMaster();
          SetReadMode();
        } else {
          FlushReadBuffer();
          SetError(BAD_PARAMS_ERROR);
        }
      } else {
        var received := wire.Read();
        var b := Wrap8(received);
        ReceiveFirst(Now(), old(wire.Unread()), b);
        FlushReadBuffer();
        NewCommand(b as bv8, b);
      }
    }

    /** A command is one byte; the rest of its message is ignored. */
    lemma ReceiveFirst(s: Ctl, rx: seq<u8>, b: u8)
      requires !AwaitsParams(s.reg) && b == FirstByte(rx)
      ensures Receive(s, rx) == Receive(s, [b])
    {
      hide DecodeByte;
    }

    /** The second half of the handler: a command, or a request to read the register. */
    method NewCommand(newCmdReg: bv8, ghost b: u8)
      requires Valid() && !AwaitsParams(Decode(cmdReg)) && newCmdReg == b as bv8
      modifies this`cmdReg, this`cmdRegReadRequested
      ensures Valid() && Now() == Receive(old(Now()), [b])
    {
      if BitExtract(newCmdReg, 7, 0) == CMD_REG {
        if BitRead(newCmdReg, 6) {
          if BitRead(cmdReg, 5) {
            LoadNewCmdToReg(newCmdReg);
          } else {
            SetError(BUSY_ERROR);
          }
        } else {
          cmdRegReadRequested := true;
        }
      } else if BitExtract(cmdReg, 7, 0) == CMD_REG {
        LoadNewCmdToReg(newCmdReg);
        UpdateStatusBits(newCmdReg);
      }
    }

    /** A message from the bus. As every handler drains the buffer, none is dropped. */
    method OnReceive(inBytes: seq<u8>)
      requires Valid() && wire.Unread() == [] && |inBytes| <= BUFFER_MAX_SIZE
      modifies this`cmdReg, this`cmdRegReadRequested, wire, wire.rxBuffer, config
      ensures Valid() && wire.Unread() == []
      ensures Now() == Receive(old(Now()), inBytes)
    {
      var delivered := wire.OnReceiveService(inBytes);
      if delivered {
        ReceiveHandler(|inBytes|);
      }
    }

    /** Controller_RequestHandler: what it hands to the bus. */
    method RequestHandler() returns (sent: Reply)
      requires Valid()
      modifies this`cmdReg, this`cmdRegReadRequested
      ensures Valid() && Now() == Request(old(Now()))
      ensures sent == if old(cmdRegReadRequested) then Status(old(cmdReg)) else Bytes(old(tx.Contents()))
    {
      if cmdRegReadRequested {
        cmdRegReadRequested := false;
        sent := Status(cmdReg);
      } else {
        var n := tx.NumBytes();
        sent := Bytes(tx.d[..n]);
        if n == 0 {
          SetError(BUSY_ERROR);
        }
      }
    }

    method WriteParamsToTransmitBuffer()
      requires Valid()
      modifies tx, tx.d
      ensures Valid() && tx.Contents() == ParamsFrame(config.Now())
    {
      tx.WriteParams(Params(config.settleTime, config.trackDelay, config.sampleTime, config.thresholdCurrent));
    }

    method WriteDataToTransmitBuffer(lt: Tester.LifeTester, temperature: u16, light: u16, stray: (u8, u16))
      requires Valid() && lt.Valid() && lt.dacOutput != tx.d
      modifies tx, tx.d
      ensures Valid() && tx.Contents() == DataFrame(ReportOn(lt.Now(), temperature, light, stray))
    {
      var v, i := stray.0, stray.1;
      if lt.data.active != TesterSpec.NoPoint {
        v, i := lt.data.VActive(), lt.data.IActive();
      }
      tx.WriteReport(Report(lt.timer, v, i, temperature, light, ErrorIndex(lt.error)));
    }

    /** Controller_ConsumeCommand: the channel named by the register is reset exactly
        when a reset is pending, and the other channel is never touched. */
    method ConsumeCommand(chA: Tester.LifeTester, chB: Tester.LifeTester, clock: nat,
                          temperature: u16, light: u16, stray: (u8, u16))
      requires Valid() && chA.Valid() && chB.Valid() && wire.Unread() == []
      requires chA != chB && chA.dacOutput == chB.dacOutput && chA.ch == 0 && chB.ch == 1
      requires chA.dacOutput != tx.d && chA.dacOutput != wire.rxBuffer
      modifies this`cmdReg, tx, tx.d, wire, chA, chB, chA.dacOutput
      ensures Valid() && chA.Valid() && chB.Valid() && wire.Unread() == []
      ensures var reg := old(Now().reg);
              var named := if reg.channelB then old(chB.Now()) else old(chA.Now());
              Now() == Consume(old(Now()), ReportOn(named, temperature, light, stray))
      ensures var reset := ConsumesReset(old(Now().reg));
              var forB := old(Now().reg.channelB);
              && chA.Now() == (if reset && !forB then TesterSpec.Reset(old(chA.Now()), clock) else old(chA.Now()))
              && chB.Now() == (if reset && forB then TesterSpec.Reset(old(chB.Now()), clock) else old(chB.Now()))
    {
      hide TesterSpec.Reset, DataFrame, ParamsFrame, ReportOn;
      var ch := if BitRead(cmdReg, 7) then chB else chA;
      var command := BitExtract(cmdReg, 7, 0);
      if command == RESET {
        if !BitRead(cmdReg, 5) {
          ch.Reset(clock);
          SetReady();
        }
      } else if command == PARAMS_REG {
        if !BitRead(cmdReg, 6) {
          WriteParamsToTransmitBuffer();
          SetReady();
        } else {
          FlushReadBuffer();
          SetReady();
        }
      } else if command == DATA_REG {
        if !BitRead(cmdReg, 6) {
          if !BitRead(cmdReg, 5) {
            WriteDataToTransmitBuffer(ch, temperature, light, stray);
            SetReady();
          }
        }
      }
    }
  }
}
