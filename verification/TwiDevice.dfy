/** Arduino/twi.c in its own form: buffers and indices changed by an interrupt handler
    and by the blocking calls of the program. */
module TwiDevice {
  import opened Words
  import opened TwiSpec
  import opened TwiTransfers

  class Twi {
    var state: State
    var slarw: u8
    var sendStop: bool
    var inRepStart: bool
    var error: u8
    const masterBuffer: array<u8>
    var masterIndex: u8
    var masterLength: u8
    const txBuffer: array<u8>
    var txIndex: u8
    var txLength: u8
    const rxBuffer: array<u8>
    var rxIndex: u8
    var twdr: u8                      // data register
    var ctl: Control                  // control register, as last written
    const address: u8                 // own slave address
    var received: seq<seq<u8>>        // messages handed to the receive callback
    var queue: seq<seq<u8>>           // what the transmit callback passes to Transmit

    ghost predicate Valid()
      reads this
    {
      && masterBuffer.Length == txBuffer.Length == rxBuffer.Length == TWI_BUFFER_LENGTH
      && masterBuffer != txBuffer && masterBuffer != rxBuffer && txBuffer != rxBuffer
    }

    ghost function Now(): Dev
      reads this, masterBuffer, txBuffer, rxBuffer
    {
      Dev(state, slarw, sendStop, inRepStart, error,
          masterBuffer[..], masterIndex, masterLength, txBuffer[..], txIndex, txLength, rxBuffer[..], rxIndex,
          twdr, ctl, address, received, queue)
    }

    /** twi_init and twi_setAddress. */
    constructor (address: u8)
      requires address < 0x80
      ensures Valid() && Now().Shaped() && state == Ready && ctl.ack && !inRepStart && this.address == address
      ensures fresh(masterBuffer) && fresh(txBuffer) && fresh(rxBuffer) && received == []
    {
      this.address := address;
      state, slarw, sendStop, inRepStart, error := Ready, 0, true, false, NO_ERROR;
      masterBuffer, txBuffer, rxBuffer := new u8[32], new u8[32], new u8[32];
      masterIndex, masterLength, txIndex, txLength, rxIndex, twdr := 0, 0, 0, 0, 0, 0;
      ctl := REPLY_ACK;
      received, queue := [], [];
    }

    method Reply(ack: bool)
      modifies this`ctl
      ensures Now() == old(Now()).(ctl := if ack then REPLY_ACK else REPLY_NACK)
    {
      ctl := if ack then REPLY_ACK else REPLY_NACK;
    }

    method Stop()
      modifies this`ctl, this`state
      ensures Now() == old(Now()).(ctl := STOP, state := Ready)
    {
      ctl := STOP;
      state := Ready;
    }

    method ReleaseBus()
      modifies this`ctl, this`state
      ensures Now() == old(Now()).(ctl := REPLY_ACK, state := Ready)
    {
      ctl := REPLY_ACK;
      state := Ready;
    }

    /** twi_transmit: 1 when the data does not fit, 2 outside the transmit callback. */
    method Transmit(data: seq<u8>) returns (r: u8)
      requires Valid() && txLength <= TWI_BUFFER_LENGTH
      modifies this`txLength, txBuffer
      ensures Valid() && r == if TWI_BUFFER_LENGTH < old(txLength) as int + |data| then 1
              else if state != SlaveTransmit then 2 else 0
      ensures r != 0 ==> txLength == old(txLength) && txBuffer[..] == old(txBuffer[..])
      ensures r == 0 ==> txLength == old(txLength) as int + |data| && txLength <= TWI_BUFFER_LENGTH
      ensures r == 0 ==> txBuffer[..] == old(txBuffer[..txLength]) + data + old(txBuffer[..])[txLength..]
    {
      if TWI_BUFFER_LENGTH < txLength as int + |data| {
        return 1;
      }
      if SlaveTransmit != state {
        return 2;
      }
      CopyToTxBuffer(data);
      txLength := txLength as int + |data|;
      r := 0;
    }

    method CopyToTxBuffer(data: seq<u8>)
      requires txLength as int + |data| <= txBuffer.Length
      modifies txBuffer
      ensures txBuffer[..] == old(txBuffer[..txLength]) + data + old(txBuffer[..])[txLength as int + |data|..]
    {
      ghost var at: int := txLength;
      for i := 0 to |data|
        invariant forall k :: 0 <= k < txBuffer.Length ==>
                    txBuffer[k] == if at <= k < at + i then data[k - at] else old(txBuffer[k])
      {
        txBuffer[txLength as int + i] := data[i];
      }
    }

    /** The program's callback: some calls of twi_transmit. */
    method OnSlaveTransmit()
      requires Valid() && state == SlaveTransmit && txLength == 0
      modifies this`txLength, txBuffer
      ensures Valid() && var a := Accepted([], queue);
              txLength == |a| && txBuffer[..] == Stored(old(txBuffer[..]), a)
    {
      assert txBuffer[..] == Stored(txBuffer[..], []);
      for i := 0 to |queue|
        invariant Valid() && state == SlaveTransmit
        invariant var a := Accepted([], queue[..i]);
                  txLength == |a| && txBuffer[..] == Stored(old(txBuffer[..]), a)
      {
        ghost var a := Accepted([], queue[..i]);
        ghost var b := txBuffer[..];
        assert queue[..i + 1][..i] == queue[..i];
        var r := Transmit(queue[i]);
        if r == 0 {
          StoredMore(old(txBuffer[..]), b, a, queue[i], txBuffer[..]);
        }
      }
      assert queue[..|queue|] == queue;
    }

    lemma StoredMore(b0: seq<u8>, b: seq<u8>, a: seq<u8>, data: seq<u8>, b': seq<u8>)
      requires |b0| == |b| && |a| + |data| <= |b| && b == Stored(b0, a)
      requires b' == b[..|a|] + data + b[|a| + |data|..]
      ensures b' == Stored(b0, a + data)
    {
      assert b[..|a|] == a && b[|a| + |data|..] == b0[|a| + |data|..];
    }

    /** ISR(TWI_vect): the cases of a master, those of a slave, and the rest. */
    method Isr(st: Status)
      requires Valid() && Now().Handles(st)
      modifies this, masterBuffer, txBuffer, rxBuffer
      ensures Valid() && Now() == TwiSpec.Isr(old(Now()), st)
    {
      if st.OfMaster() {
        MasterIsr(st);
      } else if st.OfSlave() {
        SlaveIsr(st);
      } else if st == BusError {
        StopWith(BUS_ERROR_CODE);
      }
      hide Answer, Accepted, Stored, WriteNext, SendNext, EndTransfer, StoreRead;
    }

    method MasterIsr(st: Status)
      requires Valid() && Now().Handles(st) && st.OfMaster()
      modifies this, masterBuffer
      ensures Valid() && Now() == TwiSpec.Isr(old(Now()), st)
    {
      hide Answer, Accepted, Stored, WriteNext, SendNext, EndTransfer;
      match st {
        case StartSent =>
          twdr := slarw;
          Reply(true);
        case MtSlaAck | MtDataAck => WriteNextByte();
        case MtSlaNack => StopWith(MT_SLA_NACK_CODE);
        case MtDataNack => StopWith(MT_DATA_NACK_CODE);
        case ArbLost =>
          error := ARB_LOST_CODE;
          ReleaseBus();
        case MrDataAck =>
          StoreByte();
          Reply(masterIndex < masterLength);
        case MrSlaAck => Reply(masterIndex < masterLength);
        case MrDataNack =>
          StoreByte();
          FinishTransfer();
        case MrSlaNack => Stop();
      }
    }

    method SlaveIsr(st: Status)
      requires Valid() && Now().Handles(st) && st.OfSlave()
      modifies this, txBuffer, rxBuffer
      ensures Valid() && Now() == TwiSpec.Isr(old(Now()), st)
    {
      hide Answer, Accepted, Stored, SendNext;
      match st {
        case SrSlaAck | SrGcallAck | SrArbLostSlaAck | SrArbLostGcallAck =>
          state := SlaveReceive;
          rxIndex := 0;
          Reply(true);
        case SrDataAck | SrGcallDataAck => ReceiveByte();
        case SrStop => HandOver();
        case SrDataNack | SrGcallDataNack => Reply(false);
        case StSlaAck | StArbLostSlaAck =>
          PrepareTransmit();
          SendNextByte();
        case StDataAck => SendNextByte();
        case StDataNack | StLastData =>
          Reply(true);
          state := Ready;
      }
    }

    method StopWith(e: u8)
      modifies this`error, this`ctl, this`state
      ensures Now() == old(Now()).(error := e, ctl := STOP, state := Ready)
    {
      error := e;
      Stop();
    }

    method WriteNextByte()
      requires Valid() && Now().Shaped()
      modifies this
      ensures Valid() && Now() == WriteNext(old(Now()))
    {
      if masterIndex < masterLength {
        twdr := masterBuffer[masterIndex];
        masterIndex := masterIndex + 1;
        Reply(true);
      } else {
        FinishTransfer();
      }
    }

    method FinishTransfer()
      modifies this
      ensures Now() == EndTransfer(old(Now()))
    {
      if sendStop {
        Stop();
      } else {
        inRepStart := true;
        ctl := REPEATED_START;
        state := Ready;
      }
    }

    method StoreByte()
      requires Valid() && Now().Shaped() && masterIndex < TWI_BUFFER_LENGTH
      modifies this`masterIndex, masterBuffer
      ensures Valid() && Now() == StoreRead(old(Now()))
    {
      masterBuffer[masterIndex] := twdr;
      masterIndex := masterIndex + 1;
    }

    method HandOver()
      requires Valid() && Now().Handles(SrStop)
      modifies this, rxBuffer
      ensures Valid() && Now() == TwiSpec.Isr(old(Now()), SrStop)
    {
      ReleaseBus();
      if rxIndex < TWI_BUFFER_LENGTH {
        rxBuffer[rxIndex] := 0;
      }
      received := received + [rxBuffer[..rxIndex]];  // the callback
      assert rxBuffer[..rxIndex] == rxBuffer[..][..rxIndex];
      rxIndex := 0;
    }

    method ReceiveByte()
      requires Valid() && Now().Shaped()
      modifies this, rxBuffer
      ensures Valid() && Now() == TwiSpec.Isr(old(Now()), SrDataAck)
    {
      if rxIndex < TWI_BUFFER_LENGTH {
        rxBuffer[rxIndex] := twdr;
        rxIndex := rxIndex + 1;
        Reply(true);
      } else {
        Reply(false);
      }
    }

    /** Enters slave transmitter mode and lets the program fill the buffer. */
    method PrepareTransmit()
      requires Valid()
      modifies this, txBuffer
      ensures Valid()
      ensures var a := Answer(queue);
              Now() == old(Now()).(state := SlaveTransmit, txIndex := 0, txLength := |a|,
                  txBuffer := Stored(old(txBuffer[..]), a))
    {
      state := SlaveTransmit;
      txIndex := 0;
      txLength := 0;
      OnSlaveTransmit();
      AtLeastOneByte(old(txBuffer[..]), Accepted([], queue));
    }

    /** Without a byte from the program, the answer is a zero. */
    method AtLeastOneByte(ghost b: seq<u8>, ghost a: seq<u8>)
      requires Valid() && |a| <= |b| == TWI_BUFFER_LENGTH && txLength == |a| && txBuffer[..] == Stored(b, a)
      modifies this`txLength, txBuffer
      ensures var c := if a == [] then [0] else a; txLength == |c| && txBuffer[..] == Stored(b, c)
    {
      if txLength == 0 {
        txLength := 1;
        txBuffer[0] := 0;
        assert txBuffer[..] == Stored(b, [0]);
      }
    }

    method SendNextByte()
      requires Valid() && Now().Shaped() && txIndex < TWI_BUFFER_LENGTH
      modifies this
      ensures Valid() && Now() == SendNext(old(Now()))
    {
      twdr := txBuffer[txIndex];
      txIndex := txIndex + 1;
      Reply(txIndex < txLength);
    }

    /** The first part of twi_writeTo, up to the wait. */
    method BeginWriteTo(slave: u8, data: seq<u8>, stop: bool)
      requires Valid() && |data| <= TWI_BUFFER_LENGTH && slave < 0x80
      modifies this, masterBuffer
      ensures Valid()
      ensures Now() == Begin(old(Now()), MasterTransmit, 2 * slave, |data|,
              stop).(masterBuffer := Stored(old(masterBuffer[..]), data))
    {
      hide Stored, Launched, Prepared;
      Prepare(MasterTransmit, 2 * slave, |data|, stop);
      CopyToMasterBuffer(data);
      LaunchKeepsBuffer(old(Now()), MasterTransmit, 2 * slave, |data|, stop, masterBuffer[..]);
      Launch();
    }

    lemma LaunchKeepsBuffer(d: Dev, st: State, code: u8, length: nat, stop: bool, b: seq<u8>)
      ensures Launched(Prepared(d, st, code, length, stop).(masterBuffer := b)) ==
              Begin(d, st, code, length, stop).(masterBuffer := b)
    {}

    method Prepare(st: State, code: u8, length: u8, stop: bool)
      modifies this
      ensures Now() == Prepared(old(Now()), st, code, length, stop)
    {
      state := st;
      sendStop := stop;
      error := NO_ERROR;
      masterIndex := 0;
      masterLength := length;
      slarw := code;
    }

    method CopyToMasterBuffer(data: seq<u8>)
      requires |data| <= masterBuffer.Length
      modifies masterBuffer
      ensures masterBuffer[..] == Stored(old(masterBuffer[..]), data)
    {
      for i := 0 to |data|
        invariant forall k :: 0 <= k < masterBuffer.Length ==> masterBuffer[k] == if k < i then data[k]
                  else old(masterBuffer[k])
      {
        masterBuffer[i] := data[i];
      }
    }

    method Launch()
      modifies this
      ensures Now() == Launched(old(Now()))
    {
      if inRepStart {
        inRepStart := false;
        twdr := slarw;
        ctl := REPLY_ACK;
      } else {
        ctl := START;
      }
    }

    method BeginReadFrom(slave: u8, length: u8, stop: bool)
      requires 1 <= length <= TWI_BUFFER_LENGTH && slave < 0x80
      modifies this
      ensures Now() == Begin(old(Now()), MasterReceive, 2 * slave + 1, length - 1, stop)
    {
      hide Launched, Prepared;
      Prepare(MasterReceive, 2 * slave + 1, length - 1, stop);
      Launch();
    }
  }
}
