/** The bus between two devices, and the blocking transfers of twi.c over it. While the
    program waits for the transfer to end, the bus takes its steps. */
module TwiLink {
  import opened Words
  import opened TwiSpec
  import opened TwiTransfers
  import opened TwiDevice

  /** What twi_writeTo returns for the error it finds at the end of the wait. */
  function Outcome(error: u8): u8 {
    if error == NO_ERROR then 0 else if error == MT_SLA_NACK_CODE then 2
    else if error == MT_DATA_NACK_CODE then 3 else 4
  }

  /** How the handler ends what this bus never has: a lost arbitration or an error of the
      bus ends the transfer, and twi_writeTo returns 4; a refused byte ends it with 3, and
      a refused address with 2. A slave whose buffer is full refuses more bytes and keeps
      those it has. */
  lemma OtherEndings(d: Dev)
    requires d.Shaped()
    ensures var r := Isr(d, ArbLost); r.state == Ready && !r.ctl.stop && r.ctl.ack && Outcome(r.error) == 4
    ensures var r := Isr(d, BusError); r.state == Ready && r.ctl.stop && Outcome(r.error) == 4
    ensures var r := Isr(d, MtDataNack); r.state == Ready && r.ctl.stop && Outcome(r.error) == 3
    ensures var r := Isr(d, MtSlaNack); r.state == Ready && r.ctl.stop && Outcome(r.error) == 2
    ensures d.rxIndex == 32 ==> Isr(d, SrDataAck) == d.(ctl := Isr(d, SrDataAck).ctl) && !Isr(d, SrDataAck).ctl.ack
    ensures Isr(d, SrDataNack) == d.(ctl := Isr(d, SrDataNack).ctl) && !Isr(d, SrDataNack).ctl.ack
  {
    hide Answer, Accepted, Stored;
  }

  /** A general call, and an address that comes when the arbitration is lost, are taken
      like the own address. */
  lemma OtherAddresses(d: Dev)
    requires d.Shaped()
    ensures forall st :: st in {SrGcallAck, SrArbLostSlaAck, SrArbLostGcallAck} ==> Isr(d, st) == Isr(d, SrSlaAck)
    ensures Isr(d, SrGcallDataAck) == Isr(d, SrDataAck) && Isr(d, SrGcallDataNack) == Isr(d, SrDataNack)
    ensures Isr(d, StArbLostSlaAck) == Isr(d, StSlaAck) && Isr(d, NoInfo) == d
  {
    TakenAlike(d, SrGcallAck, SrSlaAck);
    TakenAlike(d, SrArbLostSlaAck, SrSlaAck);
    TakenAlike(d, SrArbLostGcallAck, SrSlaAck);
    TakenAlike(d, SrGcallDataAck, SrDataAck);
    TakenAlike(d, SrGcallDataNack, SrDataNack);
    TakenAlike(d, StArbLostSlaAck, StSlaAck);
    assert Isr(d, NoInfo) == d;
    hide Isr;
  }

  lemma TakenAlike(d: Dev, st: Status, own: Status)
    requires d.Shaped()
    requires own.SrSlaAck? ==> st in {SrGcallAck, SrArbLostSlaAck, SrArbLostGcallAck}
    requires own.SrDataAck? ==> st == SrGcallDataAck
    requires own.SrDataNack? ==> st == SrGcallDataNack
    requires own.StSlaAck? ==> st == StArbLostSlaAck
    requires own.SrSlaAck? || own.SrDataAck? || own.SrDataNack? || own.StSlaAck?
    ensures Isr(d, st) == Isr(d, own)
  {
    hide Answer, Accepted, Stored, SendNext;
  }

  class Link {
    const m: Twi
    const s: Twi
    var phase: Phase
    ghost var acks: seq<bool>

    ghost const Repr: set<object> :=
      {this, m, m.masterBuffer, m.txBuffer, m.rxBuffer, s, s.masterBuffer, s.txBuffer, s.rxBuffer}

    ghost predicate Valid()
      reads m, s
    {
      && m != s && m.Valid() && s.Valid()
      && {m.masterBuffer, m.txBuffer, m.rxBuffer} !! {s.masterBuffer, s.txBuffer, s.rxBuffer}
    }

    ghost function Now(): Net
      reads Repr
    {
      Net(m.Now(), s.Now(), phase, acks)
    }

    constructor (m: Twi, s: Twi)
      requires m != s && m.Valid() && s.Valid()
      requires {m.masterBuffer, m.txBuffer, m.rxBuffer} !! {s.masterBuffer, s.txBuffer, s.rxBuffer}
      requires m.Now().Shaped() && s.Now().Shaped() && m.state == s.state == Ready && s.ctl.ack && !m.inRepStart
      ensures Valid() && Idle(Now()) && this.m == m && this.s == s
    {
      this.m, this.s := m, s;
      phase, acks := Free, [];
    }

    /** One condition or byte on the bus, with the interrupts it causes. */
    method Step()
      requires Valid() && CanStep(Now())
      modifies Repr
      ensures Valid() && Now() == BusStep(old(Now()))
    {
      match phase {
        case Free =>
          if m.ctl.start {
            m.Isr(StartSent);
            phase := Address;
          }
        case Held =>
        case Address => AddressByte();
        case Writing => ByteToSlave();
        case Reading(driven) => ByteFromSlave(driven);
      }
    }

    method AddressByte()
      requires Valid() && CanStep(Now()) && phase == Address
      modifies Repr
      ensures Valid() && Now() == BusStep(old(Now()))
    {
      hide TwiSpec.Isr, AfterWrite;
      IsrShaped(s.Now(), SrSlaAck);
      var read := m.twdr % 2 == 1;
      if m.twdr / 2 != s.address || !s.ctl.ack {
        m.Isr(if read then MrSlaNack else MtSlaNack);
        phase := Free;
      } else if read {
        s.Isr(StSlaAck);
        m.Isr(MrSlaAck);
        phase := Reading(true);
      } else {
        s.Isr(SrSlaAck);
        m.Isr(MtSlaAck);
        phase := Writing;
        EndOfWrite();
      }
    }

    method ByteToSlave()
      requires Valid() && CanStep(Now()) && phase == Writing
      modifies Repr
      ensures Valid() && Now() == BusStep(old(Now()))
    {
      hide TwiSpec.Isr, AfterWrite;
      s.twdr := m.twdr;
      IsrShaped(s.Now(), if s.ctl.ack then SrDataAck else SrDataNack);
      if s.ctl.ack {
        s.Isr(SrDataAck);
        m.Isr(MtDataAck);
      } else {
        s.Isr(SrDataNack);
        m.Isr(MtDataNack);
      }
      EndOfWrite();
    }

    method EndOfWrite()
      requires Valid() && s.Now().Shaped()
      modifies Repr
      ensures Valid() && Now() == AfterWrite(old(Now()))
    {
      if m.ctl.stop {
        s.Isr(SrStop);
        phase := Free;
      } else if m.ctl.start {
        s.Isr(SrStop);
        phase := Held;
      }
    }

    method ByteFromSlave(driven: bool)
      requires Valid() && CanStep(Now()) && phase == Reading(driven)
      modifies Repr
      ensures Valid() && Now() == BusStep(old(Now()))
    {
      hide TwiSpec.Isr;
      m.twdr := if driven then s.twdr else 0xFF;
      var ack, more := m.ctl.ack, s.ctl.ack;
      if driven {
        s.Isr(if !ack then StDataNack else if more then StDataAck else StLastData);
      }
      m.Isr(if ack then MrDataAck else MrDataNack);
      acks := acks + [ack];
      phase := if ack then Reading(driven && more) else if m.ctl.stop then Free else Held;
    }

    /** Writing TWCR lets a held bus go on. */
    method Release()
      modifies this`phase
      ensures Now() == old(Now()).(phase := Released(old(phase)))
    {
      if phase == Held {
        phase := Address;
      }
    }

    /** twi_writeTo, waiting for the end: 0 and the message delivered exactly; 1 and
        nothing done when the data does not fit; 2 when nobody has the address. */
    method WriteTo(slave: u8, data: seq<u8>, sendStop: bool) returns (r: u8)
      requires Valid() && Idle(Now()) && slave < 0x80 && s.address < 0x80
      modifies Repr
      ensures Valid() && Idle(Now())
      ensures |data| > TWI_BUFFER_LENGTH ==> r == 1 && Now() == old(Now())
      ensures |data| <= TWI_BUFFER_LENGTH && slave == s.address ==>
                r == 0 && Written(Now(), old(s.Now()), data) && phase == if sendStop then Free else Held
      ensures |data| <= TWI_BUFFER_LENGTH && slave != s.address ==> r == 2 && s.Now() == old(s.Now())
    {
      if TWI_BUFFER_LENGTH < |data| {
        return 1;
      }
      ghost var s0 := s.Now();
      StartWrite(slave, data, sendStop);
      FinishWrite(s0, slave, data);
      r := Outcome(m.error);
    }

    method StartWrite(slave: u8, data: seq<u8>, sendStop: bool)
      requires Valid() && Idle(Now()) && slave < 0x80 && |data| <= TWI_BUFFER_LENGTH
      modifies Repr
      ensures Valid() && WriteStage(Now(), old(s.Now()), slave, data) && m.sendStop == sendStop
    {
      ghost var n := Now();
      BegunWrite(n, slave, data, sendStop);
      assert BeginWrite(n, slave, data, sendStop).m.sendStop == sendStop;
      hide WriteStage, Begin, Stored;
      m.BeginWriteTo(slave, data, sendStop);
      Release();
      assert Now() == BeginWrite(n, slave, data, sendStop);
    }

    /** The wait of twi_writeTo. */
    method FinishWrite(ghost s0: Dev, slave: u8, data: seq<u8>)
      requires Valid() && WriteStage(Now(), s0, slave, data) && s0.address < 0x80
      modifies Repr
      ensures Valid() && m.sendStop == old(m.sendStop)
      ensures if slave == s0.address then Written(Now(), s0, data)
              else Idle(Now()) && s.Now() == s0 && m.error == MT_SLA_NACK_CODE
    {
      while m.state == MasterTransmit
        invariant Valid() && WriteStage(Now(), s0, slave, data) && m.sendStop == old(m.sendStop)
        decreases WriteLeft(Now(), data)
      {
        StepWrite(s0, slave, data);
      }
      hide WriteStage, Idle, Written;
      WriteStageEnds(Now(), s0, slave, data);
    }

    method StepWrite(ghost s0: Dev, slave: u8, data: seq<u8>)
      requires Valid() && WriteStage(Now(), s0, slave, data) && s0.address < 0x80 && m.state == MasterTransmit
      modifies Repr
      ensures Valid() && WriteStage(Now(), s0, slave, data) && m.sendStop == old(m.sendStop)
      ensures 0 <= WriteLeft(Now(), data) < old(WriteLeft(Now(), data))
    {
      hide WriteStage, WriteLeft, BusStep, CanStep;
      WriteStageStep(Now(), s0, slave, data);
      KeepsEnding(Now());
      Step();
    }

    /** twi_readFrom: the bytes read. With enough bytes queued these are the first ones
        queued; what is missing reads as 0xFF; without a slave there are none. */
    method ReadFrom(slave: u8, length: u8, sendStop: bool) returns (data: seq<u8>)
      requires Valid() && Idle(Now()) && slave < 0x80 && s.address < 0x80 && 1 <= length
      modifies Repr
      ensures Valid() && Idle(Now())
      ensures length > TWI_BUFFER_LENGTH ==> data == [] && Now() == old(Now())
      ensures length <= TWI_BUFFER_LENGTH && slave == s.address ==>
                && Read(Now(), old(s.Now()), old(acks), Answer(old(s.queue)), length)
                && data == ReadBytes(Answer(old(s.queue)), length) && phase == if sendStop then Free else Held
      ensures length <= TWI_BUFFER_LENGTH && slave != s.address ==> data == [] && s.Now() == old(s.Now())
    {
      if TWI_BUFFER_LENGTH < length {
        return [];
      }
      ghost var s0, acks0 := s.Now(), acks;
      StartRead(slave, length, sendStop);
      FinishRead(s0, acks0, slave, length);
      var count := if m.masterIndex < length then m.masterIndex else length;
      data := m.masterBuffer[..count];
      assert data == m.masterBuffer[..][..count];
    }

    method StartRead(slave: u8, length: u8, sendStop: bool)
      requires Valid() && Idle(Now()) && slave < 0x80 && 1 <= length <= TWI_BUFFER_LENGTH
      modifies Repr
      ensures Valid() && ReadStage(Now(), old(s.Now()), old(acks), slave, length) && m.sendStop == sendStop
    {
      ghost var n := Now();
      BegunRead(n, slave, length, sendStop);
      assert BeginRead(n, slave, length, sendStop).m.sendStop == sendStop;
      hide ReadStage, Begin;
      m.BeginReadFrom(slave, length, sendStop);
      Release();
      assert Now() == BeginRead(n, slave, length, sendStop);
    }

    /** The wait of twi_readFrom. */
    method FinishRead(ghost s0: Dev, ghost acks0: seq<bool>, slave: u8, length: u8)
      requires Valid() && ReadStage(Now(), s0, acks0, slave, length) && s0.address < 0x80
      modifies Repr
      ensures Valid() && m.sendStop == old(m.sendStop)
      ensures if slave == s0.address then Read(Now(), s0, acks0, Answer(s0.queue), length)
              else Idle(Now()) && s.Now() == s0 && m.masterIndex == 0
    {
      while m.state == MasterReceive
        invariant Valid() && ReadStage(Now(), s0, acks0, slave, length) && m.sendStop == old(m.sendStop)
        decreases ReadLeft(Now(), length)
      {
        StepRead(s0, acks0, slave, length);
      }
      hide ReadStage, Idle, Read;
      ReadStageEnds(Now(), s0, acks0, slave, length);
    }

    method StepRead(ghost s0: Dev, ghost acks0: seq<bool>, slave: u8, length: u8)
      requires Valid() && ReadStage(Now(), s0, acks0, slave, length) && s0.address < 0x80 && m.state == MasterReceive
      modifies Repr
      ensures Valid() && ReadStage(Now(), s0, acks0, slave, length) && m.sendStop == old(m.sendStop)
      ensures 0 <= ReadLeft(Now(), length) < old(ReadLeft(Now(), length))
    {
      hide ReadStage, ReadLeft, BusStep, CanStep;
      ReadStageStep(Now(), s0, acks0, slave, length);
      KeepsEnding(Now());
      Step();
    }
  }
}
