/** Two microcontrollers running Arduino/twi.c, joined by an I2C bus: what one interrupt
    does to a device, what the bus does next (UM10204, sections 3.1.4 to 3.1.6 and
    3.1.10), and whole transfers. `TwiDevice` holds the code. */
module TwiSpec {
  import opened Words

  const TWI_BUFFER_LENGTH := 32
  const NO_ERROR: u8 := 0xFF
  const MT_SLA_NACK_CODE: u8 := 0x20
  const MT_DATA_NACK_CODE: u8 := 0x30
  const ARB_LOST_CODE: u8 := 0x38
  const BUS_ERROR_CODE: u8 := 0x00

  datatype State = Ready | MasterReceive | MasterTransmit | SlaveReceive | SlaveTransmit

  /** The last write to TWCR: acknowledge, start, stop, and whether the interrupt stays on. */
  datatype Control = Control(ack: bool, start: bool, stop: bool, interrupt: bool)

  const REPLY_ACK := Control(true, false, false, true)
  const REPLY_NACK := Control(false, false, false, true)
  const STOP := Control(true, false, true, true)
  const START := Control(true, true, false, true)
  const REPEATED_START := Control(false, true, false, false)

  /** The TWI status codes. The bus below, with one master, raises none of the last three
      lines. */
  datatype Status =
    | StartSent
    | MtSlaAck | MtSlaNack | MtDataAck | MtDataNack
    | MrSlaAck | MrSlaNack | MrDataAck | MrDataNack
    | SrSlaAck | SrDataAck | SrDataNack | SrStop
    | StSlaAck | StDataAck | StDataNack | StLastData
    | SrGcallAck | SrGcallDataAck | SrGcallDataNack
    | ArbLost | SrArbLostSlaAck | SrArbLostGcallAck | StArbLostSlaAck
    | NoInfo | BusError
  {
    predicate OfMaster() {
      StartSent? || MtSlaAck? || MtSlaNack? || MtDataAck? || MtDataNack? || ArbLost? ||
      MrSlaAck? || MrSlaNack? || MrDataAck? || MrDataNack?
    }

    predicate OfSlave() { !OfMaster() && !NoInfo? && !BusError? }
  }

  /** The variables of twi.c, the data register, and what the callbacks exchange with
      the program: `received` are the messages handed over so far, `queue` what the
      transmit callback will pass to twi_transmit, call by call. */
  datatype Dev = Dev(
    state: State, slarw: u8, sendStop: bool, inRepStart: bool, error: u8,
    masterBuffer: seq<u8>, masterIndex: nat, masterLength: nat,
    txBuffer: seq<u8>, txIndex: nat, txLength: nat,
    rxBuffer: seq<u8>, rxIndex: nat,
    twdr: u8, ctl: Control, address: u8,
    received: seq<seq<u8>>, queue: seq<seq<u8>>)
  {
    predicate Shaped() {
      && |masterBuffer| == |txBuffer| == |rxBuffer| == TWI_BUFFER_LENGTH
      && masterLength <= TWI_BUFFER_LENGTH && txLength <= TWI_BUFFER_LENGTH && rxIndex <= TWI_BUFFER_LENGTH
    }

    /** The interrupt can be handled without leaving a buffer. Nothing in the handler
        checks the indices concerned, so the protocol has to keep them in range. */
    predicate Handles(st: Status) {
      && Shaped()
      && ((st.MrDataAck? || st.MrDataNack?) ==> masterIndex < TWI_BUFFER_LENGTH)
      && (st.StDataAck? ==> txIndex < TWI_BUFFER_LENGTH)
    }
  }

  /** What twi_transmit leaves of the queued bytes: a call that does not fit is refused. */
  function Accepted(sent: seq<u8>, calls: seq<seq<u8>>): (r: seq<u8>)
    requires |sent| <= TWI_BUFFER_LENGTH
    ensures |r| <= TWI_BUFFER_LENGTH && sent <= r
  {
    if calls == [] then sent
    else
      var r := Accepted(sent, calls[..|calls| - 1]);
      var data := calls[|calls| - 1];
      if |r| + |data| > TWI_BUFFER_LENGTH then r else r + data
  }

  /** The bytes a slave answers with: one zero if its callback queued none. */
  function Answer(calls: seq<seq<u8>>): (r: seq<u8>)
    ensures 1 <= |r| <= TWI_BUFFER_LENGTH
  {
    var a := Accepted([], calls);
    if a == [] then [0] else a
  }

  /** The buffer with `data` stored at its start. */
  function Stored(buffer: seq<u8>, data: seq<u8>): seq<u8>
    requires |data| <= |buffer|
  {
    data + buffer[|data|..]
  }

  function EndTransfer(d: Dev): Dev {
    if d.sendStop then d.(ctl := STOP, state := Ready)
    else d.(inRepStart := true, ctl := REPEATED_START, state := Ready)
  }

  function ReadReply(d: Dev): Dev {
    d.(ctl := if d.masterIndex < d.masterLength then REPLY_ACK else REPLY_NACK)
  }

  function SendNext(d: Dev): Dev
    requires d.Shaped() && d.txIndex < TWI_BUFFER_LENGTH
  {
    d.(twdr := d.txBuffer[d.txIndex], txIndex := d.txIndex + 1,
       ctl := if d.txIndex + 1 < d.txLength then REPLY_ACK else REPLY_NACK)
  }

  function StoreRead(d: Dev): Dev
    requires d.Shaped() && d.masterIndex < TWI_BUFFER_LENGTH
  {
    d.(masterBuffer := d.masterBuffer[d.masterIndex := d.twdr], masterIndex := d.masterIndex + 1)
  }

  /** ISR(TWI_vect). */
  function Isr(d: Dev, st: Status): Dev
    requires d.Handles(st)
  {
    match st
    case StartSent => d.(twdr := d.slarw, ctl := REPLY_ACK)
    case MtSlaAck => WriteNext(d)
    case MtDataAck => WriteNext(d)
    case MtSlaNack => d.(error := MT_SLA_NACK_CODE, ctl := STOP, state := Ready)
    case MtDataNack => d.(error := MT_DATA_NACK_CODE, ctl := STOP, state := Ready)
    case MrSlaAck => ReadReply(d)
    case MrDataAck => ReadReply(StoreRead(d))
    case MrDataNack => EndTransfer(StoreRead(d))
    case MrSlaNack => d.(ctl := STOP, state := Ready)
    case SrSlaAck | SrGcallAck | SrArbLostSlaAck | SrArbLostGcallAck =>
      d.(state := SlaveReceive, rxIndex := 0, ctl := REPLY_ACK)
    case SrDataAck | SrGcallDataAck =>
      if d.rxIndex < TWI_BUFFER_LENGTH
      then d.(rxBuffer := d.rxBuffer[d.rxIndex := d.twdr], rxIndex := d.rxIndex + 1, ctl := REPLY_ACK)
      else d.(ctl := REPLY_NACK)
    case SrStop =>
      var buffer := if d.rxIndex < TWI_BUFFER_LENGTH then d.rxBuffer[d.rxIndex := 0] else d.rxBuffer;
      d.(ctl := REPLY_ACK, state := Ready, rxBuffer := buffer,
         received := d.received + [buffer[..d.rxIndex]], rxIndex := 0)
    case SrDataNack | SrGcallDataNack => d.(ctl := REPLY_NACK)
    case StSlaAck | StArbLostSlaAck =>
      var a := Answer(d.queue);
      SendNext(d.(state := SlaveTransmit, txIndex := 0, txLength := |a|, txBuffer := Stored(d.txBuffer, a)))
    case StDataAck => SendNext(d)
    case StDataNack => d.(ctl := REPLY_ACK, state := Ready)
    case StLastData => d.(ctl := REPLY_ACK, state := Ready)
    case ArbLost => d.(error := ARB_LOST_CODE, ctl := REPLY_ACK, state := Ready)
    case NoInfo => d
    case BusError => d.(error := BUS_ERROR_CODE, ctl := STOP, state := Ready)
  }

  lemma IsrShaped(d: Dev, st: Status)
    requires d.Handles(st)
    ensures Isr(d, st).Shaped()
  {}

  function WriteNext(d: Dev): Dev
    requires d.Shaped()
  {
    if d.masterIndex < d.masterLength
    then d.(twdr := d.masterBuffer[d.masterIndex], masterIndex := d.masterIndex + 1, ctl := REPLY_ACK)
    else EndTransfer(d)
  }

  // ---- the bus ----

  /** Where the bus is: free; a start condition has been sent; the address byte comes
      next; data goes to the slave; data comes from the slave, which may have ended its
      part already and leave the line high; or a repeated start holds the bus. */
  datatype Phase = Free | Address | Writing | Reading(driven: bool) | Held

  /** `acks` records the acknowledge bits of the bytes the master received. */
  datatype Net = Net(m: Dev, s: Dev, phase: Phase, acks: seq<bool>)

  predicate Addressed(n: Net) { n.m.twdr / 2 == n.s.address && n.s.ctl.ack }

  predicate CanStep(n: Net) {
    match n.phase
    case Free => n.m.Handles(StartSent)
    case Held => true
    case Address => n.m.Handles(MtSlaAck) && n.s.Handles(StSlaAck)
    case Writing => n.m.Handles(MtDataAck) && n.s.Handles(SrDataAck)
    case Reading(driven) => n.m.Handles(MrDataAck) && (driven && n.s.ctl.ack ==> n.s.Handles(StDataAck)) && n.s.Shaped()
  }

  /** The next thing that happens on the bus: a condition or a byte with its
      acknowledge bit, and the interrupts that follow, first the slave's. */
  function BusStep(n: Net): Net
    requires CanStep(n)
  {
    match n.phase
    case Free => if n.m.ctl.start then n.(m := Isr(n.m, StartSent), phase := Address) else n
    case Held => n
    case Address =>
      var read := n.m.twdr % 2 == 1;
      if !Addressed(n) then n.(m := Isr(n.m, if read then MrSlaNack else MtSlaNack), phase := Free)
      else if read then n.(s := Isr(n.s, StSlaAck), m := Isr(n.m, MrSlaAck), phase := Reading(true))
      else AfterWrite(n.(s := Isr(n.s, SrSlaAck), m := Isr(n.m, MtSlaAck), phase := Writing))
    case Writing =>
      var s := n.s.(twdr := n.m.twdr);
      if s.ctl.ack then AfterWrite(n.(s := Isr(s, SrDataAck), m := Isr(n.m, MtDataAck)))
      else AfterWrite(n.(s := Isr(s, SrDataNack), m := Isr(n.m, MtDataNack)))
    case Reading(driven) =>
      var m := n.m.(twdr := if driven then n.s.twdr else 0xFF);
      var ack := m.ctl.ack;
      var s := if !driven then n.s
               else if !ack then Isr(n.s, StDataNack)
               else if n.s.ctl.ack then Isr(n.s, StDataAck) else Isr(n.s, StLastData);
      var m' := Isr(m, if ack then MrDataAck else MrDataNack);
      Net(m', s, if !ack then (if m'.ctl.stop then Free else Held)
                 else Reading(driven && n.s.ctl.ack), n.acks + [ack])
  }

  /** A stop or a repeated start of the master ends the slave's reception. */
  function AfterWrite(n: Net): Net
    requires n.s.Shaped()
  {
    if n.m.ctl.stop then n.(s := Isr(n.s, SrStop), phase := Free)
    else if n.m.ctl.start then n.(s := Isr(n.s, SrStop), phase := Held)
    else n
  }
}
