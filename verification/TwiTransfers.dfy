/** Whole transfers between a master and a slave that both run twi.c. */
module TwiTransfers {
  import opened Words
  import opened TwiSpec

  /** Both devices are ready, and the bus is free or held by a repeated start. */
  ghost predicate Idle(n: Net) {
    && n.m.Shaped() && n.s.Shaped()
    && n.m.state == Ready && n.s.state == Ready && n.s.ctl.ack
    && (if n.m.inRepStart then n.phase == Held else n.phase == Free)
  }

  // ---- what a transfer begins with ----

  /** The first part of twi_writeTo and twi_readFrom, up to the wait. */
  function Begin(d: Dev, state: State, slarw: u8, length: nat, sendStop: bool): Dev {
    Launched(Prepared(d, state, slarw, length, sendStop))
  }

  function Prepared(d: Dev, state: State, slarw: u8, length: nat, sendStop: bool): Dev {
    d.(state := state, sendStop := sendStop, error := NO_ERROR,
       masterIndex := 0, masterLength := length, slarw := slarw)
  }

  /** Sends the address at once after a repeated start, or a start condition first. */
  function Launched(d: Dev): Dev {
    if d.inRepStart then d.(inRepStart := false, twdr := d.slarw, ctl := REPLY_ACK) else d.(ctl := START)
  }

  /** Writing TWCR lets a held bus go on with the address byte. */
  function Released(p: Phase): Phase { if p == Held then Address else p }

  function BeginWrite(n: Net, address: u8, data: seq<u8>, sendStop: bool): Net
    requires n.m.Shaped() && |data| <= TWI_BUFFER_LENGTH && address < 0x80
  {
    n.(m := Begin(n.m, MasterTransmit, 2 * address, |data|, sendStop).(masterBuffer := Stored(n.m.masterBuffer, data)),
       phase := Released(n.phase))
  }

  function BeginRead(n: Net, address: u8, length: nat, sendStop: bool): Net
    requires 1 <= length && address < 0x80
  {
    n.(m := Begin(n.m, MasterReceive, 2 * address + 1, length - 1, sendStop), phase := Released(n.phase))
  }

  // ---- master to slave ----

  /** The slave as it is when it has received `data` so far, and not more than that. */
  ghost predicate HasReceived(s: Dev, s0: Dev, data: seq<u8>) {
    && s.Shaped() && s.state == SlaveReceive && s.ctl == REPLY_ACK
    && s.rxIndex == |data| && s.rxBuffer[..|data|] == data
    && s.received == s0.received && s.queue == s0.queue && s.address == s0.address
  }

  /** Byte `i` is on its way. */
  ghost predicate Sending(n: Net, s0: Dev, data: seq<u8>, i: nat) {
    && n.m.Shaped() && i < |data| <= TWI_BUFFER_LENGTH
    && n.phase == Writing && n.m.state == MasterTransmit && n.m.ctl == REPLY_ACK && n.m.error == NO_ERROR
    && n.m.masterLength == |data| && n.m.masterBuffer[..|data|] == data && !n.m.inRepStart
    && n.m.masterIndex == i + 1 && n.m.twdr == data[i]
    && HasReceived(n.s, s0, data[..i])
  }

  /** A stop has freed the bus, or a repeated start holds it, as the program wanted. */
  ghost predicate Ended(n: Net) { if n.m.sendStop then n.phase == Free else n.phase == Held }

  /** The transfer is over: the callback has had exactly `data`, in one message, and
      everything is as ready as before. */
  ghost predicate Written(n: Net, s0: Dev, data: seq<u8>) {
    && Idle(n) && n.m.error == NO_ERROR && Ended(n)
    && n.s.received == s0.received + [data] && n.s.queue == s0.queue && n.s.address == s0.address
  }

  /** The address byte is next on the bus. */
  ghost predicate Addressing(n: Net, state: State, slarw: u8) {
    && n.m.Shaped() && n.s.Shaped() && n.phase == Address
    && n.m.state == state && n.m.twdr == slarw && n.m.masterIndex == 0 && n.m.error == NO_ERROR
    && n.m.ctl == REPLY_ACK && !n.m.inRepStart && n.s.state == Ready && n.s.ctl.ack
  }

  lemma StartStep(n: Net)
    requires n.m.Shaped() && n.s.Shaped() && n.phase == Free && n.m.ctl == START
    ensures CanStep(n) && BusStep(n) == n.(m := n.m.(twdr := n.m.slarw, ctl := REPLY_ACK), phase := Address)
  {}

  /** The master goes on with byte `i`, or ends the transfer when there is none. */
  lemma WriteNextStep(n: Net, s0: Dev, data: seq<u8>, i: nat)
    requires n.m.Shaped() && i <= |data| <= TWI_BUFFER_LENGTH
    requires n.phase == Writing && n.m.state == MasterTransmit && n.m.error == NO_ERROR && !n.m.inRepStart
    requires n.m.masterLength == |data| && n.m.masterBuffer[..|data|] == data && n.m.masterIndex == i
    requires HasReceived(n.s, s0, data[..i])
    ensures var r := AfterWrite(n.(m := WriteNext(n.m)));
            if i < |data| then Sending(r, s0, data, i) else Written(r, s0, data)
  {
    if i < |data| {
      assert n.m.masterBuffer[..|data|][i] == data[i];
    } else {
      assert data[..i] == data;
      var buffer := if n.s.rxIndex < TWI_BUFFER_LENGTH then n.s.rxBuffer[n.s.rxIndex := 0] else n.s.rxBuffer;
      assert buffer[..i] == data;
    }
  }

  lemma AddressWriteStep(n: Net, data: seq<u8>)
    requires n.s.address < 0x80 && Addressing(n, MasterTransmit, 2 * n.s.address)
    requires n.m.masterLength == |data| <= TWI_BUFFER_LENGTH && n.m.masterBuffer[..|data|] == data
    ensures CanStep(n)
    ensures if |data| > 0 then Sending(BusStep(n), n.s, data, 0) else Written(BusStep(n), n.s, data)
  {
    WriteNextStep(n.(s := Isr(n.s, SrSlaAck), phase := Writing), n.s, data, 0);
  }

  lemma SendStep(n: Net, s0: Dev, data: seq<u8>, i: nat)
    requires Sending(n, s0, data, i)
    ensures CanStep(n)
    ensures if i + 1 < |data| then Sending(BusStep(n), s0, data, i + 1) else Written(BusStep(n), s0, data)
  {
    var s := Isr(n.s.(twdr := n.m.twdr), SrDataAck);
    assert s.rxBuffer[..i + 1] == data[..i + 1];
    WriteNextStep(n.(s := s), s0, data, i + 1);
  }

  /** Nobody answers: the master stops with the error, and no slave notices. */
  lemma AddressNackStep(n: Net, state: State, slarw: u8)
    requires Addressing(n, state, slarw) && slarw / 2 != n.s.address
    ensures CanStep(n)
    ensures var r := BusStep(n);
            && Idle(r) && r.s == n.s && r.m.masterIndex == 0
            && r.m.error == if slarw % 2 == 0 then MT_SLA_NACK_CODE else NO_ERROR
  {}

  /** The end that the program wants does not change on the way. */
  lemma KeepsEnding(n: Net)
    requires CanStep(n)
    ensures BusStep(n).m.sendStop == n.m.sendStop
  {}

  // ---- slave to master ----

  /** What `k` bytes read from a slave that answers `q` are: after its last byte the
      slave leaves the data line high. */
  function ReadBytes(q: seq<u8>, k: nat): (r: seq<u8>)
    ensures |r| == k
  {
    seq(k, i requires 0 <= i < k => if i < |q| then q[i] else 0xFF)
  }

  function Concat(calls: seq<seq<u8>>): seq<u8> {
    if calls == [] then [] else Concat(calls[..|calls| - 1]) + calls[|calls| - 1]
  }

  lemma {:induction false} AllAccepted(calls: seq<seq<u8>>)
    requires |Concat(calls)| <= TWI_BUFFER_LENGTH
    ensures Accepted([], calls) == Concat(calls)
  {
    if calls != [] {
      AllAccepted(calls[..|calls| - 1]);
    }
  }

  /** However many calls queue them, a read of no more than the queued bytes returns the
      first of them, in order. */
  lemma ReadsWhatIsQueued(calls: seq<seq<u8>>, k: nat)
    requires 1 <= k <= |Concat(calls)| <= TWI_BUFFER_LENGTH
    ensures ReadBytes(Answer(calls), k) == Concat(calls)[..k]
  {
    AllAccepted(calls);
  }

  /** The slave's side of byte `i`: on its way, or past the end of what it has. */
  ghost predicate Answering(s: Dev, s0: Dev, q: seq<u8>, i: nat, driven: bool) {
    && s.Shaped() && driven == (i < |q|)
    && s.received == s0.received && s.queue == s0.queue && s.address == s0.address && s.rxIndex == s0.rxIndex
    && (driven ==>
          && s.state == SlaveTransmit && s.twdr == q[i] && s.txIndex == i + 1 && s.txLength == |q|
          && s.txBuffer[..|q|] == q && s.ctl == if i + 1 < |q| then REPLY_ACK else REPLY_NACK)
    && (!driven ==> s.state == Ready && s.ctl == REPLY_ACK)
  }

  /** `i` of `length` bytes have been read; all but the last are acknowledged. */
  ghost predicate Receiving(n: Net, s0: Dev, acks0: seq<bool>, q: seq<u8>, length: nat, i: nat) {
    && n.m.Shaped() && i < length <= TWI_BUFFER_LENGTH && 1 <= |q| <= TWI_BUFFER_LENGTH
    && n.phase.Reading? && n.m.state == MasterReceive && n.m.error == NO_ERROR && !n.m.inRepStart
    && n.m.masterLength == length - 1 && n.m.masterIndex == i && n.m.masterBuffer[..i] == ReadBytes(q, i)
    && n.m.ctl == (if i < length - 1 then REPLY_ACK else REPLY_NACK)
    && n.acks == acks0 + seq(i, _ => true)
    && Answering(n.s, s0, q, i, n.phase.driven)
  }

  ghost predicate Read(n: Net, s0: Dev, acks0: seq<bool>, q: seq<u8>, length: nat) {
    && Idle(n) && n.m.error == NO_ERROR && Ended(n) && n.m.masterIndex == length && 1 <= length <= TWI_BUFFER_LENGTH
    && n.m.masterBuffer[..length] == ReadBytes(q, length)
    && n.acks == acks0 + seq(length - 1, _ => true) + [false]
    && n.s.received == s0.received && n.s.queue == s0.queue && n.s.address == s0.address
  }

  lemma AddressReadStep(n: Net, length: nat)
    requires n.s.address < 0x80 && Addressing(n, MasterReceive, 2 * n.s.address + 1)
    requires 1 <= length <= TWI_BUFFER_LENGTH && n.m.masterLength == length - 1
    ensures CanStep(n) && Receiving(BusStep(n), n.s, n.acks, Answer(n.s.queue), length, 0)
  {
    var q := Answer(n.s.queue);
    assert Stored(n.s.txBuffer, q)[..|q|] == q;
    assert Stored(n.s.txBuffer, q)[0] == q[0];
  }

  /** The slave's side of one step. */
  lemma AnswerStep(s: Dev, s0: Dev, q: seq<u8>, i: nat, driven: bool, ack: bool)
    requires Answering(s, s0, q, i, driven) && |q| <= TWI_BUFFER_LENGTH
    ensures driven && s.ctl.ack ==> s.Handles(StDataAck)
    ensures var s' := if !driven then s else if !ack then Isr(s, StDataNack)
                      else if s.ctl.ack then Isr(s, StDataAck) else Isr(s, StLastData);
            && (ack ==> Answering(s', s0, q, i + 1, driven && s.ctl.ack))
            && (!ack ==>
                  && s'.Shaped() && s'.state == Ready && s'.ctl.ack
                  && s'.received == s0.received && s'.queue == s0.queue && s'.address == s0.address)
  {
    if driven && i + 1 < |q| {
      assert s.txBuffer[..|q|][i + 1] == q[i + 1];
    }
  }

  /** The master's side of one step. */
  lemma StoreStep(m: Dev, q: seq<u8>, i: nat)
    requires m.Shaped() && m.masterIndex == i < TWI_BUFFER_LENGTH
    requires m.masterBuffer[..i] == ReadBytes(q, i) && m.twdr == if i < |q| then q[i] else 0xFF
    ensures var r := StoreRead(m); r.masterIndex == i + 1 && r.masterBuffer[..i + 1] == ReadBytes(q, i + 1)
  {
    var b := m.masterBuffer[i := m.twdr];
    assert b[..i + 1] == b[..i] + [m.twdr];
    assert b[..i] == m.masterBuffer[..i];
    assert ReadBytes(q, i + 1) == ReadBytes(q, i) + [m.twdr];
  }

  lemma ReceiveStep(n: Net, s0: Dev, acks0: seq<bool>, q: seq<u8>, length: nat, i: nat)
    requires Receiving(n, s0, acks0, q, length, i)
    ensures CanStep(n)
    ensures if i + 1 < length then Receiving(BusStep(n), s0, acks0, q, length, i + 1)
            else Read(BusStep(n), s0, acks0, q, length)
  {
    var driven, ack := n.phase.driven, n.m.ctl.ack;
    AnswerStep(n.s, s0, q, i, driven, ack);
    var m := n.m.(twdr := if driven then n.s.twdr else 0xFF);
    StoreStep(m, q, i);
    assert acks0 + seq(i, _ => true) + [true] == acks0 + seq(i + 1, _ => true);
    hide ReadBytes, Answering;
  }

  // ---- the stages of the two waits ----

  /** The master has asked for the bus, or the address byte is next. */
  ghost predicate Starting(n: Net, state: State, slarw: u8) {
    || Addressing(n, state, slarw)
    || (&& n.m.Shaped() && n.s.Shaped() && n.phase == Free && n.m.ctl == START && n.m.state == state
        && n.m.slarw == slarw && n.m.masterIndex == 0 && n.m.error == NO_ERROR
        && !n.m.inRepStart && n.s.state == Ready && n.s.ctl.ack)
  }

  ghost predicate WriteStage(n: Net, s0: Dev, slave: u8, data: seq<u8>) {
    && |data| <= TWI_BUFFER_LENGTH && slave < 0x80
    && if n.m.state == MasterTransmit then
         || (&& Starting(n, MasterTransmit, 2 * slave) && n.s == s0
             && n.m.masterLength == |data| && n.m.masterBuffer[..|data|] == data)
         || (slave == s0.address && exists i :: 0 <= i < |data| && Sending(n, s0, data, i))
       else if slave == s0.address then Written(n, s0, data)
       else Idle(n) && n.s == s0 && n.m.error == MT_SLA_NACK_CODE
  }

  /** How many steps the wait still takes. */
  function WriteLeft(n: Net, data: seq<u8>): int {
    if n.m.state != MasterTransmit then 0
    else match n.phase
      case Free => |data| + 2
      case Address => |data| + 1
      case _ => |data| - n.s.rxIndex
  }

  lemma BegunWrite(n: Net, slave: u8, data: seq<u8>, sendStop: bool)
    requires Idle(n) && |data| <= TWI_BUFFER_LENGTH && slave < 0x80
    ensures WriteStage(BeginWrite(n, slave, data, sendStop), n.s, slave, data)
  {
    var b := BeginWrite(n, slave, data, sendStop);
    assert b.m.masterBuffer[..|data|] == data;
    assert Starting(b, MasterTransmit, 2 * slave);
  }

  lemma WriteStageStep(n: Net, s0: Dev, slave: u8, data: seq<u8>)
    requires WriteStage(n, s0, slave, data) && n.m.state == MasterTransmit && s0.address < 0x80
    ensures CanStep(n) && WriteStage(BusStep(n), s0, slave, data)
    ensures 0 <= WriteLeft(BusStep(n), data) < WriteLeft(n, data)
  {
    if n.phase == Free {
      StartStep(n);
    } else if n.phase == Address {
      if slave == s0.address {
        AddressWriteStep(n, data);
      } else {
        AddressNackStep(n, MasterTransmit, 2 * slave);
      }
    } else {
      var i :| 0 <= i < |data| && Sending(n, s0, data, i);
      SendStep(n, s0, data, i);
    }
  }

  lemma WriteStageEnds(n: Net, s0: Dev, slave: u8, data: seq<u8>)
    requires WriteStage(n, s0, slave, data) && n.m.state != MasterTransmit
    ensures if slave == s0.address then Written(n, s0, data) else Idle(n) && n.s == s0 && n.m.error == MT_SLA_NACK_CODE
  {}

  ghost predicate ReadStage(n: Net, s0: Dev, acks0: seq<bool>, slave: u8, length: nat) {
    && 1 <= length <= TWI_BUFFER_LENGTH && slave < 0x80
    && if n.m.state == MasterReceive then
         || (&& Starting(n, MasterReceive, 2 * slave + 1) && n.s == s0 && n.acks == acks0
             && n.m.masterLength == length - 1)
         || (slave == s0.address && exists i :: 0 <= i < length && Receiving(n, s0, acks0, Answer(s0.queue), length, i))
       else if slave == s0.address then Read(n, s0, acks0, Answer(s0.queue), length)
       else Idle(n) && n.s == s0 && n.m.masterIndex == 0
  }

  function ReadLeft(n: Net, length: nat): int {
    if n.m.state != MasterReceive then 0
    else match n.phase
      case Free => length + 2
      case Address => length + 1
      case _ => length - n.m.masterIndex
  }

  lemma BegunRead(n: Net, slave: u8, length: nat, sendStop: bool)
    requires Idle(n) && 1 <= length <= TWI_BUFFER_LENGTH && slave < 0x80
    ensures ReadStage(BeginRead(n, slave, length, sendStop), n.s, n.acks, slave, length)
  {
    assert Starting(BeginRead(n, slave, length, sendStop), MasterReceive, 2 * slave + 1);
  }

  lemma ReadStageStep(n: Net, s0: Dev, acks0: seq<bool>, slave: u8, length: nat)
    requires ReadStage(n, s0, acks0, slave, length) && n.m.state == MasterReceive && s0.address < 0x80
    ensures CanStep(n) && ReadStage(BusStep(n), s0, acks0, slave, length)
    ensures 0 <= ReadLeft(BusStep(n), length) < ReadLeft(n, length)
  {
    if n.phase == Free {
      StartStep(n);
    } else if n.phase == Address {
      if slave == s0.address {
        AddressReadStep(n, length);
      } else {
        AddressNackStep(n, MasterReceive, 2 * slave + 1);
      }
    } else {
      var i :| 0 <= i < length && Receiving(n, s0, acks0, Answer(s0.queue), length, i);
      ReceiveStep(n, s0, acks0, Answer(s0.queue), length, i);
    }
  }

  lemma ReadStageEnds(n: Net, s0: Dev, acks0: seq<bool>, slave: u8, length: nat)
    requires ReadStage(n, s0, acks0, slave, length) && n.m.state != MasterReceive
    ensures if slave == s0.address then Read(n, s0, acks0, Answer(s0.queue), length)
            else Idle(n) && n.s == s0 && n.m.masterIndex == 0
  {}
}
