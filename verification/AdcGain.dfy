/** Gain control of Hardware/MX7705.cpp: a read-modify-write of the setup register over
    a bus on which every access takes two phases. */
module AdcGain {
  import opened Bits

  const SETUP_REG: bv8 := 1
  const PGA_MASK: bv8 := 7
  const PGA_OFFSET := 3

  /** An access announced through the communications register. */
  datatype Access = None | Next(register: bv8, channel: bv8, read: bool)

  /** The converter: a write to the communications register announces the access that
      the following byte performs. */
  class Mx7705 {
    var registers: map<(bv8, bv8), bv8>   // by register and channel
    var access: Access

    constructor (registers: map<(bv8, bv8), bv8>)
      ensures this.registers == registers && access == None
    {
      this.registers, access := registers, None;
    }

    method Transfer(sent: bv8) returns (received: bv8)
      modifies this
      ensures old(access) == None ==>
                && registers == old(registers) && received == 0
                && access == Next(BitExtract(sent, 7, 4), BitExtract(sent, 3, 0), BitRead(sent, 3))
      ensures old(access) != None ==>
                && access == None
                && var at := (old(access).register, old(access).channel);
                   if old(access).read then received == Lookup(old(registers), at) && registers == old(registers)
                   else received == 0 && registers == old(registers)[at := sent]
    {
      received := 0;
      match access {
        case None =>
          access := Next(BitExtract(sent, 7, 4), BitExtract(sent, 3, 0), BitRead(sent, 3));
        case Next(register, channel, read) =>
          if read {
            received := Lookup(registers, (register, channel));
          } else {
            registers := registers[(register, channel) := sent];
          }
          access := None;
      }
    }
  }

  function Lookup(registers: map<(bv8, bv8), bv8>, at: (bv8, bv8)): bv8 {
    if at in registers then registers[at] else 0
  }

  /** RequestRegCommand. */
  function RequestRegCommand(register: bv8, channel: bv8, readOp: bool): bv8 {
    BitWrite(BitInsert(BitInsert(0, register, 7, 4), channel, 3, 0), 3, readOp)
  }

  /** The converter decodes what the driver encodes. */
  lemma CommandRoundTrip(register: bv8, channel: bv8, readOp: bool)
    requires register < 8
    ensures var c := RequestRegCommand(register, channel, readOp);
            && BitExtract(c, 7, 4) == register && BitExtract(c, 3, 0) == channel & 3 && BitRead(c, 3) == readOp
            && c < 128
  {}

  // ---- gains ----

  function GainOf(setup: bv8): bv8 { BitExtract(setup, PGA_MASK, PGA_OFFSET) }

  function WithGain(setup: bv8, gain: bv8): bv8 { BitInsert(setup, gain, PGA_MASK, PGA_OFFSET) }

  lemma GainBits(setup: bv8, gain: bv8)
    ensures GainOf(setup) <= 7
    ensures gain <= 7 ==> GainOf(WithGain(setup, gain)) == gain
    ensures BitDelete(WithGain(setup, gain), PGA_MASK, PGA_OFFSET) == BitDelete(setup, PGA_MASK, PGA_OFFSET)
    ensures WithGain(setup, GainOf(setup)) == setup
    ensures WithGain(WithGain(setup, GainOf(setup)), gain) == WithGain(setup, gain)
  {}

  datatype GainCommand = Set(gain: bv8) | Increment | Decrement

  /** A walk that saturates in 0..7 and ignores settings above 7. */
  function Walk(gain: bv8, c: GainCommand): bv8 {
    match c
    case Set(g) => if g > 7 then gain else g
    case Increment => if gain < 7 then gain + 1 else 7
    case Decrement => if gain > 0 then gain - 1 else 0
  }

  function WalkAll(gain: bv8, cs: seq<GainCommand>): bv8 {
    if cs == [] then gain else Walk(WalkAll(gain, cs[..|cs| - 1]), cs[|cs| - 1])
  }

  /** What is left of the registers when the channel's gain becomes `gain`: all other
      bits, and all other registers, stay. */
  ghost predicate OnlyGain(before: map<(bv8, bv8), bv8>, after: map<(bv8, bv8), bv8>, channel: bv8, gain: bv8) {
    var at := (SETUP_REG, channel & 3);
    && (forall k :: k != at ==> Lookup(after, k) == Lookup(before, k))
    && Lookup(after, at) == WithGain(Lookup(before, at), gain)
  }

  class Driver {
    const adc: Mx7705

    constructor (adc: Mx7705)
      ensures this.adc == adc
    {
      this.adc := adc;
    }

    method Write(sendByte: bv8)
      requires adc.access == None || !adc.access.read
      modifies adc
      ensures old(adc.access) == None ==>
                && adc.registers == old(adc.registers)
                && adc.access == Next(BitExtract(sendByte, 7, 4), BitExtract(sendByte, 3, 0), BitRead(sendByte, 3))
      ensures old(adc.access) != None ==>
                && adc.access == None
                && adc.registers == old(adc.registers)[(old(adc.access).register, old(adc.access).channel) := sendByte]
    {
      var _ := adc.Transfer(sendByte);
    }

    method ReadByte() returns (r: bv8)
      requires adc.access != None && adc.access.read
      modifies adc
      ensures adc.access == None && adc.registers == old(adc.registers)
      ensures r == Lookup(adc.registers, (old(adc.access).register, old(adc.access).channel))
    {
      r := adc.Transfer(0);
    }

    /** The setup register of the channel, whatever else it holds. */
    method ReadSetup(channel: bv8) returns (setup: bv8)
      requires adc.access == None
      modifies adc
      ensures adc.access == None && adc.registers == old(adc.registers)
      ensures setup == Lookup(adc.registers, (SETUP_REG, channel & 3))
    {
      CommandRoundTrip(SETUP_REG, channel, true);
      Write(RequestRegCommand(SETUP_REG, channel, true));
      setup := ReadByte();
    }

    method GetGain(channel: bv8) returns (gain: bv8)
      requires adc.access == None
      modifies adc
      ensures adc.access == None && adc.registers == old(adc.registers)
      ensures gain == GainOf(Lookup(adc.registers, (SETUP_REG, channel & 3)))
    {
      var setupRegister := ReadSetup(channel);
      gain := BitExtract(setupRegister, PGA_MASK, PGA_OFFSET);
    }

    method SetGain(requiredGain: bv8, channel: bv8)
      requires adc.access == None
      modifies adc
      ensures adc.access == None
      ensures var g := GainOf(Lookup(old(adc.registers), (SETUP_REG, channel & 3)));
              OnlyGain(old(adc.registers), adc.registers, channel, Walk(g, Set(requiredGain)))
    {
      ghost var setup := Lookup(adc.registers, (SETUP_REG, channel & 3));
      GainBits(setup, requiredGain);
      if requiredGain > PGA_MASK {
      } else {
        var setupRegPrev := ReadSetup(channel);
        var setupRegNew := BitInsert(setupRegPrev, requiredGain, PGA_MASK, PGA_OFFSET);
        CommandRoundTrip(SETUP_REG, channel, false);
        Write(RequestRegCommand(SETUP_REG, channel, false));
        Write(setupRegNew);
      }
    }

    /** At 7 the incremented gain is refused, so the gain saturates. */
    method IncrementGain(channel: bv8)
      requires adc.access == None
      modifies adc
      ensures adc.access == None
      ensures var g := GainOf(Lookup(old(adc.registers), (SETUP_REG, channel & 3)));
              OnlyGain(old(adc.registers), adc.registers, channel, Walk(g, Increment))
    {
      var gain := GetGain(channel);
      GainBits(Lookup(adc.registers, (SETUP_REG, channel & 3)), 0);
      gain := gain + 1;
      SetGain(gain, channel);
    }

    /** At 0 the decremented gain wraps to 255 and is refused. */
    method DecrementGain(channel: bv8)
      requires adc.access == None
      modifies adc
      ensures adc.access == None
      ensures var g := GainOf(Lookup(old(adc.registers), (SETUP_REG, channel & 3)));
              OnlyGain(old(adc.registers), adc.registers, channel, Walk(g, Decrement))
    {
      var gain := GetGain(channel);
      GainBits(Lookup(adc.registers, (SETUP_REG, channel & 3)), 0);
      gain := gain - 1;
      SetGain(gain, channel);
    }

    method Command(channel: bv8, c: GainCommand)
      requires adc.access == None
      modifies adc
      ensures adc.access == None
      ensures OnlyGain(old(adc.registers), adc.registers, channel, Walk(GainAt(old(adc.registers), channel & 3), c))
    {
      match c {
        case Set(g) => SetGain(g, channel);
        case Increment => IncrementGain(channel);
        case Decrement => DecrementGain(channel);
      }
    }

    /** Any sequence of gain commands to any channels, and then the gain of one of them. */
    method Execute(cs: seq<(bv8, GainCommand)>, asked: bv8) returns (gain: bv8)
      requires adc.access == None
      modifies adc
      ensures adc.access == None && Followed(old(adc.registers), adc.registers, cs)
      ensures gain == Walked(old(adc.registers), cs, asked & 3)
    {
      hide Followed, OnlyGain, Walked, Walk, Lookup, GainOf, WithGain;
      NothingFollowed(adc.registers);
      for i := 0 to |cs|
        invariant adc.access == None && Followed(old(adc.registers), adc.registers, cs[..i])
      {
        ghost var before := adc.registers;
        Command(cs[i].0, cs[i].1);
        FollowedStep(old(adc.registers), before, adc.registers, cs[..i], cs[i].0, cs[i].1);
        assert cs[..i + 1] == cs[..i] + [cs[i]];
      }
      assert cs[..|cs|] == cs;
      ReadsWalk(old(adc.registers), adc.registers, cs, asked & 3);
      gain := GetGain(asked);
    }
  }

  // ---- several channels ----

  function GainAt(registers: map<(bv8, bv8), bv8>, channel: bv8): bv8 {
    GainOf(Lookup(registers, (SETUP_REG, channel)))
  }

  /** The commands of a sequence that go to one channel. */
  function CommandsTo(cs: seq<(bv8, GainCommand)>, channel: bv8): seq<GainCommand> {
    if cs == [] then []
    else
      var c := cs[|cs| - 1];
      CommandsTo(cs[..|cs| - 1], channel) + if c.0 & 3 == channel then [c.1] else []
  }

  /** Where a channel's gain has walked: only its own commands move it. */
  function Walked(before: map<(bv8, bv8), bv8>, cs: seq<(bv8, GainCommand)>, channel: bv8): bv8 {
    WalkAll(GainAt(before, channel), CommandsTo(cs, channel))
  }

  predicate IsSetup(at: (bv8, bv8)) { at.0 == SETUP_REG && at.1 <= 3 }

  /** Every channel's gain has followed its walk; nothing else has changed. */
  ghost predicate Followed(before: map<(bv8, bv8), bv8>, after: map<(bv8, bv8), bv8>, cs: seq<(bv8, GainCommand)>) {
    forall at :: Lookup(after, at) ==
                 if IsSetup(at) then WithGain(Lookup(before, at), Walked(before, cs, at.1)) else Lookup(before, at)
  }

  lemma NothingFollowed(before: map<(bv8, bv8), bv8>)
    ensures Followed(before, before, [])
  {
    forall at | IsSetup(at) ensures WithGain(Lookup(before, at), Walked(before, [], at.1)) == Lookup(before, at) {
      GainBits(Lookup(before, at), 0);
    }
  }

  lemma OneMoreCommand(before: map<(bv8, bv8), bv8>, cs: seq<(bv8, GainCommand)>, to: bv8, c: GainCommand, channel: bv8)
    ensures Walked(before, cs + [(to, c)], channel) ==
              if to & 3 == channel then Walk(Walked(before, cs, channel), c) else Walked(before, cs, channel)
  {
    var more, sent := cs + [(to, c)], CommandsTo(cs, channel);
    assert more[..|cs|] == cs;
    assert (sent + [c])[..|sent|] == sent;
    assert sent + [] == sent;
  }

  lemma FollowedStep(before: map<(bv8, bv8), bv8>, middle: map<(bv8, bv8), bv8>, after: map<(bv8, bv8), bv8>,
                     cs: seq<(bv8, GainCommand)>, to: bv8, c: GainCommand)
    requires Followed(before, middle, cs) && OnlyGain(middle, after, to, Walk(GainAt(middle, to & 3), c))
    ensures Followed(before, after, cs + [(to, c)])
  {
    var setup, gain := (SETUP_REG, to & 3), Walked(before, cs, to & 3);
    WalkedStays(before, cs, to & 3);
    GainBits(Lookup(before, setup), gain);
    Rewritten(Lookup(before, setup), gain, Walk(gain, c));
    forall at
      ensures Lookup(after, at) == if IsSetup(at)
              then WithGain(Lookup(before, at), Walked(before, cs + [(to, c)], at.1))
                                   else Lookup(before, at)
    {
      OneMoreCommand(before, cs, to, c, at.1);
      hide Lookup, Walked, Walk, WithGain;
    }
  }

  lemma ReadsWalk(before: map<(bv8, bv8), bv8>, after: map<(bv8, bv8), bv8>, cs: seq<(bv8, GainCommand)>, channel: bv8)
    requires Followed(before, after, cs) && channel <= 3
    ensures GainAt(after, channel) == Walked(before, cs, channel)
  {
    WalkedStays(before, cs, channel);
    GainBits(Lookup(before, (SETUP_REG, channel)), Walked(before, cs, channel));
    hide Walked, GainOf, WithGain, Lookup;
  }

  lemma WalkedStays(before: map<(bv8, bv8), bv8>, cs: seq<(bv8, GainCommand)>, channel: bv8)
    ensures Walked(before, cs, channel) <= 7
  {
    GainBits(Lookup(before, (SETUP_REG, channel)), 0);
    WalkStays(GainAt(before, channel), CommandsTo(cs, channel));
  }

  /** Steps up end at 7 and steps down at 0; a setting is taken up to 7, and ignored above. */
  lemma WalkSaturates(gain: bv8, k: nat)
    requires gain as int <= 7
    ensures WalkAll(gain, seq(k, _ => Increment)) as int == if gain as int + k < 7 then gain as int + k else 7
    ensures WalkAll(gain, seq(k, _ => Decrement)) as int == if gain as int > k then gain as int - k else 0
    ensures forall g: bv8 :: Walk(gain, Set(g)) == if g <= 7 then g else gain
  {
    StepsUp(gain, k);
    StepsDown(gain, k);
    hide WalkAll;
  }

  lemma {:induction false} StepsUp(gain: bv8, k: nat)
    requires gain as int <= 7
    ensures WalkAll(gain, seq(k, _ => Increment)) as int == if gain as int + k < 7 then gain as int + k else 7
  {
    hide Walk;
    if k > 0 {
      StepsUp(gain, k - 1);
      assert seq(k, _ => Increment)[..k - 1] == seq(k - 1, _ => Increment);
      OneStep(WalkAll(gain, seq(k - 1, _ => Increment)));
    }
  }

  lemma {:induction false} StepsDown(gain: bv8, k: nat)
    requires gain as int <= 7
    ensures WalkAll(gain, seq(k, _ => Decrement)) as int == if gain as int > k then gain as int - k else 0
  {
    hide Walk;
    if k > 0 {
      StepsDown(gain, k - 1);
      assert seq(k, _ => Decrement)[..k - 1] == seq(k - 1, _ => Decrement);
      OneStep(WalkAll(gain, seq(k - 1, _ => Decrement)));
    }
  }

  lemma OneStep(gain: bv8)
    requires gain as int <= 7
    ensures Walk(gain, Increment) as int == if gain as int < 7 then gain as int + 1 else 7
    ensures Walk(gain, Decrement) as int == if gain as int > 0 then gain as int - 1 else 0
  {}

  lemma {:induction false} WalkStays(gain: bv8, cs: seq<GainCommand>)
    requires gain <= 7
    ensures WalkAll(gain, cs) <= 7
  {
    if cs != [] {
      WalkStays(gain, cs[..|cs| - 1]);
    }
  }

  lemma Rewritten(setup: bv8, first: bv8, second: bv8)
    ensures WithGain(WithGain(setup, first), second) == WithGain(setup, second)
  {}
}
