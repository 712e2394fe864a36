/** Arduino/SPI.h: the pipelined block transfer, and the choice of the clock divider. */
module Spi {
  import opened Words

  /** What a peripheral in state `s` does with the bytes `out`, one after the other: its
      state after them and the bytes it answers. */
  function Talk<S>(exchange: (S, u8) -> (S, u8), s: S, out: seq<u8>): (r: (S, seq<u8>))
    ensures |r.1| == |out|
  {
    if out == [] then (s, [])
    else
      var last := |out| - 1;
      var before := Talk(exchange, s, out[..last]);
      var (s', answer) := exchange(before.0, out[last]);
      (s', before.1 + [answer])
  }

  /** The SPI hardware and the peripheral at its other end. */
  class SpiBus<S> {
    const exchange: (S, u8) -> (S, u8)
    var peripheral: S
    var data: u8         // what SPDR reads as
    var shifting: bool   // SPIF is still clear
    ghost var sent: seq<u8>

    constructor (exchange: (S, u8) -> (S, u8), s: S)
      ensures this.exchange == exchange && peripheral == s && !shifting && sent == []
    {
      this.exchange, peripheral := exchange, s;
      data, shifting, sent := 0, false, [];
    }

    /** SPDR = out; must not happen while a byte is being shifted. */
    method WriteData(out: u8)
      requires !shifting
      modifies this
      ensures shifting && sent == old(sent) + [out]
      ensures (peripheral, data) == exchange(old(peripheral), out)
    {
      var r := exchange(peripheral, out);
      peripheral, data, shifting := r.0, r.1, true;
      sent := sent + [out];
    }

    /** while (!(SPSR & _BV(SPIF))); and the reading of SPDR. */
    method WaitAndRead() returns (r: u8)
      requires shifting
      modifies this`shifting
      ensures !shifting && r == data
    {
      shifting := false;
      r := data;
    }

    /** transfer(uint8_t). */
    method TransferByte(out: u8) returns (r: u8)
      requires !shifting
      modifies this
      ensures !shifting && sent == old(sent) + [out]
      ensures (peripheral, r) == exchange(old(peripheral), out)
    {
      WriteData(out);
      r := WaitAndRead();
    }

    /** transfer(void*, size_t): each byte is fetched while the one before it is shifted,
        and each answer is stored while the next byte is shifted. */
    method Transfer(buf: array<u8>)
      requires !shifting
      modifies this, buf
      ensures !shifting && sent == old(sent) + old(buf[..])
      ensures (peripheral, buf[..]) == Talk(exchange, old(peripheral), old(buf[..]))
    {
      var count := buf.Length;
      if count == 0 {
        return;
      }
      ghost var out, s := buf[..], peripheral;
      var p := 0;
      assert out[..1] == [out[0]] && out[..1][..0] == [];
      WriteData(buf[p]);
      count := count - 1;
      while count > 0
        invariant p + count == |out| - 1 && 0 <= p < |out|
        invariant shifting && sent == old(sent) + out[..p + 1]
        invariant var r := Talk(exchange, s, out[..p + 1]);
                  peripheral == r.0 && data == r.1[p] && forall k :: 0 <= k < p ==> buf[k] == r.1[k]
        invariant forall k :: p <= k < |out| ==> buf[k] == out[k]
        decreases count
      {
        var next := buf[p + 1];
        var answer := WaitAndRead();
        assert out[..p + 2][..p + 1] == out[..p + 1] && out[..p + 2] == out[..p + 1] + [next];
        WriteData(next);
        buf[p] := answer;
        p := p + 1;
        count := count - 1;
      }
      assert out[..p + 1] == out;
      var answer := WaitAndRead();
      buf[p] := answer;
      assert buf[..] == Talk(exchange, s, out).1;
    }

    /** The simple form: one byte after the other. Its contract is that of `Transfer`. */
    method TransferEach(buf: array<u8>)
      requires !shifting
      modifies this, buf
      ensures !shifting && sent == old(sent) + old(buf[..])
      ensures (peripheral, buf[..]) == Talk(exchange, old(peripheral), old(buf[..]))
    {
      ghost var out, s := buf[..], peripheral;
      for p := 0 to buf.Length
        invariant !shifting && sent == old(sent) + out[..p]
        invariant var r := Talk(exchange, s, out[..p]);
                  peripheral == r.0 && forall k :: 0 <= k < p ==> buf[k] == r.1[k]
        invariant forall k :: p <= k < |out| ==> buf[k] == out[k]
      {
        assert out[..p + 1][..p] == out[..p] && out[..p + 1] == out[..p] + [out[p]];
        buf[p] := TransferByte(buf[p]);
      }
      assert out[..buf.Length] == out;
      assert buf[..] == Talk(exchange, s, out).1;
    }
  }

  // ---- the clock divider ----

  const F_CPU := 16_000_000

  /** The cascade that the compiler uses for a constant clock. */
  function Cascade(clock: u32): (d: nat)
    ensures d <= 6
  {
    if clock >= F_CPU / 2 then 0 else if clock >= F_CPU / 4 then 1 else if clock >= F_CPU / 8 then 2
    else if clock >= F_CPU / 16 then 3 else if clock >= F_CPU / 32 then 4 else if clock >= F_CPU / 64 then 5 else 6
  }

  const DIVIDERS: seq<int> := [2, 4, 8, 16, 32, 64, 128]

  /** The loop for other clocks finds the same divider. */
  method ClockDivider(clock: u32) returns (clockDiv: nat)
    ensures clockDiv == Cascade(clock)
  {
    var clockSetting := F_CPU / 2;
    clockDiv := 0;
    while clockDiv < 6 && clock < clockSetting
      invariant 0 <= clockDiv <= 6
      invariant clockSetting == F_CPU / DIVIDERS[clockDiv]
      invariant clockDiv > 0 ==> clock < F_CPU / DIVIDERS[clockDiv - 1]
    {
      clockSetting := clockSetting / 2;
      clockDiv := clockDiv + 1;
    }
  }

  /** The packing into the registers: the SPR bits and SPI2X. */
  function Packed(clockDiv: nat): (nat, bool)
    requires clockDiv <= 6
  {
    var d := if clockDiv == 6 then 7 else clockDiv;
    var inverted := if d % 2 == 0 then d + 1 else d - 1;  // ^= 1
    (inverted / 2, inverted % 2 == 1)
  }

  /** The frequency the hardware makes of the registers: SPI2X halves the divider. */
  function Frequency(spr: nat, spi2x: bool): nat
    requires spr < 4
  {
    F_CPU / (if spi2x then [2, 8, 32, 64][spr] else [4, 16, 64, 128][spr])
  }

  /** The registers select the fastest clock that is not above the requested one, and
      the slowest there is when all are above it. */
  lemma FastestNotAbove(clock: u32, spr: nat, spi2x: bool)
    requires spr < 4
    ensures var (r, x) := Packed(Cascade(clock));
            && r < 4
            && (Frequency(spr, spi2x) <= clock ==> Frequency(spr, spi2x) <= Frequency(r, x) <= clock)
            && (clock < F_CPU / 128 ==> Frequency(r, x) == F_CPU / 128)
  {}
}
