/** Fixed-width unsigned integers of the firmware. Every place where the C code
    truncates or wraps is written out with one of the `Wrap` functions. */
module Words {
  type u8 = x: int | 0 <= x < 0x100
  type u16 = x: int | 0 <= x < 0x1_0000
  type u32 = x: int | 0 <= x < 0x1_0000_0000

  function Wrap8(x: int): u8 { x % 0x100 }

  function Wrap16(x: int): u16 { x % 0x1_0000 }

  function Wrap32(x: int): u32 { x % 0x1_0000_0000 }

  lemma AddMultiple(a: nat, n: nat)
    ensures Wrap32(a + n * 0x1_0000_0000) == Wrap32(a)
  {}
}
