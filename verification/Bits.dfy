/** The bit macros of Arduino/Arduino.h, on one byte. */
module Bits {
  function BitMask(bit: nat): bv8
    requires bit < 8
  {
    1 << bit
  }

  function BitRead(value: bv8, bit: nat): bool
    requires bit < 8
  {
    (value >> bit) & 1 == 1
  }

  function BitWrite(value: bv8, bit: nat, on: bool): bv8
    requires bit < 8
  {
    if on then value | BitMask(bit) else value & !BitMask(bit)
  }

  function BitDelete(value: bv8, mask: bv8, offset: nat): bv8
    requires offset < 8
  {
    value & !(mask << offset)
  }

  function BitInsert(value: bv8, insert: bv8, mask: bv8, offset: nat): bv8
    requires offset < 8
  {
    BitDelete(value, mask, offset) | ((insert & mask) << offset)
  }

  function BitExtract(value: bv8, mask: bv8, offset: nat): bv8
    requires offset < 8
  {
    (value >> offset) & mask
  }

  function BitCopy(dst: bv8, src: bv8, bit: nat): bv8
    requires bit < 8
  {
    BitWrite(dst, bit, BitRead(src, bit))
  }
}
