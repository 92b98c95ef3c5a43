/** The fixed sizes, addresses and the font table of the CHIP-8 machine (chip8.h, chip8.cpp). */
module Consts {

  /** An unsigned 8-bit cell (`uint8_t`): a register, a memory cell, a timer, a keypad flag. */
  type Byte = x: int | 0 <= x < 0x100

  /** An unsigned 16-bit value (`uint16_t`): the index register, the program counter, a stack slot, an opcode. */
  type Word = x: int | 0 <= x < 0x1_0000

  /** Truncation of an integer to `uint8_t`, as a C++ store into an 8-bit cell does. */
  function Wrap8(v: int): Byte { v % 0x100 }

  /** Truncation of an integer to `uint16_t`, as a C++ store into a 16-bit cell does. */
  function Wrap16(v: int): Word { v % 0x1_0000 }

  const START_ADDRESS: Word := 0x200
  const FONTSET_START_ADDRESS: Word := 0x50
  const FONTSET_SIZE: nat := 80
  const DISPLAY_WIDTH: nat := 64
  const DISPLAY_HEIGHT: nat := 32
  const DISPLAY_SIZE: nat := DISPLAY_WIDTH * DISPLAY_HEIGHT

  const REGISTER_COUNT: nat := 16
  const MEMORY_SIZE: nat := 4096
  const STACK_SIZE: nat := 16
  const KEY_COUNT: nat := 16

  /** The flag register VF. */
  const VF: nat := 0xF

  /** An unsigned 32-bit display cell (`uint32_t`). */
  type U32 = x: int | 0 <= x < 0x1_0000_0000

  /** A fully set display cell; a clear cell is 0. */
  const PIXEL_ON: U32 := 0xFFFF_FFFF

  /** `v ^ 0xFFFFFFFF` on a `uint32_t`: every bit inverted, which is 0xFFFFFFFF - v. */
  function Toggle(v: U32): U32 { PIXEL_ON - v }

  /** Inverting every bit of a 32-bit word is subtracting it from all ones, as Toggle does. */
  lemma XorAllOnes(v: bv32)
    ensures v ^ 0xFFFF_FFFF == 0xFFFF_FFFF - v
  {
  }

  /** Glyphs for the hexadecimal digits 0..F, five rows of four pixels each. */
  const FONTSET: seq<Byte> := [
    0xF0, 0x90, 0x90, 0x90, 0xF0, // 0
    0x20, 0x60, 0x20, 0x20, 0x70, // 1
    0xF0, 0x10, 0xF0, 0x80, 0xF0, // 2
    0xF0, 0x10, 0xF0, 0x10, 0xF0, // 3
    0x90, 0x90, 0xF0, 0x10, 0x10, // 4
    0xF0, 0x80, 0xF0, 0x10, 0xF0, // 5
    0xF0, 0x80, 0xF0, 0x90, 0xF0, // 6
    0xF0, 0x10, 0x20, 0x40, 0x40, // 7
    0xF0, 0x90, 0xF0, 0x90, 0xF0, // 8
    0xF0, 0x90, 0xF0, 0x10, 0xF0, // 9
    0xF0, 0x90, 0xF0, 0x90, 0x90, // A
    0xE0, 0x90, 0xE0, 0x90, 0xE0, // B
    0xF0, 0x80, 0x80, 0x80, 0xF0, // C
    0xE0, 0x90, 0x90, 0x90, 0xE0, // D
    0xF0, 0x80, 0xF0, 0x80, 0xF0, // E
    0xF0, 0x80, 0xF0, 0x80, 0x80  // F
  ]
}
