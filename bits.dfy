/** The bit test Dxyn applies to each sprite row, on integers and on 8-bit words. */
module Bits {
  import opened Consts

  /** Bit i of b, counting from the least significant. */
  predicate Bit(b: nat, i: nat)
  {
    if i == 0 then b % 2 == 1 else Bit(b / 2, i - 1)
  }

  /** Whether bit `col` (0 is the leftmost) of sprite row `b` is set: `b & (0x80 >> col)` is non-zero. */
  predicate SpriteBit(b: Byte, col: nat)
    requires col < 8
  {
    Bit(b, 7 - col)
  }

  /** Halving a byte is shifting it right by one; its low bit is its parity. */
  lemma HalfBits(w: bv8)
    ensures (w >> 1) as int == w as int / 2
    ensures (w & 1 != 0) == (w as int % 2 == 1)
  {
  }

  /** The single-bit mask `1 << i` of an 8-bit word. */
  function BitMask(i: nat): bv8
    requires i < 8
  {
    match i
    case 0 => 0x01 case 1 => 0x02 case 2 => 0x04 case 3 => 0x08
    case 4 => 0x10 case 5 => 0x20 case 6 => 0x40 case _ => 0x80
  }

  /** Bit agrees with masking an 8-bit word. */
  lemma {:induction false} BitOfWord(w: bv8, i: nat)
    requires i < 8
    ensures Bit(w as int, i) <==> w & BitMask(i) != 0
  {
    HalfBits(w);
    if i > 0 {
      BitOfWord(w >> 1, i - 1);
      assert ((w >> 1) & BitMask(i - 1) != 0) == (w & BitMask(i) != 0);
    }
  }

  /** BitMask(7 - col) is the source's `0x80u >> col`. */
  lemma ColumnMask(col: nat)
    requires col < 8
    ensures BitMask(7 - col) == 0x80 >> col as bv8
  {
  }

  /** SpriteBit is the source's test `spriteByte & (0x80u >> col)`. */
  lemma SpriteBitIsMask(w: bv8, col: nat)
    requires col < 8
    ensures SpriteBit(w as int, col) <==> w & (0x80 >> col as bv8) != 0
  {
    BitOfWord(w, 7 - col);
    ColumnMask(col);
  }

  /** The source's test `spriteByte & (0x80u >> col)`, on the 8-bit word. */
  function MaskBit(spriteByte: Byte, col: nat): (lit: bool)
    requires col < 8
    ensures lit <==> SpriteBit(spriteByte, col)
  {
    SpriteBitIsMask(spriteByte as bv8, col);
    spriteByte as bv8 & (0x80 >> col as bv8) != 0
  }
}
