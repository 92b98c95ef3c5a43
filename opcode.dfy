/**
 * Opcode fields and the handler tables of chip8.cpp.  A field extraction such as
 * `(opcode & 0x0F00u) >> 8u` is written with the standard identity for masking and
 * shifting an unsigned value, `opcode / 0x100 % 0x10` (no lemma here converts between
 * the two forms); the member-function-pointer tables become the match in Decode.
 */
module Opcode {
  import opened Consts

  /** The big-endian opcode `memory[pc] << 8 | memory[pc + 1]`. */
  function Combine(hi: Byte, lo: Byte): (op: Word)
    ensures Top(op) == hi / 0x10 && X(op) == hi % 0x10
    ensures LowByte(op) == lo && Y(op) == lo / 0x10 && N(op) == lo % 0x10
  {
    hi * 0x100 + lo
  }

  /** Bits 15..12: the primary dispatch key `(opcode & 0xF000u) >> 12u`. */
  function Top(op: Word): (r: nat)
    ensures r < 0x10
  {
    op / 0x1000
  }

  /** Bits 11..8: the register selector x. */
  function X(op: Word): (r: nat)
    ensures r < 0x10
  {
    op / 0x100 % 0x10
  }

  /** Bits 7..4: the register selector y. */
  function Y(op: Word): (r: nat)
    ensures r < 0x10
  {
    op / 0x10 % 0x10
  }

  /** Bits 3..0: the sprite height n, and the secondary key of prefixes 0x0, 0x8 and 0xE. */
  function N(op: Word): (r: nat)
    ensures r < 0x10
  {
    op % 0x10
  }

  /** Bits 7..0: the immediate byte kk, and the secondary key of prefix 0xF. */
  function LowByte(op: Word): (r: Byte)
    ensures r == Y(op) * 0x10 + N(op)
  {
    op % 0x100
  }

  /** Bits 11..0: the address nnn. */
  function Nnn(op: Word): (r: Word)
    ensures r < 0x1000
    ensures r == X(op) * 0x100 + LowByte(op)
  {
    op % 0x1000
  }

  /** The four nibbles give the opcode back. */
  lemma FieldsRecompose(op: Word)
    ensures op == Top(op) * 0x1000 + X(op) * 0x100 + Y(op) * 0x10 + N(op)
    ensures op == Top(op) * 0x1000 + Nnn(op)
  {
    var t, r := op / 0x1000, op % 0x1000;
    assert op == t * 0x1000 + r;
    var x, r2 := r / 0x100, r % 0x100;
    assert op / 0x100 == t * 0x10 + x;
    assert X(op) == x;
    var y, n := r2 / 0x10, r2 % 0x10;
    assert op / 0x10 == t * 0x100 + x * 0x10 + y;
    assert Y(op) == y && N(op) == n;
  }

  /** Conversely, the fields of an opcode built from four nibbles are those nibbles. */
  lemma NibblesDecode(t: nat, x: nat, y: nat, n: nat)
    requires t < 0x10 && x < 0x10 && y < 0x10 && n < 0x10
    ensures var op := t * 0x1000 + x * 0x100 + y * 0x10 + n;
      Top(op) == t && X(op) == x && Y(op) == y && N(op) == n
  {
    var hi, lo := t * 0x10 + x, y * 0x10 + n;
    assert hi / 0x10 == t && hi % 0x10 == x;
    assert lo / 0x10 == y && lo % 0x10 == n;
    assert Combine(hi, lo) == t * 0x1000 + x * 0x100 + y * 0x10 + n;
  }

  /** The handler a table slot names; Outside is an index past the end of the table. */
  datatype Handler =
    | H00E0 | H00EE | H1nnn | H2nnn | H3xkk | H4xkk | H5xy0 | H6xkk | H7xkk
    | H8xy0 | H8xy1 | H8xy2 | H8xy3 | H8xy4 | H8xy5 | H8xy6 | H8xy7 | H8xyE
    | H9xy0 | HAnnn | HBnnn | HCxkk | HDxyn | HEx9E | HExA1
    | HFx07 | HFx0A | HFx15 | HFx18 | HFx1E | HFx29 | HFx33 | HFx55 | HFx65
    | HNull
    | Outside

  /** The secondary table index: the low nibble for prefixes 0x0, 0x8 and 0xE, the low byte for 0xF. */
  function SecondaryKey(op: Word): (k: nat)
  {
    match Top(op)
    case 0x0 => N(op)
    case 0x8 => N(op)
    case 0xE => N(op)
    case 0xF => LowByte(op)
    case _ => 0
  }

  /** table0: 15 slots, 0x0 clears, 0xE returns, the rest are Op_NULL. */
  function Table0(key: nat): Handler
  {
    match key
    case 0x0 => H00E0
    case 0xE => H00EE
    case _ => if key <= 0xE then HNull else Outside
  }

  /** table8: 15 slots, 0x8 to 0xD are Op_NULL. */
  function Table8(key: nat): Handler
  {
    match key
    case 0x0 => H8xy0
    case 0x1 => H8xy1
    case 0x2 => H8xy2
    case 0x3 => H8xy3
    case 0x4 => H8xy4
    case 0x5 => H8xy5
    case 0x6 => H8xy6
    case 0x7 => H8xy7
    case 0xE => H8xyE
    case _ => if key <= 0xE then HNull else Outside
  }

  /** tableE: 15 slots, only 0x1 (ExA1) and 0xE (Ex9E) are assigned. */
  function TableE(key: nat): Handler
  {
    match key
    case 0x1 => HExA1
    case 0xE => HEx9E
    case _ => if key <= 0xE then HNull else Outside
  }

  /** tableF: 0x66 slots. */
  function TableF(key: nat): Handler
  {
    match key
    case 0x07 => HFx07
    case 0x0A => HFx0A
    case 0x15 => HFx15
    case 0x18 => HFx18
    case 0x1E => HFx1E
    case 0x29 => HFx29
    case 0x33 => HFx33
    case 0x55 => HFx55
    case 0x65 => HFx65
    case _ => if key <= 0x65 then HNull else Outside
  }

  /** The handler `Cycle` reaches for an opcode through `table` and the secondary tables. */
  function Decode(op: Word): Handler
  {
    match Top(op)
    case 0x0 => Table0(SecondaryKey(op))
    case 0x1 => H1nnn
    case 0x2 => H2nnn
    case 0x3 => H3xkk
    case 0x4 => H4xkk
    case 0x5 => H5xy0
    case 0x6 => H6xkk
    case 0x7 => H7xkk
    case 0x8 => Table8(SecondaryKey(op))
    case 0x9 => H9xy0
    case 0xA => HAnnn
    case 0xB => HBnnn
    case 0xC => HCxkk
    case 0xD => HDxyn
    case 0xE => TableE(SecondaryKey(op))
    case _ => TableF(SecondaryKey(op))
  }
}
