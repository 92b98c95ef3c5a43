/**
 * The interpreter state of chip8.h as a value, and what each handler of chip8.cpp
 * does to it.  `Interpreter.Chip8` is proved to change its arrays and fields exactly
 * as these functions say; the properties of the instruction set are lemmas about them.
 */
module Semantics {
  import opened Consts
  import opened Opcode
  import opened Bits

  /** The fields of class Chip8 (chip8.h:16-26), the random engine aside. */
  datatype Machine = Machine(
    registers: seq<Byte>,
    memory: seq<Byte>,
    index: Word,
    pc: Word,
    stack: seq<Word>,
    sp: Byte,
    delayTimer: Byte,
    soundTimer: Byte,
    keypad: seq<Byte>,
    display: seq<U32>,
    opcode: Word)
  {
    /** Array sizes of chip8.h, and a stack pointer within 0..16. */
    predicate Valid()
    {
      && |registers| == REGISTER_COUNT
      && |memory| == MEMORY_SIZE
      && |stack| == STACK_SIZE
      && sp as nat <= STACK_SIZE
      && |keypad| == KEY_COUNT
      && |display| == DISPLAY_SIZE
    }
  }

  /** Every display cell is either clear or fully set. */
  predicate TwoValued(display: seq<U32>)
  {
    forall p :: 0 <= p < |display| ==> display[p] == 0 || display[p] == PIXEL_ON
  }

  // ---------------------------------------------------------------------------
  // Construction and ROM loading

  /** Memory after the constructor: the font at 0x50..0x9F, zero elsewhere. */
  function InitialMemory(): (mem: seq<Byte>)
    ensures |mem| == MEMORY_SIZE
    ensures mem[FONTSET_START_ADDRESS..FONTSET_START_ADDRESS + FONTSET_SIZE] == FONTSET
  {
    var mem := seq(MEMORY_SIZE, a =>
      if FONTSET_START_ADDRESS <= a < FONTSET_START_ADDRESS + FONTSET_SIZE
      then FONTSET[a - FONTSET_START_ADDRESS] else 0);
    assert forall k :: 0 <= k < FONTSET_SIZE ==>
      mem[FONTSET_START_ADDRESS..FONTSET_START_ADDRESS + FONTSET_SIZE][k] == FONTSET[k];
    mem
  }

  /**
   * The state the constructor leaves (chip8.cpp:24-90).  The source leaves every
   * field except pc and the font cells uninitialised; here they are zero.
   */
  function Initial(): (m: Machine)
    ensures m.Valid() && m.pc == START_ADDRESS == 0x200 && m.sp == 0
    ensures m.memory[FONTSET_START_ADDRESS..FONTSET_START_ADDRESS + FONTSET_SIZE] == FONTSET
    ensures TwoValued(m.display)
  {
    Machine(
      seq(REGISTER_COUNT, _ => 0), InitialMemory(), 0, START_ADDRESS,
      seq(STACK_SIZE, _ => 0), 0, 0, 0, seq(KEY_COUNT, _ => 0),
      seq(DISPLAY_SIZE, _ => 0), 0)
  }

  /** The ROM bytes copied to memory from START_ADDRESS on (chip8.cpp:101-103). */
  function LoadRom(m: Machine, rom: seq<Byte>): (r: Machine)
    requires m.Valid() && |rom| <= MEMORY_SIZE - START_ADDRESS
    ensures r.Valid() && r == m.(memory := r.memory)
    ensures forall k :: 0 <= k < |rom| ==> r.memory[START_ADDRESS + k] == rom[k]
    ensures forall a :: 0 <= a < MEMORY_SIZE && !(START_ADDRESS <= a < START_ADDRESS + |rom|) ==>
      r.memory[a] == m.memory[a]
  {
    m.(memory := m.memory[..START_ADDRESS] + rom + m.memory[START_ADDRESS + |rom|..])
  }

  // ---------------------------------------------------------------------------
  // Bitwise helpers on bytes

  function Or(a: Byte, b: Byte): Byte { (a as bv8 | b as bv8) as int }
  function And(a: Byte, b: Byte): Byte { (a as bv8 & b as bv8) as int }
  function Xor(a: Byte, b: Byte): Byte { (a as bv8 ^ b as bv8) as int }

  /** A program counter that skips the next instruction: `pc += 2`. */
  function Skip(m: Machine): Machine { m.(pc := Wrap16(m.pc + 2)) }

  // ---------------------------------------------------------------------------
  // The handlers (chip8.cpp:123-439); each reads its fields from m.opcode

  /** 00E0: clear the display. */
  function Op00E0(m: Machine): (r: Machine)
    requires m.Valid()
  {
    m.(display := seq(DISPLAY_SIZE, _ => 0))
  }

  /** 00EE: return; sp is decremented, then the slot it names is loaded. */
  function Op00EE(m: Machine): (r: Machine)
    requires m.Valid() && 0 < m.sp
  {
    var sp := m.sp - 1;
    m.(sp := sp, pc := m.stack[sp])
  }

  /** 1nnn: jump. */
  function Op1nnn(m: Machine): (r: Machine)
  {
    m.(pc := Nnn(m.opcode))
  }

  /** 2nnn: call; pc is stored at stack[sp], then sp is incremented. */
  function Op2nnn(m: Machine): (r: Machine)
    requires m.Valid() && m.sp as nat < STACK_SIZE
  {
    m.(stack := m.stack[m.sp := m.pc], sp := m.sp + 1, pc := Nnn(m.opcode))
  }

  /** 3xkk: skip if Vx == kk. */
  function Op3xkk(m: Machine): (r: Machine)
    requires m.Valid()
  {
    if m.registers[X(m.opcode)] == LowByte(m.opcode) then Skip(m) else m
  }

  /** 4xkk: skip if Vx != kk. */
  function Op4xkk(m: Machine): (r: Machine)
    requires m.Valid()
  {
    if m.registers[X(m.opcode)] != LowByte(m.opcode) then Skip(m) else m
  }

  /** 5xy0: skip if Vx == Vy. */
  function Op5xy0(m: Machine): (r: Machine)
    requires m.Valid()
  {
    if m.registers[X(m.opcode)] == m.registers[Y(m.opcode)] then Skip(m) else m
  }

  /** 6xkk: Vx := kk. */
  function Op6xkk(m: Machine): (r: Machine)
    requires m.Valid()
  {
    m.(registers := m.registers[X(m.opcode) := LowByte(m.opcode)])
  }

  /** 7xkk: Vx := Vx + kk in eight bits, no flag. */
  function Op7xkk(m: Machine): (r: Machine)
    requires m.Valid()
  {
    var x := X(m.opcode);
    m.(registers := m.registers[x := Wrap8(m.registers[x] + LowByte(m.opcode))])
  }

  /** 8xy0: Vx := Vy. */
  function Op8xy0(m: Machine): (r: Machine)
    requires m.Valid()
  {
    m.(registers := m.registers[X(m.opcode) := m.registers[Y(m.opcode)]])
  }

  /** 8xy1: Vx := Vx | Vy. */
  function Op8xy1(m: Machine): (r: Machine)
    requires m.Valid()
  {
    var x := X(m.opcode);
    m.(registers := m.registers[x := Or(m.registers[x], m.registers[Y(m.opcode)])])
  }

  /** 8xy2: Vx := Vx & Vy. */
  function Op8xy2(m: Machine): (r: Machine)
    requires m.Valid()
  {
    var x := X(m.opcode);
    m.(registers := m.registers[x := And(m.registers[x], m.registers[Y(m.opcode)])])
  }

  /** 8xy3: Vx := Vx ^ Vy. */
  function Op8xy3(m: Machine): (r: Machine)
    requires m.Valid()
  {
    var x := X(m.opcode);
    m.(registers := m.registers[x := Xor(m.registers[x], m.registers[Y(m.opcode)])])
  }

  /** 8xy4: the sum is taken first, then VF := carry, then Vx := sum & 0xFF. */
  function Op8xy4(m: Machine): (r: Machine)
    requires m.Valid()
  {
    var x, y := X(m.opcode), Y(m.opcode);
    var sum := m.registers[x] as int + m.registers[y];
    var flagged := m.registers[VF := if sum > 255 then 1 else 0];
    m.(registers := flagged[x := sum % 0x100])
  }

  /** 8xy5: VF := (Vx > Vy) is written first, then Vx -= Vy reads the registers. */
  function Op8xy5(m: Machine): (r: Machine)
    requires m.Valid()
  {
    var x, y := X(m.opcode), Y(m.opcode);
    var flagged := m.registers[VF := if m.registers[x] > m.registers[y] then 1 else 0];
    m.(registers := flagged[x := Wrap8(flagged[x] - flagged[y])])
  }

  /** 8xy6: VF := Vx & 1 is written first, then Vx >>= 1; Vy is not used. */
  function Op8xy6(m: Machine): (r: Machine)
    requires m.Valid()
  {
    var x := X(m.opcode);
    var flagged := m.registers[VF := m.registers[x] % 2];
    m.(registers := flagged[x := flagged[x] / 2])
  }

  /** 8xy7: VF := (Vy > Vx) is written first, then Vx := Vy - Vx reads the registers. */
  function Op8xy7(m: Machine): (r: Machine)
    requires m.Valid()
  {
    var x, y := X(m.opcode), Y(m.opcode);
    var flagged := m.registers[VF := if m.registers[y] > m.registers[x] then 1 else 0];
    m.(registers := flagged[x := Wrap8(flagged[y] - flagged[x])])
  }

  /** 8xyE: VF := (Vx & 0x80) >> 7 is written first, then Vx <<= 1 in eight bits. */
  function Op8xyE(m: Machine): (r: Machine)
    requires m.Valid()
  {
    var x := X(m.opcode);
    var flagged := m.registers[VF := m.registers[x] / 0x80];
    m.(registers := flagged[x := Wrap8(flagged[x] * 2)])
  }

  /** 9xy0: skip if Vx != Vy. */
  function Op9xy0(m: Machine): (r: Machine)
    requires m.Valid()
  {
    if m.registers[X(m.opcode)] != m.registers[Y(m.opcode)] then Skip(m) else m
  }

  /** Annn: I := nnn. */
  function OpAnnn(m: Machine): (r: Machine)
  {
    m.(index := Nnn(m.opcode))
  }

  /** Bnnn: pc := V0 + nnn; the offset register is always V0. */
  function OpBnnn(m: Machine): (r: Machine)
    requires m.Valid()
  {
    m.(pc := Wrap16(m.registers[0] + Nnn(m.opcode)))
  }

  /** Cxkk: Vx := random & kk, the random byte given by the caller. */
  function OpCxkk(m: Machine, random: Byte): (r: Machine)
    requires m.Valid()
  {
    m.(registers := m.registers[X(m.opcode) := And(random, LowByte(m.opcode))])
  }

  // --- Dxyn

  /**
   * The flat cell `(yPos + row) * 64 + xPos + col` of sprite pixel (row, col), with
   * origin = yPos * 64 + xPos.  A column past 63 lands in the next display row.
   */
  function Cell(origin: int, row: nat, col: nat): int
  {
    origin + row * DISPLAY_WIDTH + col
  }

  /**
   * The two drawing loops of Dxyn from sprite pixel (row, col) on, up to row `height`:
   * each set sprite bit XORs its cell, and `hit` is raised when that cell was fully set.
   * The guards never fail when DrawDefined holds; they keep the function total.
   */
  function DrawFrom(display: seq<U32>, hit: bool, memory: seq<Byte>, index: Word, origin: int,
                    row: nat, col: nat, height: nat): (r: (seq<U32>, bool))
    requires col <= 8
    ensures |r.0| == |display|
    decreases height - row, 8 - col
  {
    if height <= row then (display, hit)
    else if col == 8 then DrawFrom(display, hit, memory, index, origin, row + 1, 0, height)
    else
      var c := Cell(origin, row, col);
      if index + row < |memory| && SpriteBit(memory[index + row], col) && 0 <= c < |display| then
        DrawFrom(display[c := Toggle(display[c])], hit || display[c] == PIXEL_ON, memory, index, origin, row, col + 1, height)
      else
        DrawFrom(display, hit, memory, index, origin, row, col + 1, height)
  }

  /** One iteration of the inner drawing loop, at sprite pixel (row, col). */
  lemma DrawFromStep(display: seq<U32>, hit: bool, memory: seq<Byte>, index: Word, origin: int,
                     row: nat, col: nat, height: nat)
    requires col < 8 && row < height
    ensures var c := Cell(origin, row, col);
      DrawFrom(display, hit, memory, index, origin, row, col, height) ==
        if index + row < |memory| && SpriteBit(memory[index + row], col) && 0 <= c < |display| then
          DrawFrom(display[c := Toggle(display[c])], hit || display[c] == PIXEL_ON, memory, index, origin, row, col + 1, height)
        else
          DrawFrom(display, hit, memory, index, origin, row, col + 1, height)
  {
  }

  /** yPos * 64 + xPos with xPos = Vx % 64 and yPos = Vy % 32, read before VF is reset. */
  function DrawOrigin(m: Machine): (origin: nat)
    requires m.Valid()
    ensures origin < DISPLAY_SIZE
  {
    (m.registers[Y(m.opcode)] % DISPLAY_HEIGHT) * DISPLAY_WIDTH + m.registers[X(m.opcode)] % DISPLAY_WIDTH
  }

  /**
   * Dxyn reads memory[I + row] for every row < n and dereferences only the cells of
   * set sprite bits; both must stay inside their arrays.
   */
  predicate DrawDefined(m: Machine)
    requires m.Valid()
  {
    var n := N(m.opcode);
    && (n == 0 || m.index + n <= MEMORY_SIZE)
    && forall row :: 0 <= row < n ==> RowFits(m.memory, m.index, DrawOrigin(m), row)
  }

  /** Every set bit of sprite row `row` (the byte at index + row), drawn from `origin`, lands on a display cell. */
  predicate RowFits(memory: seq<Byte>, index: Word, origin: int, row: nat)
  {
    index + row < |memory| ==>
      forall col :: 0 <= col < 8 && SpriteBit(memory[index + row], col) ==> Cell(origin, row, col) < DISPLAY_SIZE
  }

  /** Dxyn: XOR an n-row sprite onto the display; VF := 1 iff a set cell was hit. */
  function OpDxyn(m: Machine): (r: Machine)
    requires m.Valid() && DrawDefined(m)
  {
    var drawn := DrawFrom(m.display, false, m.memory, m.index, DrawOrigin(m), 0, 0, N(m.opcode));
    m.(registers := m.registers[VF := if drawn.1 then 1 else 0], display := drawn.0)
  }

  /** Ex9E: skip if key Vx is pressed. */
  function OpEx9E(m: Machine): (r: Machine)
    requires m.Valid() && m.registers[X(m.opcode)] < KEY_COUNT
  {
    if m.keypad[m.registers[X(m.opcode)]] != 0 then Skip(m) else m
  }

  /** ExA1: skip if key Vx is not pressed. */
  function OpExA1(m: Machine): (r: Machine)
    requires m.Valid() && m.registers[X(m.opcode)] < KEY_COUNT
  {
    if m.keypad[m.registers[X(m.opcode)]] == 0 then Skip(m) else m
  }

  /** Fx07: Vx := delay timer. */
  function OpFx07(m: Machine): (r: Machine)
    requires m.Valid()
  {
    m.(registers := m.registers[X(m.opcode) := m.delayTimer])
  }

  /** The lowest pressed key at or after `from`, or |keys| when there is none. */
  function LowestPressed(keys: seq<Byte>, from: nat): (k: nat)
    requires from <= |keys|
    ensures from <= k <= |keys|
    ensures k < |keys| ==> keys[k] != 0
    ensures forall j :: from <= j < k ==> keys[j] == 0
    decreases |keys| - from
  {
    if from == |keys| then from
    else if keys[from] != 0 then from
    else LowestPressed(keys, from + 1)
  }

  /** Fx0A: Vx := the lowest pressed key; with none pressed, pc -= 2 repeats the instruction. */
  function OpFx0A(m: Machine): (r: Machine)
    requires m.Valid()
  {
    var k := LowestPressed(m.keypad, 0);
    if k < KEY_COUNT then m.(registers := m.registers[X(m.opcode) := k])
    else m.(pc := Wrap16(m.pc - 2))
  }

  /** Fx15: delay timer := Vx. */
  function OpFx15(m: Machine): (r: Machine)
    requires m.Valid()
  {
    m.(delayTimer := m.registers[X(m.opcode)])
  }

  /** Fx18: sound timer := Vx. */
  function OpFx18(m: Machine): (r: Machine)
    requires m.Valid()
  {
    m.(soundTimer := m.registers[X(m.opcode)])
  }

  /** Fx1E: I := I + Vx in sixteen bits, no flag. */
  function OpFx1E(m: Machine): (r: Machine)
    requires m.Valid()
  {
    m.(index := Wrap16(m.index + m.registers[X(m.opcode)]))
  }

  /** Fx29: I := the glyph of digit Vx, FONTSET_START_ADDRESS + 5 * Vx. */
  function OpFx29(m: Machine): (r: Machine)
    requires m.Valid()
  {
    m.(index := FONTSET_START_ADDRESS + 5 * (m.registers[X(m.opcode)] as int))
  }

  /** Fx33: units to memory[I + 2], tens to memory[I + 1], hundreds to memory[I]. */
  function OpFx33(m: Machine): (r: Machine)
    requires m.Valid() && m.index + 2 < MEMORY_SIZE
  {
    var value := m.registers[X(m.opcode)];
    var mem := m.memory[m.index + 2 := value % 10];
    var value := value / 10;
    var mem := mem[m.index + 1 := value % 10];
    var value := value / 10;
    m.(memory := mem[m.index := value % 10])
  }

  /** Fx55: memory[I + i] := Vi for i = 0..x; I is unchanged. */
  function OpFx55(m: Machine): (r: Machine)
    requires m.Valid() && m.index + X(m.opcode) < MEMORY_SIZE
  {
    var x := X(m.opcode);
    m.(memory := seq(MEMORY_SIZE, a requires 0 <= a < MEMORY_SIZE =>
      if m.index <= a <= m.index + x then m.registers[a - m.index] else m.memory[a]))
  }

  /** Fx65: Vi := memory[I + i] for i = 0..x; I is unchanged. */
  function OpFx65(m: Machine): (r: Machine)
    requires m.Valid() && m.index + X(m.opcode) < MEMORY_SIZE
  {
    var x := X(m.opcode);
    m.(registers := seq(REGISTER_COUNT, i requires 0 <= i < REGISTER_COUNT =>
      if i <= x then m.memory[m.index + i] else m.registers[i]))
  }

  /** Op_NULL: nothing. */
  function OpNull(m: Machine): (r: Machine)
  {
    m
  }

  // ---------------------------------------------------------------------------
  // Dispatch and the cycle

  /**
   * What a handler needs to stay inside the source's arrays: the stack for calls and
   * returns, memory for Dxyn, Fx33, Fx55 and Fx65, the keypad for Ex9E and ExA1, and
   * a secondary table index below the table's length.
   */
  predicate Defined(h: Handler, m: Machine)
    requires m.Valid()
  {
    match h
    case H00EE => 0 < m.sp
    case H2nnn => m.sp as nat < STACK_SIZE
    case HDxyn => DrawDefined(m)
    case HEx9E => m.registers[X(m.opcode)] < KEY_COUNT
    case HExA1 => m.registers[X(m.opcode)] < KEY_COUNT
    case HFx33 => m.index + 2 < MEMORY_SIZE
    case HFx55 => m.index + X(m.opcode) < MEMORY_SIZE
    case HFx65 => m.index + X(m.opcode) < MEMORY_SIZE
    case Outside => false
    case _ => true
  }

  /** Run handler h on m. */
  function Run(h: Handler, m: Machine, random: Byte): (r: Machine)
    requires m.Valid() && Defined(h, m)
    ensures r.Valid()
  {
    match h
    case H00E0 => Op00E0(m)
    case H00EE => Op00EE(m)
    case H1nnn => Op1nnn(m)
    case H2nnn => Op2nnn(m)
    case H3xkk => Op3xkk(m)
    case H4xkk => Op4xkk(m)
    case H5xy0 => Op5xy0(m)
    case H6xkk => Op6xkk(m)
    case H7xkk => Op7xkk(m)
    case H8xy0 => Op8xy0(m)
    case H8xy1 => Op8xy1(m)
    case H8xy2 => Op8xy2(m)
    case H8xy3 => Op8xy3(m)
    case H8xy4 => Op8xy4(m)
    case H8xy5 => Op8xy5(m)
    case H8xy6 => Op8xy6(m)
    case H8xy7 => Op8xy7(m)
    case H8xyE => Op8xyE(m)
    case H9xy0 => Op9xy0(m)
    case HAnnn => OpAnnn(m)
    case HBnnn => OpBnnn(m)
    case HCxkk => OpCxkk(m, random)
    case HDxyn => OpDxyn(m)
    case HEx9E => OpEx9E(m)
    case HExA1 => OpExA1(m)
    case HFx07 => OpFx07(m)
    case HFx0A => OpFx0A(m)
    case HFx15 => OpFx15(m)
    case HFx18 => OpFx18(m)
    case HFx1E => OpFx1E(m)
    case HFx29 => OpFx29(m)
    case HFx33 => OpFx33(m)
    case HFx55 => OpFx55(m)
    case HFx65 => OpFx65(m)
    case HNull => OpNull(m)
  }

  /** Only Cxkk reads the random byte. */
  lemma RunIgnoresRandom(h: Handler, m: Machine, r1: Byte, r2: Byte)
    requires m.Valid() && Defined(h, m) && h != HCxkk
    ensures Run(h, m, r1) == Run(h, m, r2)
  {
  }

  /** `((*this).*(table[...]))()`: run the handler the current opcode selects. */
  function Execute(m: Machine, random: Byte): (r: Machine)
    requires m.Valid() && Defined(Decode(m.opcode), m)
    ensures r.Valid()
  {
    Run(Decode(m.opcode), m, random)
  }

  /** The fetch of Cycle: opcode := memory[pc] << 8 | memory[pc + 1], then pc += 2. */
  function Fetched(m: Machine): (r: Machine)
    requires m.Valid() && m.pc + 1 < MEMORY_SIZE
    ensures r.Valid() && r == m.(opcode := r.opcode, pc := r.pc)
    ensures r.opcode == m.memory[m.pc] as int * 256 + m.memory[m.pc + 1]
    ensures r.pc == m.pc + 2
  {
    m.(opcode := Combine(m.memory[m.pc], m.memory[m.pc + 1]), pc := Wrap16(m.pc + 2))
  }

  /** The end of Cycle: each timer that is nonzero is decremented. */
  function Tick(m: Machine): (r: Machine)
    ensures r == m.(delayTimer := r.delayTimer, soundTimer := r.soundTimer)
    ensures r.delayTimer == if m.delayTimer == 0 then 0 else m.delayTimer - 1
    ensures r.soundTimer == if m.soundTimer == 0 then 0 else m.soundTimer - 1
  {
    m.(delayTimer := if m.delayTimer > 0 then m.delayTimer - 1 else m.delayTimer,
       soundTimer := if m.soundTimer > 0 then m.soundTimer - 1 else m.soundTimer)
  }

  /** The fetch reads inside memory and the fetched opcode's handler is defined. */
  predicate CanCycle(m: Machine)
  {
    m.Valid() && m.pc + 1 < MEMORY_SIZE && Defined(Decode(Fetched(m).opcode), Fetched(m))
  }

  /** One call of Chip8::Cycle (chip8.cpp:109-120). */
  function Cycle(m: Machine, random: Byte): (r: Machine)
    requires CanCycle(m)
    ensures r.Valid()
  {
    Tick(Execute(Fetched(m), random))
  }
}
