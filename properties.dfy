/**
 * What the instruction set promises, stated about the functions of `Semantics`:
 * flags of the arithmetic handlers, stack discipline, BCD, block copies, the font,
 * the timers, dispatch, and sprite drawing with collision detection.
 */
module Properties {
  import opened Consts
  import opened Opcode
  import opened Bits
  import opened Semantics

  // ---------------------------------------------------------------------------
  // Arithmetic and flags (8xy4 .. 8xyE, 7xkk, Fx1E)

  /** 8xy4 with x, y != F: VF is the carry, Vx the low byte of the sum, nothing else changes. */
  lemma AddCarry(m: Machine)
    requires m.Valid() && X(m.opcode) != VF && Y(m.opcode) != VF
    ensures var r, x, y := Op8xy4(m), X(m.opcode), Y(m.opcode);
      var sum := m.registers[x] as int + m.registers[y];
      && (r.registers[VF] == 1 <==> sum > 255)
      && r.registers[VF] <= 1
      && r.registers[x] == sum % 256
      && r.registers[x] + 256 * (r.registers[VF] as int) == sum
      && (forall i :: 0 <= i < REGISTER_COUNT && i != x && i != VF ==> r.registers[i] == m.registers[i])
      && r == m.(registers := r.registers)
  {
  }

  /** 8xF4: the low byte of the sum is written over the carry. */
  lemma AddIntoFlag(m: Machine)
    requires m.Valid() && X(m.opcode) == VF
    ensures Op8xy4(m).registers[VF] == (m.registers[VF] as int + m.registers[Y(m.opcode)]) % 256
  {
  }

  /** 8xy5 with x, y != F: VF records "no borrow" (Vx > Vy), Vx := (Vx - Vy) mod 256. */
  lemma SubBorrow(m: Machine)
    requires m.Valid() && X(m.opcode) != VF && Y(m.opcode) != VF
    ensures var r, x, y := Op8xy5(m), X(m.opcode), Y(m.opcode);
      && (r.registers[VF] == 1 <==> m.registers[x] > m.registers[y])
      && r.registers[VF] <= 1
      && r.registers[x] == (m.registers[x] as int - m.registers[y]) % 256
      && (forall i :: 0 <= i < REGISTER_COUNT && i != x && i != VF ==> r.registers[i] == m.registers[i])
      && r == m.(registers := r.registers)
  {
  }

  /** 8xy7 with x, y != F: VF := (Vy > Vx), Vx := (Vy - Vx) mod 256. */
  lemma SubReverseBorrow(m: Machine)
    requires m.Valid() && X(m.opcode) != VF && Y(m.opcode) != VF
    ensures var r, x, y := Op8xy7(m), X(m.opcode), Y(m.opcode);
      && (r.registers[VF] == 1 <==> m.registers[y] > m.registers[x])
      && r.registers[VF] <= 1
      && r.registers[x] == (m.registers[y] as int - m.registers[x]) % 256
      && (forall i :: 0 <= i < REGISTER_COUNT && i != x && i != VF ==> r.registers[i] == m.registers[i])
      && r == m.(registers := r.registers)
  {
  }

  /** 8xy5 with y = F: the subtraction reads the flag just written, not the old VF. */
  lemma SubReadsNewFlag(m: Machine)
    requires m.Valid() && X(m.opcode) != VF && Y(m.opcode) == VF
    ensures var x := X(m.opcode);
      Op8xy5(m).registers[x] == (m.registers[x] as int - (if m.registers[x] > m.registers[VF] then 1 else 0)) % 256
  {
  }

  /** 8Fy5 with y != F: the flag is compared from the old VF, then the difference is written over it. */
  lemma SubIntoFlag(m: Machine)
    requires m.Valid() && X(m.opcode) == VF && Y(m.opcode) != VF
    ensures var y := Y(m.opcode);
      Op8xy5(m).registers[VF] == ((if m.registers[VF] > m.registers[y] then 1 else 0) - m.registers[y] as int) % 256
  {
  }

  /** 8xF7 with x != F: Vy - Vx reads the flag just written as Vy. */
  lemma SubReverseReadsNewFlag(m: Machine)
    requires m.Valid() && X(m.opcode) != VF && Y(m.opcode) == VF
    ensures var x := X(m.opcode);
      Op8xy7(m).registers[x] == ((if m.registers[VF] > m.registers[x] then 1 else 0) - m.registers[x] as int) % 256
  {
  }

  /** 8Fy7 with y != F: Vy minus the flag just written ends in VF. */
  lemma SubReverseIntoFlag(m: Machine)
    requires m.Valid() && X(m.opcode) == VF && Y(m.opcode) != VF
    ensures var y := Y(m.opcode);
      Op8xy7(m).registers[VF] == (m.registers[y] as int - (if m.registers[y] > m.registers[VF] then 1 else 0)) % 256
  {
  }

  /** 8Fy6: the shift applies to the flag just written, so VF always ends 0. */
  lemma ShiftRightIntoFlag(m: Machine)
    requires m.Valid() && X(m.opcode) == VF
    ensures Op8xy6(m).registers[VF] == 0
  {
  }

  /** 8FyE: the shift applies to the flag just written, so VF ends twice the old high bit of VF. */
  lemma ShiftLeftIntoFlag(m: Machine)
    requires m.Valid() && X(m.opcode) == VF
    ensures Op8xyE(m).registers[VF] == 2 * (m.registers[VF] / 128)
  {
  }

  /** 8xy6 with x != F: VF is the bit shifted out, and 2 * Vx' + VF gives the old Vx back. */
  lemma ShiftRightFlag(m: Machine)
    requires m.Valid() && X(m.opcode) != VF
    ensures var r, x := Op8xy6(m), X(m.opcode);
      && r.registers[VF] == m.registers[x] % 2
      && 2 * (r.registers[x] as int) + r.registers[VF] == m.registers[x]
      && (forall i :: 0 <= i < REGISTER_COUNT && i != x && i != VF ==> r.registers[i] == m.registers[i])
      && r == m.(registers := r.registers)
  {
  }

  /** 8xyE with x != F: VF is the high bit shifted out, and Vx' / 2 + 128 * VF gives the old Vx back. */
  lemma ShiftLeftFlag(m: Machine)
    requires m.Valid() && X(m.opcode) != VF
    ensures var r, x := Op8xyE(m), X(m.opcode);
      && r.registers[VF] == m.registers[x] / 128
      && r.registers[x] == 2 * (m.registers[x] as int) % 256
      && r.registers[x] / 2 + 128 * (r.registers[VF] as int) == m.registers[x]
      && (forall i :: 0 <= i < REGISTER_COUNT && i != x && i != VF ==> r.registers[i] == m.registers[i])
      && r == m.(registers := r.registers)
  {
  }

  /** 8xy6 and 8xyE do not read Vy: opcodes that differ only in y give the same registers. */
  lemma ShiftsIgnoreY(m: Machine, op: Word)
    requires m.Valid() && X(op) == X(m.opcode)
    ensures Op8xy6(m.(opcode := op)).registers == Op8xy6(m).registers
    ensures Op8xyE(m.(opcode := op)).registers == Op8xyE(m).registers
  {
  }

  /** 7xkk adds in eight bits and leaves VF alone (x != F). */
  lemma AddImmediateWraps(m: Machine)
    requires m.Valid() && X(m.opcode) != VF
    ensures var r, x := Op7xkk(m), X(m.opcode);
      && r.registers[x] == (m.registers[x] as int + LowByte(m.opcode)) % 256
      && r.registers[VF] == m.registers[VF]
      && r == m.(registers := r.registers)
  {
  }

  /** Fx1E adds Vx to I in sixteen bits and changes no register. */
  lemma AddIndexWraps(m: Machine)
    requires m.Valid()
    ensures var r := OpFx1E(m);
      r.index == (m.index as int + m.registers[X(m.opcode)]) % 0x1_0000 && r == m.(index := r.index)
  {
  }

  /** Bnnn jumps to nnn plus V0, whatever x is. */
  lemma JumpOffsetIsV0(m: Machine)
    requires m.Valid()
    ensures OpBnnn(m).pc == (m.registers[0] as int + Nnn(m.opcode)) % 0x1_0000
    ensures OpBnnn(m) == m.(pc := OpBnnn(m).pc)
  {
  }

  // ---------------------------------------------------------------------------
  // Stack discipline (2nnn, 00EE)

  /** 2nnn jumps to nnn and writes only stack[sp], with the return address pc. */
  lemma CallPushes(m: Machine)
    requires m.Valid() && m.sp as nat < STACK_SIZE
    ensures var r := Op2nnn(m);
      && r.pc == Nnn(m.opcode) && r.sp == m.sp + 1 && r.stack[m.sp] == m.pc
      && (forall i :: 0 <= i < STACK_SIZE && i != m.sp ==> r.stack[i] == m.stack[i])
      && r == m.(stack := r.stack, sp := r.sp, pc := r.pc)
  {
  }

  /** 00EE after 2nnn, whatever the returning opcode, is back where the call left from. */
  lemma ReturnUndoesCall(m: Machine, op: Word)
    requires m.Valid() && m.sp as nat < STACK_SIZE
    ensures var c := Op2nnn(m);
      var r := Op00EE(c.(opcode := op));
      r.pc == m.pc && r.sp == m.sp && r.stack == c.stack
  {
  }

  /**
   * Two cycles, a 2nnn at pc and a 00EE at nnn, end at the instruction after the call
   * with sp, the registers, memory and the display as they were.
   */
  lemma CallReturnCycles(m: Machine, r1: Byte, r2: Byte)
    requires m.Valid() && m.pc + 1 < MEMORY_SIZE && m.sp as nat < STACK_SIZE
    requires Top(Combine(m.memory[m.pc], m.memory[m.pc + 1])) == 0x2
    requires var target := Nnn(Combine(m.memory[m.pc], m.memory[m.pc + 1]));
      target + 1 < MEMORY_SIZE && Decode(Combine(m.memory[target], m.memory[target + 1])) == H00EE
    ensures CanCycle(m) && CanCycle(Cycle(m, r1))
    ensures var back := Cycle(Cycle(m, r1), r2);
      && back.pc == m.pc + 2 && back.sp == m.sp
      && back.registers == m.registers && back.memory == m.memory && back.display == m.display
      && back.index == m.index && back.stack == m.stack[m.sp := m.pc + 2]
  {
    var f := Fetched(m);
    assert Decode(f.opcode) == H2nnn;
    var c := Cycle(m, r1);
    assert c == Tick(Op2nnn(f));
    var g := Fetched(c);
    assert g.opcode == Combine(m.memory[Nnn(f.opcode)], m.memory[Nnn(f.opcode) + 1]);
  }

  /** A cycle on the bytes 6x kk at pc sets Vx to kk and moves pc to the next instruction. */
  lemma SetRegisterCycle(m: Machine, random: Byte)
    requires m.Valid() && m.pc + 1 < MEMORY_SIZE && m.memory[m.pc] / 0x10 == 0x6
    ensures CanCycle(m)
    ensures var r := Cycle(m, random);
      r.registers == m.registers[m.memory[m.pc] % 0x10 := m.memory[m.pc + 1]] && r.pc == m.pc + 2
  {
    var f := Fetched(m);
    assert Decode(f.opcode) == H6xkk;
  }

  // ---------------------------------------------------------------------------
  // Memory (Fx33, Fx55, Fx65)

  /** Fx33 writes the three decimal digits of Vx to I, I + 1, I + 2, and nothing else. */
  lemma BcdDigits(m: Machine)
    requires m.Valid() && m.index + 2 < MEMORY_SIZE
    ensures var r, v, i := OpFx33(m), m.registers[X(m.opcode)], m.index;
      && r.memory[i] <= 2 && r.memory[i + 1] <= 9 && r.memory[i + 2] <= 9
      && 100 * (r.memory[i] as int) + 10 * (r.memory[i + 1] as int) + r.memory[i + 2] == v
      && (forall a :: 0 <= a < MEMORY_SIZE && a != i && a != i + 1 && a != i + 2 ==> r.memory[a] == m.memory[a])
      && r == m.(memory := r.memory)
  {
  }

  /** Fx55 writes V0..Vx to memory[I..I + x] and nothing else; I is unchanged. */
  lemma StoreBlock(m: Machine)
    requires m.Valid() && m.index + X(m.opcode) < MEMORY_SIZE
    ensures var r, x := OpFx55(m), X(m.opcode);
      && (forall i :: 0 <= i <= x ==> r.memory[m.index + i] == m.registers[i])
      && (forall a :: 0 <= a < MEMORY_SIZE && !(m.index <= a <= m.index + x) ==> r.memory[a] == m.memory[a])
      && r == m.(memory := r.memory)
  {
  }

  /** Fx65 reads V0..Vx from memory[I..I + x], leaves Vx+1..VF and I unchanged. */
  lemma LoadBlock(m: Machine)
    requires m.Valid() && m.index + X(m.opcode) < MEMORY_SIZE
    ensures var r, x := OpFx65(m), X(m.opcode);
      && (forall i :: 0 <= i <= x ==> r.registers[i] == m.memory[m.index + i])
      && (forall i :: x < i < REGISTER_COUNT ==> r.registers[i] == m.registers[i])
      && r == m.(registers := r.registers)
  {
  }

  /** Fx65 after Fx55 with the same x and I gives every register back. */
  lemma StoreThenLoad(m: Machine, op: Word)
    requires m.Valid() && m.index + X(m.opcode) < MEMORY_SIZE && X(op) == X(m.opcode)
    ensures var s := OpFx55(m);
      var l := OpFx65(s.(opcode := op));
      l.registers == m.registers && l.memory == s.memory && l.index == m.index
  {
    var s := OpFx55(m);
    var l := OpFx65(s.(opcode := op));
    assert forall i :: 0 <= i < REGISTER_COUNT ==> l.registers[i] == m.registers[i];
  }

  // ---------------------------------------------------------------------------
  // The font (Fx29, constructor, ROM loading)

  /** The font as the constructor leaves it is still there once a ROM is loaded. */
  lemma FontAfterLoad(rom: seq<Byte>)
    requires |rom| <= MEMORY_SIZE - START_ADDRESS
    ensures LoadRom(Initial(), rom).memory[FONTSET_START_ADDRESS..FONTSET_START_ADDRESS + FONTSET_SIZE] == FONTSET
  {
    var m := Initial();
    var r := LoadRom(m, rom);
    assert forall a :: FONTSET_START_ADDRESS <= a < FONTSET_START_ADDRESS + FONTSET_SIZE ==> r.memory[a] == m.memory[a];
    assert forall k :: 0 <= k < FONTSET_SIZE ==>
      r.memory[FONTSET_START_ADDRESS..FONTSET_START_ADDRESS + FONTSET_SIZE][k] == FONTSET[k];
  }

  /** Fx29 with a digit d <= F points I at five bytes inside the font: the glyph FONTSET[5d..5d + 5]. */
  lemma GlyphOfDigit(m: Machine, k: nat)
    requires m.Valid() && m.memory[FONTSET_START_ADDRESS..FONTSET_START_ADDRESS + FONTSET_SIZE] == FONTSET
    requires m.registers[X(m.opcode)] < 0x10 && k < 5
    ensures var r, d := OpFx29(m), m.registers[X(m.opcode)];
      && FONTSET_START_ADDRESS <= r.index && r.index + 5 <= FONTSET_START_ADDRESS + FONTSET_SIZE
      && r.memory[r.index + k] == FONTSET[5 * d + k]
  {
    var d := m.registers[X(m.opcode)];
    assert m.memory[FONTSET_START_ADDRESS..FONTSET_START_ADDRESS + FONTSET_SIZE][5 * d + k] == FONTSET[5 * d + k];
  }

  // ---------------------------------------------------------------------------
  // Dispatch (Decode, Op_NULL)

  /** The handler depends on the top nibble and the secondary key only. */
  lemma DecodeByKeys(op1: Word, op2: Word)
    requires Top(op1) == Top(op2) && SecondaryKey(op1) == SecondaryKey(op2)
    ensures Decode(op1) == Decode(op2)
  {
  }

  /** Only the low nibble selects within prefixes 0x0 and 0xE: any 0nn0 clears, any 0nnE returns, any Ex?1 / Ex?E tests a key. */
  lemma LooseSecondaryKeys(op: Word)
    ensures Top(op) == 0x0 && N(op) == 0x0 ==> Decode(op) == H00E0
    ensures Top(op) == 0x0 && N(op) == 0xE ==> Decode(op) == H00EE
    ensures Top(op) == 0xE && N(op) == 0x1 ==> Decode(op) == HExA1
    ensures Top(op) == 0xE && N(op) == 0xE ==> Decode(op) == HEx9E
  {
  }

  /** A secondary key lies past its table exactly for a low nibble F (prefixes 0x0, 0x8, 0xE) or a low byte above 0x65 (prefix 0xF). */
  lemma OutsideTables(op: Word)
    ensures Decode(op) == Outside <==>
      || ((Top(op) == 0x0 || Top(op) == 0x8 || Top(op) == 0xE) && N(op) == 0xF)
      || (Top(op) == 0xF && LowByte(op) > 0x65)
  {
  }

  /** The slots left at Op_NULL: every secondary key within its table that no handler was assigned to. */
  lemma NullSlots(op: Word)
    ensures Decode(op) == HNull <==>
      || (Top(op) == 0x0 && N(op) != 0x0 && N(op) != 0xE && N(op) != 0xF)
      || (Top(op) == 0x8 && 0x8 <= N(op) <= 0xD)
      || (Top(op) == 0xE && N(op) != 0x1 && N(op) != 0xE && N(op) != 0xF)
      || (Top(op) == 0xF && LowByte(op) <= 0x65 && LowByte(op) !in {0x07, 0x0A, 0x15, 0x18, 0x1E, 0x29, 0x33, 0x55, 0x65})
  {
  }

  /** A cycle that reaches Op_NULL only fetches and ticks the timers. */
  lemma NullCycle(m: Machine, random: Byte)
    requires CanCycle(m) && Decode(Fetched(m).opcode) == HNull
    ensures var r := Cycle(m, random);
      && r.pc == m.pc + 2
      && r.opcode == m.memory[m.pc] as int * 256 + m.memory[m.pc + 1]
      && r.delayTimer == (if m.delayTimer == 0 then 0 else m.delayTimer - 1)
      && r.soundTimer == (if m.soundTimer == 0 then 0 else m.soundTimer - 1)
      && r == m.(pc := r.pc, opcode := r.opcode, delayTimer := r.delayTimer, soundTimer := r.soundTimer)
  {
  }

  // ---------------------------------------------------------------------------
  // Timers

  /** Only Fx15 and Fx18 write the timers. */
  lemma RunKeepsTimers(h: Handler, m: Machine, random: Byte)
    requires m.Valid() && Defined(h, m) && h != HFx15 && h != HFx18
    ensures Run(h, m, random).delayTimer == m.delayTimer && Run(h, m, random).soundTimer == m.soundTimer
  {
  }

  /** Every other cycle lowers each nonzero timer by exactly one and leaves a zero timer at zero. */
  lemma CycleTicks(m: Machine, random: Byte)
    requires CanCycle(m) && Decode(Fetched(m).opcode) != HFx15 && Decode(Fetched(m).opcode) != HFx18
    ensures var r := Cycle(m, random);
      && r.delayTimer == (if m.delayTimer == 0 then 0 else m.delayTimer - 1)
      && r.soundTimer == (if m.soundTimer == 0 then 0 else m.soundTimer - 1)
  {
    RunKeepsTimers(Decode(Fetched(m).opcode), Fetched(m), random);
  }

  /** A cycle running Fx15 ends with the delay timer at Vx - 1 (0 stays 0); the sound timer still ticks. */
  lemma DelayStoreThenTick(m: Machine, random: Byte)
    requires CanCycle(m) && Decode(Fetched(m).opcode) == HFx15
    ensures var r, v := Cycle(m, random), m.registers[X(Fetched(m).opcode)];
      && r.delayTimer == (if v == 0 then 0 else v - 1)
      && r.soundTimer == (if m.soundTimer == 0 then 0 else m.soundTimer - 1)
  {
  }

  /** A cycle running Fx18 ends with the sound timer at Vx - 1 (0 stays 0); the delay timer still ticks. */
  lemma SoundStoreThenTick(m: Machine, random: Byte)
    requires CanCycle(m) && Decode(Fetched(m).opcode) == HFx18
    ensures var r, v := Cycle(m, random), m.registers[X(Fetched(m).opcode)];
      && r.soundTimer == (if v == 0 then 0 else v - 1)
      && r.delayTimer == (if m.delayTimer == 0 then 0 else m.delayTimer - 1)
  {
  }

  // ---------------------------------------------------------------------------
  // Waiting for a key (Fx0A)

  /** With no key down, a cycle on Fx0A leaves pc on the same instruction and the registers alone. */
  lemma KeyWaitRepeats(m: Machine, random: Byte)
    requires CanCycle(m) && Decode(Fetched(m).opcode) == HFx0A
    requires forall k :: 0 <= k < KEY_COUNT ==> m.keypad[k] == 0
    ensures var r := Cycle(m, random);
      r.pc == m.pc && r.registers == m.registers && r.memory == m.memory && r.display == m.display
  {
    var f := Fetched(m);
    assert LowestPressed(f.keypad, 0) == KEY_COUNT;
    var e := Execute(f, random);
    assert e == f.(pc := Wrap16(f.pc - 2));
  }

  /** With keys down, Fx0A stores the lowest pressed one in Vx and moves on. */
  lemma KeyWaitTakesLowest(m: Machine, random: Byte, key: nat)
    requires CanCycle(m) && Decode(Fetched(m).opcode) == HFx0A
    requires key < KEY_COUNT && m.keypad[key] != 0 && forall j :: 0 <= j < key ==> m.keypad[j] == 0
    ensures var r, x := Cycle(m, random), X(Fetched(m).opcode);
      && r.registers[x] == key && r.pc == m.pc + 2
      && (forall i :: 0 <= i < REGISTER_COUNT && i != x ==> r.registers[i] == m.registers[i])
  {
    var f := Fetched(m);
    assert LowestPressed(f.keypad, 0) == key;
    var e := Execute(f, random);
    assert e == f.(registers := f.registers[X(f.opcode) := key]);
  }

  // ---------------------------------------------------------------------------
  // Sprite drawing (Dxyn)

  /**
   * Cell p is the target of a set sprite pixel that DrawFrom has still to draw, from
   * (row, col) on: p = origin + 64 * r + c with c < 8 and (row, col) <= (r, c) < (height, 0).
   * Distinct pixels of one sprite have distinct cells, so the pixel is p's offset taken apart.
   */
  predicate Pending(memory: seq<Byte>, index: Word, origin: int, row: nat, col: nat, height: nat, p: int)
  {
    var d := p - origin;
    0 <= d &&
    var r, c := d / DISPLAY_WIDTH, d % DISPLAY_WIDTH;
    c < 8 && (row < r || (row == r && col <= c)) && r < height &&
    index + r < |memory| && SpriteBit(memory[index + r], c)
  }

  /** The offset of pixel (row, col) from the origin gives the pixel back. */
  lemma CellOffset(origin: int, row: nat, col: nat)
    requires col < 8
    ensures (Cell(origin, row, col) - origin) / DISPLAY_WIDTH == row
    ensures (Cell(origin, row, col) - origin) % DISPLAY_WIDTH == col
  {
  }

  /** Pixel (row, col) is pending from (row, col) on, if set, and the only one that is not from (row, col + 1) on. */
  lemma PendingNext(memory: seq<Byte>, index: Word, origin: int, row: nat, col: nat, height: nat, p: int)
    requires col < 8 && row < height
    ensures Pending(memory, index, origin, row, col, height, p) <==>
      || Pending(memory, index, origin, row, col + 1, height, p)
      || (p == Cell(origin, row, col) && index + row < |memory| && SpriteBit(memory[index + row], col))
    ensures !Pending(memory, index, origin, row, col + 1, height, Cell(origin, row, col))
  {
    CellOffset(origin, row, col);
  }

  /** Past the last row nothing is pending; at the end of a row, what is pending is what the next row starts with. */
  lemma PendingBounds(memory: seq<Byte>, index: Word, origin: int, row: nat, height: nat, p: int)
    ensures height <= row ==> !Pending(memory, index, origin, row, 0, height, p) && !Pending(memory, index, origin, row, 8, height, p)
    ensures Pending(memory, index, origin, row, 8, height, p) == Pending(memory, index, origin, row + 1, 0, height, p)
  {
  }

  /** A cell of the display after DrawFrom from (row, col) on: pending cells are flipped. */
  predicate CellsDrawn(after: seq<U32>, display: seq<U32>, memory: seq<Byte>, index: Word, origin: int,
                       row: nat, col: nat, height: nat)
  {
    |after| == |display| &&
    forall p :: 0 <= p < |display| ==>
      after[p] == if Pending(memory, index, origin, row, col, height, p) then Toggle(display[p]) else display[p]
  }

  /**
   * The drawing loops in closed form, display part: every pending cell is flipped and no other.
   */
  lemma {:induction false} DrawFromCells(display: seq<U32>, hit: bool, memory: seq<Byte>, index: Word, origin: int,
                                         row: nat, col: nat, height: nat)
    requires col <= 8
    ensures CellsDrawn(DrawFrom(display, hit, memory, index, origin, row, col, height).0, display, memory, index, origin, row, col, height)
    decreases height - row, 8 - col, 1
  {
    var r := DrawFrom(display, hit, memory, index, origin, row, col, height);
    if height <= row {
      forall p | 0 <= p < |display|
        ensures !Pending(memory, index, origin, row, col, height, p)
      {
        PendingBounds(memory, index, origin, row, height, p);
      }
    } else if col == 8 {
      DrawFromCells(display, hit, memory, index, origin, row + 1, 0, height);
      forall p | 0 <= p < |display|
        ensures Pending(memory, index, origin, row, col, height, p) == Pending(memory, index, origin, row + 1, 0, height, p)
      {
        PendingBounds(memory, index, origin, row, height, p);
      }
    } else {
      DrawFromCellsStep(display, hit, memory, index, origin, row, col, height);
    }
  }

  /** The inductive step of DrawFromCells at pixel (row, col). */
  lemma {:induction false} DrawFromCellsStep(display: seq<U32>, hit: bool, memory: seq<Byte>, index: Word, origin: int,
                                             row: nat, col: nat, height: nat)
    requires col < 8 && row < height
    ensures CellsDrawn(DrawFrom(display, hit, memory, index, origin, row, col, height).0, display, memory, index, origin, row, col, height)
    decreases height - row, 8 - col, 0
  {
    var c0 := Cell(origin, row, col);
    DrawFromStep(display, hit, memory, index, origin, row, col, height);
    var flip := index + row < |memory| && SpriteBit(memory[index + row], col) && 0 <= c0 < |display|;
    var next := if flip then display[c0 := Toggle(display[c0])] else display;
    var hit' := if flip then hit || display[c0] == PIXEL_ON else hit;
    var after := DrawFrom(next, hit', memory, index, origin, row, col + 1, height).0;
    assert DrawFrom(display, hit, memory, index, origin, row, col, height).0 == after;
    DrawFromCells(next, hit', memory, index, origin, row, col + 1, height);
    forall p | 0 <= p < |display|
      ensures after[p] == if Pending(memory, index, origin, row, col, height, p) then Toggle(display[p]) else display[p]
    {
      CellStep(display, next, after[p], memory, index, origin, row, col, height, p);
    }
  }

  /** One cell across one step of the drawing loop: the cell of pixel (row, col) is flipped when that bit is drawn. */
  lemma CellStep(display: seq<U32>, next: seq<U32>, v: U32, memory: seq<Byte>, index: Word, origin: int,
                 row: nat, col: nat, height: nat, p: nat)
    requires col < 8 && row < height && p < |display| == |next|
    requires var c0 := Cell(origin, row, col);
      next == if index + row < |memory| && SpriteBit(memory[index + row], col) && 0 <= c0 < |display|
              then display[c0 := Toggle(display[c0])] else display
    requires v == if Pending(memory, index, origin, row, col + 1, height, p) then Toggle(next[p]) else next[p]
    ensures v == if Pending(memory, index, origin, row, col, height, p) then Toggle(display[p]) else display[p]
  {
    var c0 := Cell(origin, row, col);
    PendingNext(memory, index, origin, row, col, height, p);
    if index + row < |memory| && SpriteBit(memory[index + row], col) && p == c0 {
      assert next[p] == Toggle(display[p]);
      assert !Pending(memory, index, origin, row, col + 1, height, p);
      assert Pending(memory, index, origin, row, col, height, p);
    } else {
      assert next[p] == display[p];
      assert Pending(memory, index, origin, row, col, height, p) == Pending(memory, index, origin, row, col + 1, height, p);
    }
  }

  /** Some pending cell is fully set. */
  predicate PendingHit(display: seq<U32>, memory: seq<Byte>, index: Word, origin: int, row: nat, col: nat, height: nat)
  {
    exists p :: 0 <= p < |display| && Pending(memory, index, origin, row, col, height, p) && display[p] == PIXEL_ON
  }

  /**
   * The drawing loops in closed form, flag part: the collision flag ends raised iff it was
   * raised already or some pending cell was fully set.
   */
  lemma {:induction false} DrawFromHit(display: seq<U32>, hit: bool, memory: seq<Byte>, index: Word, origin: int,
                                       row: nat, col: nat, height: nat)
    requires col <= 8
    ensures DrawFrom(display, hit, memory, index, origin, row, col, height).1 <==>
      hit || PendingHit(display, memory, index, origin, row, col, height)
    decreases height - row, 8 - col, 1
  {
    if height <= row {
      assert !PendingHit(display, memory, index, origin, row, col, height);
    } else if col == 8 {
      DrawFromHit(display, hit, memory, index, origin, row + 1, 0, height);
      if PendingHit(display, memory, index, origin, row, col, height) {
        var p :| 0 <= p < |display| && Pending(memory, index, origin, row, col, height, p) && display[p] == PIXEL_ON;
        PendingBounds(memory, index, origin, row, height, p);
      }
      if PendingHit(display, memory, index, origin, row + 1, 0, height) {
        var p :| 0 <= p < |display| && Pending(memory, index, origin, row + 1, 0, height, p) && display[p] == PIXEL_ON;
        PendingBounds(memory, index, origin, row, height, p);
      }
    } else {
      DrawFromHitStep(display, hit, memory, index, origin, row, col, height);
    }
  }

  /** The inductive step of DrawFromHit at pixel (row, col). */
  lemma {:induction false} DrawFromHitStep(display: seq<U32>, hit: bool, memory: seq<Byte>, index: Word, origin: int,
                                           row: nat, col: nat, height: nat)
    requires col < 8 && row < height
    ensures DrawFrom(display, hit, memory, index, origin, row, col, height).1 <==>
      hit || PendingHit(display, memory, index, origin, row, col, height)
    decreases height - row, 8 - col, 0
  {
    var c0 := Cell(origin, row, col);
    DrawFromStep(display, hit, memory, index, origin, row, col, height);
    if index + row < |memory| && SpriteBit(memory[index + row], col) && 0 <= c0 < |display| {
      var flipped := display[c0 := Toggle(display[c0])];
      var hit' := hit || display[c0] == PIXEL_ON;
      DrawFromHit(flipped, hit', memory, index, origin, row, col + 1, height);
      PendingNext(memory, index, origin, row, col, height, c0);
      if PendingHit(flipped, memory, index, origin, row, col + 1, height) {
        var p :| 0 <= p < |flipped| && Pending(memory, index, origin, row, col + 1, height, p) && flipped[p] == PIXEL_ON;
        PendingNext(memory, index, origin, row, col, height, p);
        assert Pending(memory, index, origin, row, col, height, p) && display[p] == PIXEL_ON;
      }
      if PendingHit(display, memory, index, origin, row, col, height) && display[c0] != PIXEL_ON {
        var p :| 0 <= p < |display| && Pending(memory, index, origin, row, col, height, p) && display[p] == PIXEL_ON;
        PendingNext(memory, index, origin, row, col, height, p);
        assert Pending(memory, index, origin, row, col + 1, height, p) && flipped[p] == PIXEL_ON;
      }
    } else {
      DrawFromHit(display, hit, memory, index, origin, row, col + 1, height);
      if PendingHit(display, memory, index, origin, row, col, height) {
        var p :| 0 <= p < |display| && Pending(memory, index, origin, row, col, height, p) && display[p] == PIXEL_ON;
        PendingNext(memory, index, origin, row, col, height, p);
        assert Pending(memory, index, origin, row, col + 1, height, p);
      }
      if PendingHit(display, memory, index, origin, row, col + 1, height) {
        var p :| 0 <= p < |display| && Pending(memory, index, origin, row, col + 1, height, p) && display[p] == PIXEL_ON;
        PendingNext(memory, index, origin, row, col, height, p);
      }
    }
  }

  /** Sprite pixel (row, col) of the Dxyn in m is a set bit of a row it draws. */
  predicate Lit(m: Machine, row: nat, col: nat)
    requires m.Valid()
  {
    row < N(m.opcode) && col < 8 && m.index + row < MEMORY_SIZE && SpriteBit(m.memory[m.index + row], col)
  }

  /** Cell p is the target of some set sprite pixel. */
  ghost predicate Covered(m: Machine, p: int)
    requires m.Valid()
  {
    exists row: nat, col: nat :: Lit(m, row, col) && Cell(DrawOrigin(m), row, col) == p
  }

  /** Pending from the first pixel is Covered. */
  lemma PendingIsCovered(m: Machine, p: int)
    requires m.Valid()
    ensures Pending(m.memory, m.index, DrawOrigin(m), 0, 0, N(m.opcode), p) <==> Covered(m, p)
  {
    var origin := DrawOrigin(m);
    if Pending(m.memory, m.index, origin, 0, 0, N(m.opcode), p) {
      var d := p - origin;
      var row, col := d / DISPLAY_WIDTH, d % DISPLAY_WIDTH;
      assert Lit(m, row, col) && Cell(origin, row, col) == p;
    }
    if Covered(m, p) {
      var row: nat, col: nat :| Lit(m, row, col) && Cell(origin, row, col) == p;
      CellOffset(origin, row, col);
    }
  }

  /** Dxyn flips exactly the covered cells and leaves every other cell as it was. */
  lemma DrawCells(m: Machine)
    requires m.Valid() && DrawDefined(m)
    ensures forall p :: 0 <= p < DISPLAY_SIZE ==>
      OpDxyn(m).display[p] == if Covered(m, p) then Toggle(m.display[p]) else m.display[p]
  {
    DrawFromCells(m.display, false, m.memory, m.index, DrawOrigin(m), 0, 0, N(m.opcode));
    forall p | 0 <= p < DISPLAY_SIZE
      ensures OpDxyn(m).display[p] == if Covered(m, p) then Toggle(m.display[p]) else m.display[p]
    {
      PendingIsCovered(m, p);
    }
  }

  /** Dxyn sets VF to 1 iff some set sprite bit lands on a cell that was fully set, and to 0 otherwise. */
  lemma DrawCollision(m: Machine)
    requires m.Valid() && DrawDefined(m)
    ensures var r, origin := OpDxyn(m), DrawOrigin(m);
      && (r.registers[VF] == 1 <==>
            exists row: nat, col: nat :: Lit(m, row, col) && Cell(origin, row, col) < DISPLAY_SIZE &&
              m.display[Cell(origin, row, col)] == PIXEL_ON)
      && r.registers[VF] <= 1
      && (forall i :: 0 <= i < VF ==> r.registers[i] == m.registers[i])
  {
    var origin := DrawOrigin(m);
    DrawFromHit(m.display, false, m.memory, m.index, origin, 0, 0, N(m.opcode));
    if PendingHit(m.display, m.memory, m.index, origin, 0, 0, N(m.opcode)) {
      var p :| 0 <= p < |m.display| && Pending(m.memory, m.index, origin, 0, 0, N(m.opcode), p) && m.display[p] == PIXEL_ON;
      PendingIsCovered(m, p);
      var row: nat, col: nat :| Lit(m, row, col) && Cell(origin, row, col) == p;
    }
    if exists row: nat, col: nat :: Lit(m, row, col) && Cell(origin, row, col) < DISPLAY_SIZE &&
         m.display[Cell(origin, row, col)] == PIXEL_ON {
      var row: nat, col: nat :| Lit(m, row, col) && Cell(origin, row, col) < DISPLAY_SIZE &&
        m.display[Cell(origin, row, col)] == PIXEL_ON;
      var p := Cell(origin, row, col);
      PendingIsCovered(m, p);
      assert Pending(m.memory, m.index, origin, 0, 0, N(m.opcode), p);
    }
  }

  /** On a two-valued display every cell stays 0 or 0xFFFFFFFF. */
  lemma DrawKeepsTwoValued(m: Machine)
    requires m.Valid() && DrawDefined(m) && TwoValued(m.display)
    ensures TwoValued(OpDxyn(m).display)
  {
    DrawCells(m);
  }

  /** On a two-valued display, VF = 1 iff some cell went from set to clear. */
  lemma CollisionIffCleared(m: Machine)
    requires m.Valid() && DrawDefined(m) && TwoValued(m.display)
    ensures OpDxyn(m).registers[VF] == 1 <==>
      exists p :: 0 <= p < DISPLAY_SIZE && m.display[p] == PIXEL_ON && OpDxyn(m).display[p] == 0
  {
    var r, origin := OpDxyn(m), DrawOrigin(m);
    DrawCells(m);
    DrawCollision(m);
    if r.registers[VF] == 1 {
      var row: nat, col: nat :| Lit(m, row, col) && Cell(origin, row, col) < DISPLAY_SIZE &&
        m.display[Cell(origin, row, col)] == PIXEL_ON;
      var p := Cell(origin, row, col);
      assert Covered(m, p);
      assert r.display[p] == 0;
    }
    if exists p :: 0 <= p < DISPLAY_SIZE && m.display[p] == PIXEL_ON && r.display[p] == 0 {
      var p :| 0 <= p < DISPLAY_SIZE && m.display[p] == PIXEL_ON && r.display[p] == 0;
      assert Covered(m, p);
      var row: nat, col: nat :| Lit(m, row, col) && Cell(origin, row, col) == p;
    }
  }

  /** Drawing the same sprite at the same place twice gives the display back (x, y != F, so VF does not move it). */
  lemma DrawTwiceRestores(m: Machine)
    requires m.Valid() && DrawDefined(m) && X(m.opcode) != VF && Y(m.opcode) != VF
    ensures DrawDefined(OpDxyn(m)) && OpDxyn(OpDxyn(m)).display == m.display
  {
    var m1 := OpDxyn(m);
    assert DrawOrigin(m1) == DrawOrigin(m);
    assert forall row: nat, col: nat :: Lit(m1, row, col) == Lit(m, row, col);
    assert forall p :: Covered(m1, p) == Covered(m, p);
    DrawCells(m);
    DrawCells(m1);
    var m2 := OpDxyn(m1);
    assert forall p :: 0 <= p < DISPLAY_SIZE ==> m2.display[p] == m.display[p];
  }

  /** The display is indexed flat: a sprite column past 63 lands at the start of the next display row. */
  lemma ColumnOverflow(m: Machine, row: nat, col: nat)
    requires m.Valid() && col < 8
    requires m.registers[X(m.opcode)] % DISPLAY_WIDTH + col >= DISPLAY_WIDTH
    ensures var c, xPos, yPos := Cell(DrawOrigin(m), row, col), m.registers[X(m.opcode)] % DISPLAY_WIDTH, m.registers[Y(m.opcode)] % DISPLAY_HEIGHT;
      c / DISPLAY_WIDTH == yPos + row + 1 && c % DISPLAY_WIDTH == xPos + col - DISPLAY_WIDTH
  {
    var xPos, yPos := m.registers[X(m.opcode)] % DISPLAY_WIDTH, m.registers[Y(m.opcode)] % DISPLAY_HEIGHT;
    assert Cell(DrawOrigin(m), row, col) == (yPos + row + 1) * DISPLAY_WIDTH + (xPos + col - DISPLAY_WIDTH);
  }

  // ---------------------------------------------------------------------------
  // Whole cycles

  /** Only 00E0 and Dxyn write the display; 00E0 clears it. */
  lemma RunDisplay(h: Handler, m: Machine, random: Byte)
    requires m.Valid() && Defined(h, m)
    ensures h == H00E0 ==> TwoValued(Run(h, m, random).display)
    ensures h != H00E0 && h != HDxyn ==> Run(h, m, random).display == m.display
  {
  }

  /** A cycle keeps every display cell 0 or 0xFFFFFFFF. */
  lemma CycleKeepsTwoValued(m: Machine, random: Byte)
    requires CanCycle(m) && TwoValued(m.display)
    ensures TwoValued(Cycle(m, random).display)
  {
    var f := Fetched(m);
    var h := Decode(f.opcode);
    RunDisplay(h, f, random);
    if h == HDxyn {
      DrawKeepsTwoValued(f);
    }
  }
}
