/**
 * Class Chip8 of chip8.h/chip8.cpp: the arrays and scalars that Cycle and the
 * handlers update in place.  Every method is proved to leave the state that the
 * matching function of module Semantics computes from the state before it.
 */
module Interpreter {
  import opened Consts
  import opened Opcode
  import opened Bits
  import Semantics

  class Chip8 {
    const registers: array<Byte>
    const memory: array<Byte>
    var index: Word
    var pc: Word
    const stack: array<Word>
    var sp: Byte
    var delayTimer: Byte
    var soundTimer: Byte
    /** Written by the host between cycles; a nonzero entry is a pressed key. */
    const keypad: array<Byte>
    const display: array<U32>
    var opcode: Word

    /** The array sizes of chip8.h, five distinct arrays, and sp within 0..16. */
    ghost predicate Valid()
      reads this
    {
      && registers.Length == REGISTER_COUNT
      && memory.Length == MEMORY_SIZE
      && stack.Length == STACK_SIZE
      && keypad.Length == KEY_COUNT
      && display.Length == DISPLAY_SIZE
      && sp as nat <= STACK_SIZE
      && registers != memory && registers != keypad && memory != keypad
      && stack as object != registers && stack as object != memory && stack as object != keypad
    }

    /** The machine these fields hold. */
    ghost function State(): (m: Semantics.Machine)
      reads this, registers, memory, stack, keypad, display
      ensures Valid() ==> m.Valid()
    {
      Semantics.Machine(registers[..], memory[..], index, pc, stack[..], sp,
        delayTimer, soundTimer, keypad[..], display[..], opcode)
    }

    /** Zeroed memory with the font copied in from FONTSET_START_ADDRESS. */
    static method FontMemory() returns (mem: array<Byte>)
      ensures fresh(mem) && mem[..] == Semantics.InitialMemory()
    {
      mem := new Byte[MEMORY_SIZE](_ => 0);
      for i := 0 to FONTSET_SIZE
        invariant forall a :: 0 <= a < MEMORY_SIZE ==>
          mem[a] == (if FONTSET_START_ADDRESS <= a < FONTSET_START_ADDRESS + i then FONTSET[a - FONTSET_START_ADDRESS] else 0)
      {
        mem[FONTSET_START_ADDRESS + i] := FONTSET[i];
      }
    }

    /** Chip8::Chip8: pc := 0x200 and the font copied to 0x50..0x9F; everything else zero. */
    constructor ()
      ensures Valid() && State() == Semantics.Initial()
      ensures fresh(registers) && fresh(memory) && fresh(stack) && fresh(keypad) && fresh(display)
    {
      var mem := FontMemory();
      memory := mem;
      registers := new Byte[REGISTER_COUNT](_ => 0);
      stack := new Word[STACK_SIZE](_ => 0);
      keypad := new Byte[KEY_COUNT](_ => 0);
      display := new U32[DISPLAY_SIZE](_ => 0);
      index, sp, delayTimer, soundTimer, opcode := 0, 0, 0, 0, 0;
      pc := START_ADDRESS;
    }

    /** The copy loop of LoadRom: the ROM bytes to memory from START_ADDRESS on. */
    method LoadRom(rom: seq<Byte>)
      requires Valid() && |rom| <= MEMORY_SIZE - START_ADDRESS
      modifies memory
      ensures Valid() && State() == Semantics.LoadRom(old(State()), rom)
    {
      for i := 0 to |rom|
        invariant forall a :: 0 <= a < MEMORY_SIZE ==>
          memory[a] == (if START_ADDRESS <= a < START_ADDRESS + i then rom[a - START_ADDRESS] else old(memory[a]))
      {
        memory[START_ADDRESS + i] := rom[i];
      }
      assert memory[..] == Semantics.LoadRom(old(State()), rom).memory;
    }

    /** Chip8::Cycle: fetch, pc += 2, run the handler, tick both timers. */
    method Cycle(random: Byte)
      requires Valid() && Semantics.CanCycle(State())
      modifies this, registers, memory, stack, display
      ensures Valid() && State() == Semantics.Cycle(old(State()), random)
    {
      Fetch();
      Dispatch(random);
      TickTimers();
    }

    /** Reads the big-endian opcode at pc and moves pc past it. */
    method Fetch()
      requires Valid() && pc + 1 < MEMORY_SIZE
      modifies this
      ensures Valid() && State() == Semantics.Fetched(old(State()))
    {
      opcode := Combine(memory[pc], memory[pc + 1]);
      pc := Wrap16(pc + 2);
    }

    /** Counts each non-zero timer down by one. */
    method TickTimers()
      requires Valid()
      modifies this
      ensures Valid() && State() == Semantics.Tick(old(State()))
    {
      if delayTimer > 0 {
        delayTimer := delayTimer - 1;
      }
      if soundTimer > 0 {
        soundTimer := soundTimer - 1;
      }
    }

    /** The call through `table[(opcode & 0xF000u) >> 12u]`. */
    method Dispatch(random: Byte)
      requires Valid() && Semantics.Defined(Decode(opcode), State())
      modifies this, registers, memory, stack, display
      ensures Valid() && State() == Semantics.Execute(old(State()), random)
    {
      match Top(opcode)
      case 0x0 =>
        Semantics.RunIgnoresRandom(Decode(opcode), State(), 0, random);
        Table0();
      case 0x1 => Op1nnn();
      case 0x2 => Op2nnn();
      case 0x3 => Op3xkk();
      case 0x4 => Op4xkk();
      case 0x5 => Op5xy0();
      case 0x6 => Op6xkk();
      case 0x7 => Op7xkk();
      case 0x8 =>
        Semantics.RunIgnoresRandom(Decode(opcode), State(), 0, random);
        Table8();
      case 0x9 => Op9xy0();
      case 0xA => OpAnnn();
      case 0xB => OpBnnn();
      case 0xC => OpCxkk(random);
      case 0xD => OpDxyn();
      case 0xE =>
        Semantics.RunIgnoresRandom(Decode(opcode), State(), 0, random);
        TableE();
      case _ =>
        Semantics.RunIgnoresRandom(Decode(opcode), State(), 0, random);
        TableF();
    }

    /** Table0: dispatch on the low nibble; none of its handlers reads the random byte. */
    method Table0()
      requires Valid() && Top(opcode) == 0x0 && Semantics.Defined(Decode(opcode), State())
      modifies this, display
      ensures Valid() && State() == Semantics.Run(Decode(old(opcode)), old(State()), 0)
    {
      match N(opcode)
      case 0x0 => Op00E0();
      case 0xE => Op00EE();
      case _ => OpNull();
    }

    /** Table8: dispatch on the low nibble. */
    method Table8()
      requires Valid() && Top(opcode) == 0x8 && Semantics.Defined(Decode(opcode), State())
      modifies registers
      ensures Valid() && State() == Semantics.Run(Decode(old(opcode)), old(State()), 0)
    {
      match N(opcode)
      case 0x0 => Op8xy0();
      case 0x1 => Op8xy1();
      case 0x2 => Op8xy2();
      case 0x3 => Op8xy3();
      case 0x4 => Op8xy4();
      case 0x5 => Op8xy5();
      case 0x6 => Op8xy6();
      case 0x7 => Op8xy7();
      case 0xE => Op8xyE();
      case _ => OpNull();
    }

    /** TableE: dispatch on the low nibble. */
    method TableE()
      requires Valid() && Top(opcode) == 0xE && Semantics.Defined(Decode(opcode), State())
      modifies this
      ensures Valid() && State() == Semantics.Run(Decode(old(opcode)), old(State()), 0)
    {
      match N(opcode)
      case 0x1 => OpExA1();
      case 0xE => OpEx9E();
      case _ => OpNull();
    }

    /** TableF: dispatch on the low byte. */
    method TableF()
      requires Valid() && Top(opcode) == 0xF && Semantics.Defined(Decode(opcode), State())
      modifies this, registers, memory
      ensures Valid() && State() == Semantics.Run(Decode(old(opcode)), old(State()), 0)
    {
      assert Decode(opcode) == Opcode.TableF(LowByte(opcode));
      match LowByte(opcode)
      case 0x07 => OpFx07();
      case 0x0A => OpFx0A();
      case 0x15 => OpFx15();
      case 0x18 => OpFx18();
      case 0x1E => OpFx1E();
      case 0x29 => OpFx29();
      case 0x33 => OpFx33();
      case 0x55 => OpFx55();
      case 0x65 => OpFx65();
      case _ => OpNull();
    }

    method Op00E0()
      requires Valid()
      modifies display
      ensures Valid() && State() == Semantics.Op00E0(old(State()))
    {
      forall p | 0 <= p < DISPLAY_SIZE {
        display[p] := 0;
      }
      assert display[..] == seq(DISPLAY_SIZE, _ => 0);
    }

    method Op00EE()
      requires Valid() && 0 < sp
      modifies this
      ensures Valid() && State() == Semantics.Op00EE(old(State()))
    {
      sp := sp - 1;
      pc := stack[sp];
    }

    method Op1nnn()
      requires Valid()
      modifies this
      ensures Valid() && State() == Semantics.Op1nnn(old(State()))
    {
      pc := Nnn(opcode);
    }

    method Op2nnn()
      requires Valid() && sp as nat < STACK_SIZE
      modifies this, stack
      ensures Valid() && State() == Semantics.Op2nnn(old(State()))
    {
      stack[sp] := pc;
      sp := sp + 1;
      pc := Nnn(opcode);
    }

    method Op3xkk()
      requires Valid()
      modifies this
      ensures Valid() && State() == Semantics.Op3xkk(old(State()))
    {
      if registers[X(opcode)] == LowByte(opcode) {
        pc := Wrap16(pc + 2);
      }
    }

    method Op4xkk()
      requires Valid()
      modifies this
      ensures Valid() && State() == Semantics.Op4xkk(old(State()))
    {
      if registers[X(opcode)] != LowByte(opcode) {
        pc := Wrap16(pc + 2);
      }
    }

    method Op5xy0()
      requires Valid()
      modifies this
      ensures Valid() && State() == Semantics.Op5xy0(old(State()))
    {
      if registers[X(opcode)] == registers[Y(opcode)] {
        pc := Wrap16(pc + 2);
      }
    }

    method Op6xkk()
      requires Valid()
      modifies registers
      ensures Valid() && State() == Semantics.Op6xkk(old(State()))
    {
      registers[X(opcode)] := LowByte(opcode);
    }

    method Op7xkk()
      requires Valid()
      modifies registers
      ensures Valid() && State() == Semantics.Op7xkk(old(State()))
    {
      var x := X(opcode);
      registers[x] := Wrap8(registers[x] + LowByte(opcode));
    }

    method Op8xy0()
      requires Valid()
      modifies registers
      ensures Valid() && State() == Semantics.Op8xy0(old(State()))
    {
      registers[X(opcode)] := registers[Y(opcode)];
    }

    method Op8xy1()
      requires Valid()
      modifies registers
      ensures Valid() && State() == Semantics.Op8xy1(old(State()))
    {
      var x := X(opcode);
      registers[x] := Semantics.Or(registers[x], registers[Y(opcode)]);
    }

    method Op8xy2()
      requires Valid()
      modifies registers
      ensures Valid() && State() == Semantics.Op8xy2(old(State()))
    {
      var x := X(opcode);
      registers[x] := Semantics.And(registers[x], registers[Y(opcode)]);
    }

    method Op8xy3()
      requires Valid()
      modifies registers
      ensures Valid() && State() == Semantics.Op8xy3(old(State()))
    {
      var x := X(opcode);
      registers[x] := Semantics.Xor(registers[x], registers[Y(opcode)]);
    }

    method Op8xy4()
      requires Valid()
      modifies registers
      ensures Valid() && State() == Semantics.Op8xy4(old(State()))
    {
      var x, y := X(opcode), Y(opcode);
      var sum := registers[x] as int + registers[y];
      registers[VF] := if sum > 255 then 1 else 0;
      registers[x] := sum % 0x100;
    }

    method Op8xy5()
      requires Valid()
      modifies registers
      ensures Valid() && State() == Semantics.Op8xy5(old(State()))
    {
      var x, y := X(opcode), Y(opcode);
      registers[VF] := if registers[x] > registers[y] then 1 else 0;
      registers[x] := Wrap8(registers[x] as int - registers[y]);
    }

    method Op8xy6()
      requires Valid()
      modifies registers
      ensures Valid() && State() == Semantics.Op8xy6(old(State()))
    {
      var x := X(opcode);
      registers[VF] := registers[x] % 2;
      registers[x] := registers[x] / 2;
    }

    method Op8xy7()
      requires Valid()
      modifies registers
      ensures Valid() && State() == Semantics.Op8xy7(old(State()))
    {
      var x, y := X(opcode), Y(opcode);
      registers[VF] := if registers[y] > registers[x] then 1 else 0;
      registers[x] := Wrap8(registers[y] as int - registers[x]);
    }

    method Op8xyE()
      requires Valid()
      modifies registers
      ensures Valid() && State() == Semantics.Op8xyE(old(State()))
    {
      var x := X(opcode);
      registers[VF] := registers[x] / 0x80;
      registers[x] := Wrap8(registers[x] as int * 2);
    }

    method Op9xy0()
      requires Valid()
      modifies this
      ensures Valid() && State() == Semantics.Op9xy0(old(State()))
    {
      if registers[X(opcode)] != registers[Y(opcode)] {
        pc := Wrap16(pc + 2);
      }
    }

    method OpAnnn()
      requires Valid()
      modifies this
      ensures Valid() && State() == Semantics.OpAnnn(old(State()))
    {
      index := Nnn(opcode);
    }

    method OpBnnn()
      requires Valid()
      modifies this
      ensures Valid() && State() == Semantics.OpBnnn(old(State()))
    {
      pc := Wrap16(registers[0] + Nnn(opcode));
    }

    method OpCxkk(random: Byte)
      requires Valid()
      modifies registers
      ensures Valid() && State() == Semantics.OpCxkk(old(State()), random)
    {
      registers[X(opcode)] := Semantics.And(random, LowByte(opcode));
    }

    /** The nested row/column loop; VF is reset first and only ever raised. */
    method OpDxyn()
      requires Valid() && Semantics.DrawDefined(State())
      modifies registers, display
      ensures Valid() && State() == Semantics.OpDxyn(old(State()))
    {
      var x, y, height := X(opcode), Y(opcode), N(opcode);
      var xPos := registers[x] % DISPLAY_WIDTH;
      var yPos := registers[y] % DISPLAY_HEIGHT;
      ghost var m0 := State();
      assert yPos * DISPLAY_WIDTH + xPos == Semantics.DrawOrigin(m0);
      ghost var drawn := Semantics.DrawFrom(display[..], false, memory[..], index, yPos * DISPLAY_WIDTH + xPos, 0, 0, height);
      registers[VF] := 0;
      var row := 0;
      while row < height
        invariant 0 <= row <= height && memory[..] == m0.memory
        invariant registers[..] == m0.registers[VF := registers[VF]] && registers[VF] <= 1
        invariant Semantics.DrawFrom(display[..], registers[VF] == 1, memory[..], index, yPos * DISPLAY_WIDTH + xPos, row, 0, height) == drawn
      {
        DrawRow(xPos, yPos, row, height);
        row := row + 1;
      }
    }

    /**
     * Row `row` of a Dxyn sprite: reads the sprite byte at I + row and draws its eight
     * pixels left to right.  This is one iteration of the outer drawing loop.
     */
    method DrawRow(xPos: nat, yPos: nat, row: nat, ghost height: nat)
      requires Valid() && row < height && index + row < MEMORY_SIZE && registers[VF] <= 1
      requires Semantics.RowFits(memory[..], index, yPos * DISPLAY_WIDTH + xPos, row)
      modifies registers, display
      ensures registers[..] == old(registers[..])[VF := registers[VF]] && registers[VF] <= 1
      ensures Semantics.DrawFrom(display[..], registers[VF] == 1, memory[..], index, yPos * DISPLAY_WIDTH + xPos, row + 1, 0, height)
           == Semantics.DrawFrom(old(display[..]), old(registers[VF]) == 1, memory[..], index, yPos * DISPLAY_WIDTH + xPos, row, 0, height)
    {
      ghost var mem, regs, origin := memory[..], registers[..], yPos * DISPLAY_WIDTH + xPos;
      ghost var drawn := Semantics.DrawFrom(display[..], registers[VF] == 1, mem, index, origin, row, 0, height);
      var spriteByte := memory[index + row];
      var col := 0;
      while col < 8
        invariant 0 <= col <= 8 && memory[..] == mem
        invariant registers[..] == regs[VF := registers[VF]] && registers[VF] <= 1
        invariant Semantics.DrawFrom(display[..], registers[VF] == 1, mem, index, origin, row, col, height) == drawn
      {
        DrawBit(spriteByte, xPos, yPos, row, col, mem, height);
        col := col + 1;
      }
    }

    /**
     * Pixel `col` of sprite row `row` (the byte `spriteByte` read from I + row): when the bit is set,
     * a cell that is on sets VF to 1, and the cell is flipped. This is one step of `DrawFrom`.
     */
    method DrawBit(spriteByte: Byte, xPos: nat, yPos: nat, row: nat, col: nat, ghost mem: seq<Byte>, ghost height: nat)
      requires Valid() && col < 8 && row < height
      requires mem == memory[..] && index + row < MEMORY_SIZE && spriteByte == mem[index + row]
      requires SpriteBit(spriteByte, col) ==> Semantics.Cell(yPos * DISPLAY_WIDTH + xPos, row, col) < DISPLAY_SIZE
      requires registers[VF] <= 1
      modifies registers, display
      ensures registers[..] == old(registers[..])[VF := registers[VF]] && registers[VF] <= 1
      ensures Semantics.DrawFrom(display[..], registers[VF] == 1, mem, index, yPos * DISPLAY_WIDTH + xPos, row, col + 1, height)
           == Semantics.DrawFrom(old(display[..]), old(registers[VF]) == 1, mem, index, yPos * DISPLAY_WIDTH + xPos, row, col, height)
    {
      ghost var d, hit, origin := display[..], registers[VF] == 1, yPos * DISPLAY_WIDTH + xPos;
      Semantics.DrawFromStep(d, hit, mem, index, origin, row, col, height);
      if MaskBit(spriteByte, col) {
        var p := (yPos + row) * DISPLAY_WIDTH + xPos + col;
        assert p == Semantics.Cell(origin, row, col);
        TogglePixel(p);
      }
    }

    /** A lit sprite bit over cell p: a cell that is on sets VF to 1, and the cell is flipped. */
    method TogglePixel(p: nat)
      requires Valid() && p < DISPLAY_SIZE
      modifies registers, display
      ensures display[..] == old(display[..])[p := Toggle(old(display[p]))]
      ensures registers[..] == if old(display[p]) == PIXEL_ON then old(registers[..])[VF := 1] else old(registers[..])
    {
      if display[p] == PIXEL_ON {
        registers[VF] := 1;
      }
      display[p] := Toggle(display[p]);
    }

    method OpEx9E()
      requires Valid() && registers[X(opcode)] < KEY_COUNT
      modifies this
      ensures Valid() && State() == Semantics.OpEx9E(old(State()))
    {
      var key := registers[X(opcode)];
      if keypad[key] != 0 {
        pc := Wrap16(pc + 2);
      }
    }

    method OpExA1()
      requires Valid() && registers[X(opcode)] < KEY_COUNT
      modifies this
      ensures Valid() && State() == Semantics.OpExA1(old(State()))
    {
      var key := registers[X(opcode)];
      if keypad[key] == 0 {
        pc := Wrap16(pc + 2);
      }
    }

    method OpFx07()
      requires Valid()
      modifies registers
      ensures Valid() && State() == Semantics.OpFx07(old(State()))
    {
      registers[X(opcode)] := delayTimer;
    }

    /** The key scan: the first pressed key is stored, otherwise pc -= 2. */
    method OpFx0A()
      requires Valid()
      modifies this, registers
      ensures Valid() && State() == Semantics.OpFx0A(old(State()))
    {
      var x := X(opcode);
      var i := 0;
      while i < KEY_COUNT
        invariant 0 <= i <= KEY_COUNT
        invariant forall j :: 0 <= j < i ==> keypad[j] == 0
        invariant registers[..] == old(registers[..]) && pc == old(pc)
      {
        if keypad[i] != 0 {
          registers[x] := i;
          return;
        }
        i := i + 1;
      }
      pc := Wrap16(pc - 2);
    }

    method OpFx15()
      requires Valid()
      modifies this
      ensures Valid() && State() == Semantics.OpFx15(old(State()))
    {
      delayTimer := registers[X(opcode)];
    }

    method OpFx18()
      requires Valid()
      modifies this
      ensures Valid() && State() == Semantics.OpFx18(old(State()))
    {
      soundTimer := registers[X(opcode)];
    }

    method OpFx1E()
      requires Valid()
      modifies this
      ensures Valid() && State() == Semantics.OpFx1E(old(State()))
    {
      index := Wrap16(index + registers[X(opcode)]);
    }

    method OpFx29()
      requires Valid()
      modifies this
      ensures Valid() && State() == Semantics.OpFx29(old(State()))
    {
      var digit := registers[X(opcode)];
      index := FONTSET_START_ADDRESS + 5 * (digit as int);
    }

    method OpFx33()
      requires Valid() && index + 2 < MEMORY_SIZE
      modifies memory
      ensures Valid() && State() == Semantics.OpFx33(old(State()))
    {
      var value := registers[X(opcode)];
      memory[index + 2] := value % 10;
      value := value / 10;
      memory[index + 1] := value % 10;
      value := value / 10;
      memory[index] := value % 10;
    }

    /** Store V0..Vx to memory[I..I + x]. */
    method OpFx55()
      requires Valid() && index + X(opcode) < MEMORY_SIZE
      modifies memory
      ensures Valid() && State() == Semantics.OpFx55(old(State()))
    {
      var x := X(opcode);
      for i := 0 to x + 1
        invariant forall a :: 0 <= a < MEMORY_SIZE ==>
          memory[a] == (if index <= a < index + i then registers[a - index] else old(memory[a]))
      {
        memory[index + i] := registers[i];
      }
      assert memory[..] == Semantics.OpFx55(old(State())).memory;
    }

    /** Load V0..Vx from memory[I..I + x]. */
    method OpFx65()
      requires Valid() && index + X(opcode) < MEMORY_SIZE
      modifies registers
      ensures Valid() && State() == Semantics.OpFx65(old(State()))
    {
      var x := X(opcode);
      for i := 0 to x + 1
        invariant forall k :: 0 <= k < REGISTER_COUNT ==>
          registers[k] == (if k < i then memory[index + k] else old(registers[k]))
      {
        registers[i] := memory[index + i];
      }
      assert registers[..] == Semantics.OpFx65(old(State())).registers;
    }

    method OpNull()
      requires Valid()
      ensures State() == old(State())
    {
    }
  }
}
