# CHIP-8 interpreter core in Dafny

This project models the CHIP-8 virtual machine of `chip8.h` / `chip8.cpp`.
The machine state is one class, `Chip8`:

- sixteen 8-bit registers V0..VF, with VF doubling as the flag register;
- 4096 bytes of memory, with the 80-byte hexadecimal font at 0x50..0x9F and programs loaded from 0x200;
- the 16-bit index register I and the program counter;
- a 16-slot return stack with its pointer `sp`;
- the delay and sound timers;
- a 16-key keypad;
- a 64×32 display of `uint32_t` cells;
- the current opcode.

Each `Cycle` does four things in order:

1. It fetches the big-endian opcode at `pc`.
2. It advances `pc` by 2.
3. It runs the handler that the two dispatch levels select: the top nibble, then the low nibble for prefixes 0x0, 0x8 and 0xE, or the low byte for prefix 0xF.
4. It counts each nonzero timer down by one.

The modules follow the program's structure:

- `Consts` (consts.dfy) holds the constants of `chip8.h`, the byte, word and 32-bit cell types, the explicit 8- and 16-bit wrap-around, the font table, and `Toggle`. `Toggle` is the `^= 0xFFFFFFFF` that Dxyn applies to a display cell.
- `Bits` (bits.dfy) holds the sprite-bit test of Dxyn. It is defined arithmetically, and lemmas connect it to the source's `spriteByte & (0x80u >> col)`.
- `Opcode` (opcode.dfy) has the field extraction helpers and the dispatch tables. The tables are written as a `match` (`Decode`) that yields a `Handler`. Keys past the end of a table yield `Outside`.
- `Semantics` (semantics.dfy) treats the state of class `Chip8` as a value, `Machine`. It has one function per `Op_*` handler, and the cycle: `Fetched`, `Execute`, `Tick`, `Cycle`. `DrawFrom` follows the two nested drawing loops of Dxyn pixel by pixel.
- `Interpreter` (interpreter.dfy) is the class `Chip8` itself. Its fields are arrays and scalars, and every method updates them in place, as the C++ does. Each method is proved to leave exactly the state that the matching `Semantics` function computes from the state before the call. Loops stay loops, with their invariants: the font copy, the ROM copy, the Dxyn row and column loops, the Fx0A key scan and the Fx55/Fx65 block copies.
- `Properties` (properties.dfy) holds the properties of the instruction set as lemmas about `Semantics`:
  - the carry, borrow and shift flags;
  - the statement-order quirks of 8xy4 to 8xyE when x or y is F (8Fy4, 8Fy5, 8xF5, 8Fy6, 8Fy7, 8xF7, 8FyE);
  - stack discipline over two whole cycles;
  - BCD digits;
  - the block store and load round trip;
  - the font glyphs;
  - the dispatch keys and the Op_NULL slots;
  - timer ticks;
  - the key wait;
  - the exact effect of Dxyn: which cells it flips, when it sets VF, drawing twice restores the display, and the two-valued display is kept.

Undefined behaviour in the source becomes a `requires`:

- a memory index of 4096 or more, at the fetch, I + row, I + 2 and I + x;
- a display index of 2048 or more for a set sprite bit;
- `sp` leaving 0..16;
- a key index of 16 or more;
- a secondary table index past the table's end.

`Semantics.Defined` gathers these per handler. `Semantics.CanCycle` says when a whole cycle is defined.

The constructor leaves most fields uninitialised. The model sets all of them to zero:

- registers, stack, sp, index and opcode;
- both timers and the keypad;
- the display;
- the memory outside the font.

## Model

| member | source | states |
|---|---|---|
| Consts.XorAllOnes | chip8.cpp:332 | XOR with 0xFFFFFFFF on 32 bits is 0xFFFFFFFF minus the cell, the form `Toggle` uses |
| Bits.BitOfWord | chip8.cpp:323 | the arithmetic bit i of a byte is set iff the byte masked with `1 << i` is nonzero |
| Bits.SpriteBitIsMask | chip8.cpp:323 | `SpriteBit(b, col)` holds iff `b & (0x80 >> col)` is nonzero |
| Bits.MaskBit | chip8.cpp:323-327 | the source's pixel test `spriteByte & (0x80u >> col)` is true exactly when `SpriteBit` holds |
| Opcode.Combine | chip8.cpp:111 | the opcode hi * 256 + lo has top nibble hi / 16, x = hi % 16, low byte lo, y = lo / 16, n = lo % 16 |
| Opcode.Top | chip8.cpp:114 | the primary dispatch key `(opcode & 0xF000) >> 12` is below 16 |
| Opcode.X | chip8.cpp:151 | the register selector `(opcode & 0x0F00) >> 8` is below 16 |
| Opcode.Y | chip8.cpp:172 | the register selector `(opcode & 0x00F0) >> 4` is below 16 |
| Opcode.N | chip8.cpp:312 | the low nibble `opcode & 0x000F` is below 16 |
| Opcode.LowByte | chip8.cpp:152 | `opcode & 0x00FF` is y * 16 + n |
| Opcode.Nnn | chip8.cpp:136 | `opcode & 0x0FFF` is below 0x1000 and is x * 256 + kk |
| Opcode.FieldsRecompose | chip8.cpp:111-114 | the four nibbles, or the top nibble and nnn, give the opcode back |
| Opcode.NibblesDecode | chip8.cpp:310-312 | an opcode built from four nibbles decodes to exactly those nibbles |
| Semantics.InitialMemory | chip8.cpp:32-35 | 4096 bytes with the 80 font bytes at 0x50..0x9F |
| Semantics.Initial | chip8.cpp:24-35 | the constructed state is well formed, has pc = START_ADDRESS = 0x200, sp = 0, the font in place and a two-valued display |
| Semantics.LoadRom | chip8.cpp:101-103 | byte k of the ROM is at 0x200 + k, every other memory cell and every other field is unchanged |
| Semantics.DrawOrigin | chip8.cpp:314-315 | the start cell (Vy % 32) * 64 + Vx % 64 is below 2048 |
| Semantics.LowestPressed | chip8.cpp:369-374 | the result is a pressed key with no pressed key before it, or 16 when none is pressed |
| Semantics.Run | chip8.cpp:123-439 | every defined handler keeps the array sizes and sp within 0..16 |
| Semantics.RunIgnoresRandom | chip8.cpp:304 | only Cxkk reads the random byte |
| Semantics.Execute | chip8.cpp:114 | running the handler that the opcode decodes to keeps the state well formed |
| Semantics.Fetched | chip8.cpp:111-112 | opcode = memory[pc] * 256 + memory[pc + 1], pc increases by 2, and nothing else changes |
| Semantics.Tick | chip8.cpp:116-119 | each timer drops by one if nonzero and stays 0 if zero (never below 0), and nothing else changes |
| Semantics.Cycle | chip8.cpp:109-120 | a defined cycle keeps the state well formed, so sp stays within 0..16 |
| Interpreter.Chip8.FontMemory | chip8.cpp:32-35 | the font copy loop leaves a fresh memory array equal to `InitialMemory` |
| Interpreter.Chip8.constructor | chip8.cpp:24-90 | the fields hold `Semantics.Initial()`, in five fresh arrays |
| Interpreter.Chip8.LoadRom | chip8.cpp:101-103 | the copy loop leaves `Semantics.LoadRom` of the old state |
| Interpreter.Chip8.Cycle | chip8.cpp:109-120 | fetch, dispatch and tick leave `Semantics.Cycle` of the old state with the given random byte |
| Interpreter.Chip8.Fetch | chip8.cpp:111-112 | leaves `Semantics.Fetched` of the old state |
| Interpreter.Chip8.TickTimers | chip8.cpp:116-119 | leaves `Semantics.Tick` of the old state |
| Interpreter.Chip8.Dispatch | chip8.cpp:114 | the primary table call leaves `Semantics.Execute` of the old state |
| Interpreter.Chip8.Table0 | chip8.cpp:441 | the dispatch on the low nibble runs the handler `Decode` names |
| Interpreter.Chip8.Table8 | chip8.cpp:442 | the dispatch on the low nibble runs the handler `Decode` names |
| Interpreter.Chip8.TableE | chip8.cpp:443 | the dispatch on the low nibble runs the handler `Decode` names |
| Interpreter.Chip8.TableF | chip8.cpp:444 | the dispatch on the low byte runs the handler `Decode` names |
| Interpreter.Chip8.Op00E0 | chip8.cpp:123-126 | every display cell becomes 0 |
| Interpreter.Chip8.Op00EE | chip8.cpp:128-132 | decrements sp, then loads pc from stack[sp] |
| Interpreter.Chip8.Op1nnn | chip8.cpp:134-138 | pc := nnn |
| Interpreter.Chip8.Op2nnn | chip8.cpp:140-147 | stack[sp] := pc, then sp is incremented, then pc := nnn |
| Interpreter.Chip8.Op3xkk | chip8.cpp:149-157 | skips the next instruction iff Vx == kk |
| Interpreter.Chip8.Op4xkk | chip8.cpp:159-167 | skips the next instruction iff Vx != kk |
| Interpreter.Chip8.Op5xy0 | chip8.cpp:169-177 | skips the next instruction iff Vx == Vy |
| Interpreter.Chip8.Op6xkk | chip8.cpp:179-185 | Vx := kk |
| Interpreter.Chip8.Op7xkk | chip8.cpp:187-193 | Vx := Vx + kk in 8 bits |
| Interpreter.Chip8.Op8xy0 | chip8.cpp:195-201 | Vx := Vy |
| Interpreter.Chip8.Op8xy1 | chip8.cpp:203-209 | Vx := Vx OR Vy |
| Interpreter.Chip8.Op8xy2 | chip8.cpp:211-217 | Vx := Vx AND Vy |
| Interpreter.Chip8.Op8xy3 | chip8.cpp:219-225 | Vx := Vx XOR Vy |
| Interpreter.Chip8.Op8xy4 | chip8.cpp:227-237 | the sum is taken first, then VF := carry, then Vx := the sum's low byte |
| Interpreter.Chip8.Op8xy5 | chip8.cpp:239-247 | VF := (Vx > Vy) first, then Vx -= Vy reads the updated registers |
| Interpreter.Chip8.Op8xy6 | chip8.cpp:249-255 | VF := Vx & 1 first, then Vx >>= 1 |
| Interpreter.Chip8.Op8xy7 | chip8.cpp:257-265 | VF := (Vy > Vx) first, then Vx := Vy - Vx reads the updated registers |
| Interpreter.Chip8.Op8xyE | chip8.cpp:267-273 | VF := the high bit of Vx first, then Vx <<= 1 in 8 bits |
| Interpreter.Chip8.Op9xy0 | chip8.cpp:275-283 | skips the next instruction iff Vx != Vy |
| Interpreter.Chip8.OpAnnn | chip8.cpp:285-290 | I := nnn |
| Interpreter.Chip8.OpBnnn | chip8.cpp:292-297 | pc := V0 + nnn |
| Interpreter.Chip8.OpCxkk | chip8.cpp:299-305 | Vx := random & kk |
| Interpreter.Chip8.OpDxyn | chip8.cpp:307-336 | VF := 0, then the row loop leaves `Semantics.OpDxyn` of the old state |
| Interpreter.Chip8.DrawRow | chip8.cpp:320-334 | one outer-loop iteration advances `DrawFrom` from (row, 0) to (row + 1, 0) and changes only VF among the registers |
| Interpreter.Chip8.DrawBit | chip8.cpp:323-333 | one inner-loop iteration advances `DrawFrom` from (row, col) to (row, col + 1) |
| Interpreter.Chip8.TogglePixel | chip8.cpp:328-332 | VF := 1 if cell p was 0xFFFFFFFF, then cell p is inverted; nothing else changes |
| Interpreter.Chip8.OpEx9E | chip8.cpp:338-346 | skips the next instruction iff key Vx is pressed |
| Interpreter.Chip8.OpExA1 | chip8.cpp:348-356 | skips the next instruction iff key Vx is not pressed |
| Interpreter.Chip8.OpFx07 | chip8.cpp:358-363 | Vx := delay timer |
| Interpreter.Chip8.OpFx0A | chip8.cpp:365-376 | the key scan leaves `Semantics.OpFx0A`: the lowest pressed key in Vx, or pc -= 2 |
| Interpreter.Chip8.OpFx15 | chip8.cpp:378-383 | delay timer := Vx |
| Interpreter.Chip8.OpFx18 | chip8.cpp:385-390 | sound timer := Vx |
| Interpreter.Chip8.OpFx1E | chip8.cpp:392-397 | I := I + Vx in 16 bits |
| Interpreter.Chip8.OpFx29 | chip8.cpp:399-405 | I := 0x50 + 5 * Vx |
| Interpreter.Chip8.OpFx33 | chip8.cpp:407-417 | the units, tens and hundreds of Vx go to I + 2, I + 1 and I |
| Interpreter.Chip8.OpFx55 | chip8.cpp:419-426 | the store loop leaves `Semantics.OpFx55` of the old state |
| Interpreter.Chip8.OpFx65 | chip8.cpp:428-435 | the load loop leaves `Semantics.OpFx65` of the old state |
| Interpreter.Chip8.OpNull | chip8.cpp:437-439 | the state is unchanged |
| Properties.AddCarry | chip8.cpp:227-237 | for x, y != F: VF = 1 iff Vx + Vy > 255, VF <= 1, Vx = (Vx + Vy) mod 256, Vx + 256 * VF = Vx + Vy, and no other register or field changes |
| Properties.AddIntoFlag | chip8.cpp:232-236 | for 8Fy4 the low byte of the sum overwrites the carry |
| Properties.SubBorrow | chip8.cpp:239-247 | for x, y != F: VF = 1 iff Vx > Vy, Vx = (Vx - Vy) mod 256, and no other register or field changes |
| Properties.SubReverseBorrow | chip8.cpp:257-265 | for x, y != F: VF = 1 iff Vy > Vx, Vx = (Vy - Vx) mod 256, and no other register or field changes |
| Properties.SubReadsNewFlag | chip8.cpp:244-246 | for 8xF5 the subtraction reads the flag just written, not the old VF |
| Properties.SubIntoFlag | chip8.cpp:244-246 | for 8Fy5 (y != F) VF ends as the new flag, compared from the old VF, minus Vy, mod 256 |
| Properties.SubReverseReadsNewFlag | chip8.cpp:262-264 | for 8xF7 (x != F) Vx ends as the new flag minus Vx, mod 256, not old VF minus Vx |
| Properties.SubReverseIntoFlag | chip8.cpp:262-264 | for 8Fy7 (y != F) VF ends as Vy minus the new flag, mod 256 |
| Properties.ShiftRightIntoFlag | chip8.cpp:253-254 | for 8Fy6 VF always ends 0, since the shift reads the flag just written |
| Properties.ShiftLeftIntoFlag | chip8.cpp:271-272 | for 8FyE VF ends 2 * (old VF / 128), the new flag shifted left |
| Properties.ShiftRightFlag | chip8.cpp:249-255 | VF is the low bit shifted out, 2 * Vx' + VF is the old Vx, and no other register changes |
| Properties.ShiftLeftFlag | chip8.cpp:267-273 | VF is the high bit shifted out, Vx' = 2 * Vx mod 256, Vx' / 2 + 128 * VF is the old Vx |
| Properties.ShiftsIgnoreY | chip8.cpp:249-273 | 8xy6 and 8xyE give the same registers whatever y is |
| Properties.AddImmediateWraps | chip8.cpp:187-193 | 7xkk adds mod 256 and leaves VF and every other field unchanged |
| Properties.AddIndexWraps | chip8.cpp:392-397 | Fx1E adds mod 65536 and changes nothing but I |
| Properties.JumpOffsetIsV0 | chip8.cpp:292-297 | Bnnn jumps to V0 + nnn whatever x is, changing only pc |
| Properties.CallPushes | chip8.cpp:140-147 | 2nnn sets pc = nnn, sp + 1, stack[old sp] = pc, and writes no other stack slot |
| Properties.ReturnUndoesCall | chip8.cpp:128-147 | 00EE right after 2nnn gives back pc and sp |
| Properties.CallReturnCycles | chip8.cpp:109-147 | a cycle on 2nnn then a cycle on 00EE at nnn end at the instruction after the call, with sp, registers, memory, display and I unchanged and only stack[sp] written |
| Properties.SetRegisterCycle | chip8.cpp:179-185 | a cycle on the bytes 6x kk sets Vx = kk and moves pc on by 2 |
| Properties.BcdDigits | chip8.cpp:407-417 | memory[I] <= 2, the other two digits <= 9, 100 * memory[I] + 10 * memory[I+1] + memory[I+2] = Vx, and only those three cells change |
| Properties.StoreBlock | chip8.cpp:419-426 | Fx55 writes V0..Vx to memory[I..I+x], no other cell changes, and I is unchanged |
| Properties.LoadBlock | chip8.cpp:428-435 | Fx65 reads V0..Vx from memory[I..I+x] and leaves Vx+1..VF and I unchanged |
| Properties.StoreThenLoad | chip8.cpp:419-435 | Fx65 after Fx55 with the same x and I gives back every register |
| Properties.FontAfterLoad | chip8.cpp:101-103 | loading a ROM into the constructed state keeps the font at 0x50..0x9F |
| Properties.GlyphOfDigit | chip8.cpp:399-405 | Fx29 with a digit up to F points I at the five glyph bytes of that digit, inside the font |
| Properties.DecodeByKeys | chip8.cpp:441-444 | the handler depends only on the top nibble and the secondary key |
| Properties.LooseSecondaryKeys | chip8.cpp:61-75 | any 0nn0 clears, any 0nnE returns, any Ex?1 is ExA1 and any Ex?E is Ex9E |
| Properties.OutsideTables | chip8.h:83-86 | a key falls past its table exactly for low nibble F (prefixes 0, 8, E) or a low byte above 0x65 (prefix F) |
| Properties.NullSlots | chip8.cpp:55-89 | the opcodes that run Op_NULL are exactly the unassigned slots within each table |
| Properties.NullCycle | chip8.cpp:437-439 | a cycle on an Op_NULL slot only fetches, advances pc by 2 and ticks the timers |
| Properties.RunKeepsTimers | chip8.cpp:123-439 | only Fx15 and Fx18 write the timers |
| Properties.CycleTicks | chip8.cpp:116-119 | any other cycle lowers each nonzero timer by exactly 1 and keeps a zero timer at 0 |
| Properties.DelayStoreThenTick | chip8.cpp:378-383 | a cycle on Fx15 ends with the delay timer at Vx - 1, or 0 when Vx = 0 |
| Properties.SoundStoreThenTick | chip8.cpp:385-390 | a cycle on Fx18 ends with the sound timer at Vx - 1, or 0 when Vx = 0 |
| Properties.KeyWaitRepeats | chip8.cpp:365-376 | with no key pressed, a cycle on Fx0A leaves pc on the same instruction and the registers, memory and display unchanged |
| Properties.KeyWaitTakesLowest | chip8.cpp:365-376 | with keys pressed, Fx0A stores the lowest one in Vx, changes no other register, and moves pc on |
| Properties.CellOffset | chip8.cpp:324-325 | the offset of a sprite pixel's cell from the origin gives back its row and column |
| Properties.DrawFromCells | chip8.cpp:319-335 | the drawing loops flip exactly the cells of the set sprite bits still to be drawn |
| Properties.DrawFromHit | chip8.cpp:319-335 | the loops end with the hit flag set iff it was set already or some pending cell was 0xFFFFFFFF |
| Properties.PendingIsCovered | chip8.cpp:319-325 | a cell is still to be drawn from the first pixel iff some set sprite bit lands on it |
| Properties.DrawCells | chip8.cpp:307-336 | Dxyn flips exactly the cells some set sprite bit lands on, and leaves every other cell as it was |
| Properties.DrawCollision | chip8.cpp:317-330 | VF = 1 iff some set sprite bit lands on a cell that was 0xFFFFFFFF, otherwise 0, and V0..VE are unchanged |
| Properties.DrawKeepsTwoValued | chip8.cpp:332 | on a display of 0 and 0xFFFFFFFF cells, Dxyn keeps every cell one of the two |
| Properties.CollisionIffCleared | chip8.cpp:328-332 | on a two-valued display, VF = 1 iff some cell went from set to clear |
| Properties.DrawTwiceRestores | chip8.cpp:307-336 | for x, y != F, drawing the same sprite twice at the same place gives back the display |
| Properties.ColumnOverflow | chip8.cpp:324-325 | a sprite column past 63 lands in the next display row, at column xPos + col - 64 |
| Properties.RunDisplay | chip8.cpp:123-126 | 00E0 leaves a two-valued display, and no handler other than 00E0 and Dxyn writes the display |
| Properties.CycleKeepsTwoValued | chip8.cpp:109-120 | every cycle keeps every display cell at 0 or 0xFFFFFFFF |

## Left out

- File handling in `LoadRom` (chip8.cpp:92-99, 105) is I/O. The model copies a byte sequence whose length is at most 4096 - 0x200. A longer ROM overruns memory in the source.
- The random engine seeded from the system clock (chip8.cpp:25, 29-30) is replaced by a parameter. The random byte is an argument of `Cycle` and Cxkk.
- The `std::cerr` prints in `Cycle` (chip8.cpp:110, 113, 115) are output only and are not modelled.
- main.cpp is not part of this model: it is the SDL host loop, floating-point timing and command-line parsing.
- platform.h is not part of this model: it is the window, texture and input wrapper.
- The meaning of a display cell as a colour is not modelled. A cell is a 32-bit value, expected to be 0 or 0xFFFFFFFF.
- The function-pointer tables (chip8.cpp:37-89) are not runtime data here. Their contents are the match arms of `Opcode.Decode`.
- Undefined behaviour is excluded by `requires`, not given a recovery policy. This covers memory, display, stack and keypad indices out of range, and a secondary key past its table (`Handler.Outside`).
- The uninitialised fields of a freshly constructed `Chip8` are zero in the model.
- Consts.Toggle: the `^= 0xFFFFFFFF` of Dxyn is written on integers as 0xFFFFFFFF minus the cell. `Consts.XorAllOnes` proves, on 32-bit words, that XOR with all ones is that subtraction; since 0xFFFFFFFF - v never wraps for a cell below 2^32, the integer form gives the same value. No lemma converts between the integer and the 32-bit word. The class's own display update uses the subtraction.
- Op2nnn stores the return address at `stack[sp]` and only then increments `sp` (chip8.cpp:144-145); Op00EE decrements `sp` and then loads (chip8.cpp:130-131). The model keeps this order.
