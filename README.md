# CHIP-8 and SUPER-CHIP interpreter cores in Dafny

This project models the two virtual machines of the emulator, `struct Chip8` and `struct SuperChip`:

- their state: 4096 bytes of memory, V0..VF, I, PC, a 16-slot call stack with its pointer, the delay and sound timers, the 16-bit key latch, the framebuffer, and, on SUPER-CHIP, the extended-mode flag and the 8 RPL flag bytes;
- the constructor, which copies the fonts into memory;
- the reset half of `LoadRom`;
- `Loop()`, one fetch-decode-execute step;
- `DecreaseTimers()`.

The model has two layers:

- **`Machine`** describes a machine as a value (`State`). It gives each operation as a function of the state: `Run` is one `Loop()`, `Next` is one `Loop()` or the undefined behaviour it would meet, `Load` is `LoadRom` on a ROM image, and `DecreaseTimers` is the timer tick.
- **`Emulator.Interpreter`** is the interpreter object. Its memory, registers, framebuffer, stack and RPL flags are arrays, changed in place by methods that perform the source's writes in the source's order: the pixel loops, the scroll loops, the register copies and the key scan. Each method is proved to leave `Abs()` (the object read as a `State`) equal to the matching `Machine` function of the state before. So every lemma about those functions holds of the object.

`Kind` selects the interpreter. The two share the state layout and most opcodes, and differ in these places:

- decoding of family 0;
- the FX0A scan range;
- the draw: CHIP-8 indexes the 64×32 texture without wrapping, while SUPER-CHIP wraps modulo the active area of its 128×64 buffer;
- the SUPER-CHIP-only opcodes: 00CN, 00FB, 00FC, 00FD, 00FE, 00FF, 16×16 DXY0, FX30, FX75 and FX85.

The other modules are:

- `Decode`: opcode fields.
- `Alu`: the 8XYN register-file operations, BCD, the masked random byte and the timer tick.
- `Keys`: the key latch.
- `Display`: framebuffer geometry, sprite placement, XOR drawing and the three scrolls as functions.
- `Raster`: the states of the pixel loops part-way through.
- `Properties`: lemmas about whole steps and single opcodes.

The model states what the code does, quirks included:

- **8XY4 and 8XY5 flags.** Both are computed from the wrapped result, after VF has been written. With X or Y equal to F the test therefore reads the new VF.
- **Timer wrap.** The timers are `U8`, so the `< 0` clamp never fires and a timer at 0 becomes 255.
- **00FB.** It loses column 0.
- **FX75 and FX85 counts.** FX75 stores one register fewer than FX85 loads.
- **CHIP-8 FX0A scan.** It covers keys 0..14 only.
- **CXNN.** It uses `rand() % 0xFF`, so the byte is never 0xFF.
- **EX9E/EXA1.** The latch is promoted to `int` before the shift. A VX of 16..31 is therefore defined and names no key.
- **LoadRom.** It leaves I, VF and the stack slots alone.

Where the usual description of the instruction set says otherwise (a carry flag for 8XY4, 00FB moving every column), the model follows the code.

Undefined behaviour of C++ is not reproduced. `Machine.FaultOf` names the fault the next `Loop()` would meet, and the step functions are defined for states without one:

- a fetch past memory;
- a call with 16 slots in use;
- a return with an empty stack;
- a memory access past 4096 bytes by DXYN, FX33, FX55 or FX65 (a DXYN with no rows to read, N = 0 outside SUPER-CHIP extended mode, reads no memory and cannot fault, wherever I points);
- a CHIP-8 sprite bit landing past the 2048-cell texture;
- a key-test shift by 32 or more.

## Model

| member | source | states |
|---|---|---|
| Decode.Fetch | Emulator/Chip8.cpp:72-75 | the opcode's high byte is `mem[PC]` and its low byte `mem[PC+1]` |
| Decode.EncodeDecode | Emulator/Chip8.cpp:79 | the four nibbles the dispatch extracts (family, X, Y, N) recompose the opcode |
| Decode.DecodeEncode | Emulator/Chip8.cpp:79 | the nibbles of an opcode built from four nibbles are those nibbles, and NN and NNN are its low byte and low 12 bits |
| Alu.AddFlag | Emulator/Chip8.cpp:185-201 | 8XY4 with X, Y ≠ F: Vx is the sum mod 256; VF is 1 iff Vy > 255 − wrapped sum (stated case by case for X ≠ Y and X = Y); no other register changes |
| Alu.AddFlagIsNotCarry | Emulator/Chip8.cpp:192-198 | the 8XY4 flag differs from the carry: 0x80 + 0x50 sets it and 0xFF + 0x01 clears it |
| Alu.AddFlagOperand | Emulator/Chip8.cpp:185-201 | 8XY4 with X = F or Y = F always ends with VF = 0 |
| Alu.SubFlag | Emulator/Chip8.cpp:202-218 | 8XY5 with X, Y ≠ F: Vx is the difference mod 256, VF is 1 iff Vx ≥ Vy; no other register changes |
| Alu.SubFlagOperand | Emulator/Chip8.cpp:202-218 | 8XY5 with Y = F ends with VF = 0 iff the new Vx is 0xFF; with X = F, VF = 0 iff Vy is 0xFF |
| Alu.SubNFlag | Emulator/Chip8.cpp:231-246 | 8XY7 with X, Y ≠ F: Vx is Vy − Vx mod 256, VF is 1 iff Vy ≥ Vx; no other register changes |
| Alu.ShiftFlags | Emulator/Chip8.cpp:219-257 | 8XY6/8XYE: the bit shifted out lands in VF (`2·Vx' + VF = Vx`, `Vx' + 256·VF = 2·Vx`); with X = F, 8FY6 leaves VF = 0 and 8FYE leaves 0 or 2 |
| Alu.Bcd | Emulator/Chip8.cpp:394-410 | hundreds ≤ 2, tens ≤ 9, ones ≤ 9 and `100h + 10t + o` is the byte |
| Alu.RandomBits | Emulator/Chip8.cpp:280-287 | the CXNN byte has no bit outside NN and is never 0xFF |
| Alu.Tick | Emulator/Chip8.cpp:445-457 | a tick is the predecessor mod 256; a timer at 0 becomes 255 |
| Keys.KeyTest | Emulator/Chip8.cpp:317-333 | the EX9E/EXA1 bit test holds iff VX < 16 and key VX is down |
| Keys.FirstKey | Emulator/Chip8.cpp:344-360 | the scan result is a key in range that is down with no lower key down, and it is None iff no key in range is down |
| Keys.ScanFindsKey | Emulator/SuperChip.cpp:443-459 | a latch is non-zero iff the scan of keys 0..15 finds a key; with only key F down the scan of keys 0..14 finds none |
| Display.CellCoords | Emulator/SuperChip.h:17 | column and row in range name a cell whose column and row they are, inside the active area iff the row is |
| Display.WrappedCoords | Emulator/SuperChip.cpp:403-407 | a SUPER-CHIP sprite cell lands inside the active area, and the wrapped index leads back to the same sprite cell |
| Display.PlainCoords | Emulator/Chip8.cpp:306-309 | the unwrapped CHIP-8 index leads back to the sprite cell it came from |
| Display.ToggleTwice | Emulator/Chip8.cpp:301-312 | XOR drawing the same pixels twice restores the buffer, and the second draw collides iff some covered pixel was off before |
| Display.DrawFlips | Emulator/Chip8.cpp:301-312 | the pixel a sprite cell lands on flips iff that sprite bit is set |
| Display.CollisionAt | Emulator/SuperChip.cpp:404-406 | a draw collides iff some set sprite bit lands on a lit pixel of the buffer |
| Display.DrawOnlySprite | Emulator/SuperChip.cpp:377-411 | every pixel a draw changes is where a set sprite bit lands |
| Display.ScrollDownTwice | Emulator/SuperChip.cpp:107-125 | two 00CN scrolls by a, b > 0 are one scroll by a + b |
| Display.ScrollLeftAfterRight | Emulator/SuperChip.cpp:138-167 | 00FC after 00FB restores columns 1..width−5, clears the last four, and puts the old column width−4 into column 0 |
| Display.ScrollRightDropsColumnZero | Emulator/SuperChip.cpp:138-152 | 00FB's result does not depend on the old column 0 |
| Display.ScrollRightLosesCorner | Emulator/SuperChip.cpp:144-149 | a lone lit pixel at the top-left corner is gone after 00FB |
| Raster.DrawnStep | Emulator/Chip8.cpp:303-311 | one blit iteration flips the pixel a set bit lands on, which still holds its pre-draw value, and VF becomes set iff that pixel was lit |
| Raster.DrawnEnd | Emulator/Chip8.cpp:300-312 | after the last row the blit has XOR-drawn the whole sprite, and VF is its collision |
| Raster.DownStep | Emulator/SuperChip.cpp:116-121 | one 00CN iteration copies cell (x, y) to (x, y + n) and blanks (x, y) |
| Raster.DownEnds | Emulator/SuperChip.cpp:114-123 | the 00CN loop starts from the old buffer and ends at `ScrollDown` |
| Raster.RightStep | Emulator/SuperChip.cpp:145-148 | one 00FB iteration copies cell (x, y) to ((x + 4) % width, y) and blanks (x, y) |
| Raster.RightEnds | Emulator/SuperChip.cpp:144-149 | the 00FB loop starts from the old buffer and ends at `ScrollRight` |
| Raster.LeftStep | Emulator/SuperChip.cpp:160-163 | one 00FC iteration copies cell (x, y) to ((x − 4) % width, y) and blanks (x, y) |
| Raster.LeftEnds | Emulator/SuperChip.cpp:159-164 | the 00FC loop starts from the old buffer and ends at `ScrollLeft` |
| Machine.Overlay | Emulator/Chip8.cpp:28 | `memcpy`: the source bytes at the offset, every other byte unchanged |
| Machine.BootMemory | Emulator/SuperChip.cpp:5-54 | after the constructor memory holds the low font at 0, on SUPER-CHIP the high font at `SUPERFONT_START`, and zero above the fonts |
| Machine.PowerOn | Emulator/Chip8.h:9-29 | the constructed state has the array sizes of the struct (its other fields are taken to start at zero, see "Left out") |
| Machine.Load | Emulator/Chip8.cpp:31-64 | after `LoadRom`: PC = 0x200, SP = 0, timers 0, V0..VE = 0, the screen blank, extended mode off, the ROM's bytes at 0x200, every other byte, VF, I, the stack slots and the key latch unchanged |
| Machine.DecreaseTimers | Emulator/Chip8.cpp:445-457 | both timers step back by one mod 256 and nothing else changes |
| Machine.Call | Emulator/Chip8.cpp:96-100 | 2NNN pushes PC into slot SP, SP + 1, PC = NNN, every other slot and field unchanged |
| Machine.Return | Emulator/Chip8.cpp:87-90 | 00EE: SP − 1 and PC = the slot it points to, nothing else changes |
| Machine.Clear | Emulator/SuperChip.cpp:127-133 | 00E0 turns every cell off and sets the redraw flag, nothing else changes |
| Machine.Rows | Emulator/Chip8.cpp:301-302 | DXYN reads exactly `RowBytes` bytes, the k-th from `I + k`; with no rows it reads no memory, wherever I points |
| Machine.Draw | Emulator/Chip8.cpp:288-316 | DXYN changes only the buffer, VF (to 0 or 1) and the redraw flag (set); no other register changes |
| Machine.AddIndex | Emulator/Chip8.cpp:377-385 | FX1E: I = (I + VX) mod 65536; VF = 1 exactly when the 17-bit sum lies in 0x1000..0xFFFF (past the 12-bit address space, not wrapped), else 0; every other register and field unchanged |
| Machine.Next | Emulator/Chip8.cpp:68-443 | one `Loop()` faults iff `FaultOf` names a fault, and otherwise yields a well-formed state |
| Emulator.Copy | Emulator/Chip8.cpp:42 | the copy loop leaves the array equal to `Overlay` of its old contents |
| Emulator.Interpreter.constructor | Emulator/SuperChip.cpp:5-54 | the new object is `PowerOn(kind)`: the fonts in memory, every other field and array zero (see "Left out" for the zero start) |
| Emulator.Interpreter.LoadRom | Emulator/SuperChip.cpp:56-90 | the object after `LoadRom` is `Load` of the object before |
| Emulator.Interpreter.Reset | Emulator/SuperChip.cpp:73-89 | the reset statements leave the object equal to `Machine.Reset` of the object before |
| Emulator.Interpreter.ClearRegisters | Emulator/Chip8.cpp:50-52 | the `i < 0xF` loop zeroes V0..VE and keeps VF |
| Emulator.Interpreter.DecreaseTimers | Emulator/SuperChip.cpp:580-592 | the object after the tick is `Machine.DecreaseTimers` of the object before |
| Emulator.Interpreter.Step | Emulator/Chip8.cpp:68-443 | one `Loop()` on a state with no fault leaves the object equal to `Run` of the object before |
| Emulator.Interpreter.ExecJump | Emulator/Chip8.cpp:92-100 | 1NNN, 2NNN and BNNN (Chip8.cpp:276-279) agree with `Exec` |
| Emulator.Interpreter.ExecSkip | Emulator/Chip8.cpp:101-130 | 3XNN, 4XNN, 5XY0, 9XY0, EX9E and EXA1 agree with `Exec` |
| Emulator.Interpreter.ExecLoad | Emulator/Chip8.cpp:131-287 | 6XNN, 7XNN, 8XYN, ANNN and CXNN agree with `Exec` |
| Emulator.Interpreter.ExecArith | Emulator/Chip8.cpp:147-261 | the 8XYN writes, in source order, leave the register file equal to `Arith` |
| Emulator.Interpreter.ClearScreen | Emulator/Chip8.cpp:81-86 | the clear loop turns off every cell |
| Emulator.Interpreter.ExecSystem | Emulator/SuperChip.cpp:106-182 | family 0, decoded as each interpreter does, agrees with `System` |
| Emulator.Interpreter.ScrollDown | Emulator/SuperChip.cpp:107-125 | the 00CN loops leave the buffer equal to `Display.ScrollDown` of the old one |
| Emulator.Interpreter.MoveRowDown | Emulator/SuperChip.cpp:116-121 | the inner 00CN loop handles one row |
| Emulator.Interpreter.MoveDown | Emulator/SuperChip.cpp:117-120 | one inner 00CN iteration advances the loop state by one cell |
| Emulator.Interpreter.MoveCell | Emulator/SuperChip.cpp:146-147 | copy one cell and blank the source |
| Emulator.Interpreter.ScrollRight | Emulator/SuperChip.cpp:138-152 | the 00FB loops leave the buffer equal to `Display.ScrollRight` of the old one |
| Emulator.Interpreter.MoveColumnRight | Emulator/SuperChip.cpp:145-148 | the inner 00FB loop handles one column |
| Emulator.Interpreter.MoveRight | Emulator/SuperChip.cpp:146-147 | one inner 00FB iteration advances the loop state by one cell |
| Emulator.Interpreter.ScrollLeft | Emulator/SuperChip.cpp:153-167 | the 00FC loops leave the buffer equal to `Display.ScrollLeft` of the old one |
| Emulator.Interpreter.MoveColumnLeft | Emulator/SuperChip.cpp:160-163 | the inner 00FC loop handles one column |
| Emulator.Interpreter.MoveLeft | Emulator/SuperChip.cpp:161-162 | one inner 00FC iteration advances the loop state by one cell |
| Emulator.Interpreter.ExecDraw | Emulator/Chip8.cpp:288-297 | family D, with X, Y and N taken from the opcode, agrees with `Exec` |
| Emulator.Interpreter.DrawSprite | Emulator/SuperChip.cpp:363-415 | DXYN agrees with `Draw`: the XOR of the sprite and VF = collision |
| Emulator.Interpreter.BlitPlain | Emulator/Chip8.cpp:300-312 | the CHIP-8 blit leaves the buffer toggled by the unwrapped sprite and VF = collision |
| Emulator.Interpreter.PlainRow | Emulator/Chip8.cpp:302-311 | one CHIP-8 sprite row advances the blit state by a row |
| Emulator.Interpreter.BlitWrapped | Emulator/SuperChip.cpp:398-411 | the SUPER-CHIP N-row blit leaves the buffer toggled by the wrapped sprite and VF = collision |
| Emulator.Interpreter.WrappedRow | Emulator/SuperChip.cpp:400-409 | one wrapped sprite row advances the blit state by a row |
| Emulator.Interpreter.BlitWide | Emulator/SuperChip.cpp:377-397 | the 16×16 blit leaves the buffer toggled by the wide sprite and VF = collision |
| Emulator.Interpreter.WideHalf | Emulator/SuperChip.cpp:380-395 | one byte of a 16×16 row advances the blit state by eight cells |
| Emulator.Interpreter.WideBit | Emulator/SuperChip.cpp:382-386 | one bit of a 16×16 row advances the blit state by one cell |
| Emulator.Interpreter.WaitKey | Emulator/Chip8.cpp:344-360 | FX0A agrees with `Machine.WaitKey` |
| Emulator.Interpreter.ScanKeys | Emulator/SuperChip.cpp:450-455 | the scan stores `FirstKey` in VX, or changes nothing when no key in range is down |
| Emulator.Interpreter.AddIndex | Emulator/Chip8.cpp:377-385 | FX1E agrees with `Machine.AddIndex` |
| Emulator.Interpreter.StoreBcd | Emulator/Chip8.cpp:394-410 | FX33 agrees with `Machine.StoreBcd` |
| Emulator.Interpreter.StoreRegs | Emulator/Chip8.cpp:411-422 | the FX55 loop agrees with `Machine.StoreRegs` |
| Emulator.Interpreter.LoadRegs | Emulator/Chip8.cpp:423-433 | the FX65 loop agrees with `Machine.LoadRegs` |
| Emulator.Interpreter.SaveFlags | Emulator/SuperChip.cpp:542-554 | the FX75 loop agrees with `Machine.SaveFlags` |
| Emulator.Interpreter.LoadFlags | Emulator/SuperChip.cpp:555-567 | the FX85 loop agrees with `Machine.LoadFlags` |
| Emulator.Interpreter.ExecMisc | Emulator/SuperChip.cpp:433-570 | family F, with FX30/FX75/FX85 on SUPER-CHIP only, agrees with `Misc` |
| Properties.StepAdvances | Emulator/Chip8.cpp:70-75 | a step reads the opcode high byte first; a load leaves PC two bytes on, the redraw flag clear and memory, buffer and stack unchanged |
| Properties.RunCall | Emulator/Chip8.cpp:96-100 | a step on 2NNN is `Call` from the fetched state: slot SP holds the old PC + 2, SP + 1, PC = NNN |
| Properties.ReturnIsNotScroll | Emulator/SuperChip.cpp:107 | an opcode with low byte EE never passes the 00CN test |
| Properties.ExecReturn | Emulator/SuperChip.cpp:134-137 | an opcode decoded as 00EE (the whole word on CHIP-8, any family-0 opcode with low byte EE on SUPER-CHIP) executes as `Return` |
| Properties.CallThenReturn | Emulator/Chip8.cpp:87-100 | call then return resumes at the pushed address with SP restored; only the used stack slot differs |
| Properties.DrawTwice | Emulator/Chip8.cpp:288-316 | DXYN twice (X, Y ≠ F) restores the buffer, and the second reports a collision iff the first turned some pixel on |
| Properties.DrawFlag | Emulator/Chip8.cpp:300-312 | VF after DXYN is 1 iff some set sprite bit lands on a pixel that was lit |
| Properties.NarrowEmptySprite | Emulator/SuperChip.cpp:398-413 | DXY0 on CHIP-8, or on SUPER-CHIP outside extended mode, toggles nothing, clears VF and sets the redraw flag, wherever I points |
| Properties.EmptySpriteRuns | Emulator/Chip8.cpp:288-316 | a `Loop()` on DXY0 outside extended mode meets no fault, even with I past memory, and only clears VF and sets the redraw flag |
| Properties.Chip8PixelFlips | Emulator/Chip8.cpp:305-309 | the pixel at `VX + dx + (VY + dy)·64` flips iff sprite bit (dx, dy) is set |
| Properties.SuperPixelFlips | Emulator/SuperChip.cpp:403-407 | the pixel at `((VX + dx) % width, (VY + dy) % height)` flips iff sprite bit (dx, dy) is set |
| Properties.KeySkipIff | Emulator/Chip8.cpp:317-333 | EX9E skips iff key VX is down, EXA1 iff it is not |
| Properties.WaitKeyIdle | Emulator/Chip8.cpp:348-349 | FX0A with no key down changes nothing but the redraw flag |
| Properties.WaitKeyPressed | Emulator/Chip8.cpp:350-358 | FX0A with a key down changes VX at most |
| Properties.WaitKeyLowest | Emulator/SuperChip.cpp:443-459 | FX0A stores the lowest key down (on CHIP-8, when one of keys 0..E is down) |
| Properties.WaitKeyIgnoresF | Emulator/Chip8.cpp:351 | CHIP-8 FX0A with only key F down leaves the state as it is |
| Properties.BcdDigits | Emulator/Chip8.cpp:394-410 | FX33 stores the three decimal digits of VX at I..I+2 and no other byte |
| Properties.BlockTransfers | Emulator/Chip8.cpp:411-433 | FX55/FX65 copy exactly V0..VX to/from I..I+X, set I = I + X + 1 and leave the rest alone |
| Properties.StoreThenLoad | Emulator/Chip8.cpp:411-433 | FX65 from the I FX55 started at gives back the stored registers |
| Properties.FlagCounts | Emulator/SuperChip.cpp:542-567 | FX75 stores min(X, 7) registers (none for X = 0), FX85 loads min(X, 7) + 1 |
| Properties.FlagsRoundTrip | Emulator/SuperChip.cpp:542-567 | FX85 after FX75 with the same X restores V0..V(c−1) and loads into Vc the stale flag c |
| Properties.LowGlyph | Emulator/Chip8.cpp:386-393 | FX29 points I at the five font bytes of digit VX |
| Properties.HighGlyph | Emulator/SuperChip.cpp:493-501 | FX30 points I at the ten high-font bytes of digit VX, inside the font |
| Properties.ModeSwitch | Emulator/SuperChip.cpp:172-179 | 00FE/00FF change only the extended flag |
| Properties.SuperClear | Emulator/SuperChip.cpp:127-133 | 00E0 clears all 128·64 cells whatever the mode and sets the redraw flag |
| Properties.DecodingDiffers | Emulator/SuperChip.cpp:106-137 | 01E0 and 02C3 do nothing on CHIP-8; on SUPER-CHIP 01E0 clears and 02C3 scrolls down 3 |
| Properties.TimersWrap | Emulator/Chip8.cpp:445-457 | a delay timer at 0 becomes 255 and a sound timer at 1 becomes 0 |

## Left out

- The host program (`main.cpp`): the window, OpenGL, timing, the keyboard-to-latch mapping and the frame policy of one `DecreaseTimers` and five `Loop` calls per frame. The key latch is a field the host writes.
- File I/O in `LoadRom`: the file is an `Option` of its bytes, `None` when it does not open. A ROM longer than 3584 bytes (past memory) is excluded by a precondition.
- `rand()` in CXNN: its result is the parameter `rnd`.
- The exit callback of 00FD: the model sets `halted`. Whatever the callback does is not modelled.
- Pixel colours: a pixel is a `bool`. The XOR with 0xFFFFFF00 only toggles between the two colours the code uses. Before the first `LoadRom` the buffer holds zero words, a third value; the model takes them as off (`PowerOn` has a blank buffer), although XOR turns a zero word into 0xFFFFFF00, which the collision test does not count as lit. Drawing before `LoadRom` is therefore not modelled exactly.
- Undefined behaviour (out-of-range indices, stack overflow or underflow, a shift by 32 or more) is a `Fault` and is not executed. The `U8` stack pointer is an unbounded `nat` kept at most 16.
- Machine.PowerOn: the SUPER-CHIP constructor copies only the fonts, and extended mode starts off by its member initializer; memory above the fonts, the registers, I, PC, SP, the stack, the timers, the latch and the RPL flags are taken to start at zero. That holds for a statically allocated object; the host program declares only a CHIP-8 interpreter, as a global.
- Properties.CallThenReturn: the round trip is stated at the level of `Call` and `Return`. `Properties.RunCall` and `Properties.ExecReturn` tie each half to one `Loop()`; no single lemma chains two `Run` steps.
- Properties.WaitKeyLowest: on CHIP-8 the lowest-key result is stated only when one of keys 0..E is down, because the scan never looks at key F (`Properties.WaitKeyIgnoresF` states that case).
- Emulator.Interpreter.Step: the opcodes are grouped into helper methods by family, rather than one `switch`. The writes within each opcode are in the source's order.
