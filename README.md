# CHIP-8 virtual machine of `emulator.c`, in Dafny

This project models the virtual-machine engine of the CHIP-8 interpreter in
`emulator.c` and proves properties of it. The engine consists of:

- the `struct chip_8` record, the font table, `load_fontset` and `init_arch`;
- `read_program`, on the bytes of the ROM file;
- `fetch_instr` and `execute_instruction` with all of its opcode families;
- `update_timers`;
- the frame of `main`: ten fetch/execute cycles, then one timer update.

It has two layers.

- `Chip8` (chip8.dfy) holds the machine as a value. `State` is the record,
  and one function per opcode family gives what the C code does to it.
  `Sprite` (sprite.dfy) holds the XOR blit and its collision flag.
  `Bits` (bits.dfy) holds `uint8_t`/`uint16_t` arithmetic and the bitwise
  operators, with every wrap-around written out.
- `Interpreter.Machine` (machine.dfy) is the record as an object. The arrays
  `V`, `stack`, `memory`, `display` and `key` are updated in place by one
  method per C function. Each method is proved to leave `Snapshot()` (the
  record made of its current fields) equal to the matching `Chip8` function
  of the record before the call. The loops of the source are there:
  - `load_fontset`;
  - the nested row/column loops of `Dxyn`;
  - the key scan of `Fx0A`;
  - the register loops of `Fx55`/`Fx65`;
  - the copy of `read_program`;
  - the ten cycles of a frame.
- `Chip8Properties` (properties.dfy) proves what each instruction promises
  about the `Chip8` functions: flags, skips, the call stack, BCD, register
  dump/load, sprite drawing, key wait, timers and frames.

Some C array accesses are not checked, and out of bounds they are undefined
behaviour. They are preconditions here, collected in `Chip8.Defined`:
- PC + 1 < 3840 for a fetch;
- SP < 16 for CALL and SP > 0 for RET;
- I + n <= 3840 for a sprite;
- I + 2 < 3840 for BCD;
- I + x < 3840 for `Fx55`/`Fx65`.

Where this C code departs from common CHIP-8 conventions, the model follows
the code:
- Memory is 3840 bytes (4096 less 256 reserved for a framebuffer). Addresses
  are not masked to 12 bits, and I and PC are `uint16_t` that wrap at 2^16.
- Sprites wrap at the screen edges, pixel by pixel; they are not clipped.
- Unrecognised opcodes are not an error: they only advance PC by 2.
- CALL pushes its own address and RET adds 2 to the popped value. A CALL
  with SP = 16 or a RET with SP = 0 is undefined behaviour, not a
  reported error.
- SUB and SUBN set the flag on a strict `>`.
- In `8xy5`/`8xy6`/`8xy7`/`8xyE` the flag is written before Vx is computed.
  With x or y = 0xF, the computation therefore sees the new flag value.
- `Fx0A` with no key pressed does `PC -= 2`, which the final `PC += 2` cancels.
- The keypad snapshot is taken before a frame and holds for its ten cycles.

## Model

| member | source | states |
|---|---|---|
| Bits.OrBits | emulator.c:226-229 | bitwise OR (`8xy1`) on the low k bits: the result is below 2^k |
| Bits.AndBits | emulator.c:230-233 | bitwise AND (`8xy2`, and the mask of `Cxkk`) on the low k bits: the result is below 2^k |
| Bits.XorBits | emulator.c:234-237 | bitwise XOR (`8xy3`, and the pixel toggle of `Dxyn`) on the low k bits: the result is below 2^k |
| Bits.XorOneBits | emulator.c:324 | XOR with 1 flips exactly the lowest bit |
| Bits.XorOneTwiceBits | emulator.c:324 | in the low k bits, XOR with 1 twice gives back the value |
| Bits.XorOneTwice | emulator.c:324 | a cell XORed with 1 twice is restored |
| Bits.XorOneOnPixel | emulator.c:324 | on a 0/1 cell, XOR with 1 gives the other value |
| Sprite.PixelCell | emulator.c:317-319 | the cell that pixel p = 8*row + col lands on, with both coordinates wrapped, is inside the 2048-cell display |
| Sprite.ScreenCell | emulator.c:317-319 | the row/column form of the same cell index is inside the display |
| Sprite.PixelRowCol | emulator.c:312-319 | pixel 8*row + col is bit `col` (from the top) of sprite byte `row`, on `ScreenCell(sx, sy, row, col)` |
| Sprite.Blit | emulator.c:312-328 | the display after the first k pixels of the loop keeps its 2048 cells |
| Sprite.PixelCellInjective | emulator.c:317-319 | two different pixels of one sprite (at most 32 rows) never land on the same cell, even across the wrap |
| Sprite.PixelCellDetermines | emulator.c:317-319 | the cell a pixel lands on determines the pixel |
| Sprite.RowMajor | emulator.c:319 | a row-major index `row * 64 + col` gives back its row and column |
| Sprite.WrapApart | emulator.c:317-318 | two offsets below the screen width (height) from one start wrap to the same coordinate only when equal |
| Sprite.CoveredStep | emulator.c:312-328 | a cell is covered by the first k pixels iff it is covered by the first k-1 or by pixel k-1 |
| Sprite.NotCoveredBefore | emulator.c:312-328 | no earlier pixel reaches the cell of pixel q |
| Sprite.BlitCell | emulator.c:312-328 | closed form: a cell is XORed with 1 iff some set pixel lands on it, and is unchanged otherwise |
| Sprite.BlitPixel | emulator.c:315-327 | the cell under pixel p is toggled iff p is set |
| Sprite.CollidesIff | emulator.c:311-323 | the loop's collision flag is set iff some set pixel lands on a cell that was lit before the draw |
| Sprite.BlitRows | emulator.c:312-328 | by rows and columns: each set bit toggles its cell, a clear bit leaves it alone, and a changed cell lies under some set bit |
| Sprite.CollidesRows | emulator.c:311-328 | by rows and columns: collision iff some set bit lands on a lit cell |
| Sprite.BlitTwice | emulator.c:312-328 | drawing the same sprite at the same place twice restores the display |
| Sprite.BlitKeepsBinary | emulator.c:324 | a 0/1 display stays 0/1 after a blit |
| Chip8.Reset | emulator.c:98-110 | the state after `init_arch` has the record's sizes and SP <= 16 |
| Chip8.LoadProgram | emulator.c:112-132 | the load succeeds iff the program fits between 0x200 and the end of the 3840-byte memory, and the result is a well-formed record |
| Chip8.Fetch | emulator.c:134-136 | the high byte of the instruction is memory[PC] and the low byte is memory[PC+1] |
| Chip8.Execute | emulator.c:138-423 | every defined instruction keeps the record well formed, with SP <= 16 |
| Chip8.Effect | emulator.c:141-420 | the body of each `break`ing case keeps the record well formed |
| Chip8.Alu | emulator.c:216-266 | the `8xyn` family keeps the record well formed |
| Chip8.SpriteAt | emulator.c:313 | the sprite read from I has n bytes |
| Chip8.Draw | emulator.c:300-330 | `Dxyn` keeps the record well formed |
| Chip8.FirstPressed | emulator.c:362-369 | -1 iff no key from `from` on is pressed; otherwise the lowest pressed key |
| Chip8.Misc | emulator.c:351-419 | the `Fxkk` family keeps the record well formed |
| Chip8.Step | emulator.c:613-614 | a fetch/execute cycle keeps the record well formed |
| Chip8.Run | emulator.c:612-615 | a run of cycles keeps the record well formed |
| Chip8.Frame | emulator.c:612-618 | a frame (keypad snapshot, ten cycles, one timer update) keeps the record well formed |
| Interpreter.Machine.Snapshot | emulator.c:16-28 | the fields of the object form a well-formed `struct chip_8` record |
| Interpreter.Machine.constructor | emulator.c:98-110 | a fresh record on which `init_arch` has run equals `Chip8.Reset()` |
| Interpreter.Machine.InitArch | emulator.c:98-110 | the memsets and `load_fontset` leave exactly `Chip8.Reset()` |
| Interpreter.Machine.LoadFontset | emulator.c:92-96 | memory[0..80) is the font table and the rest of memory is unchanged |
| Interpreter.Machine.ReadProgram | emulator.c:112-132 | returns -1 and changes nothing when the program does not fit; otherwise returns its length and the state is `Chip8.LoadProgram` of the old one |
| Interpreter.Machine.FetchInstr | emulator.c:134-136 | equals `Chip8.Fetch` of the current record |
| Interpreter.Machine.PressedKey | emulator.c:362-369 | the scan returns the lowest pressed key, or -1 when none is pressed |
| Interpreter.Machine.Execute | emulator.c:138-423 | the new record is `Chip8.Execute` of the old one; the keypad is not modified |
| Interpreter.Machine.ExecuteEffect | emulator.c:141-420 | the new record is `Chip8.Effect` of the old one |
| Interpreter.Machine.ExecuteAlu | emulator.c:216-266 | the new record is `Chip8.Alu` of the old one; only V is modified |
| Interpreter.Machine.DrawSprite | emulator.c:300-330 | the new record is `Chip8.Draw` of the old one; only V and the display are modified |
| Interpreter.Machine.DrawRows | emulator.c:312-328 | after the row loop, the display is `Blit` of the old display, and V[0xF] is the collision flag |
| Interpreter.Machine.DrawRow | emulator.c:313-327 | one row: the display and flag go from the state after 8*row pixels to the state after 8*(row+1) |
| Interpreter.Machine.DrawPixel | emulator.c:316-326 | one pixel takes the display and the flag from the state after p pixels to the state after p + 1 |
| Interpreter.Machine.ExecuteMisc | emulator.c:351-419 | the new record is `Chip8.Misc` of the old one |
| Interpreter.Machine.StoreBcd | emulator.c:395-402 | memory[I], memory[I+1], memory[I+2] become the hundreds, tens and units of Vx; nothing else changes |
| Interpreter.Machine.StoreRegisters | emulator.c:404-410 | memory[I..I+x] becomes V0..Vx and every other cell is unchanged |
| Interpreter.Machine.LoadRegisters | emulator.c:411-417 | V0..Vx become memory[I..I+x] and Vx+1..VF are unchanged |
| Interpreter.Machine.UpdateTimers | emulator.c:425-432 | the new record is `Chip8.Tick` of the old one |
| Interpreter.Machine.SetKeys | emulator.c:438-440 | the keypad array holds the given 16-key snapshot |
| Interpreter.Machine.Frame | emulator.c:612-618 | the new record is `Chip8.Frame` of the old one: snapshot, ten cycles, one timer update |
| Chip8Properties.ResetReady | emulator.c:92-110 | after reset PC = 0x200, I, both timers and SP are 0, V, the stack and every display cell are 0, the font is at 0..80 and the rest of memory is zero, no key is down, and the first fetch reads the zero word at 0x200 |
| Chip8Properties.LoadProgramPlaces | emulator.c:127 | a program that fits lands byte for byte at 0x200, and nothing else changes |
| Chip8Properties.SizeCheckTooLoose | emulator.c:123-127 | a 3584-byte file passes the size test as written but ends past the 3840-byte memory, and the corrected load rejects it |
| Chip8Properties.UnrecognisedAdvances | emulator.c:138-423 | every unrecognised 0/8/E/F form is defined and only adds 2 to PC |
| Chip8Properties.AdvanceTwice | emulator.c:422 | a skip's own `PC += 2` (as at line 176) and the final `PC += 2` add 4, modulo 2^16 |
| Chip8Properties.Jump | emulator.c:155-160 | `1nnn` sets PC = nnn (below 0x1000); nothing else changes |
| Chip8Properties.JumpOffset | emulator.c:285-290 | `Bnnn` sets PC = nnn + V0 (below 0x1100); nothing else changes |
| Chip8Properties.Call | emulator.c:162-168 | `2nnn` stores the CALL's own PC in slot SP, leaves the other slots alone, increments SP and sets PC = nnn |
| Chip8Properties.Return | emulator.c:148-152 | `00EE` decrements SP and sets PC to the popped slot + 2, modulo 2^16 |
| Chip8Properties.CallThenReturn | emulator.c:148-168 | a CALL followed by a RET resumes at the CALL's PC + 2 with SP restored; only the used stack slot differs |
| Chip8Properties.SkipOnByte | emulator.c:170-188 | `3xkk`/`4xkk` add 4 to PC when Vx == kk (respectively !=), and 2 otherwise |
| Chip8Properties.SkipOnRegister | emulator.c:190-198 | `5xy_` (and `9xy_`, lines 268-276) add 4 to PC when Vx == Vy (respectively !=), and 2 otherwise |
| Chip8Properties.SkipOnKey | emulator.c:332-349 | `Ex9E`/`ExA1` add 4 to PC when key Vx & 0xF is pressed (respectively not), and 2 otherwise |
| Chip8Properties.LoadAndAddByte | emulator.c:200-214 | `6xkk` sets Vx = kk, `7xkk` sets Vx = (Vx + kk) mod 256 with the flag untouched, and `Annn` (lines 278-283) sets I = nnn |
| Chip8Properties.AndBitsBelow | emulator.c:297 | a value masked with `& kk` is at most kk |
| Chip8Properties.RandomMasked | emulator.c:292-298 | `Cxkk` sets Vx = rnd & kk, which is at most kk; nothing else but PC changes |
| Chip8Properties.AluFrame | emulator.c:216-266 | every `8xyn` changes at most Vx and V[0xF]; LD/OR/AND/XOR with x != F keep V[0xF] |
| Chip8Properties.AddWithCarry | emulator.c:238-244 | `8xy4`, x != F: Vx = (Vx + Vy) mod 256, V[0xF] = 1 iff Vx + Vy > 255, and no other register changes |
| Chip8Properties.AddIntoFlag | emulator.c:238-244 | `8xF4`: the sum overwrites the carry in V[0xF] |
| Chip8Properties.SubWithBorrow | emulator.c:245-249 | `8xy5`, x, y != F: Vx = (Vx - Vy) mod 256, and V[0xF] = 1 iff Vx > Vy strictly, 0 iff Vx <= Vy |
| Chip8Properties.ReverseSubWithBorrow | emulator.c:255-259 | `8xy7`, x, y != F: Vx = (Vy - Vx) mod 256, and V[0xF] = 1 iff Vy > Vx strictly, 0 iff Vy <= Vx |
| Chip8Properties.SubReadsNewFlag | emulator.c:245-249 | `8xF5` subtracts the flag just written, not the old V[0xF] |
| Chip8Properties.Shifts | emulator.c:250-264 | SHR: V[0xF] = the low bit and Vx = Vx / 2; SHL: V[0xF] = the high bit and Vx = 2*Vx mod 256 (x != F) |
| Chip8Properties.ShiftFlagRegister | emulator.c:250-264 | with x = F, the shift acts on the flag just written: SHR leaves 0 and SHL leaves twice the old top bit |
| Chip8Properties.ClearScreen | emulator.c:143-147 | `00E0` darkens every cell and changes nothing else but PC |
| Chip8Properties.DrawStep | emulator.c:300-330 | `Dxyn` is the blit of the n bytes at I from (Vx mod 64, Vy mod 32), with the collision in V[0xF], followed by the PC advance |
| Chip8Properties.ExecuteIsDraw | emulator.c:300-330 | `Dxyn` is `Draw` followed by `PC += 2` |
| Chip8Properties.DrawIgnoresPC | emulator.c:300-330 | the draw neither reads nor writes PC |
| Chip8Properties.DrawDrawRestores | emulator.c:300-330 | two draws of the same sprite from registers other than V[0xF] leave the display and every other field as they were, except V[0xF] |
| Chip8Properties.DrawCells | emulator.c:308-328 | each set bit (row, col) toggles cell ((Vx mod 64 + col) mod 64, (Vy mod 32 + row) mod 32); clear bits leave it alone; only cells under set bits change; only the display, V[0xF] and PC change |
| Chip8Properties.DrawCollision | emulator.c:311-323 | V[0xF] = 1 iff some set bit lands on a lit cell, and 0 otherwise |
| Chip8Properties.DrawTwiceRestores | emulator.c:300-330 | the same `Dxyn` twice (x, y != F) restores the display; only V[0xF] and PC (+4) differ |
| Chip8Properties.ExecuteKeepsBinary | emulator.c:138-423 | no instruction puts a value other than 0 or 1 into a 0/1 display, and every instruction other than `Dxyn` (lines 300-330) and `00E0` (lines 144-147) leaves the display unchanged |
| Chip8Properties.FontGlyph | emulator.c:390-394 | `Fx29` points I at the 5-byte glyph of digit Vx & 0xF, inside the font |
| Chip8Properties.ExecuteIsMisc | emulator.c:351-419 | every `Fxkk` is `Misc` followed by `PC += 2` |
| Chip8Properties.AddToIndex | emulator.c:386-389 | `Fx1E` sets I = (I + Vx) mod 2^16 and leaves V[0xF] alone |
| Chip8Properties.Digits | emulator.c:399-401 | the three BCD digits of a byte are each below 10 and recombine to the byte |
| Chip8Properties.Bcd | emulator.c:395-403 | `Fx33` writes three digits, each < 10, with 100*d0 + 10*d1 + d2 = Vx, to I..I+2; no other memory cell changes |
| Chip8Properties.StoreRegisterBlock | emulator.c:404-410 | `Fx55` writes V0..Vx to I..I+x, changes no other memory cell, and moves only PC besides |
| Chip8Properties.LoadRegisterBlock | emulator.c:411-417 | `Fx65` reads V0..Vx from I..I+x and keeps Vx+1..VF |
| Chip8Properties.StoreThenLoad | emulator.c:404-417 | `Fx55` writes V0..Vx to I..I+x and nothing else; `Fx65` with the same x gives back every register unchanged; I stays put |
| Chip8Properties.KeyWaitIdle | emulator.c:360-377 | `Fx0A` with no key pressed leaves the whole state unchanged (PC − 2 + 2) |
| Chip8Properties.KeyWaitPressed | emulator.c:360-377 | `Fx0A` with some key pressed sets Vx to the lowest pressed key and advances PC by 2 |
| Chip8Properties.TimerRegisters | emulator.c:356-385 | `Fx07` reads the delay timer into Vx; `Fx15`/`Fx18` set the delay/sound timer from Vx |
| Chip8Properties.ExecuteKeepsKeys | emulator.c:138-423 | no instruction writes the keypad |
| Chip8Properties.TicksCountDown | emulator.c:425-432 | after k timer updates each timer is max(t - k, 0), and nothing else changes |
| Chip8Properties.RunKeepsKeys | emulator.c:612-615 | every cycle of a run sees the same keypad |
| Chip8Properties.WaitingRun | emulator.c:360-377 | a machine waiting in `Fx0A` with no key pressed stays exactly where it is for any number of cycles of the frame loop (lines 612-615) |
| Chip8Properties.WaitingFrame | emulator.c:612-618 | a frame spent waiting for a key changes only the timers |
| Chip8Properties.FrameKeepsSnapshot | emulator.c:612-618 | after a frame, the keypad is the snapshot the frame was given |

## Left out

- The SDL window, renderer and pixel drawing are host I/O and are not modelled: `init_sdl`, `cleanup_sdl` and `render_display` (emulator.c:443-467, 494-550). The display is the 2048-cell `display` sequence.
- `audio_callback` (emulator.c:469-492) is not modelled: it synthesises a floating-point square wave on the audio thread. The sound timer is modelled; the tone is not.
- `handle_input` and the `key_map` scancode table (emulator.c:73-90, 434-441) are SDL keyboard queries. They are not modelled. The keypad is a 16-entry snapshot given to each frame (`keys`), set by `Interpreter.Machine.SetKeys`.
- The file I/O of `read_program` is not modelled: `fopen`, `ftell`, `fread` and the "could not open" error. `Chip8.LoadProgram` and `Interpreter.Machine.ReadProgram` take the file's bytes.
- The wall-clock pacing and the event loop of `main` (emulator.c:580-609) are not modelled. A frame is one call of `Interpreter.Machine.Frame`.
- `rand()` and `srand(time(NULL))` are not modelled. `Cxkk` takes the byte `rand() % 256` would give as the parameter `rnd`, and a frame takes one such byte per cycle (`rnds`).
- All `printf` tracing is omitted: it does not affect the state.
- The `VF` field of the struct (emulator.c:18) is not modelled: it is never used, and the flag is V[0xF].
- The out-of-bounds cases of unchecked accesses are undefined behaviour in C. The model requires them not to happen (`Chip8.Defined`, and `PC + 1 < 3840` for a fetch) rather than giving them a meaning.
- `emulator.c`'s `main` checks the command line and stops on a failed load or SDL start. None of that is modelled.
- Chip8.LoadProgram, Interpreter.Machine.ReadProgram: use the corrected size test. A file of 3329 to 3584 bytes, which the test at emulator.c:123 lets through and whose copy then runs past `memory`, gets the -1 return here instead of the undefined overrun (see Findings).
- `sdl3_basic_template.c` is not part of this model; it only opens an SDL window.
- Chip8Properties.AddWithCarry, Chip8Properties.SubWithBorrow, Chip8Properties.ReverseSubWithBorrow, Chip8Properties.Shifts: stated for x (and y) != 0xF only. In those cases the flag register is one of the operands. The flag-register cases are stated separately by AddIntoFlag, SubReadsNewFlag and ShiftFlagRegister; `Chip8.Alu` gives them all.
- Chip8Properties.DrawTwiceRestores: stated for x, y != 0xF only. With Vx or Vy = V[0xF], the first draw moves the second sprite by overwriting the flag.

## Findings

| source | as written | input that shows it | evidently intended | confidence | as-written member | corrected member |
|---|---|---|---|---|---|---|
| emulator.c:123-127 | the size test rejects only files over 4096 - 0x200 = 3584 bytes, then `fread` copies the file to `&memory[0x200]`, but `memory` has only 3840 bytes | a ROM file of 3584 bytes (any length from 3329 to 3584) passes the size test and the copy runs up to 256 bytes past `memory` | reject programs longer than 3840 - 0x200 = 3328 bytes | not executed | Chip8.FitsAsWritten, Chip8Properties.SizeCheckTooLoose | Chip8.LoadProgram, Chip8Properties.LoadProgramPlaces, Interpreter.Machine.ReadProgram |
