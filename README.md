# CHIP-8 CPU core

This project models the CPU of a CHIP-8 emulator and the 64x32 pixel matrix
it draws into, and proves properties of the model.

The CPU holds these pieces of state:

- sixteen 8-bit registers V0..VF, where VF doubles as the carry, borrow and
  collision flag;
- 4096 bytes of memory, with the 80-byte hexadecimal font at addresses 0..79;
- a 16-bit index register I and a 16-bit program counter that starts at 512;
- a 15-slot return-address array `jmp`, with the count `cptJump` of live slots;
- the delay and sound timers.

Each cycle (`run`) does three things:

1. It fetches the big-endian word at pc.
2. It classifies the word by a first-match scan over a 35-entry table of
   (mask, id) pairs, then executes the matching case of a 35-way switch,
   which always ends with `pc += 2`.
3. It decrements both timers.

`DXYN` XORs a sprite onto the display. Coordinates wrap modulo 64 and 32, and
VF reports whether a lit pixel was turned off.

The project is in seven files:

- `wrappers.dfy` (module `Wrappers`): the `Option` and `Result` types.
- `display.dfy` (module `Display`):
  - the value `Frame`, indexed `[col][row]` as the source's matrix is;
  - the class `Screen`, whose `pixelMatrix` is an `array2<bool>` that `Cls`
    and `UpdatePixelsMatrix` update in place.
- `opcodes.dfy` (module `Opcodes`):
  - the mask/id table;
  - the first-match decoder `Decode`;
  - an independent classification `Classify` based on the structure of the
    instruction set, with lemmas relating the two.
- `chip8.dfy` (module `Chip8`):
  - the machine as a value, `Machine`;
  - the meaning of each instruction as functions on it: `Effect`, the five
    group functions, `Execute`, `Exec` and `Step`;
  - the boot state `Boot`, the game loader `Load`, the fetch `Fetch`, and
    the draw loops, written as recursive functions that follow the loops.
- `draw.dfy` (module `Drawing`):
  - the sprite draw in closed form, as a mask of flipped pixels;
  - proofs that the draw loops compute that mask;
  - the XOR, collision and draw-twice properties, with the collision flag
    stated for every X and Y and a counterexample for draw-twice with X = F.
- `properties.dfy` (module `Properties`): one lemma per instruction or group
  of instructions, plus the boot, load, cycle and timer lemmas.
- `cpu.dfy` (module `Cpu`): the class `CPU`.
  - The registers, memory, return slots and opcode table are arrays, updated
    in place as the source does.
  - The ghost function `State()` reads the object as a `Machine`. Every
    method is proved to end in the state the corresponding `Chip8` function
    gives.
  - A method that reports a fault ends in the state it started in.
  - The loops of `drawSprt`, `retrieveOpcodeIndex`, `loadGame`, FX55 and FX65
    are `while` and `for` loops with invariants.

Machine words are integers in range (`Byte` is 0..255, `Word` is 0..65535).
Every store into a `uint8_t` or `uint16_t` that can leave its range is
reduced explicitly with `Truncate8` or `Wrap16`. The operands are b1 = N (bits 0-3), b2 = Y (bits 4-7)
and b3 = X (bits 8-11). They are taken as integer remainder and division of
the opcode.

The keypad and `rand()` come from outside. They are passed in as
`Env(held, pressed, random)`:

- `held` is the set of keys down, used by EX9E and EXA1;
- `pressed` is the key that FX0A's blocking wait returns;
- `random` is the value `rand()` returned, used by CXNN.

Where the source indexes an array without a bounds check, the model reports a
fault instead, and nothing changes. The faults are:

- `AddressOutOfRange`, for memory at or beyond 4096, or a game too long to fit;
- `StackOverflow`, for a CALL with all 15 slots in use;
- `KeyOutOfRange`, for EX9E or EXA1 with Vx > 15, where the keypad map's `at`
  throws inside the `noexcept` `getKeyState`, which ends the program;
- `GameNotFound`, for a game file that cannot be opened.

## Model

| member | source | states |
|---|---|---|
| Display.Screen.Pixels | src/display/screen.hpp:34 | the matrix is stored column-major: pixel (row, col) of the frame is `pixelMatrix[col][row]` |
| Display.Screen.constructor | src/display/screen.cpp:7-10 | a new screen is blank |
| Display.Screen.Cls | src/display/screen.cpp:12-21 | afterwards every one of the 64x32 pixels is off, whatever the previous contents, so clearing twice is clearing once |
| Display.Screen.UpdatePixelsMatrix | src/display/screen.cpp:41-44 | the new matrix is the old one with exactly cell (row, col) set to the given value |
| Display.SetPixel | src/display/screen.cpp:41-44 | after the write, cell (row, col) reads back as the value written and every other cell is unchanged |
| Display.Screen.GetMatrixPixel | src/display/screen.hpp:30 | a read of cell (row, col) of the current matrix that changes nothing |
| Display.Blank | src/display/screen.cpp:12-21 | the cleared frame has every pixel off |
| Opcodes.TableSize | src/cpu/cpu.hpp:18-22 | the opcode table holds exactly 35 (mask, id) pairs |
| Opcodes.FirstFrom | src/cpu/cpu.cpp:152-156 | the scan from index j returns the first matching index at or after j, or none when no later entry matches |
| Opcodes.Decode | src/cpu/cpu.cpp:150-158 | the decoder returns the smallest index whose mask and id accept the word, or 0 when none does |
| Opcodes.EntryZeroInert | src/cpu/cpu.cpp:73-74 | table entry 0 (mask 0x0000, id 0x0FFF) accepts no word |
| Opcodes.MatchesIffClassified | src/cpu/cpu.cpp:70-143 | entry k of the table accepts a word exactly when the instruction-set classification of the word is k (and never for k = 0) |
| Opcodes.AtMostOneMatch | src/cpu/cpu.cpp:70-143 | no word is accepted by two entries, so the order of the scan never decides between candidates |
| Opcodes.DecodeIsClassify | src/cpu/cpu.cpp:150-158 | the first-match scan agrees with the independent classification on every word |
| Opcodes.DecodeUnique | src/cpu/cpu.cpp:150-158 | when entry c is the only entry that accepts a word (none, for c = 0), the decoder returns c |
| Opcodes.DecodeEntry | src/cpu/cpu.cpp:150-158 | every word accepted by entry k decodes to k |
| Opcodes.DecodeFirst | src/cpu/cpu.cpp:150-158 | a word accepted by entry k and by no earlier entry decodes to k |
| Opcodes.ScanIsDecode | src/cpu/cpu.cpp:152-157 | the loop's exit index over the initialised table (the first accepting index, or 35) is the decoder's answer, with 35 mapped to 0 |
| Chip8.GlyphRows | src/cpu/cpu.cpp:160-257 | the font is 80 bytes long |
| Chip8.Fetch | src/cpu/cpu.cpp:145-148 | the fetched word is `mem[pc] * 256 + mem[pc + 1]`, and the fetch succeeds exactly when pc + 1 is inside memory |
| Chip8.OperandN | src/cpu/cpu.cpp:263 | b1 is a nibble, 0..15 |
| Chip8.OperandY | src/cpu/cpu.cpp:264 | b2 is a nibble, 0..15 |
| Chip8.OperandX | src/cpu/cpu.cpp:265 | b3 is a nibble, 0..15 |
| Chip8.Wrap16 | src/cpu/cpu.hpp:38-39 | a `uint16_t` store keeps every value already in 0..65535 |
| Chip8.Truncate8 | src/cpu/cpu.hpp:34 | a `uint8_t` store keeps every value already in 0..255 |
| Chip8.SpriteBits | src/cpu/cpu.cpp:51-54 | sprite column col is lit exactly when bit 7 - col of the sprite byte is set |
| Chip8.Bitwise | src/cpu/cpu.cpp:355-372 | the bitwise OR, AND or XOR of the low w bits is below 2^w |
| Chip8.Decrement | src/cpu/cpu.hpp:62-66 | a timer tick lowers a running timer by exactly one and leaves an expired timer at 0 |
| Chip8.DecrementCounters | src/cpu/cpu.hpp:62-66 | both timers tick once and nothing else of the machine changes |
| Chip8.DecrementAsWritten | src/cpu/cpu.hpp:62-66 | the source's unchecked `uint8_t` tick: a running timer goes down by one and an expired one becomes 255 |
| Chip8.Boot | src/cpu/cpu.hpp:34-45 | the constructed machine is well formed (16 registers, 4096 bytes, 15 stack slots, depth 0); Properties.BootState gives its every field |
| Chip8.Load | src/cpu/cpu.cpp:17-39 | a successful load leaves a well-formed machine; Properties.LoadSpec states when it succeeds and what it copies |
| Chip8.SkipIf | src/cpu/cpu.cpp:307-333 | a conditional skip changes only pc: by 2 (mod 65536) when the condition holds, not at all otherwise |
| Chip8.Return | src/cpu/cpu.cpp:281-290 | 00EE keeps the machine well formed (the depth stays within 0..15); Properties.ExecReturn states its effect |
| Chip8.Call | src/cpu/cpu.cpp:297-306 | a CALL that is not refused leaves a well-formed machine (depth at most 15); Properties.ExecCall states when it is refused and what it pushes |
| Chip8.CallAsWritten | src/cpu/cpu.cpp:297-306 | the source's CALL writes slot `depth` and sets pc to NNN - 2; it counts the call exactly when fewer than 15 are pending, so the depth never passes 15 |
| Chip8.AddWithCarry | src/cpu/cpu.cpp:373-387 | 8XY4 keeps 16 registers; Properties.ExecAddCarry and ExecAddCarryIntoFlag state the flag and the sum |
| Chip8.SubWithBorrow | src/cpu/cpu.cpp:388-402 | 8XY5 keeps 16 registers; Properties.ExecSub and ExecSubIntoFlag state the flag and the difference |
| Chip8.ShiftRight | src/cpu/cpu.cpp:403-410 | 8XY6 keeps 16 registers; Properties.ExecShiftRight states the shifted value and the bit in VF |
| Chip8.SubReversed | src/cpu/cpu.cpp:411-425 | 8XY7 keeps 16 registers; Properties.ExecSubReversed and ExecSubReversedIntoFlag state the flag and the difference |
| Chip8.ShiftLeft | src/cpu/cpu.cpp:426-432 | 8XYE keeps 16 registers; Properties.ExecShiftLeft states the shifted value and the bit in VF |
| Chip8.AddToIndex | src/cpu/cpu.cpp:520-534 | FX1E keeps the machine well formed; Properties.ExecAddIndex states the flag and the new I |
| Chip8.Bcd | src/cpu/cpu.cpp:543-550 | a successful FX33 leaves a well-formed machine; Properties.ExecBcd and BcdSpec state the digits and the fault |
| Chip8.StoreRegs | src/cpu/cpu.cpp:551-562 | the FX55 store keeps memory at 4096 bytes; Properties.ExecStore states which bytes change and to what |
| Chip8.LoadRegs | src/cpu/cpu.cpp:563-573 | the FX65 load keeps 16 registers; Properties.ExecLoadRegs states which registers change and to what |
| Chip8.Logic | src/cpu/cpu.cpp:348-372 | 8XY0 yields Vy; Properties.LogicBits gives the per-bit meaning of 8XY1..8XY3 |
| Chip8.PlotColumn | src/cpu/cpu.cpp:53-65 | one column pass keeps a 64x32 display and 16 registers; Drawing.PlotColumnSpec states the pixel flipped and the flag |
| Chip8.DrawRowFrom | src/cpu/cpu.cpp:51-66 | the column loop, re-reading Vx each pass, keeps a 64x32 display and 16 registers; Drawing.DrawRowFromSpec and RowFlag state what it flips and the flag |
| Chip8.PlotRow | src/cpu/cpu.cpp:49-66 | one row pass, re-reading Vy, keeps the display and registers well formed; Drawing.PlotRowSpec states the row it draws |
| Chip8.DrawRowsFrom | src/cpu/cpu.cpp:47-67 | the row loop keeps the display and registers well formed; Drawing.DrawRowsFromSpec and RowsRaise state what it flips and the flag |
| Chip8.Draw | src/cpu/cpu.cpp:41-68 | a DXYN that does not fault leaves a well-formed machine; Drawing.DrawSpec, DrawCollision and Properties.ExecDraw state the fault, the display and VF |
| Chip8.FlowEffect | src/cpu/cpu.cpp:269-347 | cases 0..9 keep the machine well formed whenever they succeed; the Properties.Exec lemmas of 0NNN..7XNN state each case |
| Chip8.LogicEffect | src/cpu/cpu.cpp:348-372 | cases 10..13 keep the machine well formed; Properties.ExecLogic states each case |
| Chip8.ArithEffect | src/cpu/cpu.cpp:373-443 | cases 14..19 keep the machine well formed; the Properties.Exec lemmas of 8XY4..9XY0 state each case |
| Chip8.MiscEffect | src/cpu/cpu.cpp:444-504 | cases 20..27 keep the machine well formed whenever they succeed; the Properties.Exec lemmas of ANNN..FX0A state each case |
| Chip8.MemoryEffect | src/cpu/cpu.cpp:506-573 | cases 28..34 keep the machine well formed whenever they succeed; the Properties.Exec lemmas of FX15..FX65 state each case |
| Chip8.Effect | src/cpu/cpu.cpp:267-573 | the switch on the table index keeps the machine well formed whenever it succeeds; Properties.ExecDispatch ties index k to its case |
| Chip8.Execute | src/cpu/cpu.cpp:259-583 | case k followed by pc += 2 keeps the machine well formed whenever it succeeds; each Properties.Exec lemma states one case |
| Chip8.Exec | src/cpu/cpu.cpp:259-583 | decoding then executing a word keeps the machine well formed whenever it succeeds; Properties.ExecDispatch and Opcodes.DecodeIsClassify say which case runs |
| Chip8.Step | src/cpu/cpu.cpp:591-596 | a cycle that does not fault leaves a well-formed machine; Properties.StepSpec states when it faults and what it does |
| Properties.OperandsCompose | src/cpu/cpu.cpp:263-265 | Y * 16 + N is the low byte and X * 256 + Y * 16 + N the low twelve bits of the opcode, that is NN and NNN |
| Properties.BootState | src/cpu/cpu.hpp:34-45 | at boot: pc = 512, I = 0, the stack depth is 0, both timers are 0, all registers are 0, bytes 0..79 are the font and every other byte is 0 |
| Properties.FontGlyph | src/cpu/cpu.cpp:160-257 | the five font bytes of digit d start at 5 * d and are glyph d |
| Properties.LoadSpec | src/cpu/cpu.cpp:17-39 | loading succeeds exactly for an existing file of at most 3584 bytes; it copies the file to 512.. and changes no other byte and nothing else; a missing file gives GameNotFound |
| Properties.DecrementStops | src/cpu/cpu.hpp:62-66 | a corrected tick never raises a timer and reaches 0 exactly from 0 or 1 |
| Properties.DecrementAsWrittenWraps | src/cpu/cpu.hpp:64-65 | the source's unchecked tick turns an expired timer (0) into 255 |
| Properties.DecrementAgrees | src/cpu/cpu.hpp:64-65 | on a running timer the source's tick and the corrected tick agree |
| Properties.Wrap16Add | src/cpu/cpu.cpp:294 | two 16-bit stores in a row wrap like one |
| Properties.JumpBack | src/cpu/cpu.cpp:293-294 | storing NNN - 2 and then adding the final 2 leaves pc = NNN |
| Properties.ExecIgnored | src/cpu/cpu.cpp:269-273 | entry 0 (0NNN and every unclassified word) only advances pc by 2 |
| Properties.ExecClear | src/cpu/cpu.cpp:274-279 | 00E0 blanks the display, advances pc and changes nothing else |
| Properties.ExecReturn | src/cpu/cpu.cpp:281-290 | 00EE pops the innermost return address and continues 2 after it; with no call pending it only advances pc |
| Properties.ExecJump | src/cpu/cpu.cpp:291-296 | 1NNN leaves pc = NNN and nothing else changed |
| Properties.ExecCall | src/cpu/cpu.cpp:297-306 | 2NNN fails exactly when all 15 slots are in use; otherwise it saves pc in slot `depth`, increments the depth and leaves pc = NNN |
| Properties.CallThenReturn | src/cpu/cpu.cpp:281-306 | 2NNN saves its address in the next slot; a 00EE right after it resumes at the call site + 2 with the call depth restored |
| Properties.SubroutineReturns | src/cpu/cpu.cpp:281-306 | after any subroutine that leaves the depth as the call made it and keeps the slot the call wrote, 00EE resumes at the call site + 2 with the depth restored and the subroutine's other effects kept |
| Properties.ExecSkipEqual | src/cpu/cpu.cpp:307-315 | 3XNN advances pc by 4 exactly when Vx == NN and by 2 otherwise, changing nothing else |
| Properties.ExecSkipNotEqual | src/cpu/cpu.cpp:316-323 | 4XNN advances pc by 4 exactly when Vx != NN and by 2 otherwise |
| Properties.ExecSkipRegsEqual | src/cpu/cpu.cpp:324-333 | 5XY0 advances pc by 4 exactly when Vx == Vy and by 2 otherwise |
| Properties.ExecSkipRegsNotEqual | src/cpu/cpu.cpp:434-443 | 9XY0 advances pc by 4 exactly when Vx != Vy and by 2 otherwise |
| Properties.ExecJumpOffset | src/cpu/cpu.cpp:450-458 | BNNN leaves pc = NNN + V0 |
| Properties.ExecDispatch | src/cpu/cpu.cpp:267 | a word accepted by entry k executes case k of the switch |
| Properties.ExecLoadImmediate | src/cpu/cpu.cpp:335-340 | 6XNN sets Vx to NN and changes nothing else but pc |
| Properties.ExecAddImmediate | src/cpu/cpu.cpp:341-347 | 7XNN adds NN to Vx modulo 256 and never touches VF, even on a carry |
| Properties.ExecLogic | src/cpu/cpu.cpp:348-372 | 8XY0..8XY3 set Vx to Vy, Vx OR Vy, Vx AND Vy or Vx XOR Vy and change nothing else but pc |
| Properties.LogicBits | src/cpu/cpu.cpp:355-372 | bit c of the 8XY1/8XY2/8XY3 result is the OR, AND or XOR of bit c of Vx and bit c of Vy; 8XY0 yields Vy |
| Properties.BitwiseBit | src/cpu/cpu.cpp:355-372 | bit c of a bitwise result is the operator applied to bit c of the operands |
| Properties.BitsEqual | src/cpu/cpu.cpp:355-372 | two values below 2^w with the same low w bits are equal |
| Properties.LogicXorInvolution | src/cpu/cpu.cpp:367-372 | XOR with the same Vy twice restores Vx, and a register XORed with itself is 0 |
| Properties.ExecAddCarry | src/cpu/cpu.cpp:373-387 | 8XY4 (X not F): VF = 1 exactly when Vx + Vy > 255; with Y not F, Vx' + 256 * VF == Vx + Vy; with Y = F, Vx' = Vx + the new VF mod 256; no other register changes |
| Properties.ExecAddCarryIntoFlag | src/cpu/cpu.cpp:376-384 | 8XY4 with X = F: the carry written to VF is then overwritten by the sum, which reads the new VF |
| Properties.ExecSub | src/cpu/cpu.cpp:388-402 | 8XY5 (X not F): VF = 1 exactly when Vx >= Vy; with Y not F, Vx' = Vx - Vy + 256 * (1 - VF); with Y = F, Vx' = Vx - the new VF mod 256 |
| Properties.ExecSubIntoFlag | src/cpu/cpu.cpp:391-399 | 8XY5 with X = F: the no-borrow flag is written to VF and then replaced by the flag minus Vy mod 256, Vy being the new VF when Y = F |
| Properties.ExecSubReversed | src/cpu/cpu.cpp:411-425 | 8XY7 (X not F): VF = 1 exactly when Vy >= Vx; with Y not F, Vx' = Vy - Vx + 256 * (1 - VF); with Y = F, Vx' = the new VF - Vx mod 256 |
| Properties.ExecSubReversedIntoFlag | src/cpu/cpu.cpp:414-422 | 8XY7 with X = F: the no-borrow flag is written to VF and then replaced by Vy minus the flag mod 256, Vy being the new VF when Y = F |
| Properties.ExecShiftRight | src/cpu/cpu.cpp:403-410 | 8XY6 (X not F): VF is the bit shifted out, 2 * Vx' + VF == Vx; no other register changes |
| Properties.ExecShiftLeft | src/cpu/cpu.cpp:426-432 | 8XYE (X not F): VF is the bit shifted out, Vx' + 256 * VF == 2 * Vx |
| Properties.ExecRandom | src/cpu/cpu.cpp:459-466 | CXNN sets Vx to the random value modulo NN + 1, so Vx <= NN afterwards |
| Properties.ExecReadDelay | src/cpu/cpu.cpp:493-498 | FX07 copies the delay timer into Vx |
| Properties.ExecWaitKey | src/cpu/cpu.cpp:499-504 | FX0A stores the pressed key in Vx, which is then below 16 |
| Properties.ExecSetIndex | src/cpu/cpu.cpp:444-449 | ANNN sets I to NNN |
| Properties.ExecSetTimers | src/cpu/cpu.cpp:506-519 | FX15 and FX18 load the delay and the sound timer from Vx |
| Properties.ExecAddIndex | src/cpu/cpu.cpp:520-534 | FX1E (X not F): VF = 1 exactly when I + Vx > 0xFFF, then I = I + Vx in 16 bits; with X = F, I = I + the new VF in 16 bits; only VF, I and pc change |
| Properties.ExecFontIndex | src/cpu/cpu.cpp:536-541 | FX29 sets I to 5 * Vx |
| Properties.ExecFontChar | src/cpu/cpu.cpp:536-541 | while bytes 0..79 hold the font, the five bytes FX29 points I at are the glyph of digit Vx |
| Properties.FontInMemory | src/cpu/cpu.cpp:160-257 | memory whose first 80 bytes are the font holds glyph d at 5 * d |
| Properties.ExecKeySkips | src/cpu/cpu.cpp:474-491 | EX9E skips exactly when key Vx is held, EXA1 exactly when it is not; both fail exactly when Vx > 15 |
| Properties.ExecDraw | src/cpu/cpu.cpp:468-473 | DXYN is the sprite draw followed by pc += 2, and fails exactly when the draw does |
| Properties.ExecBcd | src/cpu/cpu.cpp:543-550 | FX33 writes digits a <= 2, b < 10, c < 10 with 100a + 10b + c == Vx at I..I+2 and changes nothing else; it fails exactly when I + 2 is outside memory |
| Properties.BcdSpec | src/cpu/cpu.cpp:546-548 | the same digit facts for the three stores, before pc moves |
| Properties.BcdDigits | src/cpu/cpu.cpp:546-548 | the source's three digit formulas give Vx / 100, (Vx / 10) % 10 and Vx % 10 |
| Properties.ExecStore | src/cpu/cpu.cpp:551-562 | FX55 writes V0..VX to I..I+X, changes no other byte and nothing else, and leaves I as it was; it fails exactly when I + X is outside memory |
| Properties.ExecLoadRegs | src/cpu/cpu.cpp:563-573 | FX65 sets V0..VX from I..I+X, leaves the other registers alone and fails exactly when I + X is outside memory |
| Properties.StoreThenLoad | src/cpu/cpu.cpp:551-573 | FX55 followed by FX65 with the same X and I gives back exactly the registers that were stored |
| Properties.StepSpec | src/cpu/cpu.cpp:591-596 | a cycle fails exactly when the fetch or the instruction fails; otherwise it is the decoded instruction followed by one tick of both timers |
| Properties.CallAgrees | src/cpu/cpu.cpp:297-306 | below 15 pending calls the source's CALL and the corrected one write the same slot and reach the same depth and pc |
| Properties.CallAsWrittenOverruns | src/cpu/cpu.cpp:281-306 | with 15 calls pending the source's CALL writes slot 15 of the 15-slot array and does not count the call, so the next 00EE returns through slot 14 to the previous call's site; the corrected CALL refuses |
| Drawing.ColumnInverse | src/cpu/cpu.cpp:53 | display column c is sprite column k of a sprite at Vx exactly when c == (Vx + k) mod 64 |
| Drawing.RowInverse | src/cpu/cpu.cpp:50 | display row r is sprite row k of a sprite at Vy exactly when r == (Vy + k) mod 32 |
| Drawing.XorPartition | src/cpu/cpu.cpp:47-67 | flipping two disjoint pixel sets one after the other flips their union, and collides exactly when one of the two flips collides |
| Drawing.DrawnCompose | src/cpu/cpu.cpp:47-67 | drawing mask a and then mask b is drawing their disjoint union |
| Drawing.DrawnKeeps | src/cpu/cpu.cpp:44-67 | drawing changes no register but VF |
| Drawing.XorTwice | src/cpu/cpu.cpp:54-64 | flipping the same pixels twice restores the frame |
| Drawing.SetPixelIsXor | src/cpu/cpu.cpp:56-64 | writing the complement of one pixel flips exactly that pixel and collides exactly when it was on |
| Drawing.PlotColumnSpec | src/cpu/cpu.cpp:53-65 | one pass of the column loop flips the pixel under a set sprite bit at ((Vy + row) mod 32, (Vx + col) mod 64) and sets VF when it was on |
| Drawing.DrawRowFromSpec | src/cpu/cpu.cpp:51-66 | the column loop flips exactly the row's mask and raises VF exactly when a flipped pixel was on (X not F, or the row hits no lit pixel) |
| Drawing.PlotRowSpec | src/cpu/cpu.cpp:49-66 | one pass of the row loop draws the row byte at I + row on display row (Vy + row) mod 32 and keeps Vx and Vy (X, Y not F, or the row hits no lit pixel) |
| Drawing.DrawRowsFromSpec | src/cpu/cpu.cpp:47-67 | the row loop flips exactly the sprite's mask and raises VF exactly when a flipped pixel was on (X, Y not F, or the sprite hits no lit pixel) |
| Drawing.RowFlag | src/cpu/cpu.cpp:51-66 | for any X, the column loop ends with VF = 1 exactly when the row, where the loop first sees it, hits a lit pixel, and with VF unchanged otherwise |
| Drawing.RowsRaise | src/cpu/cpu.cpp:47-67 | for any X and Y, the row loop ends with VF = 1 when VF is 1 already or the sprite, where the loop first sees it, hits a lit pixel |
| Drawing.SpriteMaskAt | src/cpu/cpu.cpp:49-54 | sprite pixel (row, col) lands on display pixel ((Vy + row) mod 32, (Vx + col) mod 64) |
| Drawing.SpriteMaskOutside | src/cpu/cpu.cpp:47-51 | a display pixel past sprite row N - 1 or past sprite column 7 is not flipped |
| Drawing.SpriteMaskNonEmpty | src/cpu/cpu.cpp:54 | the sprite flips some pixel exactly when one of its bytes has a set bit |
| Drawing.DrawSpec | src/cpu/cpu.cpp:41-68 | DXYN (X, Y not F, or a sprite that hits no lit pixel) fails exactly when the sprite reaches past memory; otherwise VF := 0 and the display is XORed with the sprite's mask, VF = 1 exactly when that mask hits a lit pixel |
| Drawing.DrawCollision | src/cpu/cpu.cpp:44-65 | for any X and Y, DXYN ends with VF = 1 exactly when the sprite, at Vx and Vy read after VF := 0, hits a lit pixel, and with VF = 0 otherwise |
| Drawing.DrawPixel | src/cpu/cpu.cpp:49-64 | each touched display pixel ((Vy + row) mod 32, (Vx + col) mod 64) becomes its old value XOR the sprite bit (X, Y not F, or a sprite that hits no lit pixel) |
| Drawing.DrawOutside | src/cpu/cpu.cpp:47-67 | every display pixel outside the sprite's footprint keeps its value (X, Y not F, or a sprite that hits no lit pixel) |
| Drawing.DrawTwiceRestores | src/cpu/cpu.cpp:41-68 | drawing the same sprite twice at the same place restores the display (X, Y not F) |
| Drawing.DrawTwiceAliased | src/cpu/cpu.cpp:44-65 | with X = F, Y = 0 and N = 1, two DF01 of the row byte 0xC0 on a blank display leave pixels lit: the second draw's collision at column 0 moves its next pixel |
| Drawing.DrawOnBlank | src/cpu/cpu.cpp:44-65 | for any X and Y, on a blank display nothing collides and VF stays 0 |
| Drawing.RedrawCollides | src/cpu/cpu.cpp:44-65 | for any X and Y, drawing a sprite a second time on an otherwise blank display sets VF exactly when the sprite has a set pixel |
| Cpu.CPU.constructor | src/cpu/cpu.cpp:11-15 | after construction the object is the boot machine on the given display: state fields zero, pc 512, opcode table built, font loaded |
| Cpu.CPU.InitializeJump | src/cpu/cpu.cpp:70-143 | the two arrays hold exactly the 35 masks and ids of the table |
| Cpu.CPU.LoadFont | src/cpu/cpu.cpp:160-257 | memory bytes 0..79 are the font and the rest of memory is untouched |
| Cpu.CPU.LoadGame | src/cpu/cpu.cpp:17-39 | the new state is the result of `Load`; on a fault it is reported and nothing changes |
| Cpu.CPU.GetCurrentOp | src/cpu/cpu.cpp:145-148 | returns the fetched word of the current state |
| Cpu.CPU.RetrieveOpcodeIndex | src/cpu/cpu.cpp:150-158 | returns the decoder's index for the word |
| Cpu.Scan | src/cpu/cpu.cpp:152-157 | the loop stops at the first index whose pair accepts the word, or at the end of the table |
| Cpu.CPU.DrawSprt | src/cpu/cpu.cpp:41-68 | the new registers and display are those of the draw function; a sprite reaching past memory is a fault that changes nothing |
| Cpu.CPU.DrawSprtRows | src/cpu/cpu.cpp:47-67 | the row loop computes the row recursion over the N sprite rows |
| Cpu.CPU.DrawSprtRow | src/cpu/cpu.cpp:49-66 | one pass of the row loop computes one row step |
| Cpu.CPU.DrawSprtColumns | src/cpu/cpu.cpp:51-66 | the column loop computes the column recursion over the 8 sprite columns |
| Cpu.CPU.PlotPixel | src/cpu/cpu.cpp:53-65 | one pass of the column loop computes one column step |
| Cpu.CPU.ExecuteOpcode | src/cpu/cpu.cpp:259-583 | the new state is the result of executing the word in the value semantics; on a fault it is reported and nothing changes |
| Cpu.CPU.FlowCase | src/cpu/cpu.cpp:269-347 | cases 0..9 compute the flow group's effect; CALL with 15 calls pending is refused |
| Cpu.CPU.LogicCase | src/cpu/cpu.cpp:348-372 | cases 10..13 compute the logic group's effect |
| Cpu.CPU.ArithCase | src/cpu/cpu.cpp:373-443 | cases 14..19 compute the arithmetic group's effect |
| Cpu.CPU.AddRegisters | src/cpu/cpu.cpp:373-387 | 8XY4 writes the carry to VF and then the truncated sum to Vx |
| Cpu.CPU.SubRegisters | src/cpu/cpu.cpp:388-402 | 8XY5 writes the no-borrow flag to VF and then Vx - Vy mod 256 to Vx |
| Cpu.CPU.ShiftRegisterRight | src/cpu/cpu.cpp:403-410 | 8XY6 writes the low bit to VF and then Vx >> 1 to Vx |
| Cpu.CPU.SubRegistersReversed | src/cpu/cpu.cpp:411-425 | 8XY7 writes the no-borrow flag to VF and then Vy - Vx mod 256 to Vx |
| Cpu.CPU.ShiftRegisterLeft | src/cpu/cpu.cpp:426-432 | 8XYE writes the high bit to VF and then Vx << 1 mod 256 to Vx |
| Cpu.CPU.MiscCase | src/cpu/cpu.cpp:444-504 | cases 20..27 compute their group's effect; EX9E and EXA1 with Vx > 15 are refused |
| Cpu.CPU.WaitForKeyPress | src/cpu/cpu.cpp:585-589 | Vx receives the key and nothing else changes |
| Cpu.CPU.MemoryCase | src/cpu/cpu.cpp:506-573 | cases 28..34 compute their group's effect |
| Cpu.CPU.StoreBcd | src/cpu/cpu.cpp:543-550 | the new memory is the three-digit store of the value semantics; I + 2 outside memory is a fault that changes nothing |
| Cpu.CPU.StoreRegisters | src/cpu/cpu.cpp:551-562 | the copy loop leaves memory equal to the FX55 result; I + X outside memory is a fault that changes nothing |
| Cpu.CPU.LoadRegisters | src/cpu/cpu.cpp:563-573 | the copy loop leaves the registers equal to the FX65 result; I + X outside memory is a fault that changes nothing |
| Cpu.CPU.Run | src/cpu/cpu.cpp:591-596 | the new state is one cycle of the value semantics; a fault of the fetch or of the instruction is reported and changes nothing |
| Cpu.CPU.DecrementCounters | src/cpu/cpu.hpp:62-66 | both timers tick once, stopping at 0, and nothing else changes |

## Left out

- The SFML window, the rendering in `showPixelsMatrix`, spdlog logging and command-line handling are I/O. None of them is modelled.
- The keypad is `Env.held` and `Env.pressed`. The blocking wait of FX0A is an oracle that returns `Env.pressed`; there is no waiting state, because the source has none either.
- `rand()` is `Env.random`.
- Opening and reading the game file are left out: `LoadGame` takes the file's contents, or None for a file that cannot be opened. The source copies any length past the end of memory; the model refuses a file longer than 3584 bytes.
- Several memory accesses are unchecked in the source: the fetch at pc + 1, the draw at I + N - 1, FX33 at I + 2, and FX55/FX65 at I + X. For these the model reports `AddressOutOfRange` before anything changes. The source's undefined behaviour, including a draw that runs partly before failing, is not modelled.
- EX9E/EXA1 with Vx > 15: in the source, `m_keysMapping.at` throws inside `getKeyState`, which is declared `noexcept` (src/input/keyboard.hpp:19-21), so the program calls `std::terminate`. The model reports this fatal outcome as `KeyOutOfRange` and changes nothing.
- The `default` branch of the switch cannot be reached, because the decoder always returns 0..34. It is not modelled.
- Chip8.OperandN: b1, b2 and b3 are written as `op % 16`, `(op / 16) % 16` and `(op / 256) % 16`. Their equality with the source's masks and shifts is not proved.
- The unused members `m_stack`, `isRunning`, `COUNTER_DELAY` and `CPU_TIMING` are not modelled.
- The timer ticks in the CPU class use the corrected clamp at 0. The source's wrap is kept as `DecrementAsWritten` (see Findings).
- CALL at depth 15 is refused in the class, unlike the source. The source's behaviour is kept as `CallAsWritten` (see Findings).
- Properties.ExecAddCarry: the overflow identity is stated only for X, Y not F. With X = F the flag is overwritten by the sum; ExecAddCarryIntoFlag states that case. ExecSubIntoFlag, ExecSubReversedIntoFlag and ExecAddIndex state the same cases of 8XY5, 8XY7 and FX1E.
- Drawing.DrawSpec: the closed form of DXYN needs X, Y not F or a sprite that hits no lit pixel. With X or Y = F the loops re-read VF after writing it, so a collision moves the rest of the sprite. For a colliding draw with X or Y = F, only the collision flag (DrawCollision) and the loop recursion, in `Chip8.Draw` and `Cpu.CPU.DrawSprt`, are modelled.
- Drawing.DrawPixel: the per-pixel form and the footprint (DrawOutside) are stated under the same condition as DrawSpec, and fail for a colliding draw with X or Y = F.
- Drawing.DrawTwiceRestores: stated only for X, Y not F. It fails for X = F, as DrawTwiceAliased shows.
- The source comment on CXNN says "below NN", but the code reduces modulo NN + 1. The model follows the code (`r.v[X] <= NN`).

## Findings

| source | as written | input that shows it | evidently intended | confidence | as-written member | corrected member |
|---|---|---|---|---|---|---|
| src/cpu/cpu.hpp:62-66 | `m_soundCounter--; m_syncCounter--;` on `uint8_t` decrements an expired timer to 255 | any cycle with the delay or sound timer at 0 | a timer counts down to 0 and stays there | not executed | Properties.DecrementAsWrittenWraps | Properties.DecrementStops |
| src/cpu/cpu.cpp:297-306 | CALL writes `jmp[cptJump]` before testing the depth, so at depth 15 it writes slot 15 of the 15-slot `jmp`, and the call is not counted | a sixteenth nested 2NNN with 15 calls pending | a call with the stack full is refused (stack overflow) | not executed | Properties.CallAsWrittenOverruns | Properties.ExecCall |
