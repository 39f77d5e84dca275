/**
 * The CHIP-8 machine as a value, and the effect of fetching and executing
 * one instruction on it.
 *
 * Registers, timers and memory cells hold 8-bit values, the program
 * counter, the index register I and the return addresses 16-bit values.
 * Both are integers in range; every store into one of them reduces the
 * value modulo 2^8 or 2^16, as the source's `uint8_t` and `uint16_t`
 * stores do. Every memory index the source computes without a bounds check
 * is checked here, and an index outside the 4096 bytes is an error that
 * leaves the machine unchanged.
 */
module Chip8 {

  import opened Wrappers
  import opened Display
  import opened Opcodes

  const MemorySize: int := 4096
  const StartAddr: int := 512
  const RegisterCount: int := 16
  const StackSize: int := 15
  const FontSize: int := 80
  /** The register that doubles as the carry, borrow and collision flag. */
  const VF: int := 0xF

  /** The value of a `uint8_t` and of a `uint16_t`. */
  type Byte = b: int | 0 <= b < 0x100
  type Word = w: int | 0 <= w < 0x10000

  /** A logical key of the hexadecimal keypad. */
  type Key = k: int | 0 <= k < 16

  datatype Fault =
    | StackOverflow       // CALL with all 15 return slots in use
    | AddressOutOfRange   // a memory index at or beyond 4096
    | KeyOutOfRange       // EX9E / EXA1 with Vx > 15
    | GameNotFound        // loadGame cannot open the file

  /** What the CPU learns from outside during one step: the keys held now,
      the key that the blocking wait of FX0A returns, and the value `rand()`
      returns. */
  datatype Env = Env(held: set<Key>, pressed: Key, random: nat)

  /** `v`: V0..VF; `mem`: the 4096 bytes; `stack`: the 15 return slots,
      `depth` of them live; `i`: I; `delay` and `sound`: the two timers;
      `frame`: the display the CPU draws into. */
  datatype Machine = Machine(
    v: seq<Byte>,
    mem: seq<Byte>,
    stack: seq<Word>,
    depth: nat,
    i: Word,
    pc: Word,
    delay: Byte,
    sound: Byte,
    frame: Frame)

  predicate WellFormed(m: Machine) {
    && |m.v| == RegisterCount
    && |m.mem| == MemorySize
    && |m.stack| == StackSize
    && m.depth <= StackSize
    && IsFrame(m.frame)
  }

  /** The 16 glyphs 0..F, five rows of four pixels each (high nibble). */
  const Glyphs: seq<seq<Byte>> := [
    [0xF0, 0x90, 0x90, 0x90, 0xF0], [0x20, 0x60, 0x20, 0x20, 0x70],
    [0xF0, 0x10, 0xF0, 0x80, 0xF0], [0xF0, 0x10, 0xF0, 0x10, 0xF0],
    [0x90, 0x90, 0xF0, 0x10, 0x10], [0xF0, 0x80, 0xF0, 0x10, 0xF0],
    [0xF0, 0x80, 0xF0, 0x90, 0xF0], [0xF0, 0x10, 0x20, 0x40, 0x40],
    [0xF0, 0x90, 0xF0, 0x90, 0xF0], [0xF0, 0x90, 0xF0, 0x10, 0xF0],
    [0xF0, 0x90, 0xF0, 0x90, 0x90], [0xE0, 0x90, 0xE0, 0x90, 0xE0],
    [0xF0, 0x80, 0x80, 0x80, 0xF0], [0xE0, 0x90, 0x90, 0x90, 0xE0],
    [0xF0, 0x80, 0xF0, 0x80, 0xF0], [0xF0, 0x80, 0xF0, 0x80, 0x80]]

  /** Bytes 0..79 of memory after construction, in address order: glyph `d`
      at 5 * d. */
  const Font: seq<Byte> := GlyphRows()

  /** The glyphs one after the other: byte `a` is row a mod 5 of glyph
      a / 5. */
  function GlyphRows(): (s: seq<Byte>)
    ensures |s| == FontSize
  {
    seq(FontSize, a requires 0 <= a < FontSize => Glyphs[a / 5][a % 5])
  }

  /** `n` copies of `x`. */
  function Repeat<T>(x: T, n: nat): (s: seq<T>)
    ensures |s| == n && forall k :: 0 <= k < n ==> s[k] == x
  {
    seq(n, _ => x)
  }

  /** The machine right after construction, on a given display. */
  function Boot(frame: Frame): (m: Machine)
    requires IsFrame(frame)
    ensures WellFormed(m)
  {
    Machine(Repeat<Byte>(0, RegisterCount), Font + Repeat<Byte>(0, MemorySize - FontSize),
            Repeat<Word>(0, StackSize), 0, 0, StartAddr, 0, 0, frame)
  }

  /** loadGame: the file's bytes copied verbatim to memory from address 512
      on. The file is given as its contents, or None when it cannot be
      opened; a file longer than the 3584 bytes above 512 is refused. */
  function Load(m: Machine, file: Option<seq<Byte>>): (r: Result<Machine, Fault>)
    requires WellFormed(m)
    ensures r.Ok? ==> WellFormed(r.value)
  {
    match file
    case None => Err(GameNotFound)
    case Some(rom) =>
      if |rom| > MemorySize - StartAddr then Err(AddressOutOfRange)
      else Ok(m.(mem := m.mem[..StartAddr] + rom + m.mem[StartAddr + |rom|..]))
  }

  // ------------------------------------------------------------------
  // Fetch and operands

  /** The big-endian word at pc; both bytes must lie in memory. */
  function Fetch(m: Machine): (r: Result<Word, Fault>)
    requires WellFormed(m)
    ensures r.Ok? <==> m.pc + 1 < MemorySize
    ensures r.Ok? ==> r.value / 256 == m.mem[m.pc] && r.value % 256 == m.mem[m.pc + 1]
  {
    if m.pc + 1 < MemorySize then Ok((m.mem[m.pc] as int) * 256 + m.mem[m.pc + 1])
    else Err(AddressOutOfRange)
  }

  // The operands are the opcode's three low nibbles; the masks and shifts
  // of the source are written as integer division and remainder.

  /** b1 = N, bits 0-3 (`op & 0x000F`). */
  function OperandN(op: Word): (b: int)
    ensures 0 <= b < 16
  {
    op % 16
  }

  /** b2 = Y, bits 4-7 (`(op & 0x00F0) >> 4`). */
  function OperandY(op: Word): (b: int)
    ensures 0 <= b < 16
  {
    (op / 16) % 16
  }

  /** b3 = X, bits 8-11 (`(op & 0x0F00) >> 8`). */
  function OperandX(op: Word): (b: int)
    ensures 0 <= b < 16
  {
    (op / 256) % 16
  }

  // ------------------------------------------------------------------
  // Helpers of single instructions

  /** The value of a `uint16_t` after storing `n`. */
  function Wrap16(n: int): (w: Word)
    ensures 0 <= n < 0x10000 ==> w == n
  {
    n % 0x10000
  }

  /** The conversion of an `int` expression to `uint8_t`: the value modulo
      256. */
  function Truncate8(n: int): (b: Byte)
    ensures 0 <= n < 0x100 ==> b == n
  {
    n % 0x100
  }

  /** The conditional skip of 3XNN, 4XNN, 5XY0, EX9E, EXA1 and 9XY0: pc
      moves past the next instruction when `c` holds, and nothing else
      changes. */
  function SkipIf(m: Machine, c: bool): (r: Machine)
    ensures r.(pc := m.pc) == m
    ensures c ==> r.pc == (m.pc + 2) % 0x10000
    ensures !c ==> r == m
  {
    if c then m.(pc := Wrap16(m.pc + 2)) else m
  }

  /** 00EE: pop a return address if there is one. */
  function Return(m: Machine): (r: Machine)
    requires WellFormed(m)
    ensures WellFormed(r)
  {
    if m.depth > 0 then m.(depth := m.depth - 1, pc := m.stack[m.depth - 1]) else m
  }

  /** 2NNN: push pc and jump; refused when the 15 slots are in use. */
  function Call(m: Machine, nnn: int): (r: Result<Machine, Fault>)
    requires WellFormed(m) && 0 <= nnn < 0x1000
    ensures r.Ok? ==> WellFormed(r.value)
  {
    if m.depth == StackSize then Err(StackOverflow)
    else Ok(m.(stack := m.stack[m.depth := m.pc], depth := m.depth + 1, pc := Wrap16(nnn - 2)))
  }

  /** What the source's CALL does to the stack: it writes `jmp[cptJump]`
      before looking at the depth, and counts the push only below 15. */
  datatype RawCall = RawCall(slot: int, depth: nat, pc: Word)

  function CallAsWritten(m: Machine, nnn: int): (r: RawCall)
    requires WellFormed(m) && 0 <= nnn < 0x1000
    ensures r.pc == Wrap16(nnn - 2) && r.slot == m.depth
    ensures m.depth < StackSize <==> r.depth == r.slot + 1
    ensures r.depth <= StackSize
  {
    RawCall(m.depth, if m.depth < StackSize then m.depth + 1 else m.depth, Wrap16(nnn - 2))
  }

  /** 8XY4: VF := carry of Vx + Vy, then Vx := Vx + Vy, reading the file
      after the VF write. */
  function AddWithCarry(v: seq<Byte>, x: int, y: int): (r: seq<Byte>)
    requires |v| == RegisterCount && 0 <= x < 16 && 0 <= y < 16
    ensures |r| == RegisterCount
  {
    var v1 := v[VF := if (v[x] as int) + v[y] > 0xFF then 1 else 0];
    v1[x := Truncate8((v1[x] as int) + v1[y])]
  }

  /** 8XY5: VF := 0 if Vx < Vy else 1, then Vx := Vx - Vy. */
  function SubWithBorrow(v: seq<Byte>, x: int, y: int): (r: seq<Byte>)
    requires |v| == RegisterCount && 0 <= x < 16 && 0 <= y < 16
    ensures |r| == RegisterCount
  {
    var v1 := v[VF := if v[x] < v[y] then 0 else 1];
    v1[x := Truncate8(v1[x] - v1[y])]
  }

  /** 8XY7: VF := 0 if Vy < Vx else 1, then Vx := Vy - Vx. */
  function SubReversed(v: seq<Byte>, x: int, y: int): (r: seq<Byte>)
    requires |v| == RegisterCount && 0 <= x < 16 && 0 <= y < 16
    ensures |r| == RegisterCount
  {
    var v1 := v[VF := if v[y] < v[x] then 0 else 1];
    v1[x := Truncate8(v1[y] - v1[x])]
  }

  /** 8XY6: VF := low bit of Vx, then Vx := Vx >> 1. */
  function ShiftRight(v: seq<Byte>, x: int): (r: seq<Byte>)
    requires |v| == RegisterCount && 0 <= x < 16
    ensures |r| == RegisterCount
  {
    var v1 := v[VF := v[x] % 2];
    v1[x := v1[x] / 2]
  }

  /** 8XYE: VF := high bit of Vx, then Vx := Vx << 1. */
  function ShiftLeft(v: seq<Byte>, x: int): (r: seq<Byte>)
    requires |v| == RegisterCount && 0 <= x < 16
    ensures |r| == RegisterCount
  {
    var v1 := v[VF := v[x] / 128];
    v1[x := Truncate8(v1[x] * 2)]
  }

  /** FX1E: VF := 1 if I + Vx > 0xFFF else 0, then I := I + Vx (16 bits). */
  function AddToIndex(m: Machine, x: int): (r: Machine)
    requires WellFormed(m) && 0 <= x < 16
    ensures WellFormed(r)
  {
    var v1 := m.v[VF := if m.i + m.v[x] > 0xFFF then 1 else 0];
    m.(v := v1, i := Wrap16(m.i + v1[x]))
  }

  /** FX33: hundreds at I, tens at I+1, and at I+2 the units, computed from
      the two digits just stored. */
  function Bcd(m: Machine, x: int): (r: Result<Machine, Fault>)
    requires WellFormed(m) && 0 <= x < 16
    ensures r.Ok? ==> WellFormed(r.value)
  {
    var a := m.i;
    if a + 2 >= MemorySize then Err(AddressOutOfRange)
    else
      var vx := m.v[x];
      var m1 := m.mem[a := Truncate8((vx - vx % 100) / 100)];
      var m2 := m1[a + 1 := Truncate8(((vx - vx % 10) / 10) % 10)];
      Ok(m.(mem := m2[a + 2 := Truncate8(vx - m2[a] * 100 - 10 * m2[a + 1])]))
  }

  /** FX55: memory at I..I+X receives V0..VX. */
  function StoreRegs(mem: seq<Byte>, addr: int, v: seq<Byte>, x: int): (r: seq<Byte>)
    requires |mem| == MemorySize && |v| == RegisterCount
    requires 0 <= x < 16 && 0 <= addr && addr + x < MemorySize
    ensures |r| == MemorySize
  {
    seq(MemorySize, a requires 0 <= a < MemorySize =>
      if addr <= a <= addr + x then v[a - addr] else mem[a])
  }

  /** FX65: V0..VX receive memory at I..I+X. */
  function LoadRegs(v: seq<Byte>, mem: seq<Byte>, addr: int, x: int): (r: seq<Byte>)
    requires |mem| == MemorySize && |v| == RegisterCount
    requires 0 <= x < 16 && 0 <= addr && addr + x < MemorySize
    ensures |r| == RegisterCount
  {
    seq(RegisterCount, k requires 0 <= k < RegisterCount =>
      if k <= x then mem[addr + k] else v[k])
  }

  // ------------------------------------------------------------------
  // Sprite drawing

  /** The display and the register file, the two things a draw changes. */
  datatype Canvas = Canvas(frame: Frame, v: seq<Byte>)

  predicate CanvasOk(c: Canvas) {
    IsFrame(c.frame) && |c.v| == RegisterCount
  }

  /** The eight pixels of a sprite row, leftmost first: entry `col` is bit
      `7 - col` of the byte, the source's test `(bits & (1 << dec)) != 0`
      with dec = 7 - col. */
  function SpriteBits(bits: Byte): (p: seq<bool>)
    ensures |p| == SpriteWidth
    ensures forall col :: 0 <= col < SpriteWidth ==> p[col] == Bit(bits, 7 - col)
  {
    seq(SpriteWidth, col requires 0 <= col < SpriteWidth => Bit(bits, 7 - col))
  }

  /** One pass of the column loop: the pixel under sprite column `col` of
      display row `yS`, at display column (Vx + col) mod 64, is flipped if
      the sprite pixel is set, and turning a pixel off sets VF. */
  function PlotColumn(c: Canvas, x: int, yS: int, pixels: seq<bool>, col: int): (r: Canvas)
    requires CanvasOk(c) && 0 <= x < 16 && 0 <= yS < H && |pixels| == SpriteWidth && 0 <= col < SpriteWidth
    ensures CanvasOk(r)
  {
    var xS := (c.v[x] + col) % W;
    if pixels[col] then
      if GetPixel(c.frame, yS, xS) then Canvas(SetPixel(c.frame, yS, xS, false), c.v[VF := 1])
      else Canvas(SetPixel(c.frame, yS, xS, true), c.v)
    else c
  }

  /** The column loop of one sprite row at display row `yS`, from column
      `col` on. Vx is read afresh for every column. */
  function DrawRowFrom(c: Canvas, x: int, yS: int, pixels: seq<bool>, col: int): (r: Canvas)
    requires CanvasOk(c) && 0 <= x < 16 && 0 <= yS < H && |pixels| == SpriteWidth && 0 <= col <= SpriteWidth
    ensures CanvasOk(r)
    decreases SpriteWidth - col
  {
    if col == SpriteWidth then c
    else DrawRowFrom(PlotColumn(c, x, yS, pixels, col), x, yS, pixels, col + 1)
  }

  /** One pass of the row loop: sprite row `row`, the byte at addr + row,
      is drawn on display row (Vy + row) mod 32. */
  function PlotRow(mem: seq<Byte>, addr: int, c: Canvas, x: int, y: int, row: int): (r: Canvas)
    requires CanvasOk(c) && 0 <= x < 16 && 0 <= y < 16
    requires 0 <= row && 0 <= addr && addr + row < |mem|
    ensures CanvasOk(r)
  {
    var yS := (c.v[y] + row) % H;
    DrawRowFrom(c, x, yS, SpriteBits(mem[addr + row]), 0)
  }

  /** The row loop from sprite row `row` on. Vy is read afresh for every
      row. */
  function DrawRowsFrom(mem: seq<Byte>, addr: int, c: Canvas, x: int, y: int, n: int, row: int): (r: Canvas)
    requires CanvasOk(c) && 0 <= x < 16 && 0 <= y < 16
    requires 0 <= row <= n && 0 <= addr && addr + n <= |mem|
    ensures CanvasOk(r)
    decreases n - row
  {
    if row == n then c
    else DrawRowsFrom(mem, addr, PlotRow(mem, addr, c, x, y, row), x, y, n, row + 1)
  }

  /** DXYN: VF := 0, then the N rows at I are XORed onto the display. */
  function Draw(m: Machine, n: int, y: int, x: int): (r: Result<Machine, Fault>)
    requires WellFormed(m) && 0 <= n < 16 && 0 <= x < 16 && 0 <= y < 16
    ensures r.Ok? ==> WellFormed(r.value)
  {
    if n > 0 && m.i + n > MemorySize then Err(AddressOutOfRange)
    else if n == 0 then Ok(m.(v := m.v[VF := 0]))
    else
      var c := DrawRowsFrom(m.mem, m.i, Canvas(m.frame, m.v[VF := 0]), x, y, n, 0);
      Ok(m.(frame := c.frame, v := c.v))
  }

  // ------------------------------------------------------------------
  // Execution

  /** The effect of opcode index `k` with operands b1, b2, b3, before the
      final pc += 2. The 35 cases are split in five groups of table
      entries. */
  function Effect(m: Machine, k: int, b1: int, b2: int, b3: int, env: Env): (r: Result<Machine, Fault>)
    requires WellFormed(m) && 0 <= k < OpcodeCount
    requires 0 <= b1 < 16 && 0 <= b2 < 16 && 0 <= b3 < 16
    ensures r.Ok? ==> WellFormed(r.value)
  {
    if k < 10 then FlowEffect(m, k, b1, b2, b3)
    else if k < 14 then LogicEffect(m, k, b2, b3)
    else if k < 20 then ArithEffect(m, k, b2, b3)
    else if k < 28 then MiscEffect(m, k, b1, b2, b3, env)
    else MemoryEffect(m, k, b3)
  }

  /** Entries 0..9: 0NNN, 00E0, 00EE, 1NNN, 2NNN, 3XNN, 4XNN, 5XY0, 6XNN, 7XNN. */
  function FlowEffect(m: Machine, k: int, b1: int, b2: int, b3: int): (r: Result<Machine, Fault>)
    requires WellFormed(m) && 0 <= k < 10
    requires 0 <= b1 < 16 && 0 <= b2 < 16 && 0 <= b3 < 16
    ensures r.Ok? ==> WellFormed(r.value)
  {
    var nn := b2 * 16 + b1;
    var nnn := b3 * 256 + nn;
    var vx := m.v[b3];
    if k == 0 then Ok(m)                                          // 0NNN: ignored
    else if k == 1 then Ok(m.(frame := Blank()))                  // 00E0
    else if k == 2 then Ok(Return(m))                             // 00EE
    else if k == 3 then Ok(m.(pc := Wrap16(nnn - 2)))             // 1NNN
    else if k == 4 then Call(m, nnn)                              // 2NNN
    else if k == 5 then Ok(SkipIf(m, vx == nn))                   // 3XNN
    else if k == 6 then Ok(SkipIf(m, vx != nn))                   // 4XNN
    else if k == 7 then Ok(SkipIf(m, vx == m.v[b2]))              // 5XY0
    else if k == 8 then Ok(m.(v := m.v[b3 := nn]))                // 6XNN
    else Ok(m.(v := m.v[b3 := Truncate8(vx + nn)]))               // 7XNN
  }

  /** Entries 10..13: 8XY0, 8XY1, 8XY2, 8XY3. */
  function LogicEffect(m: Machine, k: int, b2: int, b3: int): (r: Result<Machine, Fault>)
    requires WellFormed(m) && 10 <= k < 14
    requires 0 <= b2 < 16 && 0 <= b3 < 16
    ensures r.Ok? ==> WellFormed(r.value)
  {
    Ok(m.(v := m.v[b3 := Logic(k, m.v[b3], m.v[b2])]))
  }

  /** The value 8XY0..8XY3 give Vx, from Vx and Vy. */
  function Logic(k: int, vx: Byte, vy: Byte): (r: Byte)
    ensures k == 10 ==> r == vy
  {
    if k == 10 then vy                                  // 8XY0
    else if k == 11 then Bitwise(Or, vx, vy, 8)         // 8XY1
    else if k == 12 then Bitwise(And, vx, vy, 8)        // 8XY2
    else Bitwise(Xor, vx, vy, 8)                        // 8XY3
  }

  /** The three bitwise operators of C++ on unsigned values. */
  datatype BitOp = Or | And | Xor

  /** The operator on one pair of bits. */
  function ApplyBit(f: BitOp, p: bool, q: bool): bool {
    match f
    case Or => p || q
    case And => p && q
    case Xor => p != q
  }

  function Pow2(w: nat): (p: nat)
    ensures p >= 1
  {
    if w == 0 then 1 else 2 * Pow2(w - 1)
  }

  /** Bit `c` of `n`, counting from the least significant. */
  function Bit(n: nat, c: nat): bool {
    if c == 0 then n % 2 == 1 else Bit(n / 2, c - 1)
  }

  /** `f` applied to the low `w` bits of `a` and `b`, built from the least
      significant bit up. */
  function Bitwise(f: BitOp, a: nat, b: nat, w: nat): (r: nat)
    ensures r < Pow2(w)
  {
    if w == 0 then 0
    else 2 * Bitwise(f, a / 2, b / 2, w - 1) + if ApplyBit(f, a % 2 == 1, b % 2 == 1) then 1 else 0
  }

  /** Entries 14..19: 8XY4, 8XY5, 8XY6, 8XY7, 8XYE, 9XY0. */
  function ArithEffect(m: Machine, k: int, b2: int, b3: int): (r: Result<Machine, Fault>)
    requires WellFormed(m) && 14 <= k < 20
    requires 0 <= b2 < 16 && 0 <= b3 < 16
    ensures r.Ok? ==> WellFormed(r.value)
  {
    if k == 14 then Ok(m.(v := AddWithCarry(m.v, b3, b2)))        // 8XY4
    else if k == 15 then Ok(m.(v := SubWithBorrow(m.v, b3, b2)))  // 8XY5
    else if k == 16 then Ok(m.(v := ShiftRight(m.v, b3)))         // 8XY6
    else if k == 17 then Ok(m.(v := SubReversed(m.v, b3, b2)))    // 8XY7
    else if k == 18 then Ok(m.(v := ShiftLeft(m.v, b3)))          // 8XYE
    else Ok(SkipIf(m, m.v[b3] != m.v[b2]))                        // 9XY0
  }

  /** Entries 20..27: ANNN, BNNN, CXNN, DXYN, EX9E, EXA1, FX07, FX0A. */
  function MiscEffect(m: Machine, k: int, b1: int, b2: int, b3: int, env: Env): (r: Result<Machine, Fault>)
    requires WellFormed(m) && 20 <= k < 28
    requires 0 <= b1 < 16 && 0 <= b2 < 16 && 0 <= b3 < 16
    ensures r.Ok? ==> WellFormed(r.value)
  {
    var nn := b2 * 16 + b1;
    var nnn := b3 * 256 + nn;
    var vx := m.v[b3];
    if k == 20 then Ok(m.(i := nnn))                              // ANNN
    else if k == 21 then Ok(m.(pc := Wrap16(nnn + m.v[0] - 2)))   // BNNN
    else if k == 22 then Ok(m.(v := m.v[b3 := Truncate8(env.random % (nn + 1))]))  // CXNN
    else if k == 23 then Draw(m, b1, b2, b3)                      // DXYN
    else if k == 24 then                                          // EX9E
      if vx >= 16 then Err(KeyOutOfRange) else Ok(SkipIf(m, vx in env.held))
    else if k == 25 then                                          // EXA1
      if vx >= 16 then Err(KeyOutOfRange) else Ok(SkipIf(m, vx !in env.held))
    else if k == 26 then Ok(m.(v := m.v[b3 := m.delay]))          // FX07
    else Ok(m.(v := m.v[b3 := env.pressed]))                      // FX0A
  }

  /** Entries 28..34: FX15, FX18, FX1E, FX29, FX33, FX55, FX65. */
  function MemoryEffect(m: Machine, k: int, b3: int): (r: Result<Machine, Fault>)
    requires WellFormed(m) && 28 <= k < OpcodeCount && 0 <= b3 < 16
    ensures r.Ok? ==> WellFormed(r.value)
  {
    var vx := m.v[b3];
    if k == 28 then Ok(m.(delay := vx))                           // FX15
    else if k == 29 then Ok(m.(sound := vx))                      // FX18
    else if k == 30 then Ok(AddToIndex(m, b3))                    // FX1E
    else if k == 31 then Ok(m.(i := Wrap16(5 * (vx as int))))              // FX29
    else if k == 32 then Bcd(m, b3)                               // FX33
    else if k == 33 then                                          // FX55
      if m.i + b3 >= MemorySize then Err(AddressOutOfRange)
      else Ok(m.(mem := StoreRegs(m.mem, m.i, m.v, b3)))
    else                                                          // FX65
      if m.i + b3 >= MemorySize then Err(AddressOutOfRange)
      else Ok(m.(v := LoadRegs(m.v, m.mem, m.i, b3)))
  }

  /** Decode and execute `op`, then advance pc by 2. */
  function Exec(m: Machine, op: Word, env: Env): (r: Result<Machine, Fault>)
    requires WellFormed(m)
    ensures r.Ok? ==> WellFormed(r.value)
  {
    Execute(m, Decode(op as bv16), op, env)
  }

  /** The switch of executeOpcode on table index `k`, then pc += 2. */
  function Execute(m: Machine, k: int, op: Word, env: Env): (r: Result<Machine, Fault>)
    requires WellFormed(m) && 0 <= k < OpcodeCount
    ensures r.Ok? ==> WellFormed(r.value)
  {
    match Effect(m, k, OperandN(op), OperandY(op), OperandX(op), env)
    case Ok(m1) => Ok(m1.(pc := Wrap16(m1.pc + 2)))
    case Err(e) => Err(e)
  }

  /** One timer tick: down by one, stopping at 0. */
  function Decrement(t: Byte): (r: Byte)
    ensures t == 0 ==> r == 0
    ensures t != 0 ==> r == t - 1
  {
    if t == 0 then 0 else t - 1
  }

  /** The source's tick: an unchecked 8-bit decrement. */
  function DecrementAsWritten(t: Byte): (r: Byte)
    ensures t == 0 ==> r == 255
    ensures t != 0 ==> r == t - 1
  {
    Truncate8(t - 1)
  }

  function DecrementCounters(m: Machine): (r: Machine)
    ensures r.(delay := m.delay, sound := m.sound) == m
    ensures r.delay == Decrement(m.delay) && r.sound == Decrement(m.sound)
  {
    m.(sound := Decrement(m.sound), delay := Decrement(m.delay))
  }

  /** One run(): fetch, execute, tick both timers. */
  function Step(m: Machine, env: Env): (r: Result<Machine, Fault>)
    requires WellFormed(m)
    ensures r.Ok? ==> WellFormed(r.value)
  {
    match Fetch(m)
    case Err(e) => Err(e)
    case Ok(op) =>
      match Exec(m, op, env)
      case Err(e) => Err(e)
      case Ok(m1) => Ok(DecrementCounters(m1))
  }
}
