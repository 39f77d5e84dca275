/**
 * The emulator's CPU object: registers, memory, return slots and the
 * opcode table held in arrays and updated in place, as the source's CPU
 * class does. Every method is proved against the value semantics of
 * Chip8: `State()` reads the object as a `Chip8.Machine`, and each method
 * ends in the state the corresponding function computes from the state it
 * started in.
 */
module Cpu {

  import opened Wrappers
  import opened Display
  import opened Opcodes
  import opened Chip8

  class CPU {
    /** m_VREG, m_memory and jmp. */
    const registers: array<Byte>
    const memory: array<Byte>
    const jmp: array<Word>
    /** The opcode table `jump`: jump.msq and jump.id. */
    const msq: array<bv16>
    const id: array<bv16>
    /** m_I, m_pc, cptJump, m_syncCounter (the delay timer), m_soundCounter. */
    var index: Word
    var pc: Word
    var cptJump: nat
    var syncCounter: Byte
    var soundCounter: Byte
    /** The display the CPU draws into, owned by the caller. */
    const disp: Screen

    ghost predicate Valid()
      reads this, msq, id
    {
      && registers.Length == RegisterCount
      && memory.Length == MemorySize
      && jmp.Length == StackSize
      && msq.Length == OpcodeCount && id.Length == OpcodeCount
      && registers != memory && msq != id
      && IsTable(msq[..], id[..])
      && cptJump <= StackSize
      && disp.Valid()
    }

    /** The object as a machine value. */
    ghost function State(): (m: Machine)
      reads this, registers, memory, jmp, msq, id, disp.pixelMatrix
      requires Valid()
      ensures WellFormed(m)
    {
      Machine(registers[..], memory[..], jmp[..], cptJump, index, pc, syncCounter, soundCounter, disp.Pixels())
    }

    /** The CPU's view of the display and the register file. */
    ghost function Canv(): (c: Canvas)
      reads registers, disp.pixelMatrix
      requires registers.Length == RegisterCount && disp.Valid()
      ensures CanvasOk(c)
    {
      Canvas(disp.Pixels(), registers[..])
    }

    /** The constructor zeroes the registers, memory and return slots, sets
        pc to 512, builds the opcode table and loads the font. The display
        is left as the caller handed it over. */
    constructor (screen: Screen)
      requires screen.Valid()
      ensures Valid() && disp == screen
      ensures fresh(registers) && fresh(memory) && fresh(jmp) && fresh(msq) && fresh(id)
      ensures State() == Boot(screen.Pixels())
    {
      registers := new Byte[RegisterCount](_ => 0);
      memory := new Byte[MemorySize](_ => 0);
      jmp := new Word[StackSize](_ => 0);
      msq := new bv16[OpcodeCount](_ => 0);
      id := new bv16[OpcodeCount](_ => 0);
      index, pc, cptJump, syncCounter, soundCounter := 0, StartAddr, 0, 0, 0;
      disp := screen;
      new;
      AllSame(registers[..], 0);
      AllSame(jmp[..], 0);
      AllSame(memory[..], 0);
      RepeatSuffix<Byte>(0, MemorySize, FontSize);
      InitializeJump();
      LoadFont();
      PrefixThenZeros(memory[..], Font);
      BootIs(registers[..], memory[..], jmp[..], disp.Pixels());
      ghost var st := Machine(registers[..], memory[..], jmp[..], cptJump, index, pc, syncCounter, soundCounter, disp.Pixels());
      assert st == Boot(screen.Pixels());
      assert State() == st;
    }

    /** initializeJump: fills the 35 (mask, id) pairs. */
    method InitializeJump()
      requires msq.Length == OpcodeCount && id.Length == OpcodeCount && msq != id
      modifies msq, id
      ensures IsTable(msq[..], id[..])
    {
      TableSize();
      Fill(msq, Masks);
      Fill(id, Ids);
    }

    /** loadFont: the 80 font bytes at addresses 0..79; the rest of memory
        is untouched. */
    method LoadFont()
      requires memory.Length == MemorySize
      modifies memory
      ensures memory[..FontSize] == Font
      ensures memory[FontSize..] == old(memory[FontSize..])
    {
      FillPrefix(memory, Font);
    }

    /** loadGame: the file's bytes go to memory from 512 on. A file that
        cannot be opened, or that does not fit, is reported and memory is
        left alone. */
    method LoadGame(file: Option<seq<Byte>>) returns (err: Option<Fault>)
      requires Valid()
      modifies memory
      ensures Valid()
      ensures Load(old(State()), file).Ok? ==> err.None? && State() == Load(old(State()), file).value
      ensures Load(old(State()), file).Err? ==> err == Some(Load(old(State()), file).error) && State() == old(State())
    {
      if file.None? {
        return Some(GameNotFound);
      }
      var rom := file.value;
      if |rom| > MemorySize - StartAddr {
        return Some(AddressOutOfRange);
      }
      for k := 0 to |rom|
        invariant memory[..StartAddr] == old(memory[..StartAddr])
        invariant memory[StartAddr..StartAddr + k] == rom[..k]
        invariant memory[StartAddr + |rom|..] == old(memory[StartAddr + |rom|..])
      {
        memory[StartAddr + k] := rom[k];
        assert memory[StartAddr..StartAddr + k + 1] == memory[StartAddr..StartAddr + k] + [rom[k]];
      }
      assert memory[..] == memory[..StartAddr] + memory[StartAddr..StartAddr + |rom|] + memory[StartAddr + |rom|..];
      return None;
    }

    /** getCurrentOp: the big-endian word at pc. */
    method GetCurrentOp() returns (r: Result<Word, Fault>)
      requires Valid()
      ensures r == Fetch(State())
    {
      if pc + 1 < MemorySize {
        r := Ok((memory[pc] as int) * 256 + memory[pc + 1]);
      } else {
        r := Err(AddressOutOfRange);
      }
    }

    /** retrieveOpcodeIndex: the first table entry whose mask and id match,
        or 0. */
    method RetrieveOpcodeIndex(op: Word) returns (k: int)
      requires Valid()
      ensures k == Decode(op as bv16)
    {
      var w := op as bv16;
      var action := Scan(msq, id, w);
      ScanIsDecode(msq[..], id[..], w, action);
      k := if action < msq.Length then action else 0;
    }

    /** drawSprt: VF := 0, then for each of the N sprite rows at I, each of
        its eight pixels that is set flips the display pixel under it, and
        VF := 1 when one is turned off. A sprite reaching past memory is
        refused before anything changes. */
    method DrawSprt(b1: int, b2: int, b3: int) returns (err: Option<Fault>)
      requires Valid() && 0 <= b1 < 16 && 0 <= b2 < 16 && 0 <= b3 < 16
      modifies registers, disp.pixelMatrix
      ensures Valid()
      ensures Outcome(Draw(old(State()), b1, b2, b3), err, old(State()), State())
    {
      ghost var m := State();
      if b1 > 0 && index + b1 > MemorySize {
        assert Draw(m, b1, b2, b3) == Err(AddressOutOfRange);
        return Some(AddressOutOfRange);
      }
      err := None;
      registers[VF] := 0;
      assert Canv() == Canvas(m.frame, m.v[VF := 0]);
      if b1 > 0 {
        DrawSprtRows(b1, b2, b3, m.mem);
      }
      assert State() == m.(frame := Canv().frame, v := Canv().v);
    }

    /** The row loop of drawSprt, over the `b1` sprite rows at I. */
    method DrawSprtRows(b1: int, b2: int, b3: int, ghost mem: seq<Byte>)
      requires registers.Length == RegisterCount && disp.Valid() && registers != memory && memory[..] == mem
      requires 0 <= b1 < 16 && 0 <= b2 < 16 && 0 <= b3 < 16 && index + b1 <= memory.Length
      modifies registers, disp.pixelMatrix
      ensures Canv() == DrawRowsFrom(mem, index, old(Canv()), b3, b2, b1, 0)
    {
      ghost var c0 := Canv();
      var row := 0;
      while row < b1
        invariant registers.Length == RegisterCount && disp.Valid() && 0 <= row <= b1 && memory[..] == mem
        invariant DrawRowsFrom(mem, index, Canv(), b3, b2, b1, row) == DrawRowsFrom(mem, index, c0, b3, b2, b1, 0)
      {
        ghost var crow := Canv();
        DrawSprtRow(b2, b3, row, mem);
        RowsStep(mem, index, crow, b3, b2, b1, row, Canv());
        row := row + 1;
      }
    }

    /** One pass of the row loop of drawSprt: sprite row `row`, the byte at
        I + row, on display row (Vy + row) mod 32. */
    method DrawSprtRow(b2: int, b3: int, row: int, ghost mem: seq<Byte>)
      requires registers.Length == RegisterCount && disp.Valid() && memory[..] == mem
      requires 0 <= b2 < 16 && 0 <= b3 < 16 && 0 <= row && index + row < memory.Length
      modifies registers, disp.pixelMatrix
      ensures Canv() == PlotRow(mem, index, old(Canv()), b3, b2, row)
    {
      var code := memory[index + row];
      var yS := (registers[b2] + row) % H;
      ghost var c := Canv();
      PlotRowIs(mem, index, c, b3, b2, row, yS, code);
      DrawSprtColumns(b3, yS, code);
    }

    /** The column loop of drawSprt for one sprite row `code` on display row
        `yS`. */
    method DrawSprtColumns(b3: int, yS: int, code: Byte)
      requires registers.Length == RegisterCount && disp.Valid() && 0 <= b3 < 16 && 0 <= yS < H
      modifies registers, disp.pixelMatrix
      ensures Canv() == DrawRowFrom(old(Canv()), b3, yS, SpriteBits(code), 0)
    {
      ghost var crow := Canv();
      var col := 0;
      while col < SpriteWidth
        invariant registers.Length == RegisterCount && disp.Valid() && 0 <= col <= SpriteWidth
        invariant DrawRowFrom(Canv(), b3, yS, SpriteBits(code), col) == DrawRowFrom(crow, b3, yS, SpriteBits(code), 0)
      {
        PlotPixel(b3, yS, col, code);
        col := col + 1;
      }
    }

    /** One pass of the column loop of drawSprt: sprite column `col`. */
    method PlotPixel(b3: int, yS: int, col: int, code: Byte)
      requires registers.Length == RegisterCount && disp.Valid()
      requires 0 <= b3 < 16 && 0 <= yS < H && 0 <= col < SpriteWidth
      modifies registers, disp.pixelMatrix
      ensures Canv() == PlotColumn(old(Canv()), b3, yS, SpriteBits(code), col)
    {
      var xS := (registers[b3] + col) % W;
      if Bit(code, 7 - col) {
        if disp.GetMatrixPixel(yS, xS) {
          disp.UpdatePixelsMatrix(yS, xS, false);
          registers[VF] := 1;
        } else {
          disp.UpdatePixelsMatrix(yS, xS, true);
        }
      }
    }

    /** executeOpcode: the operands b1 = N, b2 = Y, b3 = X, the table
        index of the opcode, the case for that index, then pc += 2. A fault
        leaves everything as it was. */
    method ExecuteOpcode(op: Word, env: Env) returns (err: Option<Fault>)
      requires Valid()
      modifies this, registers, memory, jmp, disp.pixelMatrix
      ensures Valid()
      ensures Outcome(Exec(old(State()), op, env), err, old(State()), State())
    {
      var b1 := op % 16;
      var b2 := (op / 16) % 16;
      var b3 := (op / 256) % 16;
      var k := RetrieveOpcodeIndex(op);
      ghost var m := State();
      if k < 10 {
        err := FlowCase(k, b1, b2, b3);
      } else if k < 14 {
        err := LogicCase(k, b2, b3);
      } else if k < 20 {
        err := ArithCase(k, b2, b3);
      } else if k < 28 {
        err := MiscCase(k, b1, b2, b3, env);
      } else {
        err := MemoryCase(k, b3);
      }
      EffectGroups(m, k, b1, b2, b3, env);
      ghost var after := State();
      if err.None? {
        Advance();
      }
      ExecOutcome(m, op, env, k, err, after);
    }

    /** The pc += 2 that ends every successful case. */
    method Advance()
      requires Valid()
      modifies this
      ensures Valid()
      ensures State() == old(State()).(pc := Wrap16(old(State()).pc + 2))
    {
      pc := Wrap16(pc + 2);
    }

    /** Cases 0..9 of executeOpcode: 0NNN, 00E0, 00EE, 1NNN, 2NNN, 3XNN,
        4XNN, 5XY0, 6XNN, 7XNN. */
    method FlowCase(k: int, b1: int, b2: int, b3: int) returns (err: Option<Fault>)
      requires Valid() && 0 <= k < 10 && 0 <= b1 < 16 && 0 <= b2 < 16 && 0 <= b3 < 16
      modifies this, registers, jmp, disp.pixelMatrix
      ensures Valid()
      ensures Outcome(FlowEffect(old(State()), k, b1, b2, b3), err, old(State()), State())
    {
      err := None;
      var nn := b2 * 16 + b1;
      var nnn := b3 * 256 + nn;
      if k == 1 {
        disp.Cls();
      } else if k == 2 {
        if cptJump > 0 {
          cptJump := cptJump - 1;
          pc := jmp[cptJump];
        }
      } else if k == 3 {
        pc := Wrap16(nnn - 2);
      } else if k == 4 {
        if cptJump == StackSize {
          return Some(StackOverflow);
        }
        jmp[cptJump] := pc;
        cptJump := cptJump + 1;
        pc := Wrap16(nnn - 2);
      } else if k == 5 {
        if registers[b3] == nn {
          pc := Wrap16(pc + 2);
        }
      } else if k == 6 {
        if registers[b3] != nn {
          pc := Wrap16(pc + 2);
        }
      } else if k == 7 {
        if registers[b3] == registers[b2] {
          pc := Wrap16(pc + 2);
        }
      } else if k == 8 {
        registers[b3] := nn;
      } else if k == 9 {
        registers[b3] := Truncate8(registers[b3] + nn);
      }
    }

    /** Cases 10..13: 8XY0 and the bitwise OR, AND and XOR of 8XY1..8XY3. */
    method LogicCase(k: int, b2: int, b3: int) returns (err: Option<Fault>)
      requires Valid() && 10 <= k < 14 && 0 <= b2 < 16 && 0 <= b3 < 16
      modifies registers
      ensures Valid()
      ensures Outcome(LogicEffect(old(State()), k, b2, b3), err, old(State()), State())
    {
      err := None;
      if k == 10 {
        registers[b3] := registers[b2];
      } else if k == 11 {
        registers[b3] := Bitwise(Or, registers[b3], registers[b2], 8);
      } else if k == 12 {
        registers[b3] := Bitwise(And, registers[b3], registers[b2], 8);
      } else {
        registers[b3] := Bitwise(Xor, registers[b3], registers[b2], 8);
      }
    }

    /** Cases 14..19: 8XY4, 8XY5, 8XY6, 8XY7, 8XYE (flag first, then Vx),
        and 9XY0. */
    method ArithCase(k: int, b2: int, b3: int) returns (err: Option<Fault>)
      requires Valid() && 14 <= k < 20 && 0 <= b2 < 16 && 0 <= b3 < 16
      modifies this, registers
      ensures Valid()
      ensures Outcome(ArithEffect(old(State()), k, b2, b3), err, old(State()), State())
    {
      err := None;
      if k == 14 {
        AddRegisters(b3, b2);
      } else if k == 15 {
        SubRegisters(b3, b2);
      } else if k == 16 {
        ShiftRegisterRight(b3);
      } else if k == 17 {
        SubRegistersReversed(b3, b2);
      } else if k == 18 {
        ShiftRegisterLeft(b3);
      } else {
        if registers[b3] != registers[b2] {
          Advance();
        }
      }
    }

    /** 8XY4: the carry goes to VF first, then Vx gets the truncated sum. */
    method AddRegisters(x: int, y: int)
      requires Valid() && 0 <= x < 16 && 0 <= y < 16
      modifies registers
      ensures Valid()
      ensures State() == old(State()).(v := AddWithCarry(old(State()).v, x, y))
    {
      SetRegister(VF, if (registers[x] as int) + registers[y] > 0xFF then 1 else 0);
      SetRegister(x, Truncate8((registers[x] as int) + registers[y]));
    }

    /** 8XY5: VF := 0 on a borrow, else 1; then Vx := Vx - Vy mod 256. */
    method SubRegisters(x: int, y: int)
      requires Valid() && 0 <= x < 16 && 0 <= y < 16
      modifies registers
      ensures Valid()
      ensures State() == old(State()).(v := SubWithBorrow(old(State()).v, x, y))
    {
      SetRegister(VF, if registers[x] < registers[y] then 0 else 1);
      SetRegister(x, Truncate8((registers[x] as int) - registers[y]));
    }

    /** 8XY6: VF := the low bit of Vx, then Vx := Vx >> 1. */
    method ShiftRegisterRight(x: int)
      requires Valid() && 0 <= x < 16
      modifies registers
      ensures Valid()
      ensures State() == old(State()).(v := ShiftRight(old(State()).v, x))
    {
      SetRegister(VF, registers[x] % 2);
      SetRegister(x, registers[x] / 2);
    }

    /** 8XY7: VF := 0 on a borrow, else 1; then Vx := Vy - Vx mod 256. */
    method SubRegistersReversed(x: int, y: int)
      requires Valid() && 0 <= x < 16 && 0 <= y < 16
      modifies registers
      ensures Valid()
      ensures State() == old(State()).(v := SubReversed(old(State()).v, x, y))
    {
      SetRegister(VF, if registers[y] < registers[x] then 0 else 1);
      SetRegister(x, Truncate8((registers[y] as int) - registers[x]));
    }

    /** 8XYE: VF := the high bit of Vx, then Vx := Vx << 1 mod 256. */
    method ShiftRegisterLeft(x: int)
      requires Valid() && 0 <= x < 16
      modifies registers
      ensures Valid()
      ensures State() == old(State()).(v := ShiftLeft(old(State()).v, x))
    {
      SetRegister(VF, registers[x] / 128);
      SetRegister(x, Truncate8((registers[x] as int) * 2));
    }

    /** One register write; the rest of the state is unchanged. */
    method SetRegister(x: int, val: Byte)
      requires Valid() && 0 <= x < RegisterCount
      modifies registers
      ensures Valid()
      ensures State() == old(State()).(v := old(State()).v[x := val])
    {
      registers[x] := val;
    }

    /** Cases 20..27: ANNN, BNNN, CXNN, DXYN, EX9E, EXA1, FX07, FX0A. The
        keypad state, the key FX0A waits for and the value of rand() come
        from `env`. A key index above 15 is refused. */
    method MiscCase(k: int, b1: int, b2: int, b3: int, env: Env) returns (err: Option<Fault>)
      requires Valid() && 20 <= k < 28 && 0 <= b1 < 16 && 0 <= b2 < 16 && 0 <= b3 < 16
      modifies this, registers, disp.pixelMatrix
      ensures Valid()
      ensures Outcome(MiscEffect(old(State()), k, b1, b2, b3, env), err, old(State()), State())
    {
      err := None;
      var nn := b2 * 16 + b1;
      var nnn := b3 * 256 + nn;
      if k == 20 {
        index := nnn;
      } else if k == 21 {
        pc := Wrap16(nnn + registers[0] - 2);
      } else if k == 22 {
        registers[b3] := Truncate8(env.random % (nn + 1));
      } else if k == 23 {
        err := DrawSprt(b1, b2, b3);
      } else if k == 24 || k == 25 {
        if registers[b3] >= 16 {
          return Some(KeyOutOfRange);
        }
        var held := registers[b3] in env.held;
        if held == (k == 24) {
          pc := Wrap16(pc + 2);
        }
      } else if k == 26 {
        registers[b3] := syncCounter;
      } else {
        WaitForKeyPress(b3, env.pressed);
      }
    }

    /** waitForKeyPress: Vx receives the key the keypad reports. */
    method WaitForKeyPress(b3: int, key: Key)
      requires Valid() && 0 <= b3 < 16
      modifies registers
      ensures Valid()
      ensures State() == old(State()).(v := old(State()).v[b3 := key])
    {
      registers[b3] := key;
    }

    /** Cases 28..34: FX15, FX18, FX1E, FX29, FX33, FX55, FX65. */
    method MemoryCase(k: int, b3: int) returns (err: Option<Fault>)
      requires Valid() && 28 <= k < OpcodeCount && 0 <= b3 < 16
      modifies this, registers, memory
      ensures Valid()
      ensures Outcome(MemoryEffect(old(State()), k, b3), err, old(State()), State())
    {
      err := None;
      if k == 28 {
        syncCounter := registers[b3];
      } else if k == 29 {
        soundCounter := registers[b3];
      } else if k == 30 {
        registers[VF] := if index + registers[b3] > 0xFFF then 1 else 0;
        index := Wrap16(index + registers[b3]);
      } else if k == 31 {
        index := Wrap16(5 * (registers[b3] as int));
      } else if k == 32 {
        err := StoreBcd(b3);
      } else if k == 33 {
        err := StoreRegisters(b3);
      } else {
        err := LoadRegisters(b3);
      }
    }

    /** FX33: the hundreds, tens and units of Vx at I, I+1 and I+2, the
        units computed from the two digits just stored. */
    method StoreBcd(b3: int) returns (err: Option<Fault>)
      requires Valid() && 0 <= b3 < 16
      modifies memory
      ensures Valid()
      ensures Outcome(Bcd(old(State()), b3), err, old(State()), State())
    {
      if index + 2 >= MemorySize {
        return Some(AddressOutOfRange);
      }
      ghost var m := State();
      var vx := registers[b3];
      var hundreds := Truncate8((vx - vx % 100) / 100);
      var tens := Truncate8(((vx - vx % 10) / 10) % 10);
      StoreByte(index, hundreds);
      StoreByte(index + 1, tens);
      var units := Truncate8(vx - (memory[index] as int) * 100 - 10 * memory[index + 1]);
      StoreByte(index + 2, units);
      assert Bcd(m, b3) == Ok(m.(mem := m.mem[index := hundreds][index + 1 := tens][index + 2 := units]));
      err := None;
    }

    /** One memory write; the rest of the state is unchanged. */
    method StoreByte(a: int, val: Byte)
      requires Valid() && 0 <= a < MemorySize
      modifies memory
      ensures Valid()
      ensures State() == old(State()).(mem := old(State()).mem[a := val])
    {
      memory[a] := val;
    }

    /** FX55: for i = 0..X, memory[I + i] := Vi. */
    method StoreRegisters(b3: int) returns (err: Option<Fault>)
      requires Valid() && 0 <= b3 < 16
      modifies memory
      ensures Valid()
      ensures Outcome(MemoryEffect(old(State()), 33, b3), err, old(State()), State())
    {
      if index + b3 >= MemorySize {
        return Some(AddressOutOfRange);
      }
      ghost var mem := memory[..];
      var i := 0;
      while i <= b3
        invariant 0 <= i <= b3 + 1
        invariant forall a :: 0 <= a < MemorySize ==>
                    memory[a] == if index <= a < index + i then registers[a - index] else mem[a]
      {
        memory[index + i] := registers[i];
        i := i + 1;
      }
      assert memory[..] == StoreRegs(mem, index, registers[..], b3);
      err := None;
    }

    /** FX65: for i = 0..X, Vi := memory[I + i]. */
    method LoadRegisters(b3: int) returns (err: Option<Fault>)
      requires Valid() && 0 <= b3 < 16
      modifies registers
      ensures Valid()
      ensures Outcome(MemoryEffect(old(State()), 34, b3), err, old(State()), State())
    {
      if index + b3 >= MemorySize {
        return Some(AddressOutOfRange);
      }
      ghost var v := registers[..];
      var i := 0;
      while i <= b3
        invariant 0 <= i <= b3 + 1
        invariant forall k :: 0 <= k < RegisterCount ==>
                    registers[k] == if k < i then memory[index + k] else v[k]
      {
        registers[i] := memory[index + i];
        i := i + 1;
      }
      assert registers[..] == LoadRegs(v, memory[..], index, b3);
      err := None;
    }

    /** run: fetch the opcode at pc, execute it, tick both timers. A fault
        of the fetch or of the instruction stops the cycle there. */
    method Run(env: Env) returns (err: Option<Fault>)
      requires Valid()
      modifies this, registers, memory, jmp, disp.pixelMatrix
      ensures Valid()
      ensures Outcome(Step(old(State()), env), err, old(State()), State())
    {
      var fetched := GetCurrentOp();
      if fetched.Err? {
        return Some(fetched.error);
      }
      err := ExecuteOpcode(fetched.value, env);
      if err.None? {
        DecrementCounters();
      }
    }

    /** decrementCounters: both timers tick once, stopping at 0. */
    method DecrementCounters()
      requires Valid()
      modifies this
      ensures Valid()
      ensures State() == Chip8.DecrementCounters(old(State()))
    {
      soundCounter := Decrement(soundCounter);
      syncCounter := Decrement(syncCounter);
    }
  }

  lemma PlotRowIs(mem: seq<Byte>, addr: int, c: Canvas, x: int, y: int, row: int, yS: int, code: Byte)
    requires CanvasOk(c) && 0 <= x < 16 && 0 <= y < 16 && 0 <= row && 0 <= addr && addr + row < |mem|
    requires code == mem[addr + row] && yS == (c.v[y] + row) % H
    ensures PlotRow(mem, addr, c, x, y, row) == DrawRowFrom(c, x, yS, SpriteBits(code), 0)
  {
  }

  lemma RowsStep(mem: seq<Byte>, addr: int, c: Canvas, x: int, y: int, n: int, row: int, next: Canvas)
    requires CanvasOk(c) && 0 <= x < 16 && 0 <= y < 16 && 0 <= row < n && 0 <= addr && addr + n <= |mem|
    requires next == PlotRow(mem, addr, c, x, y, row)
    ensures DrawRowsFrom(mem, addr, c, x, y, n, row) == DrawRowsFrom(mem, addr, next, x, y, n, row + 1)
  {
  }

  /** The switch of executeOpcode, group by group. */
  lemma EffectGroups(m: Machine, k: int, b1: int, b2: int, b3: int, env: Env)
    requires WellFormed(m) && 0 <= k < OpcodeCount && 0 <= b1 < 16 && 0 <= b2 < 16 && 0 <= b3 < 16
    ensures k < 10 ==> Effect(m, k, b1, b2, b3, env) == FlowEffect(m, k, b1, b2, b3)
    ensures 10 <= k < 14 ==> Effect(m, k, b1, b2, b3, env) == LogicEffect(m, k, b2, b3)
    ensures 14 <= k < 20 ==> Effect(m, k, b1, b2, b3, env) == ArithEffect(m, k, b2, b3)
    ensures 20 <= k < 28 ==> Effect(m, k, b1, b2, b3, env) == MiscEffect(m, k, b1, b2, b3, env)
    ensures 28 <= k ==> Effect(m, k, b1, b2, b3, env) == MemoryEffect(m, k, b3)
  {
  }

  /** The outcome of the switch on the table index of `op`, followed by
      pc += 2 when it succeeds, is the outcome of executing `op`. */
  lemma ExecOutcome(m: Machine, op: Word, env: Env, k: int, err: Option<Fault>, after: Machine)
    requires WellFormed(m) && k == Decode(op as bv16)
    requires Outcome(Effect(m, k, op % 16, (op / 16) % 16, (op / 256) % 16, env), err, m, after)
    ensures Outcome(Exec(m, op, env), err, m, if err.None? then after.(pc := Wrap16(after.pc + 2)) else after)
  {
  }

  /** How a method that reports `err` ends, against the result `r` of the
      value semantics: on success in the state `r` holds, on a fault with
      that fault reported and the state it started in. */
  ghost predicate Outcome(r: Result<Machine, Fault>, err: Option<Fault>, before: Machine, after: Machine) {
    match r
    case Ok(m) => err.None? && after == m
    case Err(e) => err == Some(e) && after == before
  }

  /** The loop of retrieveOpcodeIndex: the index of the first pair of the
      table that accepts `op`, or the table's length when none does. */
  method Scan(msq: array<bv16>, id: array<bv16>, op: bv16) returns (n: int)
    requires msq.Length == id.Length
    ensures 0 <= n <= msq.Length
    ensures forall j :: 0 <= j < n ==> !Accepts(msq[j], id[j], op)
    ensures n < msq.Length ==> Accepts(msq[n], id[n], op)
  {
    n := 0;
    while n < msq.Length && !Accepts(msq[n], id[n], op)
      invariant 0 <= n <= msq.Length
      invariant forall j :: 0 <= j < n ==> !Accepts(msq[j], id[j], op)
    {
      n := n + 1;
    }
  }

  /** A sequence that starts with `s` and is zero after it is `s` padded
      with zeros. */
  lemma PrefixThenZeros(a: seq<Byte>, s: seq<Byte>)
    requires |s| <= |a| && a[..|s|] == s
    requires a[|s|..] == Repeat<Byte>(0, |a| - |s|)
    ensures a == s + Repeat<Byte>(0, |a| - |s|)
  {
    assert a == a[..|s|] + a[|s|..];
  }

  lemma RepeatSuffix<T>(x: T, n: nat, k: nat)
    requires k <= n
    ensures Repeat(x, n)[k..] == Repeat(x, n - k)
  {
  }

  /** The machine whose registers, memory and return slots hold the boot
      values is the boot machine. */
  lemma BootIs(v: seq<Byte>, mem: seq<Byte>, stack: seq<Word>, frame: Frame)
    requires IsFrame(frame)
    requires v == Repeat<Byte>(0, RegisterCount) && mem == Font + Repeat<Byte>(0, MemorySize - FontSize)
    requires stack == Repeat<Word>(0, StackSize)
    ensures Machine(v, mem, stack, 0, 0, StartAddr, 0, 0, frame) == Boot(frame)
  {
  }

  lemma AllSame<T>(a: seq<T>, x: T)
    requires forall k :: 0 <= k < |a| ==> a[k] == x
    ensures a == Repeat(x, |a|)
  {
  }

  /** Stores `s` into `a`, element by element. */
  method Fill(a: array<bv16>, s: seq<bv16>)
    requires a.Length == |s|
    modifies a
    ensures a[..] == s
  {
    for k := 0 to |s|
      invariant a[..k] == s[..k]
    {
      a[k] := s[k];
    }
  }

  /** Stores `s` into the first |s| cells of `a`; the others keep their
      values. */
  method FillPrefix(a: array<Byte>, s: seq<Byte>)
    requires |s| <= a.Length
    modifies a
    ensures a[..|s|] == s
    ensures a[|s|..] == old(a[|s|..])
  {
    for k := 0 to |s|
      invariant a[..k] == s[..k]
      invariant a[|s|..] == old(a[|s|..])
    {
      a[k] := s[k];
    }
  }
}
