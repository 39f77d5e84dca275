/**
 * What one instruction, one step and the start-up of the machine do, stated
 * per instruction family and proved from the definitions in Chip8.
 *
 * Instruction lemmas take any word the decoder assigns to the family
 * (`Decode(op as bv16) == k`); which words those are is stated in Opcodes.
 * Throughout, `x`, `y` and `n` are the opcode's nibbles 2, 1 and 0, `nn`
 * its low byte and `nnn` its low twelve bits.
 */
module Properties {

  import opened Wrappers
  import opened Display
  import opened Opcodes
  import opened Chip8
  import opened Drawing

  // ------------------------------------------------------------------
  // Operands

  /** The three operand nibbles put together give the low byte and the low
      twelve bits of the word. */
  lemma {:induction false} OperandsCompose(op: Word)
    ensures OperandY(op) * 16 + OperandN(op) == op % 0x100
    ensures OperandX(op) * 256 + OperandY(op) * 16 + OperandN(op) == op % 0x1000
  {
    var q := op / 16;
    assert op == q * 16 + op % 16;
    var q2 := q / 16;
    assert q == q2 * 16 + q % 16;
    var q3 := q2 / 16;
    assert q2 == q3 * 16 + q2 % 16;
    assert op / 256 == q2;
    assert op == q3 * 4096 + (q2 % 16) * 256 + (q % 16) * 16 + op % 16;
    assert op == q2 * 256 + (q % 16) * 16 + op % 16;
  }

  // ------------------------------------------------------------------
  // Start-up

  /** After construction: pc at 512, registers, I, timers and stack depth
      zero, the font in bytes 0..79 and every other byte zero. */
  lemma BootState(frame: Frame)
    requires IsFrame(frame)
    ensures var m := Boot(frame);
      && m.pc == StartAddr && m.i == 0 && m.depth == 0 && m.delay == 0 && m.sound == 0
      && (forall k :: 0 <= k < RegisterCount ==> m.v[k] == 0)
      && m.mem[..FontSize] == Font
      && (forall a :: FontSize <= a < MemorySize ==> m.mem[a] == 0)
      && m.frame == frame
  {
    var m := Boot(frame);
    assert m.mem[..FontSize] == Font;
  }

  /** The five font bytes of digit `d` start at 5 * d and spell glyph `d`. */
  lemma FontGlyph(d: int)
    requires 0 <= d < 16
    ensures 5 * d + 5 <= |Font| && Font[5 * d..5 * d + 5] == Glyphs[d]
  {
    forall j | 0 <= j < 5
      ensures Font[5 * d + j] == Glyphs[d][j]
    {
      assert (5 * d + j) / 5 == d && (5 * d + j) % 5 == j;
    }
  }

  /** loadGame puts the image at 512 and changes no other byte and nothing
      else; an image that does not fit is refused, and so is a missing
      file. */
  lemma LoadSpec(m: Machine, file: Option<seq<Byte>>)
    requires WellFormed(m)
    ensures Load(m, file).Ok? <==> file.Some? && |file.value| <= MemorySize - StartAddr
    ensures file.None? ==> Load(m, file) == Err(GameNotFound)
    ensures Load(m, file).Ok? ==>
      var r := Load(m, file).value;
      var rom := file.value;
      && r.mem[StartAddr..StartAddr + |rom|] == rom
      && r.mem[..StartAddr] == m.mem[..StartAddr]
      && r.mem[StartAddr + |rom|..] == m.mem[StartAddr + |rom|..]
      && r.(mem := m.mem) == m
  {
    if Load(m, file).Ok? {
      var rom := file.value;
      var r := Load(m, file).value;
      assert r.mem == m.mem[..StartAddr] + rom + m.mem[StartAddr + |rom|..];
      assert r.mem[StartAddr..StartAddr + |rom|] == rom;
      assert r.mem[..StartAddr] == m.mem[..StartAddr];
    }
  }

  // ------------------------------------------------------------------
  // Timers

  /** A tick never raises a timer and stops at zero. */
  lemma DecrementStops(t: Byte)
    ensures Decrement(t) <= t
    ensures Decrement(t) == 0 <==> t <= 1
  {
  }

  /** The source's tick wraps an expired timer round to 255. */
  lemma DecrementAsWrittenWraps()
    ensures DecrementAsWritten(0) == 255
    ensures DecrementAsWritten(0) > 0
  {
  }

  /** Away from zero the two ticks agree. */
  lemma DecrementAgrees(t: Byte)
    requires t > 0
    ensures DecrementAsWritten(t) == Decrement(t)
  {
  }

  // ------------------------------------------------------------------
  // Control flow
  //
  // Each lemma below is about `Execute(m, k, op, env)`, the switch arm for
  // table entry k followed by pc += 2; `Exec` applies it with
  // k == Decode(op), so with the Opcodes lemmas (`DecodeEntry`) each one
  // speaks for every word the decoder sends to entry k.

  /** Two 16-bit stores in a row wrap like one. */
  lemma Wrap16Add(a: int, b: int)
    ensures Wrap16(Wrap16(a) + b) == Wrap16(a + b)
  {
    var q := a / 0x10000;
    assert a == q * 0x10000 + Wrap16(a);
    assert a + b == q * 0x10000 + (Wrap16(a) + b);
  }

  /** The jump targets store NNN - 2, which the final pc += 2 turns into
      NNN. */
  lemma JumpBack(op: Word)
    ensures Wrap16(Wrap16(OperandX(op) * 256 + OperandY(op) * 16 + OperandN(op) - 2) + 2) == op % 0x1000
  {
    OperandsCompose(op);
    Wrap16Add(OperandX(op) * 256 + OperandY(op) * 16 + OperandN(op) - 2, 2);
  }

  /** Entry 0 (0NNN, and every word no entry matches) only advances pc. */
  lemma ExecIgnored(m: Machine, op: Word, env: Env)
    requires WellFormed(m)
    ensures Execute(m, 0, op, env) == Ok(m.(pc := Wrap16((m.pc as int) + 2)))
  {
  }

  /** 00E0 blanks the display and changes nothing else. */
  lemma ExecClear(m: Machine, op: Word, env: Env)
    requires WellFormed(m)
    ensures Execute(m, 1, op, env) == Ok(m.(frame := Blank(), pc := Wrap16((m.pc as int) + 2)))
  {
  }

  /** 00EE resumes right after the innermost call; with no call pending it
      only advances pc. */
  lemma ExecReturn(m: Machine, op: Word, env: Env)
    requires WellFormed(m)
    ensures m.depth > 0 ==>
      Execute(m, 2, op, env) == Ok(m.(depth := m.depth - 1, pc := Wrap16((m.stack[m.depth - 1] as int) + 2)))
    ensures m.depth == 0 ==> Execute(m, 2, op, env) == Ok(m.(pc := Wrap16((m.pc as int) + 2)))
  {
  }

  /** 1NNN continues at NNN. */
  lemma ExecJump(m: Machine, op: Word, env: Env)
    requires WellFormed(m)
    ensures Execute(m, 3, op, env) == Ok(m.(pc := op % 0x1000))
  {
    JumpBack(op);
  }

  /** 2NNN saves pc in the next free slot and continues at NNN; with all 15
      slots in use it is refused. */
  lemma ExecCall(m: Machine, op: Word, env: Env)
    requires WellFormed(m)
    ensures m.depth == StackSize <==> Execute(m, 4, op, env).Err?
    ensures m.depth == StackSize ==> Execute(m, 4, op, env) == Err(StackOverflow)
    ensures m.depth < StackSize ==>
      Execute(m, 4, op, env) == Ok(m.(stack := m.stack[m.depth := m.pc], depth := m.depth + 1, pc := op % 0x1000))
  {
    JumpBack(op);
  }

  /** A 2NNN pushes its own address into the next free slot and jumps
      to NNN; a 00EE executed right there resumes at the instruction after
      the 2NNN with the call depth restored. */
  lemma CallThenReturn(m: Machine, call: Word, ret: Word, env: Env, env2: Env)
    requires WellFormed(m) && m.depth < StackSize
    ensures Execute(m, 4, call, env).Ok?
    ensures var m1 := Execute(m, 4, call, env).value;
      && m1.pc == call % 0x1000
      && m1.depth == m.depth + 1 && m1.stack[m.depth] == m.pc
      && Execute(m1, 2, ret, env2) == Ok(m.(stack := m.stack[m.depth := m.pc], pc := Wrap16((m.pc as int) + 2)))
  {
    ExecCall(m, call, env);
    var m1 := Execute(m, 4, call, env).value;
    SubroutineReturns(m, m1, ret, env2);
  }

  /** Whatever a subroutine does, its 00EE resumes after the 2NNN that
      called it, provided it leaves the depth as the call made it and does
      not overwrite the slot the call wrote; the subroutine's other effects
      are kept. */
  lemma SubroutineReturns(m: Machine, sub: Machine, ret: Word, env: Env)
    requires WellFormed(m) && WellFormed(sub) && m.depth < StackSize
    requires sub.depth == m.depth + 1 && sub.stack[m.depth] == m.pc
    ensures Execute(sub, 2, ret, env) == Ok(sub.(depth := m.depth, pc := Wrap16((m.pc as int) + 2)))
  {
    ExecReturn(sub, ret, env);
  }

  /** A conditional skip moves pc by 4 when it skips and by 2 otherwise. */
  function Skipped(m: Machine, c: bool): (r: Machine)
    ensures r == m.(pc := r.pc)
  {
    m.(pc := Wrap16((m.pc as int) + if c then 4 else 2))
  }

  /** 3XNN skips the next instruction exactly when Vx == NN. */
  lemma ExecSkipEqual(m: Machine, op: Word, env: Env)
    requires WellFormed(m)
    ensures Execute(m, 5, op, env) == Ok(Skipped(m, m.v[OperandX(op)] == op % 0x100))
  {
    OperandsCompose(op);
    Wrap16Add(m.pc + 2, 2);
  }

  /** 4XNN skips the next instruction exactly when Vx != NN. */
  lemma ExecSkipNotEqual(m: Machine, op: Word, env: Env)
    requires WellFormed(m)
    ensures Execute(m, 6, op, env) == Ok(Skipped(m, m.v[OperandX(op)] != op % 0x100))
  {
    OperandsCompose(op);
    Wrap16Add(m.pc + 2, 2);
  }

  /** 5XY0 skips the next instruction exactly when Vx == Vy. */
  lemma ExecSkipRegsEqual(m: Machine, op: Word, env: Env)
    requires WellFormed(m)
    ensures Execute(m, 7, op, env) == Ok(Skipped(m, m.v[OperandX(op)] == m.v[OperandY(op)]))
  {
    Wrap16Add(m.pc + 2, 2);
  }

  /** 9XY0 skips the next instruction exactly when Vx != Vy. */
  lemma ExecSkipRegsNotEqual(m: Machine, op: Word, env: Env)
    requires WellFormed(m)
    ensures Execute(m, 19, op, env) == Ok(Skipped(m, m.v[OperandX(op)] != m.v[OperandY(op)]))
  {
    Wrap16Add(m.pc + 2, 2);
  }

  /** BNNN continues at NNN + V0. */
  lemma ExecJumpOffset(m: Machine, op: Word, env: Env)
    requires WellFormed(m)
    ensures Execute(m, 21, op, env) == Ok(m.(pc := op % 0x1000 + (m.v[0] as int)))
  {
    OperandsCompose(op);
    Wrap16Add(op % 0x1000 + m.v[0] - 2, 2);
  }

  /** Exec runs the arm of the entry the word matches. */
  lemma ExecDispatch(m: Machine, op: Word, env: Env, k: int)
    requires WellFormed(m) && 0 <= k < OpcodeCount && Matches(k, op as bv16)
    ensures Exec(m, op, env) == Execute(m, k, op, env)
  {
    DecodeEntry(k, op as bv16);
  }

  // ------------------------------------------------------------------
  // Registers

  /** After an arm that changes only the register file. */
  function Regs(m: Machine, v: seq<Byte>): (r: Machine)
    ensures r.v == v && r.(v := m.v, pc := m.pc) == m
  {
    m.(v := v, pc := Wrap16((m.pc as int) + 2))
  }

  /** 6XNN sets Vx to NN. */
  lemma ExecLoadImmediate(m: Machine, op: Word, env: Env)
    requires WellFormed(m)
    ensures Execute(m, 8, op, env) == Ok(Regs(m, m.v[OperandX(op) := op % 0x100]))
  {
    OperandsCompose(op);
  }

  /** 7XNN adds NN to Vx modulo 256 and leaves VF alone, even on carry. */
  lemma ExecAddImmediate(m: Machine, op: Word, env: Env)
    requires WellFormed(m)
    ensures Execute(m, 9, op, env) ==
      Ok(Regs(m, m.v[OperandX(op) := ((m.v[OperandX(op)] as int) + op % 0x100) % 0x100]))
  {
    OperandsCompose(op);
  }

  /** 8XY0..8XY3 set Vx to the value Logic gives for Vx and Vy. */
  lemma ExecLogic(m: Machine, k: int, op: Word, env: Env)
    requires WellFormed(m) && 10 <= k <= 13
    ensures Execute(m, k, op, env) ==
      Ok(Regs(m, m.v[OperandX(op) := Logic(k, m.v[OperandX(op)], m.v[OperandY(op)])]))
  {
  }

  /** 8XY0 copies Vy; 8XY1, 8XY2 and 8XY3 combine Vx and Vy bit by bit
      with OR, AND and XOR. */
  lemma LogicBits(a: Byte, b: Byte, c: nat)
    requires c < 8
    ensures Logic(10, a, b) == b
    ensures Bit(Logic(11, a, b), c) == (Bit(a, c) || Bit(b, c))
    ensures Bit(Logic(12, a, b), c) == (Bit(a, c) && Bit(b, c))
    ensures Bit(Logic(13, a, b), c) == (Bit(a, c) != Bit(b, c))
  {
    BitwiseBit(Or, a, b, 8, c);
    BitwiseBit(And, a, b, 8, c);
    BitwiseBit(Xor, a, b, 8, c);
  }

  /** Bit `c` of a bitwise result is the operator applied to bit `c` of
      the operands. */
  lemma {:induction false} BitwiseBit(f: BitOp, a: nat, b: nat, w: nat, c: nat)
    requires c < w
    ensures Bit(Bitwise(f, a, b, w), c) == ApplyBit(f, Bit(a, c), Bit(b, c))
  {
    var r := Bitwise(f, a, b, w);
    var low := Bitwise(f, a / 2, b / 2, w - 1);
    assert r == 2 * low + if ApplyBit(f, a % 2 == 1, b % 2 == 1) then 1 else 0;
    if c > 0 {
      BitwiseBit(f, a / 2, b / 2, w - 1, c - 1);
      assert r / 2 == low;
    }
  }

  /** Two numbers below 2^w with the same low w bits are equal. */
  lemma {:induction false} BitsEqual(a: nat, b: nat, w: nat)
    requires a < Pow2(w) && b < Pow2(w)
    requires forall c: nat :: c < w ==> Bit(a, c) == Bit(b, c)
    ensures a == b
  {
    if w > 0 {
      forall c: nat | c < w - 1
        ensures Bit(a / 2, c) == Bit(b / 2, c)
      {
        assert Bit(a, c + 1) == Bit(b, c + 1);
      }
      BitsEqual(a / 2, b / 2, w - 1);
      assert Bit(a, 0) == Bit(b, 0);
    }
  }

  /** A byte is below 2^8. */
  lemma BytePow(a: Byte)
    ensures a < Pow2(8)
  {
    assert Pow2(8) == 256;
  }

  /** XOR with the same value twice restores Vx; XOR of a register with
      itself clears it. */
  lemma LogicXorInvolution(a: Byte, b: Byte)
    ensures Logic(13, Logic(13, a, b), b) == a
    ensures Logic(13, a, a) == 0
  {
    var t := Logic(13, a, b);
    forall c: nat | c < 8
      ensures Bit(Logic(13, t, b), c) == Bit(a, c)
    {
      LogicBits(t, b, c);
      LogicBits(a, b, c);
    }
    BytePow(a);
    BytePow(Logic(13, t, b));
    BitsEqual(Logic(13, t, b), a, 8);
    forall c: nat | c < 8
      ensures Bit(Logic(13, a, a), c) == Bit(0, c)
    {
      LogicBits(a, a, c);
      BitZero(c);
    }
    BytePow(Logic(13, a, a));
    BitsEqual(Logic(13, a, a), 0, 8);
  }

  lemma {:induction false} BitZero(c: nat)
    ensures !Bit(0, c)
  {
    if c > 0 {
      BitZero(c - 1);
    }
  }

  /** 8XY4 with X not VF: VF is the carry; with Y not VF either, Vx + Vy is carried exactly, the carry in VF
      and the low byte in Vx; no other register changes. */
  lemma ExecAddCarry(m: Machine, op: Word, env: Env)
    requires WellFormed(m)
    ensures Execute(m, 14, op, env).Ok?
    ensures var r := Execute(m, 14, op, env).value;
      var x := OperandX(op);
      var y := OperandY(op);
      && r == Regs(m, r.v)
      && (x != VF ==> r.v[VF] == if (m.v[x] as int) + m.v[y] > 0xFF then 1 else 0)
      && (x != VF && y != VF ==> (r.v[x] as int) + 256 * (r.v[VF] as int) == (m.v[x] as int) + m.v[y])
      && (x != VF && y == VF ==> r.v[x] == ((m.v[x] as int) + r.v[VF]) % 0x100)
      && (forall j :: 0 <= j < RegisterCount && j != x && j != VF ==> r.v[j] == m.v[j])
  {
  }

  /** 8XY4 with X = F: the carry written to VF is then overwritten by the
      sum, which reads the new VF when Y = F too. */
  lemma ExecAddCarryIntoFlag(m: Machine, op: Word, env: Env)
    requires WellFormed(m) && OperandX(op) == VF
    ensures Execute(m, 14, op, env).Ok?
    ensures var r := Execute(m, 14, op, env).value;
      var y := OperandY(op);
      var carry := if (m.v[VF] as int) + m.v[y] > 0xFF then 1 else 0;
      r.v == m.v[VF := (carry + (if y == VF then carry else m.v[y] as int)) % 0x100]
  {
  }

  /** 8XY5 with X not VF: VF is 1 exactly when no borrow occurs; with Y not
      VF either, Vx is Vx - Vy plus the borrowed 256, and with Y = F the
      subtrahend is the new VF. */
  lemma ExecSub(m: Machine, op: Word, env: Env)
    requires WellFormed(m)
    ensures Execute(m, 15, op, env).Ok?
    ensures var r := Execute(m, 15, op, env).value;
      var x := OperandX(op);
      var y := OperandY(op);
      && r == Regs(m, r.v)
      && (x != VF ==> (r.v[VF] == 1 <==> m.v[x] >= m.v[y]) && r.v[VF] <= 1)
      && (x != VF && y != VF ==> r.v[x] == (m.v[x] as int) - m.v[y] + 256 * (1 - (r.v[VF] as int)))
      && (x != VF && y == VF ==> r.v[x] == ((m.v[x] as int) - r.v[VF]) % 0x100)
      && (forall j :: 0 <= j < RegisterCount && j != x && j != VF ==> r.v[j] == m.v[j])
  {
  }

  /** 8XY5 with X = F: the no-borrow flag written to VF is then replaced by
      the flag minus Vy, which reads the new VF when Y = F too. */
  lemma ExecSubIntoFlag(m: Machine, op: Word, env: Env)
    requires WellFormed(m) && OperandX(op) == VF
    ensures Execute(m, 15, op, env).Ok?
    ensures var r := Execute(m, 15, op, env).value;
      var y := OperandY(op);
      var flag := if m.v[VF] < m.v[y] then 0 else 1;
      r.v == m.v[VF := (flag - (if y == VF then flag else m.v[y] as int)) % 0x100]
  {
  }

  /** 8XY7 with X not VF: VF is 1 exactly when no borrow occurs, and
      Vx := Vy - Vx, where with Y = F the minuend is the new VF. */
  lemma ExecSubReversed(m: Machine, op: Word, env: Env)
    requires WellFormed(m)
    ensures Execute(m, 17, op, env).Ok?
    ensures var r := Execute(m, 17, op, env).value;
      var x := OperandX(op);
      var y := OperandY(op);
      && r == Regs(m, r.v)
      && (x != VF ==> (r.v[VF] == 1 <==> m.v[y] >= m.v[x]) && r.v[VF] <= 1)
      && (x != VF && y != VF ==> r.v[x] == (m.v[y] as int) - m.v[x] + 256 * (1 - (r.v[VF] as int)))
      && (x != VF && y == VF ==> r.v[x] == ((r.v[VF] as int) - m.v[x]) % 0x100)
      && (forall j :: 0 <= j < RegisterCount && j != x && j != VF ==> r.v[j] == m.v[j])
  {
  }

  /** 8XY7 with X = F: the no-borrow flag written to VF is then replaced by
      Vy minus the flag, with Vy read after the flag write. */
  lemma ExecSubReversedIntoFlag(m: Machine, op: Word, env: Env)
    requires WellFormed(m) && OperandX(op) == VF
    ensures Execute(m, 17, op, env).Ok?
    ensures var r := Execute(m, 17, op, env).value;
      var y := OperandY(op);
      var flag := if m.v[y] < m.v[VF] then 0 else 1;
      r.v == m.v[VF := ((if y == VF then flag else m.v[y] as int) - flag) % 0x100]
  {
  }

  /** 8XY6 with X not VF: the bit shifted out lands in VF, so
      2 * Vx' + VF == Vx. Y is not used. */
  lemma ExecShiftRight(m: Machine, op: Word, env: Env)
    requires WellFormed(m)
    ensures Execute(m, 16, op, env).Ok?
    ensures var r := Execute(m, 16, op, env).value;
      var x := OperandX(op);
      && r == Regs(m, r.v)
      && (x != VF ==> 2 * (r.v[x] as int) + r.v[VF] == m.v[x] && r.v[VF] <= 1)
      && (x == VF ==> r.v[VF] == 0)
      && (forall j :: 0 <= j < RegisterCount && j != x && j != VF ==> r.v[j] == m.v[j])
  {
  }

  /** 8XYE with X not VF: the bit shifted out lands in VF, so
      Vx' + 256 * VF == 2 * Vx. Y is not used. */
  lemma ExecShiftLeft(m: Machine, op: Word, env: Env)
    requires WellFormed(m)
    ensures Execute(m, 18, op, env).Ok?
    ensures var r := Execute(m, 18, op, env).value;
      var x := OperandX(op);
      && r == Regs(m, r.v)
      && (x != VF ==> (r.v[x] as int) + 256 * (r.v[VF] as int) == 2 * (m.v[x] as int) && r.v[VF] <= 1)
      && (x == VF ==> r.v[VF] == (2 * (m.v[VF] / 128)) % 0x100)
      && (forall j :: 0 <= j < RegisterCount && j != x && j != VF ==> r.v[j] == m.v[j])
  {
  }

  /** CXNN: Vx is the random draw reduced modulo NN + 1, so at most NN. */
  lemma ExecRandom(m: Machine, op: Word, env: Env)
    requires WellFormed(m)
    ensures Execute(m, 22, op, env).Ok?
    ensures var r := Execute(m, 22, op, env).value;
      && r == Regs(m, m.v[OperandX(op) := env.random % (op % 0x100 + 1)])
      && r.v[OperandX(op)] <= op % 0x100
  {
    OperandsCompose(op);
  }

  /** FX07 copies the delay timer into Vx. */
  lemma ExecReadDelay(m: Machine, op: Word, env: Env)
    requires WellFormed(m)
    ensures Execute(m, 26, op, env) == Ok(Regs(m, m.v[OperandX(op) := m.delay]))
  {
  }

  /** FX0A stores the pressed key in Vx, so Vx is a key index afterwards. */
  lemma ExecWaitKey(m: Machine, op: Word, env: Env)
    requires WellFormed(m)
    ensures Execute(m, 27, op, env) == Ok(Regs(m, m.v[OperandX(op) := env.pressed]))
    ensures Execute(m, 27, op, env).value.v[OperandX(op)] < 16
  {
  }

  // ------------------------------------------------------------------
  // Index, timers, keys

  /** ANNN sets I to NNN. */
  lemma ExecSetIndex(m: Machine, op: Word, env: Env)
    requires WellFormed(m)
    ensures Execute(m, 20, op, env) == Ok(m.(i := op % 0x1000, pc := Wrap16((m.pc as int) + 2)))
  {
    OperandsCompose(op);
  }

  /** FX15 and FX18 load the delay and the sound timer from Vx. */
  lemma ExecSetTimers(m: Machine, op: Word, env: Env)
    requires WellFormed(m)
    ensures Execute(m, 28, op, env) == Ok(m.(delay := m.v[OperandX(op)], pc := Wrap16((m.pc as int) + 2)))
    ensures Execute(m, 29, op, env) == Ok(m.(sound := m.v[OperandX(op)], pc := Wrap16((m.pc as int) + 2)))
  {
  }

  /** FX1E: VF tells whether I + Vx leaves the 12-bit address space, and I
      becomes I + Vx in 16 bits; with X = F the addend is the new VF. */
  lemma ExecAddIndex(m: Machine, op: Word, env: Env)
    requires WellFormed(m)
    ensures Execute(m, 30, op, env).Ok?
    ensures var r := Execute(m, 30, op, env).value;
      var x := OperandX(op);
      && r.(v := m.v, i := m.i, pc := m.pc) == m
      && r.pc == Wrap16((m.pc as int) + 2)
      && r.v == m.v[VF := r.v[VF]]
      && (r.v[VF] == 1 <==> (m.i as int) + m.v[x] > 0xFFF) && r.v[VF] <= 1
      && (x != VF ==> r.i == ((m.i as int) + m.v[x]) % 0x10000)
      && (x == VF ==> r.i == ((m.i as int) + r.v[VF]) % 0x10000)
  {
  }

  /** FX29 points I at the font glyph of digit Vx (5 * Vx). */
  lemma ExecFontIndex(m: Machine, op: Word, env: Env)
    requires WellFormed(m)
    ensures Execute(m, 31, op, env) == Ok(m.(i := 5 * (m.v[OperandX(op)] as int), pc := Wrap16((m.pc as int) + 2)))
  {
  }

  /** While the font area holds the font, the five bytes FX29 points I at
      spell digit Vx. */
  lemma ExecFontChar(m: Machine, op: Word, env: Env)
    requires WellFormed(m) && m.mem[..FontSize] == Font && m.v[OperandX(op)] < 16
    ensures Execute(m, 31, op, env).Ok?
    ensures var r := Execute(m, 31, op, env).value;
      r.i + 5 <= MemorySize && r.mem[r.i..r.i + 5] == Glyphs[m.v[OperandX(op)]]
  {
    ExecFontIndex(m, op, env);
    FontInMemory(m.mem, m.v[OperandX(op)]);
  }

  /** Memory whose font area holds the font has glyph `d` at 5 * d. */
  lemma FontInMemory(mem: seq<Byte>, d: int)
    requires |mem| == MemorySize && mem[..FontSize] == Font && 0 <= d < 16
    ensures mem[5 * d..5 * d + 5] == Glyphs[d]
  {
    FontGlyph(d);
    SliceOfPrefix(mem, Font, 5 * d, 5 * d + 5);
  }

  lemma SliceOfPrefix(s: seq<Byte>, p: seq<Byte>, lo: int, hi: int)
    requires |p| <= |s| && s[..|p|] == p && 0 <= lo <= hi <= |p|
    ensures s[lo..hi] == p[lo..hi]
  {
    forall k | 0 <= k < hi - lo
      ensures s[lo..hi][k] == p[lo..hi][k]
    {
      assert s[..|p|][lo + k] == p[lo + k];
    }
  }

  /** EX9E skips exactly when key Vx is held, EXA1 exactly when it is not;
      a Vx that names no key is a fault. */
  lemma ExecKeySkips(m: Machine, op: Word, env: Env)
    requires WellFormed(m)
    ensures var vx := m.v[OperandX(op)];
      && (Execute(m, 24, op, env).Err? <==> vx >= 16)
      && (Execute(m, 25, op, env).Err? <==> vx >= 16)
      && (vx >= 16 ==> Execute(m, 24, op, env) == Err(KeyOutOfRange) && Execute(m, 25, op, env) == Err(KeyOutOfRange))
      && (vx < 16 ==> Execute(m, 24, op, env) == Ok(Skipped(m, vx in env.held)))
      && (vx < 16 ==> Execute(m, 25, op, env) == Ok(Skipped(m, vx !in env.held)))
  {
    Wrap16Add(m.pc + 2, 2);
  }

  // ------------------------------------------------------------------
  // Drawing and memory

  /** DXYN is the sprite draw of Drawing followed by pc += 2; it fails
      exactly when the draw reads past memory. */
  lemma ExecDraw(m: Machine, op: Word, env: Env)
    requires WellFormed(m)
    ensures var d := Draw(m, OperandN(op), OperandY(op), OperandX(op));
      && (d.Err? ==> Execute(m, 23, op, env) == Err(AddressOutOfRange))
      && (d.Ok? ==> Execute(m, 23, op, env) == Ok(d.value.(pc := Wrap16((m.pc as int) + 2))))
  {
  }

  /** FX33 writes the three decimal digits of Vx at I, I+1 and I+2 and
      changes nothing else; it fails exactly when I+2 is past memory. */
  lemma ExecBcd(m: Machine, op: Word, env: Env)
    requires WellFormed(m)
    ensures Execute(m, 32, op, env).Err? <==> m.i + 2 >= MemorySize
    ensures Execute(m, 32, op, env).Ok? ==>
      var r := Execute(m, 32, op, env).value;
      var a := m.i;
      && r == m.(mem := r.mem, pc := Wrap16((m.pc as int) + 2))
      && r.mem[a] <= 2 && r.mem[a + 1] < 10 && r.mem[a + 2] < 10
      && 100 * (r.mem[a] as int) + 10 * (r.mem[a + 1] as int) + r.mem[a + 2] == m.v[OperandX(op)]
      && (forall b :: 0 <= b < MemorySize && (b < a || b > a + 2) ==> r.mem[b] == m.mem[b])
  {
    BcdSpec(m, OperandX(op));
  }

  /** The digits Bcd stores, before pc moves. */
  lemma BcdSpec(m: Machine, x: int)
    requires WellFormed(m) && 0 <= x < 16
    ensures Bcd(m, x).Err? <==> m.i + 2 >= MemorySize
    ensures Bcd(m, x).Ok? ==>
      var r := Bcd(m, x).value;
      var a := m.i;
      && r == m.(mem := r.mem)
      && r.mem[a] <= 2 && r.mem[a + 1] < 10 && r.mem[a + 2] < 10
      && 100 * (r.mem[a] as int) + 10 * (r.mem[a + 1] as int) + r.mem[a + 2] == m.v[x]
      && (forall b :: 0 <= b < MemorySize && (b < a || b > a + 2) ==> r.mem[b] == m.mem[b])
  {
    if m.i + 2 < MemorySize {
      BcdDigits(m.v[x]);
    }
  }

  /** The source's digit formulas compute hundreds, tens and units. */
  lemma BcdDigits(vx: Byte)
    ensures Truncate8((vx - vx % 100) / 100) == vx / 100
    ensures Truncate8(((vx - vx % 10) / 10) % 10) == (vx / 10) % 10
    ensures Truncate8(vx - (vx / 100) * 100 - 10 * ((vx / 10) % 10)) == vx % 10
  {
    assert vx - vx % 100 == 100 * (vx / 100);
    assert vx - vx % 10 == 10 * (vx / 10);
    assert vx / 10 == 10 * (vx / 100) + (vx / 10) % 10;
  }

  /** FX55 copies V0..VX to memory from I on and changes nothing else; it
      fails exactly when I+X is past memory. I is left as it was. */
  lemma ExecStore(m: Machine, op: Word, env: Env)
    requires WellFormed(m)
    ensures Execute(m, 33, op, env).Err? <==> m.i + OperandX(op) >= MemorySize
    ensures Execute(m, 33, op, env).Ok? ==>
      var r := Execute(m, 33, op, env).value;
      var x := OperandX(op);
      && r == m.(mem := r.mem, pc := Wrap16((m.pc as int) + 2))
      && (forall j :: 0 <= j <= x ==> r.mem[m.i + j] == m.v[j])
      && (forall b :: 0 <= b < MemorySize && (b < m.i || b > m.i + x) ==> r.mem[b] == m.mem[b])
  {
  }

  /** FX65 fills V0..VX from memory at I on and changes nothing else; it
      fails exactly when I+X is past memory. */
  lemma ExecLoadRegs(m: Machine, op: Word, env: Env)
    requires WellFormed(m)
    ensures Execute(m, 34, op, env).Err? <==> m.i + OperandX(op) >= MemorySize
    ensures Execute(m, 34, op, env).Ok? ==>
      var r := Execute(m, 34, op, env).value;
      var x := OperandX(op);
      && r == Regs(m, r.v)
      && (forall j :: 0 <= j <= x ==> r.v[j] == m.mem[m.i + j])
      && (forall j :: x < j < RegisterCount ==> r.v[j] == m.v[j])
  {
  }

  /** FX55 then FX65 with the same X and I gives back the registers that
      were stored. */
  lemma StoreThenLoad(m: Machine, store: Word, load: Word, env: Env, env2: Env)
    requires WellFormed(m) && OperandX(store) == OperandX(load)
    requires m.i + OperandX(store) < MemorySize
    ensures Execute(m, 33, store, env).Ok?
    ensures var m1 := Execute(m, 33, store, env).value;
      && Execute(m1, 34, load, env2).Ok?
      && Execute(m1, 34, load, env2).value.v == m.v
  {
    ExecStore(m, store, env);
    var m1 := Execute(m, 33, store, env).value;
    ExecLoadRegs(m1, load, env2);
    var v2 := Execute(m1, 34, load, env2).value.v;
    assert forall j :: 0 <= j < RegisterCount ==> v2[j] == m.v[j];
  }

  // ------------------------------------------------------------------
  // One cycle

  /** run(): fails exactly when the fetch or the instruction fails;
      otherwise it is the decoded instruction followed by one timer tick. */
  lemma StepSpec(m: Machine, env: Env)
    requires WellFormed(m)
    ensures Step(m, env).Ok? <==> Fetch(m).Ok? && Exec(m, Fetch(m).value, env).Ok?
    ensures m.pc + 1 >= MemorySize ==> Step(m, env) == Err(AddressOutOfRange)
    ensures Step(m, env).Ok? ==>
      var r := Exec(m, Fetch(m).value, env).value;
      Step(m, env).value == r.(delay := Decrement(r.delay), sound := Decrement(r.sound))
  {
  }

  // ------------------------------------------------------------------
  // Return-address stack as written

  /** Below 15 pending calls the source's CALL and Call agree: the slot
      written is the depth, and the depth grows by one. */
  lemma CallAgrees(m: Machine, nnn: int)
    requires WellFormed(m) && 0 <= nnn < 0x1000 && m.depth < StackSize
    ensures Call(m, nnn).Ok?
    ensures var w := CallAsWritten(m, nnn);
      && w.slot < StackSize
      && Call(m, nnn).value == m.(stack := m.stack[w.slot := m.pc], depth := w.depth, pc := w.pc)
  {
  }

  /** With 15 calls pending the source's CALL writes return slot 15 of a
      15-slot array and does not count the call, so the next 00EE reads
      slot 14 and returns to the site of the previous call, not of this
      one; Call refuses instead. */
  lemma CallAsWrittenOverruns(m: Machine, nnn: int)
    requires WellFormed(m) && 0 <= nnn < 0x1000 && m.depth == StackSize
    ensures CallAsWritten(m, nnn).slot == StackSize
    ensures CallAsWritten(m, nnn).depth == StackSize
    ensures var w := CallAsWritten(m, nnn); var r := Return(m.(depth := w.depth, pc := w.pc));
      r.depth == StackSize - 1 && r.pc == m.stack[StackSize - 1]
    ensures Call(m, nnn) == Err(StackOverflow)
  {
  }
}
