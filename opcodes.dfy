/**
 * The opcode table and the decoder.
 *
 * An instruction word is classified by scanning 35 (mask, id) pairs in
 * order; the first pair with `(mask & word) == id` gives the opcode index.
 * No match gives index 0, which is also the index of the inert entry
 * (mask 0x0000, id 0x0FFF) standing for the native-call instruction 0NNN.
 */
module Opcodes {

  import opened Wrappers

  const OpcodeCount: int := 35

  /** `jump.msq[k]` as set up by the CPU's table initialisation. */
  const Masks: seq<bv16> := [
    0x0000, 0xFFFF, 0xFFFF, 0xF000, 0xF000, 0xF000, 0xF000, 0xF00F, 0xF000, 0xF000,
    0xF00F, 0xF00F, 0xF00F, 0xF00F, 0xF00F, 0xF00F, 0xF00F, 0xF00F, 0xF00F, 0xF00F,
    0xF000, 0xF000, 0xF000, 0xF000, 0xF0FF, 0xF0FF, 0xF0FF, 0xF0FF, 0xF0FF, 0xF0FF,
    0xF0FF, 0xF0FF, 0xF0FF, 0xF0FF, 0xF0FF]

  /** `jump.id[k]`: 0NNN, 00E0, 00EE, 1NNN, 2NNN, 3XNN, 4XNN, 5XY0, 6XNN, 7XNN,
      8XY0..8XY7, 8XYE, 9XY0, ANNN, BNNN, CXNN, DXYN, EX9E, EXA1, FX07, FX0A,
      FX15, FX18, FX1E, FX29, FX33, FX55, FX65. */
  const Ids: seq<bv16> := [
    0x0FFF, 0x00E0, 0x00EE, 0x1000, 0x2000, 0x3000, 0x4000, 0x5000, 0x6000, 0x7000,
    0x8000, 0x8001, 0x8002, 0x8003, 0x8004, 0x8005, 0x8006, 0x8007, 0x800E, 0x9000,
    0xA000, 0xB000, 0xC000, 0xD000, 0xE09E, 0xE0A1, 0xF007, 0xF00A, 0xF015, 0xF018,
    0xF01E, 0xF029, 0xF033, 0xF055, 0xF065]

  /** The table holds exactly 35 (mask, id) pairs. */
  lemma TableSize()
    ensures |Masks| == OpcodeCount && |Ids| == OpcodeCount
  {
  }

  /** A (mask, id) pair accepts `op` when the bits the mask keeps equal id. */
  predicate Accepts(mask: bv16, id: bv16, op: bv16) {
    (mask & op) == id
  }

  predicate Matches(k: int, op: bv16)
    requires 0 <= k < OpcodeCount
  {
    Accepts(Masks[k], Ids[k], op)
  }

  /** For each table entry, whether it matches `op`. */
  function MatchVector(op: bv16): (hits: seq<bool>)
    ensures |hits| == OpcodeCount
    ensures forall k :: 0 <= k < OpcodeCount ==> hits[k] == Matches(k, op)
  {
    seq(OpcodeCount, k requires 0 <= k < OpcodeCount => Matches(k, op))
  }

  /** The first index at or after `j` whose entry is set, if any. */
  function FirstFrom(hits: seq<bool>, j: int): (r: Option<int>)
    requires 0 <= j <= |hits|
    ensures r.Some? ==> j <= r.value < |hits| && hits[r.value]
    ensures r.Some? ==> forall i :: j <= i < r.value ==> !hits[i]
    ensures r.None? ==> forall i :: j <= i < |hits| ==> !hits[i]
    decreases |hits| - j
  {
    if j == |hits| then None
    else if hits[j] then Some(j)
    else FirstFrom(hits, j + 1)
  }

  /** The index the decoder returns for `op`: the smallest matching index,
      or 0 when no entry matches. */
  function Decode(op: bv16): (k: int)
    ensures 0 <= k < OpcodeCount
    ensures (exists i :: 0 <= i < OpcodeCount && Matches(i, op)) ==>
              Matches(k, op) && forall i :: 0 <= i < k ==> !Matches(i, op)
    ensures (forall i :: 0 <= i < OpcodeCount ==> !Matches(i, op)) ==> k == 0
  {
    match FirstFrom(MatchVector(op), 0)
    case Some(k) => k
    case None => 0
  }

  /**
   * An independent classification of a word by the structure of the CHIP-8
   * instruction set: the leading nibble selects the family, and the 0, 5, 8,
   * 9, E and F families are told apart by their low nibble or low byte.
   * Words that are no instruction of the set classify as 0.
   */
  function Classify(op: bv16): (k: int)
    ensures 0 <= k < OpcodeCount
  {
    var hi := op & 0xF000;  // leading nibble, in place
    var lo := op & 0x000F;
    var low := op & 0x00FF;
    if hi == 0x0000 then (if op & 0x0FFF == 0x00E0 then 1 else if op & 0x0FFF == 0x00EE then 2 else 0)
    else if hi == 0x1000 then 3
    else if hi == 0x2000 then 4
    else if hi == 0x3000 then 5
    else if hi == 0x4000 then 6
    else if hi == 0x5000 then (if lo == 0x0 then 7 else 0)
    else if hi == 0x6000 then 8
    else if hi == 0x7000 then 9
    else if hi == 0x8000 then
      if lo == 0x0 then 10 else if lo == 0x1 then 11 else if lo == 0x2 then 12
      else if lo == 0x3 then 13 else if lo == 0x4 then 14 else if lo == 0x5 then 15
      else if lo == 0x6 then 16 else if lo == 0x7 then 17 else if lo == 0xE then 18
      else 0
    else if hi == 0x9000 then (if lo == 0x0 then 19 else 0)
    else if hi == 0xA000 then 20
    else if hi == 0xB000 then 21
    else if hi == 0xC000 then 22
    else if hi == 0xD000 then 23
    else if hi == 0xE000 then (if low == 0x9E then 24 else if low == 0xA1 then 25 else 0)
    else
      if low == 0x07 then 26 else if low == 0x0A then 27 else if low == 0x15 then 28
      else if low == 0x18 then 29 else if low == 0x1E then 30 else if low == 0x29 then 31
      else if low == 0x33 then 32 else if low == 0x55 then 33 else if low == 0x65 then 34
      else 0
  }

  /** Entry `k` matches `op` exactly when `op` is an instruction of family
      `k`; entry 0 matches nothing. */
  lemma MatchesIffClassified(k: int, op: bv16)
    requires 0 <= k < OpcodeCount
    ensures Matches(k, op) <==> k != 0 && Classify(op) == k
  {
    if k == 0 { Entry0(op); }
    else if k == 1 { Entry1(op); }
    else if k == 2 { Entry2(op); }
    else if k == 3 { Entry3(op); }
    else if k == 4 { Entry4(op); }
    else if k == 5 { Entry5(op); }
    else if k == 6 { Entry6(op); }
    else if k == 7 { Entry7(op); }
    else if k == 8 { Entry8(op); }
    else if k == 9 { Entry9(op); }
    else if k == 10 { Entry10(op); }
    else if k == 11 { Entry11(op); }
    else if k == 12 { Entry12(op); }
    else if k == 13 { Entry13(op); }
    else if k == 14 { Entry14(op); }
    else if k == 15 { Entry15(op); }
    else if k == 16 { Entry16(op); }
    else if k == 17 { Entry17(op); }
    else if k == 18 { Entry18(op); }
    else if k == 19 { Entry19(op); }
    else if k == 20 { Entry20(op); }
    else if k == 21 { Entry21(op); }
    else if k == 22 { Entry22(op); }
    else if k == 23 { Entry23(op); }
    else if k == 24 { Entry24(op); }
    else if k == 25 { Entry25(op); }
    else if k == 26 { Entry26(op); }
    else if k == 27 { Entry27(op); }
    else if k == 28 { Entry28(op); }
    else if k == 29 { Entry29(op); }
    else if k == 30 { Entry30(op); }
    else if k == 31 { Entry31(op); }
    else if k == 32 { Entry32(op); }
    else if k == 33 { Entry33(op); }
    else if k == 34 { Entry34(op); }
  }

  // One fact per table entry, each checked on its own.
  lemma Entry0(op: bv16) ensures Matches(0, op) <==> false {}  // 0NNN
  lemma Entry1(op: bv16) ensures Matches(1, op) <==> Classify(op) == 1 {}  // 00E0
  lemma Entry2(op: bv16) ensures Matches(2, op) <==> Classify(op) == 2 {}  // 00EE
  lemma Entry3(op: bv16) ensures Matches(3, op) <==> Classify(op) == 3 {}  // 1NNN
  lemma Entry4(op: bv16) ensures Matches(4, op) <==> Classify(op) == 4 {}  // 2NNN
  lemma Entry5(op: bv16) ensures Matches(5, op) <==> Classify(op) == 5 {}  // 3XNN
  lemma Entry6(op: bv16) ensures Matches(6, op) <==> Classify(op) == 6 {}  // 4XNN
  lemma Entry7(op: bv16) ensures Matches(7, op) <==> Classify(op) == 7 {}  // 5XY0
  lemma Entry8(op: bv16) ensures Matches(8, op) <==> Classify(op) == 8 {}  // 6XNN
  lemma Entry9(op: bv16) ensures Matches(9, op) <==> Classify(op) == 9 {}  // 7XNN
  lemma Entry10(op: bv16) ensures Matches(10, op) <==> Classify(op) == 10 {}  // 8XY0
  lemma Entry11(op: bv16) ensures Matches(11, op) <==> Classify(op) == 11 {}  // 8XY1
  lemma Entry12(op: bv16) ensures Matches(12, op) <==> Classify(op) == 12 {}  // 8XY2
  lemma Entry13(op: bv16) ensures Matches(13, op) <==> Classify(op) == 13 {}  // 8XY3
  lemma Entry14(op: bv16) ensures Matches(14, op) <==> Classify(op) == 14 {}  // 8XY4
  lemma Entry15(op: bv16) ensures Matches(15, op) <==> Classify(op) == 15 {}  // 8XY5
  lemma Entry16(op: bv16) ensures Matches(16, op) <==> Classify(op) == 16 {}  // 8XY6
  lemma Entry17(op: bv16) ensures Matches(17, op) <==> Classify(op) == 17 {}  // 8XY7
  lemma Entry18(op: bv16) ensures Matches(18, op) <==> Classify(op) == 18 {}  // 8XYE
  lemma Entry19(op: bv16) ensures Matches(19, op) <==> Classify(op) == 19 {}  // 9XY0
  lemma Entry20(op: bv16) ensures Matches(20, op) <==> Classify(op) == 20 {}  // ANNN
  lemma Entry21(op: bv16) ensures Matches(21, op) <==> Classify(op) == 21 {}  // BNNN
  lemma Entry22(op: bv16) ensures Matches(22, op) <==> Classify(op) == 22 {}  // CXNN
  lemma Entry23(op: bv16) ensures Matches(23, op) <==> Classify(op) == 23 {}  // DXYN
  lemma Entry24(op: bv16) ensures Matches(24, op) <==> Classify(op) == 24 {}  // EX9E
  lemma Entry25(op: bv16) ensures Matches(25, op) <==> Classify(op) == 25 {}  // EXA1
  lemma Entry26(op: bv16) ensures Matches(26, op) <==> Classify(op) == 26 {}  // FX07
  lemma Entry27(op: bv16) ensures Matches(27, op) <==> Classify(op) == 27 {}  // FX0A
  lemma Entry28(op: bv16) ensures Matches(28, op) <==> Classify(op) == 28 {}  // FX15
  lemma Entry29(op: bv16) ensures Matches(29, op) <==> Classify(op) == 29 {}  // FX18
  lemma Entry30(op: bv16) ensures Matches(30, op) <==> Classify(op) == 30 {}  // FX1E
  lemma Entry31(op: bv16) ensures Matches(31, op) <==> Classify(op) == 31 {}  // FX29
  lemma Entry32(op: bv16) ensures Matches(32, op) <==> Classify(op) == 32 {}  // FX33
  lemma Entry33(op: bv16) ensures Matches(33, op) <==> Classify(op) == 33 {}  // FX55
  lemma Entry34(op: bv16) ensures Matches(34, op) <==> Classify(op) == 34 {}  // FX65

  /** Entry 0 (mask 0x0000, id 0x0FFF) matches no word. */
  lemma EntryZeroInert(op: bv16)
    ensures !Matches(0, op)
  {
  }

  /** At most one entry matches any word, so the order of the scan never
      decides between two candidates. */
  lemma AtMostOneMatch(op: bv16, i: int, j: int)
    requires 0 <= i < OpcodeCount && 0 <= j < OpcodeCount
    requires Matches(i, op) && Matches(j, op)
    ensures i == j
  {
    MatchesIffClassified(i, op);
    MatchesIffClassified(j, op);
  }

  /** The first-match scan agrees with the reference classification. */
  lemma DecodeIsClassify(op: bv16)
    ensures Decode(op) == Classify(op)
  {
    forall k | 0 <= k < OpcodeCount
      ensures Matches(k, op) <==> k != 0 && Classify(op) == k
    {
      MatchesIffClassified(k, op);
    }
    DecodeUnique(op, Classify(op));
  }

  /** If the entries matching `op` are exactly entry `c` (none when `c` is
      0), the decoder returns `c`. */
  lemma DecodeUnique(op: bv16, c: int)
    requires 0 <= c < OpcodeCount
    requires forall k :: 0 <= k < OpcodeCount ==> (Matches(k, op) <==> k != 0 && c == k)
    ensures Decode(op) == c
  {
    if c != 0 {
      assert Matches(c, op);
    }
  }

  /** Any word that satisfies entry `k` decodes to `k`. */
  lemma DecodeEntry(k: int, op: bv16)
    requires 0 <= k < OpcodeCount && Matches(k, op)
    ensures Decode(op) == k
  {
    DecodeIsClassify(op);
    MatchesIffClassified(k, op);
  }

  /** The decoder returns the first matching entry. */
  lemma DecodeFirst(op: bv16, k: int)
    requires 0 <= k < OpcodeCount && Matches(k, op)
    requires forall j :: 0 <= j < k ==> !Matches(j, op)
    ensures Decode(op) == k
  {
  }

  /** The table the decoder scans, held as two sequences. */
  predicate IsTable(ms: seq<bv16>, ids: seq<bv16>) {
    ms == Masks && ids == Ids
  }

  /** A scan of a table equal to (Masks, Ids) that stops at index `n`
      computes the decoder's answer. */
  lemma ScanIsDecode(ms: seq<bv16>, ids: seq<bv16>, op: bv16, n: int)
    requires IsTable(ms, ids) && 0 <= n <= OpcodeCount
    requires forall j :: 0 <= j < n ==> !Accepts(ms[j], ids[j], op)
    requires n < OpcodeCount ==> Accepts(ms[n], ids[n], op)
    ensures Decode(op) == if n < OpcodeCount then n else 0
  {
    forall j | 0 <= j < n
      ensures !Matches(j, op)
    {
      assert !Accepts(ms[j], ids[j], op);
    }
    if n < OpcodeCount {
      assert Accepts(ms[n], ids[n], op);
      DecodeFirst(op, n);
    }
  }
}
