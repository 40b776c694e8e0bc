/** What each instruction computes from the values it reads, draft by draft.
    The instruction functions of the three drafts differ in how they mask
    and compare; the branch conditions and the stores are the same in all
    three, and the loads differ only in rv32i_simulator_v1.py's halfword
    extension. The machines in the other modules call these functions for
    the value they write. */
module Semantics {
  import opened PyInt
  import opened Isa
  import opened Memory

  /** The two drafts that share the register, memory and dispatch code. */
  datatype Draft = FinalGui | StoreLoad

  // ---------------------------------------------------------------------
  // Register-register and register-immediate operations. In each function
  // x is `registers[rs1]` and y is `registers[rs2]` or the immediate.

  /** The value finalGUI/backend_gui.py writes into `registers[rd]`. */
  function FinalAlu(op: AluOp, x: int, y: int): int
  {
    match op
    case ADD | ADDI => Mask32(x + y)
    case SUB => Mask32(x - y)
    case AND | ANDI => Mask32(And(x, y))
    case OR | ORI => Mask32(Or(x, y))
    case XOR | XORI => Mask32(Xor(x, y))
    case SLT => if ToSigned32(x) < ToSigned32(y) then 1 else 0
    case SLTI => if ToSigned32(x) < y then 1 else 0
    case SLTU | SLTIU => if Mask32(x) < Mask32(y) then 1 else 0
    case SLL | SLLI => Mask32(Shl(x, ShiftAmount(y)))
    case SRL | SRLI => Shr(Mask32(x), ShiftAmount(y))
    case SRA | SRAI => Mask32(Shr(ToSigned32(x), ShiftAmount(y)))
  }

  /** The value store_load.py writes into `registers[rd]`: the logic
      operations keep the raw Python result, SLT/SLTI compare the stored
      values as they are, and SRA/SRAI or in the sign bits by hand. */
  function StoreLoadAlu(op: AluOp, x: int, y: int): int
  {
    match op
    case ADD | ADDI => Mask32(x + y)
    case SUB => Mask32(x - y)
    case AND | ANDI => And(x, y)
    case OR | ORI => Or(x, y)
    case XOR | XORI => Xor(x, y)
    case SLT | SLTI => if x < y then 1 else 0
    case SLTU | SLTIU => if Mask32(x) < Mask32(y) then 1 else 0
    case SLL | SLLI => Mask32(Shl(x, ShiftAmount(y)))
    case SRL | SRLI => Shr(Mask32(x), ShiftAmount(y))
    case SRA | SRAI => ManualSra(x, ShiftAmount(y))
  }

  /** store_load.py's arithmetic shift: when bit 31 is set, the vacated top
      bits are filled with `0xFFFFFFFF << (32 - s)`; the result is masked. */
  function ManualSra(value: int, s: nat): int
    requires s < 32
  {
    Mask32(if BitSet(value, 31) then Or(Shr(value, s), Shl(MASK32, 32 - s)) else Shr(value, s))
  }

  /** The ALU of the draft a machine runs. */
  function AluValue(d: Draft, op: AluOp, x: int, y: int): int
  {
    match d
    case FinalGui => FinalAlu(op, x, y)
    case StoreLoad => StoreLoadAlu(op, x, y)
  }

  /** The value rv32i_simulator_v1.py writes into `registers[rd]`, counting
      the later definitions of `slti`, `sltiu`, `slli`, `srli` and `srai`:
      nothing is masked except the unsigned comparisons and the operand of
      the logical right shift. */
  function EarlyAlu(op: AluOp, x: int, y: int): int
  {
    match op
    case ADD | ADDI => x + y
    case SUB => x - y
    case AND | ANDI => And(x, y)
    case OR | ORI => Or(x, y)
    case XOR | XORI => Xor(x, y)
    case SLT | SLTI => if x < y then 1 else 0
    case SLTU | SLTIU => if Mask32(x) < Mask32(y) then 1 else 0
    case SLL | SLLI => Shl(x, ShiftAmount(y))
    case SRL | SRLI => Shr(Mask32(x), ShiftAmount(y))
    case SRA | SRAI => Shr(x, ShiftAmount(y))
  }

  // ---------------------------------------------------------------------
  // Branch conditions, loads, stores and upper immediates.

  /** The comparison a branch function makes on `registers[rs1]` and
      `registers[rs2]`; BLT and BGE compare the stored values as they are. */
  predicate BranchTaken(op: BranchOp, x: int, y: int)
  {
    match op
    case BEQ => x == y
    case BNE => x != y
    case BLT => x < y
    case BGE => x >= y
    case BLTU => Mask32(x) < Mask32(y)
    case BGEU => Mask32(x) >= Mask32(y)
  }

  /** The value a load of finalGUI/backend_gui.py and store_load.py writes
      into `registers[rd]`. */
  function LoadValue(op: LoadOp, m: map<int, int>, address: int): int
  {
    match op
    case LW => LoadWord(m, address)
    case LH => LoadHalfword(m, address)
    case LHU => LoadHalfwordUnsigned(m, address)
    case LB => SignExtendByte(LoadByte(m, address))
    case LBU => LoadByte(m, address)
  }

  /** The value a load of rv32i_simulator_v1.py writes: `lh` extends the
      already extended halfword again, and `lhu` calls `load_halfword`. */
  function EarlyLoadValue(op: LoadOp, m: map<int, int>, address: int): int
  {
    match op
    case LW => LoadWord(m, address)
    case LH =>
      var halfword := LoadHalfwordEarly(m, address);
      if halfword < 0x8000 then halfword else Or(halfword, 0xFFFF_0000)
    case LHU => LoadHalfwordEarly(m, address)
    case LB => SignExtendByteEarly(LoadByte(m, address))
    case LBU => LoadByte(m, address)
  }

  /** The memory after `sw`, `sb` (`value & 0xFF`) or `sh` (`value & 0xFFFF`),
      the same in all three drafts. */
  function Stored(op: StoreOp, m: map<int, int>, address: int, value: int): (r: map<int, int>)
    ensures ValidBytes(m) ==> ValidBytes(r)
  {
    match op
    case SW => WordStored(m, address, value)
    case SB => ByteStored(m, address, Mask8(value))
    case SH => HalfwordStored(m, address, Mask16(value))
  }

  /** The value `lui`/`auipc` write in finalGUI/backend_gui.py and
      store_load.py; pc is the instruction index. */
  function UpperValue(op: UpperOp, imm: int, pc: int): int
  {
    match op
    case LUI => Mask32(Shl(imm, 12))
    case AUIPC => Mask32(pc + Shl(imm, 12))
  }

  // ---------------------------------------------------------------------
  // finalGUI/backend_gui.py: every result is a 32-bit pattern.

  /** Every ALU result of finalGUI/backend_gui.py lies in [0, 2^32). */
  lemma FinalAluRange(op: AluOp, x: int, y: int)
    ensures 0 <= FinalAlu(op, x, y) < TWO32
  {
    if op == SRL || op == SRLI {
      DivBounds(Mask32(x), Pow2(ShiftAmount(y)));
    }
  }

  /** On a 32-bit pattern the shifts use only the low five bits of the
      amount: SRL divides by 2^(y mod 32), and SRA divides the signed
      reading by it, rounding toward minus infinity. */
  lemma FinalShiftMeaning(x: int, y: int)
    requires 0 <= x < TWO32
    ensures FinalAlu(SRL, x, y) == FinalAlu(SRLI, x, y) == x / Pow2(y % 32)
    ensures FinalAlu(SLL, x, y) == FinalAlu(SLLI, x, y) == (x * Pow2(y % 32)) % TWO32
    ensures ToSigned32(FinalAlu(SRA, x, y)) == ToSigned32(FinalAlu(SRAI, x, y))
         == ToSigned32(x) / Pow2(y % 32)
  {
    ModOfSmall(x, TWO32);
    var t := ToSigned32(x);
    ToSigned32Range(x);
    var q := t / Pow2(y % 32);
    DivBounds(t, Pow2(y % 32));
    SignedRoundTrip(q);
  }

  /** On 32-bit patterns SLTU compares unsigned, and SLT compares the
      two's-complement readings: it agrees with SLTU when the sign bits
      agree and is the opposite of it when they differ. */
  lemma SetLessThanMeaning(x: int, y: int)
    requires 0 <= x < TWO32 && 0 <= y < TWO32
    ensures FinalAlu(SLTU, x, y) == (if x < y then 1 else 0)
    ensures (x >= 0x8000_0000) == (y >= 0x8000_0000) ==> FinalAlu(SLT, x, y) == FinalAlu(SLTU, x, y)
    ensures x >= 0x8000_0000 && y < 0x8000_0000 ==> FinalAlu(SLT, x, y) == 1 && FinalAlu(SLTU, x, y) == 0
    ensures x < 0x8000_0000 && y >= 0x8000_0000 ==> FinalAlu(SLT, x, y) == 0 && FinalAlu(SLTU, x, y) == 1
  {
    ModOfSmall(x, TWO32);
    ModOfSmall(y, TWO32);
    ToSigned32Range(x);
    ToSigned32Range(y);
  }

  /** SLTI with an immediate of the signed 32-bit range is SLT against the
      immediate's 32-bit pattern. */
  lemma SltiMatchesSlt(x: int, imm: int)
    requires -0x8000_0000 <= imm < 0x8000_0000
    ensures FinalAlu(SLTI, x, imm) == FinalAlu(SLT, x, Mask32(imm))
  {
    SignedRoundTrip(imm);
  }

  /** BLT and BGE compare stored 32-bit patterns as unsigned numbers, exactly
      like BLTU and BGEU, and so disagree with SLT on a negative operand. */
  lemma BranchesCompareUnsigned(x: int, y: int)
    requires 0 <= x < TWO32 && 0 <= y < TWO32
    ensures BranchTaken(BLT, x, y) == BranchTaken(BLTU, x, y) == (FinalAlu(SLTU, x, y) == 1)
    ensures BranchTaken(BGE, x, y) == BranchTaken(BGEU, x, y) == !BranchTaken(BLT, x, y)
    ensures x == MASK32 && y == 0 ==> FinalAlu(SLT, x, y) == 1 && !BranchTaken(BLT, x, y)
  {
    ModOfSmall(x, TWO32);
    ModOfSmall(y, TWO32);
    ToSigned32Range(x);
    ToSigned32Range(y);
  }

  /** LUI places the low 20 bits of the immediate in bits 12..31; AUIPC adds
      that to the instruction index, modulo 2^32. */
  lemma UpperMeaning(imm: int, pc: int)
    ensures UpperValue(LUI, imm, pc) == (imm % 0x10_0000) * 0x1000
    ensures UpperValue(AUIPC, imm, pc) == (pc + (imm % 0x10_0000) * 0x1000) % TWO32
  {
    Pow2Table();
    ScaledMod(imm, 0x1000, 0x10_0000);
    ModAddMultiple(pc + (imm % 0x10_0000) * 0x1000, imm / 0x10_0000, TWO32);
    assert pc + imm * 0x1000 == pc + (imm % 0x10_0000) * 0x1000 + (imm / 0x10_0000) * TWO32;
  }

  /** (x * p) mod (p * q) is (x mod q) * p. */
  lemma ScaledMod(x: int, p: int, q: int)
    requires p > 0 && q > 0
    ensures (x * p) % (p * q) == (x % q) * p
  {
    ModAddMultiple(0, x, p);
    assert 0 + x * p == x * p;
    DivModProduct(x * p, p, q);
  }

  // ---------------------------------------------------------------------
  // Loads and stores.

  /** On a byte memory every load gives a 32-bit pattern. */
  lemma LoadValueRange(op: LoadOp, m: map<int, int>, address: int)
    requires ValidBytes(m)
    ensures 0 <= LoadValue(op, m, address) < TWO32
  {
    match op
    case LW => WordValue(m, address);
    case LH => HalfwordSignExtension(m, address);
    case LHU => HalfwordValue(m, address);
    case LB => ByteSignExtension(LoadByte(m, address));
    case LBU =>
  }

  /** What a store leaves for the load of the same width at its address:
      the word mod 2^32, the halfword and byte mod 2^16 and 2^8 (unsigned),
      and their sign extensions for LH and LB. */
  lemma StoreThenLoad(m: map<int, int>, a: int, v: int)
    requires ValidBytes(m)
    ensures LoadValue(LW, Stored(SW, m, a, v), a) == v % TWO32
    ensures LoadValue(LHU, Stored(SH, m, a, v), a) == v % 0x1_0000
    ensures LoadValue(LH, Stored(SH, m, a, v), a)
         == (if v % 0x1_0000 >= 0x8000 then v % 0x1_0000 + 0xFFFF_0000 else v % 0x1_0000)
    ensures LoadValue(LBU, Stored(SB, m, a, v), a) == v % 0x100
    ensures LoadValue(LB, Stored(SB, m, a, v), a)
         == (if v % 0x100 >= 0x80 then v % 0x100 + 0xFFFF_FF00 else v % 0x100)
  {
    WordRoundTrip(m, a, v);
    HalfwordRoundTrip(m, a, Mask16(v));
    ModOfSmall(Mask16(v), 0x1_0000);
    ModOfSmall(Mask8(v), 0x100);
    ByteSignExtension(v % 0x100);
  }

  /** The number of bytes a store writes. */
  function StoreWidth(op: StoreOp): nat
  {
    match op
    case SW => 4
    case SH => 2
    case SB => 1
  }

  /** The unsigned load that reads back what a store wrote. */
  function ReadBack(op: StoreOp): LoadOp
  {
    match op
    case SW => LW
    case SH => LHU
    case SB => LBU
  }

  /** 2 to the number of bits a store writes. */
  function StoredRange(op: StoreOp): nat
  {
    match op
    case SW => TWO32
    case SH => 0x1_0000
    case SB => 0x100
  }

  /** w holds the cells of m and the n cells from a on, and agrees with m
      outside those n cells. */
  ghost predicate WrittenOnly(m: map<int, int>, w: map<int, int>, a: int, n: nat)
  {
    (forall b :: b in w <==> b in m || a <= b < a + n)
    && (forall b :: b in m && !(a <= b < a + n) ==> w[b] == m[b])
  }

  /** A store writes the cells from its address on, as many as it is wide,
      and no other. */
  lemma StoredFrame(op: StoreOp, m: map<int, int>, a: int, v: int)
    ensures WrittenOnly(m, Stored(op, m, a, v), a, StoreWidth(op))
  {
    if op == SW { WordStoredFrame(m, a, v); }
  }

  /** The unsigned load of a store's width reads the value's low bits back. */
  lemma StoredReadBack(op: StoreOp, m: map<int, int>, a: int, v: int)
    requires ValidBytes(m)
    ensures LoadValue(ReadBack(op), Stored(op, m, a, v), a) == v % StoredRange(op)
  {
    StoreThenLoad(m, a, v);
  }

  /** rv32i_simulator_v1.py's loads agree with the final draft's except that
      its LHU sign-extends like LH. */
  lemma EarlyLoadsAgree(op: LoadOp, m: map<int, int>, address: int)
    requires ValidBytes(m)
    ensures EarlyLoadValue(op, m, address) == LoadValue(if op == LHU then LH else op, m, address)
  {
    match op
    case LW =>
    case LH =>
      HalfwordEarlyAgrees(m, address);
      HalfwordSignExtension(m, address);
      HalfwordValue(m, address);
      var h := LoadHalfword(m, address);
      if h >= 0x8000 {
        assert h == LoadHalfwordUnsigned(m, address) + 0xFFFF_0000;
        Pow2Table();
        OrDisjoint(0xFFFF, LoadHalfwordUnsigned(m, address), 16);
        BitwiseShifted(OrOp, 0xFFFF, 0xFFFF, 16);
        OrSelf(0xFFFF);
        OrAssociates(LoadHalfwordUnsigned(m, address), 0xFFFF_0000);
      }
    case LHU => HalfwordEarlyAgrees(m, address);
    case LB => ByteSignExtension(LoadByte(m, address));
    case LBU =>
  }

  /** x | x == x. */
  lemma {:induction false} OrSelf(x: int)
    ensures Or(x, x) == x
    decreases Size(x)
  {
    if !(x == 0 || x == -1) {
      OrSelf(x / 2);
    }
  }

  /** Or-ing in a mask twice is or-ing it in once. */
  lemma {:induction false} OrAssociates(u: int, k: int)
    ensures Or(Or(u, k), k) == Or(u, k)
    decreases Size(u) + Size(k)
  {
    if !((u == 0 || u == -1) && (k == 0 || k == -1)) {
      BitwiseStep(OrOp, u, k);
      BitwiseStep(OrOp, Or(u, k), k);
      OrAssociates(u / 2, k / 2);
      assert Or(u, k) / 2 == Or(u / 2, k / 2);
      assert Or(u, k) % 2 == 1 <==> (u % 2 == 1 || k % 2 == 1);
    } else {
      OrSelf(k);
    }
  }

  /** rv32i_simulator_v1.py's LHU sign-extends: when the high byte is at
      least 0x80 it reads 0xFFFF0000 more than the final draft's LHU. */
  lemma EarlyLhuSignExtends(m: map<int, int>, address: int)
    requires ValidBytes(m) && LoadByte(m, address + 1) >= 0x80
    ensures EarlyLoadValue(LHU, m, address) == LoadValue(LHU, m, address) + 0xFFFF_0000
  {
    HalfwordEarlyAgrees(m, address);
    HalfwordSignExtension(m, address);
  }

  // ---------------------------------------------------------------------
  // store_load.py against finalGUI/backend_gui.py.

  /** store_load.py's hand-written SRA/SRAI equals the final draft's
      sign-propagating shift on every 32-bit pattern. */
  lemma StoreLoadSraAgrees(x: int, y: int)
    requires 0 <= x < TWO32
    ensures StoreLoadAlu(SRA, x, y) == FinalAlu(SRA, x, y)
    ensures StoreLoadAlu(SRAI, x, y) == FinalAlu(SRAI, x, y)
  {
    ManualSraMeaning(x, ShiftAmount(y));
  }

  /** The hand-written shift is the floor shift of the signed value,
      masked. */
  lemma ManualSraMeaning(x: int, s: nat)
    requires 0 <= x < TWO32 && s < 32
    ensures ManualSra(x, s) == Mask32(Shr(ToSigned32(x), s))
  {
    if BitSet(x, 31) {
      Pow2Word();
      Pow2Add(32 - s, s);
      SraNegative(x, 32 - s, s);
    }
  }

  /** For a pattern with bit 31 set the fill gives the shift of x - 2^32. */
  lemma SraNegative(x: int, k: nat, s: nat)
    requires 0 <= x < TWO32 && Pow2(k) * Pow2(s) == TWO32
    ensures Mask32(Or(Shr(x, s), Shl(MASK32, k))) == Mask32(Shr(x - TWO32, s))
  {
    var q := Shr(x, s);
    DivLess(x, Pow2(k), Pow2(s));
    assert 0 <= q < Pow2(k);
    SraFill(q, k);
    SraWraps(x, k, s);
  }

  /** Or-ing the fill `0xFFFFFFFF << k` above a k-bit value q puts 32 ones
      above q. */
  lemma SraFill(q: int, k: nat)
    requires 0 <= q < Pow2(k)
    ensures Or(q, Shl(MASK32, k)) == MASK32 * Pow2(k) + q
  {
    OrDisjoint(MASK32, q, k);
  }

  /** Masking the filled value gives the floor quotient of the negative
      value x - 2^32, masked. */
  lemma SraWraps(x: int, k: nat, s: nat)
    requires Pow2(k) * Pow2(s) == TWO32
    ensures (MASK32 * Pow2(k) + x / Pow2(s)) % TWO32 == ((x - TWO32) / Pow2(s)) % TWO32
  {
    var p, ps := Pow2(k), Pow2(s);
    var q := x / ps;
    assert MASK32 * p + q == (q - p) + p * TWO32;
    ModAddMultiple(q - p, p, TWO32);
    ModAddMultiple(x - TWO32, p, ps);
    assert x - TWO32 + p * ps == x;
  }

  /** x < a * b with b positive means x / b < a. */
  lemma DivLess(x: int, a: int, b: int)
    requires 0 <= x < a * b && b > 0
    ensures 0 <= x / b < a
  {
  }

  /** store_load.py's logic operations agree with the final draft's on
      32-bit operands, but keep Python's negative result when exactly one
      operand of XOR or at least one operand of OR is negative, as a
      negative immediate is. */
  lemma StoreLoadLogic(op: AluOp, x: int, y: int)
    requires op in {AND, ANDI, OR, ORI, XOR, XORI}
    ensures 0 <= x < TWO32 && 0 <= y < TWO32 ==> StoreLoadAlu(op, x, y) == FinalAlu(op, x, y)
    ensures 0 <= x && y < 0 && op in {OR, ORI, XOR, XORI} ==> StoreLoadAlu(op, x, y) < 0
  {
    Pow2Table();
    var b := match op
      case AND | ANDI => AndOp
      case OR | ORI => OrOp
      case _ => XorOp;
    assert StoreLoadAlu(op, x, y) == Bitwise(b, x, y);
    BitwiseSign(b, x, y);
    if 0 <= x < TWO32 && 0 <= y < TWO32 {
      BitwiseBound(b, x, y, 32);
      ModOfSmall(Bitwise(b, x, y), TWO32);
    }
  }

  /** store_load.py's SLT compares 32-bit patterns unsigned, like SLTU, and
      its SLTI is 0 for a non-negative register and a negative immediate. */
  lemma StoreLoadSltUnsigned(x: int, y: int)
    requires 0 <= x < TWO32 && 0 <= y < TWO32
    ensures StoreLoadAlu(SLT, x, y) == FinalAlu(SLTU, x, y)
    ensures forall imm :: imm < 0 ==> StoreLoadAlu(SLTI, x, imm) == 0
  {
    ModOfSmall(x, TWO32);
    ModOfSmall(y, TWO32);
  }

  // ---------------------------------------------------------------------
  // rv32i_simulator_v1.py against finalGUI/backend_gui.py.

  /** Apart from the signed comparisons and the arithmetic shifts, the final
      draft's ALU is the early one's with the result masked to 32 bits. */
  lemma EarlyMasking(op: AluOp, x: int, y: int)
    requires op !in {SLT, SLTI, SRA, SRAI}
    ensures FinalAlu(op, x, y) == Mask32(EarlyAlu(op, x, y))
  {
    FinalAluRange(op, x, y);
    ModOfSmall(FinalAlu(op, x, y), TWO32);
  }

  /** rv32i_simulator_v1.py's SRA is Python's `>>` on the stored value, so on
      a 32-bit pattern it is the logical shift SRL; and its ADD and SUB leave
      the 32-bit range. */
  lemma EarlySraLogical(x: int, y: int)
    requires 0 <= x < TWO32
    ensures EarlyAlu(SRA, x, y) == EarlyAlu(SRL, x, y) == FinalAlu(SRL, x, y)
    ensures x == MASK32 ==> EarlyAlu(ADD, x, 1) == TWO32 && EarlyAlu(SUB, 0, x) == 1 - TWO32
  {
    ModOfSmall(x, TWO32);
  }
}
