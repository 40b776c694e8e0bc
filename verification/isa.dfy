/** The instruction vocabulary shared by the three simulator drafts: the
    mnemonics their splitters recognise, grouped the way their dispatch code
    groups them, and the ways an instruction or a run can end. */
module Isa {
  import opened Wrappers

  /** Register-register and register-immediate operations, one per Python
      function (`add`, `sub`, `addi`, …, `and_`). */
  datatype AluOp =
    | ADD | SUB | SLT | SLTU | XOR | OR | AND | SLL | SRL | SRA
    | ADDI | ANDI | ORI | XORI | SLTI | SLTIU | SLLI | SRLI | SRAI

  datatype BranchOp = BEQ | BNE | BLT | BGE | BLTU | BGEU

  datatype LoadOp = LW | LH | LHU | LB | LBU

  datatype StoreOp = SW | SB | SH

  datatype UpperOp = LUI | AUIPC

  datatype SystemOp = ECALL | EBREAK | FENCE | FENCE_TSO | PAUSE | HALT

  datatype Mnemonic =
    | Alu(alu: AluOp)
    | Branch(branch: BranchOp)
    | Load(load: LoadOp)
    | Store(store: StoreOp)
    | Upper(upper: UpperOp)
    | JAL
    | JALR
    | System(system: SystemOp)

  /** The immediate forms take their second operand from the instruction
      rather than from a register. */
  predicate IsImmediate(op: AluOp)
  {
    match op
    case ADDI | ANDI | ORI | XORI | SLTI | SLTIU | SLLI | SRLI | SRAI => true
    case _ => false
  }

  function AluName(op: AluOp): string
  {
    match op
    case ADD => "ADD"   case SUB => "SUB"   case SLT => "SLT"   case SLTU => "SLTU"
    case XOR => "XOR"   case OR => "OR"     case AND => "AND"   case SLL => "SLL"
    case SRL => "SRL"   case SRA => "SRA"   case ADDI => "ADDI" case ANDI => "ANDI"
    case ORI => "ORI"   case XORI => "XORI" case SLTI => "SLTI" case SLTIU => "SLTIU"
    case SLLI => "SLLI" case SRLI => "SRLI" case SRAI => "SRAI"
  }

  function BranchName(op: BranchOp): string
  {
    match op
    case BEQ => "BEQ" case BNE => "BNE" case BLT => "BLT"
    case BGE => "BGE" case BLTU => "BLTU" case BGEU => "BGEU"
  }

  function LoadName(op: LoadOp): string
  {
    match op
    case LW => "LW" case LH => "LH" case LHU => "LHU" case LB => "LB" case LBU => "LBU"
  }

  function StoreName(op: StoreOp): string
  {
    match op
    case SW => "SW" case SB => "SB" case SH => "SH"
  }

  function SystemName(op: SystemOp): string
  {
    match op
    case ECALL => "ECALL" case EBREAK => "EBREAK" case FENCE => "FENCE"
    case FENCE_TSO => "FENCE.TSO" case PAUSE => "PAUSE" case HALT => "HALT"
  }

  /** The upper-case spelling the splitters compare against. */
  function Name(m: Mnemonic): string
  {
    match m
    case Alu(op) => AluName(op)
    case Branch(op) => BranchName(op)
    case Load(op) => LoadName(op)
    case Store(op) => StoreName(op)
    case Upper(op) => if op == LUI then "LUI" else "AUIPC"
    case JAL => "JAL"
    case JALR => "JALR"
    case System(op) => SystemName(op)
  }

  /** Every mnemonic any of the drafts knows. */
  const Mnemonics: seq<Mnemonic> := [
    Alu(ADD), Alu(SUB), Alu(SLT), Alu(SLTU), Alu(XOR), Alu(OR), Alu(AND),
    Alu(SLL), Alu(SRL), Alu(SRA), Alu(ADDI), Alu(ANDI), Alu(ORI), Alu(XORI),
    Alu(SLTI), Alu(SLTIU), Alu(SLLI), Alu(SRLI), Alu(SRAI),
    Branch(BEQ), Branch(BNE), Branch(BLT), Branch(BGE), Branch(BLTU), Branch(BGEU),
    Load(LW), Load(LH), Load(LHU), Load(LB), Load(LBU),
    Store(SW), Store(SB), Store(SH),
    Upper(LUI), Upper(AUIPC), JAL, JALR,
    System(ECALL), System(EBREAK), System(FENCE), System(FENCE_TSO), System(PAUSE), System(HALT)
  ]

  /** The first mnemonic in the list whose name is the given text. */
  function Find(name: string, ms: seq<Mnemonic>): (r: Option<Mnemonic>)
    ensures r.Some? ==> r.value in ms && Name(r.value) == name
    ensures r.None? ==> forall m :: m in ms ==> Name(m) != name
  {
    if ms == [] then None
    else if Name(ms[0]) == name then Some(ms[0])
    else Find(name, ms[1..])
  }

  /** The mnemonic an upper-cased opcode names, if any. */
  function Lookup(name: string): Option<Mnemonic>
  {
    Find(name, Mnemonics)
  }

  /** Distinct mnemonics are spelled differently. */
  lemma NamesDistinct(m: Mnemonic, n: Mnemonic)
    requires Name(m) == Name(n)
    ensures m == n
  {
  }

  lemma AllListed(m: Mnemonic)
    ensures m in Mnemonics
  {
    match m
    case Alu(op) =>
      match op {
      case ADD => assert Mnemonics[0] == m;
      case SUB => assert Mnemonics[1] == m;
      case SLT => assert Mnemonics[2] == m;
      case SLTU => assert Mnemonics[3] == m;
      case XOR => assert Mnemonics[4] == m;
      case OR => assert Mnemonics[5] == m;
      case AND => assert Mnemonics[6] == m;
      case SLL => assert Mnemonics[7] == m;
      case SRL => assert Mnemonics[8] == m;
      case SRA => assert Mnemonics[9] == m;
      case ADDI => assert Mnemonics[10] == m;
      case ANDI => assert Mnemonics[11] == m;
      case ORI => assert Mnemonics[12] == m;
      case XORI => assert Mnemonics[13] == m;
      case SLTI => assert Mnemonics[14] == m;
      case SLTIU => assert Mnemonics[15] == m;
      case SLLI => assert Mnemonics[16] == m;
      case SRLI => assert Mnemonics[17] == m;
      case SRAI => assert Mnemonics[18] == m;
      }
    case Branch(op) =>
      match op {
      case BEQ => assert Mnemonics[19] == m;
      case BNE => assert Mnemonics[20] == m;
      case BLT => assert Mnemonics[21] == m;
      case BGE => assert Mnemonics[22] == m;
      case BLTU => assert Mnemonics[23] == m;
      case BGEU => assert Mnemonics[24] == m;
      }
    case Load(op) =>
      match op {
      case LW => assert Mnemonics[25] == m;
      case LH => assert Mnemonics[26] == m;
      case LHU => assert Mnemonics[27] == m;
      case LB => assert Mnemonics[28] == m;
      case LBU => assert Mnemonics[29] == m;
      }
    case Store(op) =>
      match op {
      case SW => assert Mnemonics[30] == m;
      case SB => assert Mnemonics[31] == m;
      case SH => assert Mnemonics[32] == m;
      }
    case Upper(op) =>
      match op {
      case LUI => assert Mnemonics[33] == m;
      case AUIPC => assert Mnemonics[34] == m;
      }
    case JAL => assert Mnemonics[35] == m;
    case JALR => assert Mnemonics[36] == m;
    case System(op) =>
      match op {
      case ECALL => assert Mnemonics[37] == m;
      case EBREAK => assert Mnemonics[38] == m;
      case FENCE => assert Mnemonics[39] == m;
      case FENCE_TSO => assert Mnemonics[40] == m;
      case PAUSE => assert Mnemonics[41] == m;
      case HALT => assert Mnemonics[42] == m;
      }
  }

  /** Looking up a mnemonic's own name finds that mnemonic. */
  lemma LookupName(m: Mnemonic)
    ensures Lookup(Name(m)) == Some(m)
  {
    AllListed(m);
    var r := Lookup(Name(m));
    if r.Some? {
      NamesDistinct(r.value, m);
    }
  }

  // ---------------------------------------------------------------------
  // How things end.

  /** The Python exceptions the simulators can raise. */
  datatype PyError = TypeError | ValueError | IndexError

  /** How one instruction, one loop iteration or a whole run ends:
      normally, by an uncaught exception, or by `sys.exit(code)`. */
  datatype Outcome = Normal | Raised(error: PyError) | Exited(code: int)
}
