/** The instruction functions and the `main` loop of rv32i_simulator_v1.py,
    as functions of the module state before the call. Registers are a
    Python list read with Python's indexing, so a register number from -32
    to 31 names a register and any other raises IndexError; nothing resets
    x0. The branch functions consult the module-level `labels` dictionary,
    while `main` fills a dictionary of its own that maps each label to the
    index of its line, and the program counter indexes the file's lines. */
module EarlyMachine {
  import opened Wrappers
  import opened PyInt
  import opened Isa
  import opened Memory
  import opened Semantics
  import opened Parser
  import opened Labels
  import opened EarlyParser
  import Machine

  /** The module-level variables: `registers`, `program_counter`, `memory`
      and the `labels` dictionary that `register_labels` fills. */
  datatype State = State(registers: seq<int>, pc: int, memory: map<int, int>, labels: map<string, int>)

  /** How an iteration of the loop ends: it goes on, `break` leaves the
      loop, or an exception escapes. */
  datatype Flow = Next | Break | Fault(error: PyError)

  datatype Result = Result(state: State, flow: Flow)

  /** A register number that Python's list indexing accepts. */
  predicate Indexable(r: int)
  {
    -32 <= r < 32
  }

  /** The list slot a register number names: a negative one counts from
      the end, so -32 is x0. */
  function Slot(r: int): (k: int)
    requires Indexable(r)
    ensures 0 <= k < 32 && (k == r || k == r + 32)
  {
    if r < 0 then r + 32 else r
  }

  function Reg(s: State, r: int): int
    requires |s.registers| == 32 && Indexable(r)
  {
    s.registers[Slot(r)]
  }

  /** `registers[r] = v`. */
  function Write(s: State, r: int, v: int): (t: State)
    requires |s.registers| == 32 && Indexable(r)
    ensures |t.registers| == 32 && t.registers[Slot(r)] == v
    ensures forall k :: 0 <= k < 32 && k != Slot(r) ==> t.registers[k] == s.registers[k]
    ensures t.pc == s.pc && t.memory == s.memory && t.labels == s.labels
  {
    s.(registers := s.registers[Slot(r) := v])
  }

  // ---------------------------------------------------------------------
  // The instruction functions.

  /** The second operand of an ALU function, or the error that reading or
      using it raises. */
  datatype Operand = Value(v: int) | Fails(error: PyError)

  /** The ALU functions that do nothing when rd is 0; `addi`, `slti`,
      `sltiu`, `sltu`, `xor`, `or_` and `and_` write rd whatever it is. */
  predicate Guarded(op: AluOp)
  {
    op in {ADD, SUB, SLT, SLL, SRL, SRA, ANDI, ORI, XORI}
  }

  /** The second operand as `main` passes it: `registers[rs2]` for the
      register-register operations, otherwise the immediate, which the
      splitter leaves as text when it is not all digits, and which then
      makes the arithmetic raise TypeError. */
  function SecondOperand(s: State, op: AluOp, rs2: Option<int>, imm: Arg): (y: Operand)
    requires |s.registers| == 32
    ensures y.Fails? ==> y.error == (if IsImmediate(op) then TypeError else IndexError)
  {
    if IsImmediate(op) then
      (if imm.Number? then Value(imm.n) else Fails(TypeError))
    else if rs2.Some? && Indexable(rs2.value) then Value(Reg(s, rs2.value))
    else Fails(IndexError)
  }

  /** An ALU function: the rd guard, then `registers[rs1]`, then the second
      operand and the operation, then the assignment to `registers[rd]`. */
  function ExecAlu(op: AluOp, s: State, rd: int, rs1: int, y: Operand): (r: Result)
    requires |s.registers| == 32
    ensures |r.state.registers| == 32 && r.state.pc == s.pc
    ensures r.state.memory == s.memory && r.state.labels == s.labels
    ensures r.flow != Break
  {
    if Guarded(op) && rd == 0 then Result(s, Next)
    else if !Indexable(rs1) then Result(s, Fault(IndexError))
    else
      match y
      case Fails(e) => Result(s, Fault(e))
      case Value(v) =>
        if !Indexable(rd) then Result(s, Fault(IndexError))
        else Result(Write(s, rd, EarlyAlu(op, Reg(s, rs1), v)), Next)
  }

  /** A branch function, returning the new state and whether it reports the
      branch as taken. `beq` jumps to the module-level label and reports
      false when it is missing; the others set the PC with
      `labels.get(target_label, program_counter)` and report true. */
  function ExecBranch(op: BranchOp, s: State, rs1: int, rs2: int, name: string): (r: (Result, bool))
    requires |s.registers| == 32
    ensures r.0.state.registers == s.registers && r.0.state.memory == s.memory && r.0.state.labels == s.labels
    ensures r.0.flow != Break && (r.0.flow.Fault? ==> r.0.flow.error == IndexError && !r.1)
    ensures r.0.state.pc != s.pc ==> r.1 && name in s.labels && r.0.state.pc == s.labels[name]
  {
    if !Indexable(rs1) || !Indexable(rs2) then (Result(s, Fault(IndexError)), false)
    else if !BranchTaken(op, Reg(s, rs1), Reg(s, rs2)) then (Result(s, Next), false)
    else if op == BEQ then
      (if name in s.labels then (Result(s.(pc := s.labels[name]), Next), true) else (Result(s, Next), false))
    else (Result(s.(pc := if name in s.labels then s.labels[name] else s.pc), Next), true)
  }

  /** A load function: with rd or rs1 outside 0..31 it prints an error and
      returns; otherwise `registers[rd]` (x0 included) receives the value
      at `registers[rs1] + offset`. */
  function ExecLoad(op: LoadOp, s: State, rd: int, rs1: int, offset: int): (r: Result)
    requires |s.registers| == 32
    ensures r.flow == Next && r.state.pc == s.pc && r.state.memory == s.memory && r.state.labels == s.labels
    ensures |r.state.registers| == 32
  {
    if 0 <= rd < 32 && 0 <= rs1 < 32 then
      Result(Write(s, rd, EarlyLoadValue(op, s.memory, s.registers[rs1] + offset)), Next)
    else Result(s, Next)
  }

  /** A store function `sw(rs1, offset, rs2)`: with a register outside
      0..31 it prints an error and returns; otherwise it stores
      `registers[rs1]` at `registers[rs2] + offset`. */
  function ExecStore(op: StoreOp, s: State, rs1: int, offset: int, rs2: int): (r: Result)
    requires |s.registers| == 32
    ensures r.flow == Next && r.state.pc == s.pc && r.state.registers == s.registers && r.state.labels == s.labels
    ensures ValidBytes(s.memory) ==> ValidBytes(r.state.memory)
  {
    if 0 <= rs1 < 32 && 0 <= rs2 < 32 then
      Result(s.(memory := Stored(op, s.memory, s.registers[rs2] + offset, s.registers[rs1])), Next)
    else Result(s, Next)
  }

  /** `if rd != 0: registers[rd] = program_counter + 1`. */
  function Link(s: State, rd: int): (t: State)
    requires |s.registers| == 32 && Indexable(rd)
    ensures |t.registers| == 32 && t.pc == s.pc && t.memory == s.memory && t.labels == s.labels
  {
    if rd != 0 then Write(s, rd, s.pc + 1) else s
  }

  /** `jal(rd, target)` with the integer target `main` passes. */
  function ExecJal(s: State, rd: int, target: int): (r: Result)
    requires |s.registers| == 32
    ensures |r.state.registers| == 32 && r.state.memory == s.memory && r.state.labels == s.labels
    ensures r.flow == Next <==> rd == 0 || Indexable(rd)
    ensures r.flow == Next ==> r.state.pc == target
    ensures r.flow.Fault? ==> r.flow.error == IndexError && r.state == s
  {
    if rd != 0 && !Indexable(rd) then Result(s, Fault(IndexError))
    else Result(Link(s, rd).(pc := target), Next)
  }

  /** `jalr(rd, rs1, offset)`: the link is written before
      `(registers[rs1] + offset) & ~1` is computed, so it survives an
      exception there; nothing checks the target. */
  function ExecJalr(s: State, rd: int, rs1: int, offset: Arg): (r: Result)
    requires |s.registers| == 32
    ensures |r.state.registers| == 32 && r.state.memory == s.memory && r.state.labels == s.labels
    ensures r.flow != Break
  {
    if rd != 0 && !Indexable(rd) then Result(s, Fault(IndexError))
    else
      var t := Link(s, rd);
      if !Indexable(rs1) then Result(t, Fault(IndexError))
      else if !offset.Number? then Result(t, Fault(TypeError))
      else Result(t.(pc := And(Reg(t, rs1) + offset.n, -2)), Next)
  }

  /** The value `lui(rd, imm)` and `auipc(rd, imm)` would write: nothing
      is masked. */
  function UpperEarly(op: UpperOp, imm: int, pc: int): int
  {
    match op
    case LUI => Shl(imm, 12)
    case AUIPC => pc + Shl(imm, 12)
  }

  /** `lui(rd, imm)` / `auipc(rd, imm)` called with their two arguments. */
  function ExecUpper(op: UpperOp, s: State, rd: int, imm: int): (r: Result)
    requires |s.registers| == 32
    ensures |r.state.registers| == 32 && r.state.pc == s.pc && r.state.memory == s.memory
    ensures r.flow == Next <==> Indexable(rd)
  {
    if Indexable(rd) then Result(Write(s, rd, UpperEarly(op, imm, s.pc)), Next)
    else Result(s, Fault(IndexError))
  }

  // ---------------------------------------------------------------------
  // The loop of `main`.

  /** `program_counter += 1` after a call that returned. */
  function Advance(r: Result): (a: Result)
    ensures a.state.registers == r.state.registers && a.state.memory == r.state.memory
    ensures a.state.labels == r.state.labels && a.flow == r.flow
    ensures a.state.pc == if r.flow == Next then r.state.pc + 1 else r.state.pc
  {
    if r.flow == Next then Result(r.state.(pc := r.state.pc + 1), Next) else r
  }

  /** The dispatch of `main` for a split instruction, L being the label
      dictionary of `main`. After a taken branch the PC is the label's line
      plus one if `main` knows the label and is left as the branch function
      set it otherwise; JAL to a label `main` does not know leaves the loop;
      JAL and JALR skip the increment; LUI and AUIPC reach the final
      `instructions[opcode](rd, rs1, rs2)`, which passes three arguments to
      a function of two and raises TypeError. */
  function Dispatch(L: map<string, int>, s: State, i: Instr): (r: Result)
    requires |s.registers| == 32 && EarlyShaped(i)
    ensures |r.state.registers| == 32 && r.state.labels == s.labels
    ensures ValidBytes(s.memory) ==> ValidBytes(r.state.memory)
  {
    if i.op.Branch? then
      var (b, taken) := ExecBranch(i.op.branch, s, i.rs1.value, i.rs2.value, i.arg.s);
      if b.flow != Next then b
      else if !taken then Advance(b)
      else if i.arg.s in L then Result(b.state.(pc := L[i.arg.s] + 1), Next)
      else b
    else if i.op.Alu? then
      Advance(ExecAlu(i.op.alu, s, i.rd.value, i.rs1.value, SecondOperand(s, i.op.alu, i.rs2, i.arg)))
    else if i.op.Load? then Advance(ExecLoad(i.op.load, s, i.rd.value, i.rs1.value, i.arg.n))
    else if i.op.Store? then Advance(ExecStore(i.op.store, s, i.rs1.value, i.arg.n, i.rs2.value))
    else if i.op == JAL then
      (if i.arg.s in L then ExecJal(s, i.rd.value, L[i.arg.s]) else Result(s, Break))
    else if i.op == JALR then ExecJalr(s, i.rd.value, i.rs1.value, i.arg)
    else Result(s, Fault(TypeError))
  }

  /** What the loop does with a line: blank lines, comments, label lines
      and lines the splitter rejects are all skipped, which the splitting
      Rejected stands for. */
  function Fetch(line: string): (r: Splitting)
    ensures r.Decoded? ==> EarlyShaped(r.instr)
    ensures Classify(line).Instruction? ==> r == EarlySplit(Classify(line).text)
  {
    match Classify(line)
    case Instruction(l) => EarlySplit(l)
    case _ => Rejected
  }

  /** Every decoded entry of a table has the shape its splitter gives. */
  predicate Shapes(code: seq<Splitting>)
  {
    forall k :: 0 <= k < |code| && code[k].Decoded? ==> EarlyShaped(code[k].instr)
  }

  /** The fetch of every line, in order. */
  function EarlyDecode(lines: seq<string>): (code: seq<Splitting>)
    ensures |code| == |lines| && Shapes(code)
    decreases |lines|
  {
    if lines == [] then [] else EarlyDecode(lines[..|lines| - 1]) + [Fetch(lines[|lines| - 1])]
  }

  lemma {:induction false} EarlyDecodeAt(lines: seq<string>, k: int)
    requires 0 <= k < |lines|
    ensures EarlyDecode(lines)[k] == Fetch(lines[k])
    decreases |lines|
  {
    if k < |lines| - 1 {
      EarlyDecodeAt(lines[..|lines| - 1], k);
    }
  }

  /** code holds the fetch of each line of lines, entry by entry. */
  predicate Tabulates(lines: seq<string>, code: seq<Splitting>)
  {
    |code| == |lines| && forall k {:trigger lines[k]} :: 0 <= k < |lines| ==> code[k] == Fetch(lines[k])
  }

  lemma EarlyDecodeTabulates(lines: seq<string>)
    ensures Tabulates(lines, EarlyDecode(lines))
  {
    forall k | 0 <= k < |lines|
      ensures EarlyDecode(lines)[k] == Fetch(lines[k])
    {
      EarlyDecodeAt(lines, k);
    }
  }

  /** `instruction_lines[program_counter]` for a PC below the length: a
      negative PC counts from the end. */
  function LineIndex(pc: int, n: nat): (k: int)
    requires -(n as int) <= pc < n
    ensures 0 <= k < n && (k == pc || k == pc + n)
  {
    if pc < 0 then pc + n else pc
  }

  /** One iteration of the loop, code being the fetch of each line. */
  function Step(L: map<string, int>, code: seq<Splitting>, s: State): (r: Result)
    requires Shapes(code) && |s.registers| == 32 && s.pc < |code|
    ensures |r.state.registers| == 32 && r.state.labels == s.labels
  {
    if s.pc < -|code| then Result(s, Fault(IndexError))
    else
      match code[LineIndex(s.pc, |code|)]
      case Rejected => Result(s.(pc := s.pc + 1), Next)
      case Crashed(e) => Result(s, Fault(e))
      case Decoded(i) => Dispatch(L, s, i)
  }

  /** How a run ends: the loop condition failed, `break` or an exception,
      or the fuel ran out while the loop would go on. */
  datatype Run = Finished(state: State, flow: Flow) | OutOfFuel(state: State)

  /** `while program_counter < len(instruction_lines)`, for at most fuel
      iterations. */
  function RunLoop(L: map<string, int>, code: seq<Splitting>, s: State, fuel: nat): (r: Run)
    requires Shapes(code) && |s.registers| == 32
    ensures |r.state.registers| == 32 && r.state.labels == s.labels
    ensures r.Finished? && r.flow == Next ==> r.state.pc >= |code|
    ensures r.OutOfFuel? ==> r.state.pc < |code|
    decreases fuel
  {
    if s.pc >= |code| then Finished(s, Next)
    else if fuel == 0 then OutOfFuel(s)
    else
      var r := Step(L, code, s);
      if r.flow != Next then Finished(r.state, r.flow)
      else RunLoop(L, code, r.state, fuel - 1)
  }

  /** `main` after `user_input`: the label pass over the lines, then the
      loop from the starting PC with the registers at zero, the memory the
      memory file left and the module-level labels empty. */
  function MainEarly(lines: seq<string>, memory: map<int, int>, startingPc: int, fuel: nat): Run
  {
    RunLoop(LineNumberLabels(Kinds(lines)), EarlyDecode(lines), State(Machine.Zeros, startingPc, memory, map[]), fuel)
  }

  // ---------------------------------------------------------------------
  // What one instruction does.

  /** An ALU function with a guard and rd = 0 changes nothing; otherwise it
      either raises, leaving the state alone, or writes the unmasked value
      into the slot rd names and nothing else. */
  lemma EarlyAluEffect(op: AluOp, s: State, rd: int, rs1: int, y: Operand)
    requires |s.registers| == 32
    ensures var r := ExecAlu(op, s, rd, rs1, y);
      (r.flow == Next <==> (Guarded(op) && rd == 0) || (Indexable(rs1) && y.Value? && Indexable(rd)))
      && (Guarded(op) && rd == 0 ==> r.state == s)
      && (r.flow.Fault? ==> r.state == s && (r.flow.error == IndexError || y == Fails(r.flow.error)))
      && (r.flow == Next && !(Guarded(op) && rd == 0) ==>
            r.state == s.(registers := s.registers[Slot(rd) := EarlyAlu(op, Reg(s, rs1), y.v)]))
  {
  }

  /** Nothing keeps x0 at zero: `ADDI x0, xN, imm` reads back from its
      text and writes x0, since `addi` has no rd guard. */
  lemma AddiWritesX0(L: map<string, int>, s: State, rs1: nat, imm: nat)
    requires |s.registers| == 32 && rs1 < 32
    ensures var i := Instr(Alu(ADDI), Some(0), Some(rs1), None, Number(imm));
      EarlySplit(Render(i)) == Decoded(i)
      && Dispatch(L, s, i) == Result(s.(registers := s.registers[0 := s.registers[rs1] + imm], pc := s.pc + 1), Next)
  {
    var i := Instr(Alu(ADDI), Some(0), Some(rs1), None, Number(imm));
    assert EarlyCanonical(i);
    EarlyRenderRoundTrip(i);
    AddiDispatch(L, s, rs1, imm);
  }

  /** `addi` writes rd even when it is 0. */
  lemma AddiDispatch(L: map<string, int>, s: State, rs1: nat, imm: int)
    requires |s.registers| == 32 && rs1 < 32
    ensures Dispatch(L, s, Instr(Alu(ADDI), Some(0), Some(rs1), None, Number(imm)))
      == Result(s.(registers := s.registers[0 := s.registers[rs1] + imm], pc := s.pc + 1), Next)
  {
    assert !Guarded(ADDI);
    assert Reg(s, rs1) == s.registers[rs1];
  }

  /** Register -32 names x0, so a guarded operation writes x0 through it. */
  lemma MinusThirtyTwoIsX0(L: map<string, int>, s: State, rs1: int, rs2: int)
    requires |s.registers| == 32 && 0 <= rs1 < 32 && 0 <= rs2 < 32
    ensures Dispatch(L, s, Instr(Alu(ADD), Some(-32), Some(rs1), Some(rs2), Missing))
      == Result(s.(registers := s.registers[0 := s.registers[rs1] + s.registers[rs2]], pc := s.pc + 1), Next)
  {
  }

  /** With the module-level dictionary empty, as it is throughout `main`,
      `beq` never jumps: equal or not, the loop moves to the next line. */
  lemma BeqNeverTaken(L: map<string, int>, s: State, i: Instr)
    requires |s.registers| == 32 && EarlyShaped(i) && i.op == Branch(BEQ) && s.labels == map[]
    requires Indexable(i.rs1.value) && Indexable(i.rs2.value)
    ensures Dispatch(L, s, i) == Result(s.(pc := s.pc + 1), Next)
  {
  }

  /** Any other branch whose condition holds reports itself taken and
      leaves the PC alone; `main` then moves to the line after the label
      when it knows the label and otherwise leaves the state as it was. */
  lemma TakenBranchTargets(L: map<string, int>, s: State, i: Instr)
    requires |s.registers| == 32 && EarlyShaped(i) && i.op.Branch? && i.op != Branch(BEQ) && s.labels == map[]
    requires Indexable(i.rs1.value) && Indexable(i.rs2.value)
    requires BranchTaken(i.op.branch, Reg(s, i.rs1.value), Reg(s, i.rs2.value))
    ensures Dispatch(L, s, i) == if i.arg.s in L then Result(s.(pc := L[i.arg.s] + 1), Next) else Result(s, Next)
  {
  }

  /** A branch whose condition fails moves to the next line. */
  lemma UntakenBranchAdvances(L: map<string, int>, s: State, i: Instr)
    requires |s.registers| == 32 && EarlyShaped(i) && i.op.Branch?
    requires Indexable(i.rs1.value) && Indexable(i.rs2.value)
    requires !BranchTaken(i.op.branch, Reg(s, i.rs1.value), Reg(s, i.rs2.value))
    ensures Dispatch(L, s, i) == Result(s.(pc := s.pc + 1), Next)
  {
  }

  /** An iteration that leaves the state as it was repeats for ever. */
  lemma {:induction false} FixpointExhausts(L: map<string, int>, code: seq<Splitting>, s: State, fuel: nat)
    requires Shapes(code) && |s.registers| == 32 && s.pc < |code|
    requires Step(L, code, s) == Result(s, Next)
    ensures RunLoop(L, code, s, fuel) == OutOfFuel(s)
    decreases fuel
  {
    if fuel > 0 {
      FixpointExhausts(L, code, s, fuel - 1);
    }
  }

  /** A taken branch other than BEQ to a label that is not in the file
      hangs the loop: no amount of fuel ends it. */
  lemma UnknownLabelHangs(lines: seq<string>, s: State, i: Instr, fuel: nat)
    requires |s.registers| == 32 && s.labels == map[] && -|lines| <= s.pc < |lines|
    requires Fetch(lines[LineIndex(s.pc, |lines|)]) == Decoded(i)
    requires i.op.Branch? && i.op != Branch(BEQ) && Indexable(i.rs1.value) && Indexable(i.rs2.value)
    requires BranchTaken(i.op.branch, Reg(s, i.rs1.value), Reg(s, i.rs2.value))
    requires i.arg.s !in LineNumberLabels(Kinds(lines))
    ensures RunLoop(LineNumberLabels(Kinds(lines)), EarlyDecode(lines), s, fuel) == OutOfFuel(s)
  {
    var L, code := LineNumberLabels(Kinds(lines)), EarlyDecode(lines);
    EarlyDecodeAt(lines, LineIndex(s.pc, |lines|));
    TakenBranchTargets(L, s, i);
    FixpointExhausts(L, code, s, fuel);
  }

  /** A load with both registers in 0..31 writes the slot of rd, x0
      included; with either outside it changes nothing. */
  lemma LoadEffect(L: map<string, int>, s: State, i: Instr)
    requires |s.registers| == 32 && EarlyShaped(i) && i.op.Load?
    ensures var rd, rs1 := i.rd.value, i.rs1.value;
      Dispatch(L, s, i) == Result(s.(registers := if 0 <= rd < 32 && 0 <= rs1 < 32
        then s.registers[rd := EarlyLoadValue(i.op.load, s.memory, s.registers[rs1] + i.arg.n)]
        else s.registers, pc := s.pc + 1), Next)
  {
  }

  /** The stores take their operands the wrong way round: `SW xa, n(xb)`
      reads back as itself, and then stores the value of xb at the address
      `xa + n`, where RISC-V stores xa at `xb + n`. */
  lemma StoresSwapped(L: map<string, int>, s: State, op: StoreOp, reg: nat, offset: int, base: nat)
    requires |s.registers| == 32 && reg < 32 && base < 32
    ensures var i := Instr(Store(op), None, Some(base), Some(reg), Number(offset));
      Render(i) == Line(Name(Store(op)), [RegisterName(reg), OffsetOperand(offset, base)])
      && EarlySplit(Render(i)) == Decoded(i)
      && Dispatch(L, s, i) == Result(s.(memory := Stored(op, s.memory, s.registers[reg] + offset, s.registers[base]),
                                        pc := s.pc + 1), Next)
  {
    StoreRoundTrip(op, reg, offset, base);
    StoreSwapDispatch(L, s, op, reg, offset, base);
  }

  lemma StoreSwapDispatch(L: map<string, int>, s: State, op: StoreOp, reg: nat, offset: int, base: nat)
    requires |s.registers| == 32 && reg < 32 && base < 32
    ensures Dispatch(L, s, Instr(Store(op), None, Some(base), Some(reg), Number(offset)))
      == Result(s.(memory := Stored(op, s.memory, s.registers[reg] + offset, s.registers[base]), pc := s.pc + 1), Next)
  {
    StoreDispatch(L, s, Instr(Store(op), None, Some(base), Some(reg), Number(offset)));
  }

  lemma StoreRoundTrip(op: StoreOp, reg: nat, offset: int, base: nat)
    requires reg < 32 && base < 32
    ensures var i := Instr(Store(op), None, Some(base), Some(reg), Number(offset));
      Render(i) == Line(Name(Store(op)), [RegisterName(reg), OffsetOperand(offset, base)])
      && EarlySplit(Render(i)) == Decoded(i)
  {
    var i := Instr(Store(op), None, Some(base), Some(reg), Number(offset));
    assert EarlyCanonical(i);
    EarlyRenderRoundTrip(i);
  }

  /** A store with both registers in 0..31 writes the value of the base
      register at the address computed from the other one. */
  lemma StoreDispatch(L: map<string, int>, s: State, i: Instr)
    requires |s.registers| == 32 && EarlyShaped(i) && i.op.Store?
    requires 0 <= i.rs1.value < 32 && 0 <= i.rs2.value < 32
    ensures Dispatch(L, s, i) == Result(s.(memory := Stored(i.op.store, s.memory, s.registers[i.rs2.value] + i.arg.n,
                                                            s.registers[i.rs1.value]), pc := s.pc + 1), Next)
  {
  }

  /** JAL to a label whose line is a label line (as every label of `main`
      is, by LabelsAtLabelLines) lands on that line, which the loop then
      skips, so it continues at the line after the label just as a taken
      branch does. */
  lemma JalLandsOnLabel(L: map<string, int>, lines: seq<string>, s: State, i: Instr)
    requires |s.registers| == 32 && EarlyShaped(i) && i.op == JAL && Indexable(i.rd.value)
    requires i.arg.s in L && 0 <= L[i.arg.s] < |lines| && Classify(lines[L[i.arg.s]]).LabelLine?
    ensures var t := Dispatch(L, s, i);
      t.flow == Next && t.state.pc == L[i.arg.s]
      && Step(L, EarlyDecode(lines), t.state) == Result(t.state.(pc := L[i.arg.s] + 1), Next)
  {
    JalDispatch(L, s, i);
    LabelLineSkipped(L, lines, Dispatch(L, s, i).state);
  }

  /** Each label of `main` maps to a line of the file that defines it. */
  lemma LabelsAtLabelLines(lines: seq<string>, l: string)
    requires l in LineNumberLabels(Kinds(lines))
    ensures var k := LineNumberLabels(Kinds(lines))[l];
      0 <= k < |lines| && Classify(lines[k]) == LabelLine(l)
  {
    var kinds := Kinds(lines);
    LineNumberTarget(kinds, l);
    KindsAt(lines, LineNumberLabels(kinds)[l]);
  }

  /** JAL to a label `main` knows sets the PC to the label's line. */
  lemma JalDispatch(L: map<string, int>, s: State, i: Instr)
    requires |s.registers| == 32 && EarlyShaped(i) && i.op == JAL && Indexable(i.rd.value) && i.arg.s in L
    ensures Dispatch(L, s, i).flow == Next && Dispatch(L, s, i).state.pc == L[i.arg.s]
  {
  }

  /** The loop skips a label line. */
  lemma LabelLineSkipped(L: map<string, int>, lines: seq<string>, t: State)
    requires |t.registers| == 32 && 0 <= t.pc < |lines| && Classify(lines[t.pc]).LabelLine?
    ensures Step(L, EarlyDecode(lines), t) == Result(t.(pc := t.pc + 1), Next)
  {
    EarlyDecodeAt(lines, t.pc);
  }

  /** JAL to a label the file does not define leaves the loop with the
      state unchanged. */
  lemma JalUnknownBreaks(lines: seq<string>, s: State, i: Instr, fuel: nat)
    requires |s.registers| == 32 && 0 <= s.pc < |lines| && fuel > 0
    requires Fetch(lines[s.pc]) == Decoded(i) && i.op == JAL
    requires i.arg.s !in LineNumberLabels(Kinds(lines))
    ensures RunLoop(LineNumberLabels(Kinds(lines)), EarlyDecode(lines), s, fuel) == Finished(s, Break)
  {
    var L, code := LineNumberLabels(Kinds(lines)), EarlyDecode(lines);
    EarlyDecodeAt(lines, s.pc);
    assert code[LineIndex(s.pc, |code|)] == Decoded(i);
    assert Dispatch(L, s, i) == Result(s, Break);
    assert Step(L, code, s) == Result(s, Break);
    RunLoopEnds(L, code, s, fuel);
  }

  /** JALR clears the low bit of the sum and checks nothing else: the new
      PC is even, may be negative or past the end, and equals the sum
      rounded down to even. */
  lemma JalrEven(s: State, rd: int, rs1: int, offset: int)
    requires |s.registers| == 32 && Indexable(rd) && Indexable(rs1)
    ensures var r := ExecJalr(s, rd, rs1, Number(offset));
      var x := Reg(Link(s, rd), rs1) + offset;
      r.flow == Next && r.state.pc == x - x % 2 && r.state.pc % 2 == 0
  {
    var x := Reg(Link(s, rd), rs1) + offset;
    AndNotOne(x);
  }

  /** LUI and AUIPC never execute in `main`: the call raises TypeError. */
  lemma UpperRaises(L: map<string, int>, s: State, i: Instr)
    requires |s.registers| == 32 && EarlyShaped(i) && i.op.Upper?
    ensures Dispatch(L, s, i) == Result(s, Fault(TypeError))
  {
  }

  /** Called with two arguments, `lui` would write an unmasked value that
      needs 33 bits. */
  lemma UpperUnmasked(s: State, rd: int)
    requires |s.registers| == 32 && Indexable(rd)
    ensures UpperEarly(LUI, 0x10_0000, s.pc) == TWO32
    ensures ExecUpper(LUI, s, rd, 0x10_0000).state.registers[Slot(rd)] == TWO32
  {
    Pow2Table();
  }

  // ---------------------------------------------------------------------
  // The loop.

  /** Every iteration, and so the whole loop, keeps each memory cell a
      byte if it was one: the stores mask what they write. */
  lemma {:induction false} RunLoopKeepsBytes(L: map<string, int>, code: seq<Splitting>, s: State, fuel: nat)
    requires Shapes(code) && |s.registers| == 32 && ValidBytes(s.memory)
    ensures ValidBytes(RunLoop(L, code, s, fuel).state.memory)
    decreases fuel
  {
    if s.pc < |code| && fuel > 0 {
      var r := Step(L, code, s);
      assert ValidBytes(r.state.memory);
      if r.flow == Next {
        RunLoopKeepsBytes(L, code, r.state, fuel - 1);
      }
    }
  }

  /** A run that ends within some fuel ends the same way with more. */
  lemma {:induction false} RunLoopFuel(L: map<string, int>, code: seq<Splitting>, s: State, fuel: nat, more: nat)
    requires Shapes(code) && |s.registers| == 32 && fuel <= more
    requires RunLoop(L, code, s, fuel).Finished?
    ensures RunLoop(L, code, s, more) == RunLoop(L, code, s, fuel)
    decreases fuel
  {
    if s.pc < |code| {
      var r := Step(L, code, s);
      if r.flow == Next {
        RunLoopFuel(L, code, r.state, fuel - 1, more - 1);
        assert RunLoop(L, code, s, more) == RunLoop(L, code, r.state, more - 1);
      }
    }
  }

  /** One more iteration of a loop that still runs: it continues from
      the new state with one unit less, or it ends there. */
  lemma RunLoopContinues(L: map<string, int>, code: seq<Splitting>, s: State, t: State, flow: Flow, rest: nat, goal: Run)
    requires Shapes(code) && |s.registers| == 32 && s.pc < |code|
    requires RunLoop(L, code, s, rest + 1) == goal && Step(L, code, s) == Result(t, flow)
    ensures flow == Next ==> RunLoop(L, code, t, rest) == goal
    ensures flow != Next ==> Finished(t, flow) == goal
  {
  }

  lemma RunLoopEnds(L: map<string, int>, code: seq<Splitting>, s: State, f: nat)
    requires Shapes(code) && |s.registers| == 32 && s.pc < |code| && f > 0
    requires Step(L, code, s).flow != Next
    ensures RunLoop(L, code, s, f) == Finished(Step(L, code, s).state, Step(L, code, s).flow)
  {
  }

  /** `main` fetches `instruction_lines[program_counter]` with Python's
      indexing: a negative starting PC down to minus the length runs the
      line that many from the end, and one below that raises IndexError. */
  lemma MainStart(lines: seq<string>, memory: map<int, int>, startingPc: int, fuel: nat)
    requires fuel > 0 && startingPc < |lines|
    ensures var s := State(Machine.Zeros, startingPc, memory, map[]);
      startingPc < -|lines| ==> MainEarly(lines, memory, startingPc, fuel) == Finished(s, Fault(IndexError))
    ensures var s := State(Machine.Zeros, startingPc, memory, map[]);
      -|lines| <= startingPc < 0 && Fetch(lines[startingPc + |lines|]) == Rejected ==>
        MainEarly(lines, memory, startingPc, fuel) == MainEarly(lines, memory, startingPc + 1, fuel - 1)
  {
    if -|lines| <= startingPc < 0 {
      EarlyDecodeAt(lines, startingPc + |lines|);
    }
  }

  /** A run that ends normally in `main` has left the file. */
  lemma MainEnds(lines: seq<string>, memory: map<int, int>, startingPc: int, fuel: nat)
    requires MainEarly(lines, memory, startingPc, fuel).Finished?
    requires MainEarly(lines, memory, startingPc, fuel).flow == Next
    ensures MainEarly(lines, memory, startingPc, fuel).state.pc >= |lines|
    ensures ValidBytes(memory) ==> ValidBytes(MainEarly(lines, memory, startingPc, fuel).state.memory)
  {
    if ValidBytes(memory) {
      RunLoopKeepsBytes(LineNumberLabels(Kinds(lines)), EarlyDecode(lines), State(Machine.Zeros, startingPc, memory, map[]), fuel);
    }
  }
}
