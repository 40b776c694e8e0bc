/** The module-level state of rv32i_simulator_v1.py (`registers`,
    `program_counter`, `memory` and the `labels` dictionary) as one object
    whose methods are the instruction functions, `register_labels` and
    `main`. Every method is proved to do what the corresponding function of
    EarlyMachine computes from the state before the call. */
module EarlySimulator {
  import opened Wrappers
  import opened PyInt
  import opened Isa
  import opened Memory
  import opened Semantics
  import opened Labels
  import opened Parser
  import opened EarlyParser
  import opened EarlyMachine
  import Machine

  class EarlyHart {
    const mem: ByteMemory
    var registers: seq<int>
    var pc: int
    var labels: map<string, int>

    ghost predicate Valid()
      reads this
    {
      |registers| == 32
    }

    /** The state the instruction functions read and write. */
    ghost function Snapshot(): State
      reads this, mem
    {
      State(registers, pc, mem.cells, labels)
    }

    /** The run a loop that ended with flow, or ran out of fuel, leaves. */
    ghost function Ran(flow: Flow, exhausted: bool): Run
      reads this, mem
    {
      if exhausted then OutOfFuel(Snapshot()) else Finished(Snapshot(), flow)
    }

    /** The module as imported: 32 zero registers, PC 0, an empty memory
        and an empty label dictionary. */
    constructor ()
      ensures Valid() && fresh(mem)
      ensures Snapshot() == State(Machine.Zeros, 0, map[], map[])
    {
      mem := new ByteMemory();
      registers := Machine.Zeros;
      pc := 0;
      labels := map[];
    }

    /** `registers[r] = v` with Python's indexing. */
    method Write(r: int, v: int)
      requires Valid() && Indexable(r)
      modifies this
      ensures Valid() && Snapshot() == EarlyMachine.Write(old(Snapshot()), r, v)
    {
      registers := registers[Slot(r) := v];
    }

    // -------------------------------------------------------------------
    // The instruction functions.

    /** The second operand `main` hands an ALU function, read now. */
    method ReadOperand(op: AluOp, rs2: Option<int>, imm: Arg) returns (y: Operand)
      requires Valid()
      ensures y == SecondOperand(Snapshot(), op, rs2, imm)
    {
      if IsImmediate(op) {
        y := if imm.Number? then Value(imm.n) else Fails(TypeError);
      } else if rs2.Some? && Indexable(rs2.value) {
        y := Value(registers[Slot(rs2.value)]);
      } else {
        y := Fails(IndexError);
      }
    }

    /** `add`, `addi`, …: the guard on rd, then the operands, then the
        assignment. */
    method Alu(op: AluOp, rd: int, rs1: int, y: Operand) returns (flow: Flow)
      requires Valid()
      modifies this
      ensures Valid() && Result(Snapshot(), flow) == ExecAlu(op, old(Snapshot()), rd, rs1, y)
    {
      if Guarded(op) && rd == 0 {
        return Next;
      }
      if !Indexable(rs1) {
        return Fault(IndexError);
      }
      match y {
        case Fails(e) =>
          flow := Fault(e);
        case Value(v) =>
          if !Indexable(rd) {
            return Fault(IndexError);
          }
          Write(rd, EarlyAlu(op, registers[Slot(rs1)], v));
          flow := Next;
      }
    }

    /** `beq`, `bne`, …: returns how the call ended and whether it reports
        the branch as taken. */
    method Branch(op: BranchOp, rs1: int, rs2: int, name: string) returns (flow: Flow, taken: bool)
      requires Valid()
      modifies this
      ensures Valid() && (Result(Snapshot(), flow), taken) == ExecBranch(op, old(Snapshot()), rs1, rs2, name)
    {
      if !Indexable(rs1) || !Indexable(rs2) {
        return Fault(IndexError), false;
      }
      flow, taken := Next, false;
      if BranchTaken(op, registers[Slot(rs1)], registers[Slot(rs2)]) {
        if op == BEQ {
          if name in labels {
            pc := labels[name];
            taken := true;
          }
        } else {
          if name in labels {
            pc := labels[name];
          }
          taken := true;
        }
      }
    }

    /** `lw(rd, offset, rs1)`, `lh`, `lhu`, `lb`, `lbu`. */
    method Load(op: LoadOp, rd: int, rs1: int, offset: int)
      requires Valid()
      modifies this
      ensures Valid() && Result(Snapshot(), Next) == ExecLoad(op, old(Snapshot()), rd, rs1, offset)
    {
      if rd < 0 || rd >= |registers| || rs1 < 0 || rs1 >= |registers| {
        return;
      }
      var address := registers[rs1] + offset;
      Write(rd, EarlyLoadValue(op, mem.cells, address));
    }

    /** `sw(rs1, offset, rs2)`, `sb`, `sh`: the value of rs1 goes to the
        address rs2 gives; the memory dictionary changes in place. */
    method Store(op: StoreOp, rs1: int, offset: int, rs2: int)
      requires Valid()
      modifies mem
      ensures Valid() && Result(Snapshot(), Next) == ExecStore(op, old(Snapshot()), rs1, offset, rs2)
    {
      if rs1 < 0 || rs1 >= |registers| || rs2 < 0 || rs2 >= |registers| {
        return;
      }
      var address := registers[rs2] + offset;
      var value := registers[rs1];
      match op {
        case SW => mem.StoreWord(address, value);
        case SB => mem.StoreByte(address, Mask8(value));
        case SH => mem.StoreHalfword(address, Mask16(value));
      }
    }

    /** `if rd != 0: registers[rd] = program_counter + 1`. */
    method Link(rd: int)
      requires Valid() && Indexable(rd)
      modifies this
      ensures Valid() && Snapshot() == EarlyMachine.Link(old(Snapshot()), rd)
    {
      if rd != 0 {
        Write(rd, pc + 1);
      }
    }

    /** `jal(rd, target)` with the line number `main` passes. */
    method Jal(rd: int, target: int) returns (flow: Flow)
      requires Valid()
      modifies this
      ensures Valid() && Result(Snapshot(), flow) == ExecJal(old(Snapshot()), rd, target)
    {
      if rd != 0 && !Indexable(rd) {
        return Fault(IndexError);
      }
      Link(rd);
      pc := target;
      flow := Next;
    }

    /** `jalr(rd, rs1, offset)`: the link first, then the target with its
        low bit cleared. */
    method Jalr(rd: int, rs1: int, offset: Arg) returns (flow: Flow)
      requires Valid()
      modifies this
      ensures Valid() && Result(Snapshot(), flow) == ExecJalr(old(Snapshot()), rd, rs1, offset)
    {
      if rd != 0 && !Indexable(rd) {
        return Fault(IndexError);
      }
      Link(rd);
      if !Indexable(rs1) {
        return Fault(IndexError);
      }
      if !offset.Number? {
        return Fault(TypeError);
      }
      pc := And(registers[Slot(rs1)] + offset.n, -2);
      flow := Next;
    }

    /** `lui(rd, imm)` and `auipc(rd, imm)` called with two arguments. */
    method Upper(op: UpperOp, rd: int, imm: int) returns (flow: Flow)
      requires Valid()
      modifies this
      ensures Valid() && Result(Snapshot(), flow) == ExecUpper(op, old(Snapshot()), rd, imm)
    {
      if !Indexable(rd) {
        return Fault(IndexError);
      }
      Write(rd, UpperEarly(op, imm, pc));
      flow := Next;
    }

    /** `register_labels(instruction_lines)`: the module-level dictionary
        becomes the label pass that counts instructions from 0. */
    method RegisterLabels(lines: seq<string>)
      modifies this
      ensures labels == FirstPass(lines, 0).labels
      ensures registers == old(registers) && pc == old(pc)
    {
      labels := ScanLabels(lines);
    }

    // -------------------------------------------------------------------
    // The loop of `main`.

    /** The dispatch of `main` for a split instruction, L being the label
        dictionary of `main`. */
    method Execute(L: map<string, int>, i: Instr) returns (flow: Flow)
      requires Valid() && EarlyShaped(i)
      modifies this, mem
      ensures Valid() && Result(Snapshot(), flow) == Dispatch(L, old(Snapshot()), i)
    {
      match i.op {
        case Branch(op) =>
          var taken;
          flow, taken := Branch(op, i.rs1.value, i.rs2.value, i.arg.s);
          if flow == Next {
            if !taken {
              pc := pc + 1;
            } else if i.arg.s in L {
              pc := L[i.arg.s] + 1;
            }
          }
        case Alu(op) =>
          var y := ReadOperand(op, i.rs2, i.arg);
          flow := Alu(op, i.rd.value, i.rs1.value, y);
          if flow == Next {
            pc := pc + 1;
          }
        case Load(op) =>
          Load(op, i.rd.value, i.rs1.value, i.arg.n);
          pc := pc + 1;
          flow := Next;
        case Store(op) =>
          Store(op, i.rs1.value, i.arg.n, i.rs2.value);
          pc := pc + 1;
          flow := Next;
        case JAL =>
          if i.arg.s in L {
            flow := Jal(i.rd.value, L[i.arg.s]);
          } else {
            flow := Break;
          }
        case JALR =>
          flow := Jalr(i.rd.value, i.rs1.value, i.arg);
        case Upper(_) =>
          flow := Fault(TypeError);
        case System(_) =>
          flow := Fault(TypeError);
      }
    }

    /** One iteration: the line at the PC (a negative PC counting from the
        end), skipped unless it splits into an instruction. */
    method Step(L: map<string, int>, lines: seq<string>, ghost code: seq<Splitting>) returns (flow: Flow)
      requires Valid() && Tabulates(lines, code) && Shapes(code) && pc < |lines|
      modifies this, mem
      ensures Valid() && Result(Snapshot(), flow) == EarlyMachine.Step(L, code, old(Snapshot()))
    {
      if pc < -|lines| {
        return Fault(IndexError);
      }
      var k := LineIndex(pc, |lines|);
      var split := Fetch(lines[k]);
      assert split == code[k];
      match split {
        case Rejected =>
          pc := pc + 1;
          flow := Next;
        case Crashed(e) =>
          flow := Fault(e);
        case Decoded(i) =>
          flow := Execute(L, i);
      }
    }

    /** `while program_counter < len(instruction_lines)`, for at most fuel
        iterations. */
    method Run(L: map<string, int>, lines: seq<string>, fuel: nat) returns (flow: Flow, exhausted: bool)
      requires Valid()
      modifies this, mem
      ensures Valid() && Ran(flow, exhausted) == RunLoop(L, EarlyDecode(lines), old(Snapshot()), fuel)
    {
      ghost var code := EarlyDecode(lines);
      EarlyDecodeTabulates(lines);
      ghost var goal := RunLoop(L, code, Snapshot(), fuel);
      var f := fuel;
      flow, exhausted := Next, false;
      while pc < |lines|
        invariant Valid() && flow == Next
        invariant RunLoop(L, code, Snapshot(), f) == goal
        decreases f
      {
        if f == 0 {
          exhausted := true;
          return;
        }
        flow, f := Advance(L, lines, code, f, goal);
        if flow != Next {
          return;
        }
      }
    }

    /** The body of the loop while it runs with fuel f left: the loop from
        here on still ends as goal. */
    method Advance(L: map<string, int>, lines: seq<string>, ghost code: seq<Splitting>, f: nat, ghost goal: Run)
      returns (flow: Flow, rest: nat)
      requires Valid() && Tabulates(lines, code) && Shapes(code) && pc < |lines| && f > 0
      requires RunLoop(L, code, Snapshot(), f) == goal
      modifies this, mem
      ensures Valid() && rest < f
      ensures flow == Next ==> RunLoop(L, code, Snapshot(), rest) == goal
      ensures flow != Next ==> Finished(Snapshot(), flow) == goal
    {
      ghost var s := Snapshot();
      rest := f - 1;
      flow := Step(L, lines, code);
      RunLoopContinues(L, code, s, Snapshot(), flow, rest, goal);
    }

    /** `main` once `user_input` has set the PC to the starting address and
        loaded the memory file: the label pass into a dictionary of its
        own, then the loop. */
    method MainEarly(lines: seq<string>, startingPc: int, fuel: nat) returns (flow: Flow, exhausted: bool)
      requires Valid()
      modifies this, mem
      ensures Valid()
      ensures Ran(flow, exhausted)
        == RunLoop(LineNumberLabels(Kinds(lines)), EarlyDecode(lines), old(Snapshot()).(pc := startingPc), fuel)
      ensures old(registers) == Machine.Zeros && old(labels) == map[] ==>
        Ran(flow, exhausted) == EarlyMachine.MainEarly(lines, old(mem.cells), startingPc, fuel)
    {
      pc := startingPc;
      var L := LineNumberPass(lines);
      flow, exhausted := Run(L, lines, fuel);
    }
  }
}
