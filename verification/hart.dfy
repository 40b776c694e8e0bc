/** The module-level state of finalGUI/backend_gui.py and store_load.py
    (`registers`, `program_counter`, `memory`, `labels`,
    `executable_instructions` and, in finalGUI/backend_gui.py,
    `stop_simulation`) as one object whose methods are the instruction
    functions and `main`. Every method is proved to do what the
    corresponding function of Machine computes from the state before the
    call. */
module Simulator {
  import opened Wrappers
  import opened PyInt
  import opened Isa
  import opened Memory
  import opened Semantics
  import opened Parser
  import opened Labels
  import PyText
  import MemoryText
  import Machine

  /** How `main` of finalGUI/backend_gui.py returned: the memory text
      raised, the starting PC was rejected, the loop ended (normally, by an
      exception or by `sys.exit`), or the fuel ran out. */
  datatype Ending = MemoryError(error: Outcome) | BadStart | Stopped(outcome: Outcome) | Exhausted

  class Hart {
    /** Which draft's instruction functions and loop this object runs. */
    const draft: Draft
    const mem: ByteMemory
    var registers: seq<int>
    var pc: int
    var stop: bool
    var labels: map<string, int>
    var executable: seq<string>

    ghost predicate Valid()
      reads this, mem
    {
      |registers| == 32 && mem.Valid()
    }

    /** The state the instruction functions read and write. */
    ghost function Snapshot(): Machine.State
      reads this, mem
    {
      Machine.State(registers, pc, mem.cells, stop)
    }

    /** The label dictionary and the executable list. */
    ghost function Prog(): Program
      reads this
    {
      Program(labels, executable)
    }

    /** The run a loop that returned outcome, or ran out of fuel, leaves. */
    ghost function Ran(outcome: Outcome, exhausted: bool): Machine.Run
      reads this, mem
    {
      if exhausted then Machine.OutOfFuel(Snapshot()) else Machine.Finished(Snapshot(), outcome)
    }

    /** What `main` of finalGUI/backend_gui.py leaves when it returns e. */
    ghost function Report(e: Ending): Machine.MainResult
      reads this, mem
    {
      match e
      case MemoryError(error) => Machine.MemoryFailed(mem.cells, error)
      case BadStart => Machine.StartRejected(Prog())
      case Stopped(outcome) => Machine.Executed(Prog(), Ran(outcome, false))
      case Exhausted => Machine.Executed(Prog(), Ran(Normal, true))
    }

    /** The module as imported: 32 zero registers, PC 0, nothing else. */
    constructor (d: Draft)
      ensures draft == d && fresh(mem) && Valid()
      ensures Snapshot() == Machine.State(Machine.Zeros, 0, map[], false)
      ensures Prog() == Program(map[], [])
    {
      draft := d;
      mem := new ByteMemory();
      registers := Machine.Zeros;
      pc := 0;
      stop := false;
      labels := map[];
      executable := [];
    }

    // -------------------------------------------------------------------
    // The instruction functions.

    /** `add`, `addi`, …: y is `registers[rs2]` or the immediate. */
    method Alu(op: AluOp, rd: Option<int>, rs1: Option<int>, y: Option<int>) returns (out: Outcome)
      requires Valid()
      requires rd.Some? ==> 0 <= rd.value < 32
      requires rs1.Some? ==> 0 <= rs1.value < 32
      modifies this
      ensures Valid() && Prog() == old(Prog())
      ensures Machine.Result(Snapshot(), out) == Machine.ExecAlu(draft, op, old(Snapshot()), rd, rs1, y)
    {
      if rd == Some(0) {
        return Normal;
      }
      if rd.None? || rs1.None? || y.None? {
        return Raised(TypeError);
      }
      registers := registers[rd.value := AluValue(draft, op, registers[rs1.value], y.value)];
      out := Normal;
    }

    /** `beq`, `bne`, …: returns whether the branch was taken. */
    method Branch(op: BranchOp, rs1: Option<int>, rs2: Option<int>, target: Arg) returns (taken: bool)
      requires Valid()
      requires rs1.Some? ==> 0 <= rs1.value < 32
      requires rs2.Some? ==> 0 <= rs2.value < 32
      modifies this
      ensures Valid() && Prog() == old(Prog())
      ensures (Snapshot(), taken) == Machine.ExecBranch(op, Prog(), old(Snapshot()), rs1, rs2, target)
    {
      if rs1.None? || rs2.None? {
        return false;
      }
      if BranchTaken(op, registers[rs1.value], registers[rs2.value]) && target.Text? && target.s in labels {
        pc := labels[target.s];
        return true;
      }
      taken := false;
    }

    /** `lw(rd, offset, rs1)`, `lh`, `lhu`, `lb`, `lbu`. */
    method Load(op: LoadOp, rd: Option<int>, rs1: Option<int>, offset: Arg) returns (out: Outcome)
      requires Valid()
      requires rd.Some? ==> 0 <= rd.value < 32
      requires rs1.Some? ==> 0 <= rs1.value < 32
      modifies this
      ensures Valid() && Prog() == old(Prog())
      ensures Machine.Result(Snapshot(), out) == Machine.ExecLoad(op, old(Snapshot()), rd, rs1, offset)
    {
      if rd == Some(0) || rd.None? || rs1.None? || offset.Missing? {
        return Normal;
      }
      if offset.Text? {
        return Raised(TypeError);
      }
      var address := registers[rs1.value] + offset.n;
      registers := registers[rd.value := LoadValue(op, mem.cells, address)];
      out := Normal;
    }

    /** `sw(rs2, offset, rs1)`, `sb`, `sh`: the memory dictionary changes in
        place. */
    method Store(op: StoreOp, rs2: Option<int>, rs1: Option<int>, offset: Arg) returns (out: Outcome)
      requires Valid()
      requires rs2.Some? ==> 0 <= rs2.value < 32
      requires rs1.Some? ==> 0 <= rs1.value < 32
      modifies mem
      ensures Valid()
      ensures Machine.Result(Snapshot(), out) == Machine.ExecStore(op, old(Snapshot()), rs2, rs1, offset)
    {
      if rs1.None? || rs2.None? || offset.Missing? {
        return Normal;
      }
      if offset.Text? {
        return Raised(TypeError);
      }
      var address := registers[rs1.value] + offset.n;
      var value := registers[rs2.value];
      match op {
        case SW => mem.StoreWord(address, value);
        case SB => mem.StoreByte(address, Mask8(value));
        case SH => mem.StoreHalfword(address, Mask16(value));
      }
      out := Normal;
    }

    /** `registers[rd] = program_counter + 1` unless rd is 0. */
    method Link(rd: int)
      requires Valid() && 0 <= rd < 32
      modifies this
      ensures Valid() && Prog() == old(Prog())
      ensures Snapshot() == Machine.Link(old(Snapshot()), rd)
    {
      if rd != 0 {
        registers := registers[rd := pc + 1];
      }
    }

    /** `jal(rd, target_label)`. */
    method Jal(rd: Option<int>, target: Arg) returns (out: Outcome)
      requires Valid()
      requires rd.Some? ==> 0 <= rd.value < 32
      modifies this
      ensures Valid() && Prog() == old(Prog())
      ensures Machine.Result(Snapshot(), out) == Machine.ExecJal(Prog(), old(Snapshot()), rd, target)
    {
      if rd.None? {
        return Raised(TypeError);
      }
      Link(rd.value);
      if target.Text? && target.s in labels {
        pc := labels[target.s];
        return Normal;
      }
      out := Raised(ValueError);
    }

    /** `jalr(rd, rs1, imm)`. */
    method Jalr(rd: Option<int>, rs1: Option<int>, imm: Arg) returns (out: Outcome)
      requires Valid()
      requires rd.Some? ==> 0 <= rd.value < 32
      requires rs1.Some? ==> 0 <= rs1.value < 32
      modifies this
      ensures Valid() && Prog() == old(Prog())
      ensures Machine.Result(Snapshot(), out) == Machine.ExecJalr(Prog(), old(Snapshot()), rd, rs1, imm)
    {
      if rd.None? {
        return Raised(TypeError);
      }
      Link(rd.value);
      if rs1.None? || !imm.Number? {
        return Raised(TypeError);
      }
      var target := Mask32(registers[rs1.value] + imm.n);
      if 0 <= target < |executable| {
        pc := target;
        return Normal;
      }
      out := Exited(1);
    }

    /** `lui(rd, imm)`, `auipc(rd, imm)`. */
    method Upper(op: UpperOp, rd: Option<int>, imm: Arg) returns (out: Outcome)
      requires Valid()
      requires rd.Some? ==> 0 <= rd.value < 32
      modifies this
      ensures Valid() && Prog() == old(Prog())
      ensures Machine.Result(Snapshot(), out) == Machine.ExecUpper(op, old(Snapshot()), rd, imm)
    {
      if rd == Some(0) {
        return Normal;
      }
      if rd.None? || !imm.Number? {
        return Raised(TypeError);
      }
      registers := registers[rd.value := UpperValue(op, imm.n, pc)];
      out := Normal;
    }

    /** `ecall`, `ebreak`, `fence`, `fence_tso`, `pause` and, in
        store_load.py, `halt`. */
    method System(op: SystemOp) returns (out: Outcome)
      requires Valid()
      modifies this
      ensures Valid() && Prog() == old(Prog())
      ensures Machine.Result(Snapshot(), out) == Machine.ExecSystem(draft, op, old(Snapshot()))
    {
      out := Normal;
      match op
      case ECALL | EBREAK =>
        if draft == FinalGui {
          stop := true;
        } else {
          out := Exited(0);
        }
      case FENCE | FENCE_TSO | PAUSE =>
      case HALT =>
        if draft == StoreLoad {
          out := Exited(0);
        }
    }

    // -------------------------------------------------------------------
    // The loop of `main`.

    /** The body of the loop for a decoded tuple: the call and
        `registers[0] = 0` at the end of an iteration that completes. */
    method Execute(i: Instr) returns (out: Outcome)
      requires Valid() && RegistersInRange(i)
      modifies this, mem
      ensures Valid() && Prog() == old(Prog())
      ensures Machine.Result(Snapshot(), out) == Machine.Dispatch(draft, Prog(), old(Snapshot()), i)
    {
      out := Call(i);
      if out == Normal {
        registers := registers[0 := 0];
      }
    }

    /** The call of the instruction function for a decoded tuple, with the
        PC update for everything but taken branches and jumps. */
    method Call(i: Instr) returns (out: Outcome)
      requires Valid() && RegistersInRange(i)
      modifies this, mem
      ensures Valid() && Prog() == old(Prog())
      ensures Machine.Result(Snapshot(), out) == Machine.Call(draft, Prog(), old(Snapshot()), i)
    {
      match i.op {
        case Alu(op) =>
          var y := if IsImmediate(op) then Machine.IntOf(i.arg)
                   else if i.rs2.Some? then Some(registers[i.rs2.value]) else None;
          out := Alu(op, i.rd, i.rs1, y);
          if out == Normal {
            pc := pc + 1;
          }
        case Branch(op) =>
          var taken := Branch(op, i.rs1, i.rs2, i.arg);
          if !taken {
            pc := pc + 1;
          }
          out := Normal;
        case Load(op) =>
          out := Load(op, i.rd, i.rs1, i.arg);
          if out == Normal {
            pc := pc + 1;
          }
        case Store(op) =>
          out := Store(op, i.rs2, i.rs1, i.arg);
          if out == Normal {
            pc := pc + 1;
          }
        case Upper(op) =>
          out := Upper(op, i.rd, i.arg);
          if out == Normal {
            pc := pc + 1;
          }
        case JAL =>
          out := Jal(i.rd, i.arg);
        case JALR =>
          out := Jalr(i.rd, i.rs1, i.arg);
        case System(op) =>
          out := System(op);
          if out == Normal {
            pc := pc + 1;
          }
      }
    }

    /** `instruction_splitting(executable_instructions[index].strip())`:
        the entry of the decoding table at the index. */
    method Fetch(base: int, ghost code: seq<Splitting>) returns (split: Splitting)
      requires Machine.Tabulates(draft, executable, code) && 0 <= pc - base < |executable|
      ensures split == code[pc - base]
    {
      var line := PyText.Strip(executable[pc - base]);
      split := SplitInstruction(line, draft == StoreLoad);
    }

    /** One iteration: fetch the line at the PC, split it, skip it when it
        does not split, otherwise execute it. */
    method Step(base: int, ghost code: seq<Splitting>) returns (out: Outcome)
      requires Valid() && Machine.Tabulates(draft, executable, code) && Machine.Decodes(executable, code)
      requires 0 <= pc - base < |executable|
      modifies this, mem
      ensures Valid() && Prog() == old(Prog())
      ensures Machine.Result(Snapshot(), out) == Machine.Step(draft, Prog(), code, base, old(Snapshot()))
    {
      var split := Fetch(base, code);
      match split {
        case Rejected =>
          pc := pc + 1;
          out := Normal;
        case Crashed(e) =>
          out := Raised(e);
        case Decoded(i) =>
          out := Execute(i);
      }
    }

    /** The while loop of `main`, for at most fuel iterations. */
    method Run(base: int, fuel: nat) returns (outcome: Outcome, exhausted: bool)
      requires Valid()
      modifies this, mem
      ensures Valid() && Prog() == old(Prog())
      ensures Ran(outcome, exhausted)
        == Machine.RunLoop(draft, Prog(), Machine.Decode(draft, executable), base, old(Snapshot()), fuel)
    {
      ghost var p, code := Prog(), Machine.Decode(draft, executable);
      Machine.DecodeTabulates(draft, executable);
      ghost var goal := Machine.RunLoop(draft, p, code, base, Snapshot(), fuel);
      var f := fuel;
      outcome, exhausted := Normal, false;
      while (draft == FinalGui ==> !stop) && 0 <= pc - base < |executable|
        invariant Valid() && Prog() == p && outcome == Normal
        invariant Machine.RunLoop(draft, p, code, base, Snapshot(), f) == goal
        decreases f
      {
        if f == 0 {
          Machine.RunLoopEnds(draft, p, code, base, Snapshot(), f);
          exhausted := true;
          return;
        }
        outcome, f := Advance(base, code, f, goal);
        if outcome != Normal {
          return;
        }
      }
      Machine.RunLoopEnds(draft, p, code, base, Snapshot(), f);
    }

    /** The body of the loop of `main` while it runs with fuel f left: the
        loop from here on still ends as goal. */
    method Advance(base: int, ghost code: seq<Splitting>, f: nat, ghost goal: Machine.Run) returns (out: Outcome, rest: nat)
      requires Valid() && Machine.Tabulates(draft, executable, code) && Machine.Decodes(executable, code)
      requires Machine.Running(draft, Prog(), base, Snapshot()) && f > 0
      requires Machine.RunLoop(draft, Prog(), code, base, Snapshot(), f) == goal
      modifies this, mem
      ensures Valid() && Prog() == old(Prog())
      ensures rest < f
      ensures out == Normal ==> Machine.RunLoop(draft, Prog(), code, base, Snapshot(), rest) == goal
      ensures out != Normal ==> Machine.Finished(Snapshot(), out) == goal
    {
      ghost var s := Snapshot();
      rest := f - 1;
      out := Step(base, code);
      Machine.RunLoopContinues(draft, Prog(), code, base, s, Snapshot(), out, rest, goal);
    }

    /** The label pass of `main`, with labels counted from base. */
    method LabelPass(lines: seq<string>, base: int)
      modifies this
      ensures Prog() == FirstPass(lines, base)
      ensures registers == old(registers) && pc == old(pc) && stop == old(stop)
    {
      labels, executable := FirstPassLoop(lines, base);
    }

    /** The start of `main` of finalGUI/backend_gui.py: zero the registers,
        empty the memory and the labels, clear the stop flag and load the
        memory text. */
    method Reset(memoryText: string) returns (loaded: Outcome)
      modifies this, mem
      ensures Valid() && registers == Machine.Zeros && !stop
      ensures MemoryText.Loaded(mem.cells, loaded) == MemoryText.LoadMemoryText(map[], memoryText)
    {
      registers := Machine.Zeros;
      mem.Clear();
      labels := map[];
      stop := false;
      loaded := MemoryText.LoadMemoryFromText(mem, memoryText);
    }

    /** `main(instructions_text, memory_text, output, starting_pc)` of
        finalGUI/backend_gui.py. */
    method MainFinal(instructionsText: string, memoryText: string, startingPc: int, fuel: nat) returns (e: Ending)
      requires draft == FinalGui
      modifies this, mem
      ensures Report(e) == Machine.MainFinal(instructionsText, memoryText, startingPc, fuel)
    {
      var loaded := Reset(memoryText);
      if loaded != Normal {
        return MemoryError(loaded);
      }
      e := Launch(PyText.SplitLines(instructionsText), startingPc, fuel);
    }

    /** The label pass, the check of the starting PC and the loop of that
        `main`, after the reset and the memory text. */
    method Launch(lines: seq<string>, startingPc: int, fuel: nat) returns (e: Ending)
      requires draft == FinalGui && Valid() && registers == Machine.Zeros && !stop
      modifies this, mem
      ensures Report(e) == Machine.Launch(FirstPass(lines, startingPc), old(mem.cells), startingPc, fuel)
    {
      var base := startingPc;
      LabelPass(lines, base);
      pc := startingPc;
      if pc < base || pc >= base + |executable| {
        return BadStart;
      }
      e := Start(base, fuel);
    }

    /** The loop of that `main` from the starting PC, and how it ended. */
    method Start(base: int, fuel: nat) returns (e: Ending)
      requires Valid()
      modifies this, mem
      ensures Prog() == old(Prog())
      ensures Report(e) == Machine.Executed(Prog(),
        Machine.RunLoop(draft, Prog(), Machine.Decode(draft, executable), base, old(Snapshot()), fuel))
    {
      var outcome, exhausted := Run(base, fuel);
      if exhausted {
        e := Exhausted;
      } else {
        e := Stopped(outcome);
      }
    }

    /** `main` of store_load.py once `user_input` has given the lines and
        the starting PC: the label pass counts from 0 and the loop runs on
        the registers and memory as they are. */
    method MainStoreLoad(lines: seq<string>, startingPc: int, fuel: nat) returns (outcome: Outcome, exhausted: bool)
      requires draft == StoreLoad && Valid()
      modifies this, mem
      ensures Ran(outcome, exhausted) == Machine.MainStoreLoad(lines, old(Snapshot()), startingPc, fuel)
    {
      LabelPass(lines, 0);
      pc := startingPc;
      outcome, exhausted := Run(0, fuel);
    }
  }
}
