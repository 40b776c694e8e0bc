/** The instruction functions and the fetch-execute loop of
    finalGUI/backend_gui.py and store_load.py, as functions of the module
    state before the call. The two drafts share every instruction function
    except the ALU operations (see Semantics) and ECALL/EBREAK/HALT, which
    set `stop_simulation` in finalGUI/backend_gui.py and call `sys.exit(0)`
    in store_load.py. The program counter is an index into the executable
    instruction list, offset by the base address. */
module Machine {
  import opened Wrappers
  import opened PyInt
  import opened Isa
  import opened Memory
  import opened Semantics
  import opened Parser
  import opened Labels
  import MemoryText

  /** The module-level variables an instruction function reads and writes. */
  datatype State = State(registers: seq<int>, pc: int, memory: map<int, int>, stop: bool)

  /** The state after a call, and how the call ended. */
  datatype Result = Result(state: State, outcome: Outcome)

  /** `registers = [0] * 32`. */
  const Zeros: seq<int> := [0, 0, 0, 0, 0, 0, 0, 0, 0, 0, 0, 0, 0, 0, 0, 0,
                            0, 0, 0, 0, 0, 0, 0, 0, 0, 0, 0, 0, 0, 0, 0, 0]

  /** 32 registers, x0 holding 0 and the memory holding bytes. */
  predicate Sound(s: State)
  {
    |s.registers| == 32 && s.registers[0] == 0 && ValidBytes(s.memory)
  }

  /** A call that leaves x0 and the memory alone and keeps 32 registers:
      every instruction function but the stores. */
  predicate Keeps(s: State, t: State)
  {
    |t.registers| == 32 && |s.registers| == 32 && t.registers[0] == s.registers[0] && t.memory == s.memory
  }

  function Write(s: State, rd: int, v: int): State
    requires |s.registers| == 32 && 0 <= rd < 32
  {
    s.(registers := s.registers[rd := v])
  }

  /** The integer a tuple element holds, if it holds one. */
  function IntOf(a: Arg): Option<int>
  {
    if a.Number? then Some(a.n) else None
  }

  /** The ALU functions (`add`, `addi`, …): nothing happens when rd is 0,
      a missing operand raises TypeError, and otherwise `registers[rd]`
      receives the draft's value. y is `registers[rs2]` or the immediate. */
  function ExecAlu(d: Draft, op: AluOp, s: State, rd: Option<int>, rs1: Option<int>, y: Option<int>): (r: Result)
    requires |s.registers| == 32
    requires rd.Some? ==> 0 <= rd.value < 32
    requires rs1.Some? ==> 0 <= rs1.value < 32
    ensures Keeps(s, r.state)
  {
    if rd == Some(0) then Result(s, Normal)
    else if rd.None? || rs1.None? || y.None? then Result(s, Raised(TypeError))
    else Result(Write(s, rd.value, AluValue(d, op, s.registers[rs1.value], y.value)), Normal)
  }

  /** The second ALU operand: the immediate, or `registers[rs2]`. */
  function SecondOperand(s: State, i: Instr): Option<int>
    requires |s.registers| == 32 && i.op.Alu? && RegistersInRange(i)
  {
    if IsImmediate(i.op.alu) then IntOf(i.arg)
    else if i.rs2.Some? then Some(s.registers[i.rs2.value]) else None
  }

  /** The branch functions: a missing register is reported and the branch
      is not taken; a true condition with a known label sets the PC to the
      label and returns True; anything else returns False. */
  function ExecBranch(op: BranchOp, p: Program, s: State, rs1: Option<int>, rs2: Option<int>, target: Arg): (r: (State, bool))
    requires |s.registers| == 32
    requires rs1.Some? ==> 0 <= rs1.value < 32
    requires rs2.Some? ==> 0 <= rs2.value < 32
    ensures r.0.registers == s.registers && r.0.memory == s.memory && r.0.stop == s.stop
  {
    if rs1.None? || rs2.None? then (s, false)
    else if BranchTaken(op, s.registers[rs1.value], s.registers[rs2.value]) && target.Text? && target.s in p.labels
    then (s.(pc := p.labels[target.s]), true)
    else (s, false)
  }

  /** The load functions: rd = 0 and missing operands are reported and
      ignored; the address is `registers[rs1] + offset`. */
  function ExecLoad(op: LoadOp, s: State, rd: Option<int>, rs1: Option<int>, offset: Arg): (r: Result)
    requires |s.registers| == 32
    requires rd.Some? ==> 0 <= rd.value < 32
    requires rs1.Some? ==> 0 <= rs1.value < 32
    ensures Keeps(s, r.state)
  {
    if rd == Some(0) || rd.None? || rs1.None? || offset.Missing? then Result(s, Normal)
    else if offset.Text? then Result(s, Raised(TypeError))
    else Result(Write(s, rd.value, LoadValue(op, s.memory, s.registers[rs1.value] + offset.n)), Normal)
  }

  /** The store functions: missing operands are reported and ignored;
      `registers[rs2]` goes to `registers[rs1] + offset`. */
  function ExecStore(op: StoreOp, s: State, rs2: Option<int>, rs1: Option<int>, offset: Arg): (r: Result)
    requires |s.registers| == 32
    requires rs2.Some? ==> 0 <= rs2.value < 32
    requires rs1.Some? ==> 0 <= rs1.value < 32
    ensures r.state.registers == s.registers
    ensures ValidBytes(s.memory) ==> ValidBytes(r.state.memory)
  {
    if rs1.None? || rs2.None? || offset.Missing? then Result(s, Normal)
    else if offset.Text? then Result(s, Raised(TypeError))
    else Result(s.(memory := Stored(op, s.memory, s.registers[rs1.value] + offset.n, s.registers[rs2.value])), Normal)
  }

  /** `registers[rd] = program_counter + 1` unless rd is 0. */
  function Link(s: State, rd: int): State
    requires |s.registers| == 32 && 0 <= rd < 32
  {
    if rd != 0 then Write(s, rd, s.pc + 1) else s
  }

  /** `jal`: link, then jump to the label or raise ValueError. */
  function ExecJal(p: Program, s: State, rd: Option<int>, target: Arg): (r: Result)
    requires |s.registers| == 32
    requires rd.Some? ==> 0 <= rd.value < 32
    ensures Keeps(s, r.state)
  {
    if rd.None? then Result(s, Raised(TypeError))
    else
      var linked := Link(s, rd.value);
      if target.Text? && target.s in p.labels then Result(linked.(pc := p.labels[target.s]), Normal)
      else Result(linked, Raised(ValueError))
  }

  /** `jalr`: link, then jump to `(registers[rs1] + imm) & 0xFFFFFFFF`
      (read after the link) when it indexes the executable list, or
      `sys.exit(1)`. */
  function ExecJalr(p: Program, s: State, rd: Option<int>, rs1: Option<int>, imm: Arg): (r: Result)
    requires |s.registers| == 32
    requires rd.Some? ==> 0 <= rd.value < 32
    requires rs1.Some? ==> 0 <= rs1.value < 32
    ensures Keeps(s, r.state)
  {
    if rd.None? then Result(s, Raised(TypeError))
    else
      var linked := Link(s, rd.value);
      if rs1.None? || !imm.Number? then Result(linked, Raised(TypeError))
      else
        var target := Mask32(linked.registers[rs1.value] + imm.n);
        if 0 <= target < |p.executable| then Result(linked.(pc := target), Normal)
        else Result(linked, Exited(1))
  }

  /** `lui`/`auipc`: nothing when rd is 0, TypeError for a missing operand. */
  function ExecUpper(op: UpperOp, s: State, rd: Option<int>, imm: Arg): (r: Result)
    requires |s.registers| == 32
    requires rd.Some? ==> 0 <= rd.value < 32
    ensures Keeps(s, r.state)
  {
    if rd == Some(0) then Result(s, Normal)
    else if rd.None? || !imm.Number? then Result(s, Raised(TypeError))
    else Result(Write(s, rd.value, UpperValue(op, imm.n, s.pc)), Normal)
  }

  /** The system functions. HALT is not in the dictionary of
      finalGUI/backend_gui.py, whose `main` only reports it. */
  function ExecSystem(d: Draft, op: SystemOp, s: State): (r: Result)
    ensures r.state.registers == s.registers && r.state.memory == s.memory && r.state.pc == s.pc
  {
    match op
    case ECALL | EBREAK => if d == FinalGui then Result(s.(stop := true), Normal) else Result(s, Exited(0))
    case FENCE | FENCE_TSO | PAUSE => Result(s, Normal)
    case HALT => if d == StoreLoad then Result(s, Exited(0)) else Result(s, Normal)
  }

  /** `program_counter += 1` after a call that returned. */
  function Advance(r: Result): (a: Result)
    ensures a.state.registers == r.state.registers && a.state.memory == r.state.memory && a.outcome == r.outcome
  {
    if r.outcome == Normal then Result(r.state.(pc := r.state.pc + 1), r.outcome) else r
  }

  /** One decoded instruction as `main` dispatches it: the call with the PC
      update, then `registers[0] = 0` when the iteration completes. */
  function Dispatch(d: Draft, p: Program, s: State, i: Instr): (r: Result)
    requires |s.registers| == 32 && RegistersInRange(i)
    ensures |r.state.registers| == 32
    ensures r.outcome == Normal ==> r.state.registers[0] == 0
  {
    var r := Call(d, p, s, i);
    if r.outcome == Normal then Result(r.state.(registers := r.state.registers[0 := 0]), Normal) else r
  }

  /** The loop condition: finalGUI/backend_gui.py also stops on
      `stop_simulation`. */
  predicate Running(d: Draft, p: Program, base: int, s: State)
  {
    (d == FinalGui ==> !s.stop) && 0 <= s.pc - base < |p.executable|
  }

  /** `instruction_splitting(line.strip())` for every executable line, in
      order. */
  function Decode(d: Draft, lines: seq<string>): (r: seq<Splitting>)
    ensures Decodes(lines, r)
    decreases |lines|
  {
    if lines == [] then []
    else Decode(d, lines[..|lines| - 1]) + [SplitInstruction(PyText.Strip(lines[|lines| - 1]), d == StoreLoad)]
  }

  /** A table of splittings for the executable lines: one per line, each
      decoded tuple with register numbers in range. */
  predicate Decodes(lines: seq<string>, code: seq<Splitting>)
  {
    |code| == |lines| && forall k :: 0 <= k < |code| && code[k].Decoded? ==> RegistersInRange(code[k].instr)
  }

  /** The executable list never changes while the loop runs, so the
      splitting the loop computes for the line it fetches is the table's
      entry at the fetched index. */
  lemma {:induction false} DecodeAt(d: Draft, lines: seq<string>, k: int)
    requires 0 <= k < |lines|
    ensures Decode(d, lines)[k] == SplitInstruction(PyText.Strip(lines[k]), d == StoreLoad)
    decreases |lines|
  {
    if k < |lines| - 1 {
      DecodeAt(d, lines[..|lines| - 1], k);
    }
  }

  /** code holds the splitting of each line of lines, entry by entry. */
  predicate Tabulates(d: Draft, lines: seq<string>, code: seq<Splitting>)
  {
    |code| == |lines|
    && forall k {:trigger lines[k]} :: 0 <= k < |lines| ==> code[k] == SplitInstruction(PyText.Strip(lines[k]), d == StoreLoad)
  }

  /** The decoding table holds the splitting of each line. */
  lemma DecodeTabulates(d: Draft, lines: seq<string>)
    ensures Tabulates(d, lines, Decode(d, lines))
  {
    forall k | 0 <= k < |lines|
      ensures Decode(d, lines)[k] == SplitInstruction(PyText.Strip(lines[k]), d == StoreLoad)
    {
      DecodeAt(d, lines, k);
    }
  }

  /** One iteration of the loop: fetch and split the line at the PC (its
      entry in the table code), skip it if it does not split, otherwise
      dispatch it. */
  function Step(d: Draft, p: Program, code: seq<Splitting>, base: int, s: State): (r: Result)
    requires Decodes(p.executable, code)
    requires |s.registers| == 32 && 0 <= s.pc - base < |p.executable|
    ensures |r.state.registers| == 32
  {
    match code[s.pc - base]
    case Rejected => Result(s.(pc := s.pc + 1), Normal)
    case Crashed(e) => Result(s, Raised(e))
    case Decoded(i) => Dispatch(d, p, s, i)
  }

  /** One iteration keeps x0 at 0 and every memory cell a byte. */
  lemma StepSound(d: Draft, p: Program, code: seq<Splitting>, base: int, s: State)
    requires Decodes(p.executable, code) && Sound(s) && 0 <= s.pc - base < |p.executable|
    ensures Sound(Step(d, p, code, base, s).state)
  {
  }

  /** How a run of the loop ends: after the loop, or with fuel left over
      exhausted while the loop would go on. */
  datatype Run = Finished(state: State, outcome: Outcome) | OutOfFuel(state: State)

  /** The loop, for at most fuel iterations. An exception or exit ends it. */
  function RunLoop(d: Draft, p: Program, code: seq<Splitting>, base: int, s: State, fuel: nat): (r: Run)
    requires Decodes(p.executable, code) && |s.registers| == 32
    ensures |r.state.registers| == 32
    ensures r.Finished? && r.outcome == Normal ==> !Running(d, p, base, r.state)
    decreases fuel
  {
    if !Running(d, p, base, s) then Finished(s, Normal)
    else if fuel == 0 then OutOfFuel(s)
    else
      var r := Step(d, p, code, base, s);
      if r.outcome != Normal then Finished(r.state, r.outcome)
      else RunLoop(d, p, code, base, r.state, fuel - 1)
  }

  /** What `main` of finalGUI/backend_gui.py ends with. */
  datatype MainResult =
    | MemoryFailed(memory: map<int, int>, error: Outcome)
    | StartRejected(program: Program)
    | Executed(program: Program, run: Run)

  /** `main(instructions_text, memory_text, output, starting_pc)`: reset the
      state, load the memory text, then launch the program text. */
  function MainFinal(instructionsText: string, memoryText: string, startingPc: int, fuel: nat): MainResult
  {
    var loaded := MemoryText.LoadMemoryText(map[], memoryText);
    if loaded.outcome != Normal then MemoryFailed(loaded.memory, loaded.outcome)
    else Launch(FirstPass(PyText.SplitLines(instructionsText), startingPc), loaded.memory, startingPc, fuel)
  }

  /** The rest of that `main` once the label pass has produced p from the
      starting PC: check the starting PC and run the loop from zeroed
      registers and the loaded memory. */
  function Launch(p: Program, memory: map<int, int>, startingPc: int, fuel: nat): MainResult
  {
    var base := startingPc;
    var pc := startingPc;
    if pc < base || pc >= base + |p.executable| then StartRejected(p)
    else Executed(p, RunLoop(FinalGui, p, Decode(FinalGui, p.executable), base, State(Zeros, pc, memory, false), fuel))
  }

  /** `main` of store_load.py after `user_input`: the label pass counts from
      0, the state is left as it is, and the loop starts at the given PC. */
  function MainStoreLoad(lines: seq<string>, s: State, startingPc: int, fuel: nat): Run
    requires |s.registers| == 32
  {
    var p := FirstPass(lines, 0);
    RunLoop(StoreLoad, p, Decode(StoreLoad, p.executable), 0, s.(pc := startingPc), fuel)
  }

  // ---------------------------------------------------------------------
  // What one instruction does.

  /** An ALU operation with rd = 0 changes nothing; otherwise it changes at
      most `registers[rd]`, raises TypeError exactly when an operand is
      missing, and in finalGUI/backend_gui.py writes a 32-bit value. */
  lemma AluEffect(d: Draft, op: AluOp, s: State, rd: Option<int>, rs1: Option<int>, y: Option<int>)
    requires |s.registers| == 32
    requires rd.Some? ==> 0 <= rd.value < 32
    requires rs1.Some? ==> 0 <= rs1.value < 32
    ensures rd == Some(0) ==> ExecAlu(d, op, s, rd, rs1, y) == Result(s, Normal)
    ensures ExecAlu(d, op, s, rd, rs1, y).outcome == Raised(TypeError)
      <==> rd != Some(0) && (rd.None? || rs1.None? || y.None?)
    ensures ExecAlu(d, op, s, rd, rs1, y).outcome.Normal? || ExecAlu(d, op, s, rd, rs1, y).outcome == Raised(TypeError)
    ensures var t := ExecAlu(d, op, s, rd, rs1, y).state;
      t.pc == s.pc && t.memory == s.memory && t.stop == s.stop && |t.registers| == 32
      && forall j :: 0 <= j < 32 && rd != Some(j) ==> t.registers[j] == s.registers[j]
    ensures d == FinalGui && rd.Some? && rd != Some(0) && ExecAlu(d, op, s, rd, rs1, y).outcome.Normal? ==>
      0 <= ExecAlu(d, op, s, rd, rs1, y).state.registers[rd.value] < TWO32
  {
    if d == FinalGui && rd.Some? && rs1.Some? && y.Some? {
      FinalAluRange(op, s.registers[rs1.value], y.value);
    }
  }

  /** The load functions (`lw`, `lh`, …): rd = 0 returns before anything
      else, a missing operand is ignored, a label offset raises TypeError at
      `registers[rs1] + offset`, and otherwise only `registers[rd]` changes,
      to the draft's load of that address. */
  lemma LoadEffect(op: LoadOp, s: State, rd: Option<int>, rs1: Option<int>, offset: Arg)
    requires |s.registers| == 32
    requires rd.Some? ==> 0 <= rd.value < 32
    requires rs1.Some? ==> 0 <= rs1.value < 32
    ensures rd == Some(0) || rd.None? || rs1.None? || offset.Missing? ==>
      ExecLoad(op, s, rd, rs1, offset) == Result(s, Normal)
    ensures ExecLoad(op, s, rd, rs1, offset).outcome == Raised(TypeError)
      <==> rd.Some? && rd != Some(0) && rs1.Some? && offset.Text?
    ensures ExecLoad(op, s, rd, rs1, offset).outcome.Normal? || ExecLoad(op, s, rd, rs1, offset).outcome == Raised(TypeError)
    ensures var t := ExecLoad(op, s, rd, rs1, offset).state;
      t.pc == s.pc && t.memory == s.memory && t.stop == s.stop && |t.registers| == 32
      && forall j :: 0 <= j < 32 && rd != Some(j) ==> t.registers[j] == s.registers[j]
    ensures rd.Some? && rd != Some(0) && rs1.Some? && offset.Number? ==>
      ExecLoad(op, s, rd, rs1, offset).state.registers[rd.value]
        == LoadValue(op, s.memory, s.registers[rs1.value] + offset.n)
    ensures rd.Some? && rd != Some(0) && rs1.Some? && offset.Number? && ValidBytes(s.memory) ==>
      0 <= ExecLoad(op, s, rd, rs1, offset).state.registers[rd.value] < TWO32
  {
    if rd.Some? && rd != Some(0) && rs1.Some? && offset.Number? {
      var x := LoadValue(op, s.memory, s.registers[rs1.value] + offset.n);
      assert ExecLoad(op, s, rd, rs1, offset) == Result(Write(s, rd.value, x), Normal);
      if ValidBytes(s.memory) {
        LoadValueRange(op, s.memory, s.registers[rs1.value] + offset.n);
      }
    }
  }

  /** The store functions (`sw`, `sh`, `sb`): a missing operand is ignored,
      a label offset raises TypeError, and otherwise `registers[rs2]` is
      written at `registers[rs1] + offset`: the cells from that address on,
      as many as the store is wide, change and no other cell does, and the
      matching unsigned load reads the low bits of the value back. */
  lemma StoreEffect(op: StoreOp, s: State, rs2: Option<int>, rs1: Option<int>, offset: Arg)
    requires |s.registers| == 32
    requires rs2.Some? ==> 0 <= rs2.value < 32
    requires rs1.Some? ==> 0 <= rs1.value < 32
    ensures rs1.None? || rs2.None? || offset.Missing? ==>
      ExecStore(op, s, rs2, rs1, offset) == Result(s, Normal)
    ensures ExecStore(op, s, rs2, rs1, offset).outcome == Raised(TypeError)
      <==> rs1.Some? && rs2.Some? && offset.Text?
    ensures ExecStore(op, s, rs2, rs1, offset).outcome.Normal? || ExecStore(op, s, rs2, rs1, offset).outcome == Raised(TypeError)
    ensures var t := ExecStore(op, s, rs2, rs1, offset).state;
      t.registers == s.registers && t.pc == s.pc && t.stop == s.stop
    ensures rs1.Some? && rs2.Some? && offset.Number? ==>
      var a := s.registers[rs1.value] + offset.n;
      var m := ExecStore(op, s, rs2, rs1, offset).state.memory;
      WrittenOnly(s.memory, m, a, StoreWidth(op))
    ensures rs1.Some? && rs2.Some? && offset.Number? && ValidBytes(s.memory) ==>
      var a := s.registers[rs1.value] + offset.n;
      var m := ExecStore(op, s, rs2, rs1, offset).state.memory;
      LoadValue(ReadBack(op), m, a)
        == s.registers[rs2.value] % StoredRange(op)
  {
    if rs1.Some? && rs2.Some? && offset.Number? {
      var a := s.registers[rs1.value] + offset.n;
      var v := s.registers[rs2.value];
      assert ExecStore(op, s, rs2, rs1, offset).state.memory == Stored(op, s.memory, a, v);
      StoredFrame(op, s.memory, a, v);
      if ValidBytes(s.memory) { StoredReadBack(op, s.memory, a, v); }
    }
  }

  /** The call a decoded instruction makes, before `main` re-zeroes x0. */
  function Call(d: Draft, p: Program, s: State, i: Instr): (r: Result)
    requires |s.registers| == 32 && RegistersInRange(i)
    ensures |r.state.registers| == 32 && r.state.registers[0] == s.registers[0]
    ensures ValidBytes(s.memory) ==> ValidBytes(r.state.memory)
  {
    match i.op
    case Alu(op) => Advance(ExecAlu(d, op, s, i.rd, i.rs1, SecondOperand(s, i)))
    case Branch(op) =>
      var (t, taken) := ExecBranch(op, p, s, i.rs1, i.rs2, i.arg);
      Result(if taken then t else t.(pc := t.pc + 1), Normal)
    case Load(op) => Advance(ExecLoad(op, s, i.rd, i.rs1, i.arg))
    case Store(op) => Advance(ExecStore(op, s, i.rs2, i.rs1, i.arg))
    case Upper(op) => Advance(ExecUpper(op, s, i.rd, i.arg))
    case JAL => ExecJal(p, s, i.rd, i.arg)
    case JALR => ExecJalr(p, s, i.rd, i.rs1, i.arg)
    case System(op) => Advance(ExecSystem(d, op, s))
  }

  /** Every instruction function leaves x0 alone when it holds 0 (each write
      is guarded by `rd != 0`), so the reset after each iteration never
      changes anything. */
  lemma ResetRedundant(d: Draft, p: Program, s: State, i: Instr)
    requires |s.registers| == 32 && s.registers[0] == 0 && RegistersInRange(i)
    ensures Call(d, p, s, i).state.registers[0] == 0
    ensures Dispatch(d, p, s, i) == Call(d, p, s, i)
  {
    var r := Call(d, p, s, i);
    match i.op {
      case Alu(op) => AluEffect(d, op, s, i.rd, i.rs1, SecondOperand(s, i));
      case Branch(op) =>
      case Load(op) =>
      case Store(op) =>
      case Upper(op) =>
      case JAL =>
      case JALR =>
      case System(op) =>
    }
    assert r.state.registers[0 := 0] == r.state.registers;
  }

  /** `SW x_data, off(x_base)` then `LW x_rd, off(x_base)`, as `main`
      dispatches them: both steps complete and advance the PC, and x_rd ends
      up holding the low 32 bits of x_data while every other register is
      unchanged. RenderRoundTrip shows these are the instructions the two
      assembly lines split into. */
  lemma StoreLoadDispatch(d: Draft, p: Program, s: State, data: nat, base: nat, rd: nat, off: int)
    requires Sound(s) && data < 32 && base < 32 && 0 < rd < 32
    ensures var t := Dispatch(d, p, s, Instr(Store(SW), None, Some(base), Some(data), Number(off)));
      var u := Dispatch(d, p, t.state, Instr(Load(LW), Some(rd), Some(base), None, Number(off)));
      t.outcome == Normal && u.outcome == Normal && u.state.pc == s.pc + 2
      && u.state.registers[rd] == s.registers[data] % TWO32
      && forall j :: 0 <= j < 32 && j != rd ==> u.state.registers[j] == s.registers[j]
  {
    var a := s.registers[base] + off;
    var v := s.registers[data];
    var m := Stored(SW, s.memory, a, v);
    StoreDispatch(d, p, s, data, base, off);
    var t := s.(memory := m, pc := s.pc + 1);
    assert Dispatch(d, p, s, Instr(Store(SW), None, Some(base), Some(data), Number(off))) == Result(t, Normal);
    StoredReadBack(SW, s.memory, a, v);
    var x := LoadValue(LW, m, a);
    assert x == v % TWO32;
    LoadDispatch(d, p, t, rd, base, off);
    assert Dispatch(d, p, t, Instr(Load(LW), Some(rd), Some(base), None, Number(off)))
      == Result(t.(registers := s.registers[rd := x], pc := t.pc + 1), Normal);
  }

  /** A decoded SW with every operand present writes memory and advances. */
  lemma StoreDispatch(d: Draft, p: Program, s: State, data: nat, base: nat, off: int)
    requires Sound(s) && data < 32 && base < 32
    ensures Dispatch(d, p, s, Instr(Store(SW), None, Some(base), Some(data), Number(off)))
      == Result(s.(memory := Stored(SW, s.memory, s.registers[base] + off, s.registers[data]), pc := s.pc + 1), Normal)
  {
    assert s.registers[0 := 0] == s.registers;
  }

  /** A decoded LW with every operand present writes rd and advances. */
  lemma LoadDispatch(d: Draft, p: Program, t: State, rd: nat, base: nat, off: int)
    requires |t.registers| == 32 && t.registers[0] == 0 && 0 < rd < 32 && base < 32
    ensures Dispatch(d, p, t, Instr(Load(LW), Some(rd), Some(base), None, Number(off)))
      == Result(t.(registers := t.registers[rd := LoadValue(LW, t.memory, t.registers[base] + off)], pc := t.pc + 1), Normal)
  {
    var i := Instr(Load(LW), Some(rd), Some(base), None, Number(off));
    var w := t.registers[rd := LoadValue(LW, t.memory, t.registers[base] + off)];
    assert ExecLoad(LW, t, Some(rd), Some(base), Number(off)) == Result(t.(registers := w), Normal);
    assert Call(d, p, t, i) == Result(t.(registers := w, pc := t.pc + 1), Normal);
    assert w[0 := 0] == w;
  }

  /** The branch functions as dispatched: the PC becomes the label's value
      when the condition holds and the label is known, and otherwise moves
      on by one; nothing else changes. */
  lemma BranchEffect(d: Draft, p: Program, s: State, i: Instr)
    requires |s.registers| == 32 && s.registers[0] == 0 && RegistersInRange(i) && i.op.Branch?
    ensures Dispatch(d, p, s, i).outcome == Normal
    ensures var t := Dispatch(d, p, s, i).state;
      t.registers == s.registers && t.memory == s.memory && t.stop == s.stop
    ensures Dispatch(d, p, s, i).state.pc ==
      if i.rs1.Some? && i.rs2.Some? && BranchTaken(i.op.branch, s.registers[i.rs1.value], s.registers[i.rs2.value])
         && i.arg.Text? && i.arg.s in p.labels
      then p.labels[i.arg.s] else s.pc + 1
  {
    ResetRedundant(d, p, s, i);
  }

  /** `jal` writes PC + 1 into rd (unless rd is 0) before it looks the label
      up, and raises ValueError, with the link kept, on an unknown label. */
  lemma JalEffect(p: Program, s: State, rd: int, target: Arg)
    requires |s.registers| == 32 && 0 <= rd < 32
    ensures var r := ExecJal(p, s, Some(rd), target);
      r.state.memory == s.memory && r.state.stop == s.stop
      && (rd != 0 ==> r.state.registers[rd] == s.pc + 1)
      && (forall j :: 0 <= j < 32 && j != rd ==> r.state.registers[j] == s.registers[j])
    ensures ExecJal(p, s, Some(rd), target).outcome == Normal <==> target.Text? && target.s in p.labels
    ensures ExecJal(p, s, Some(rd), target).outcome != Normal ==>
      ExecJal(p, s, Some(rd), target).outcome == Raised(ValueError) && ExecJal(p, s, Some(rd), target).state.pc == s.pc
    ensures ExecJal(p, s, Some(rd), target).outcome == Normal ==>
      ExecJal(p, s, Some(rd), target).state.pc == p.labels[target.s]
  {
  }

  /** `jalr` writes PC + 1 into rd (unless rd is 0), then jumps to
      `(registers[rs1] + imm) & 0xFFFFFFFF` if that indexes the executable
      list and calls `sys.exit(1)` otherwise. When rs1 is rd, the base is
      the link just written. */
  lemma JalrEffect(p: Program, s: State, rd: int, rs1: int, imm: int)
    requires |s.registers| == 32 && 0 <= rd < 32 && 0 <= rs1 < 32
    ensures var r := ExecJalr(p, s, Some(rd), Some(rs1), Number(imm));
      r.state.memory == s.memory && r.state.stop == s.stop
      && (rd != 0 ==> r.state.registers[rd] == s.pc + 1)
      && (forall j :: 0 <= j < 32 && j != rd ==> r.state.registers[j] == s.registers[j])
    ensures var base := if rs1 == rd && rd != 0 then s.pc + 1 else s.registers[rs1];
      var target := Mask32(base + imm);
      var r := ExecJalr(p, s, Some(rd), Some(rs1), Number(imm));
      (r.outcome == Normal <==> target < |p.executable|)
      && (r.outcome == Normal ==> r.state.pc == target)
      && (r.outcome != Normal ==> r.outcome == Exited(1) && r.state.pc == s.pc)
  {
  }

  /** The target of `jalr` is an index into the executable list, never
      offset by the base address, while labels and the loop condition are:
      with a base address at least the program's length, a `jalr` that
      returns always leaves the loop. */
  lemma JalrIgnoresBase(d: Draft, p: Program, base: int, s: State, i: Instr)
    requires |s.registers| == 32 && RegistersInRange(i) && i.op == JALR
    requires base >= |p.executable|
    ensures Dispatch(d, p, s, i).outcome == Normal ==>
      0 <= Dispatch(d, p, s, i).state.pc < |p.executable|
      && !Running(d, p, base, Dispatch(d, p, s, i).state)
  {
  }

  /** `lui` and `auipc` with rd = 0 change nothing; otherwise they write the
      upper immediate (plus the instruction index for `auipc`) to rd. */
  lemma UpperEffect(op: UpperOp, s: State, rd: int, imm: int)
    requires |s.registers| == 32 && 0 <= rd < 32
    ensures rd == 0 ==> ExecUpper(op, s, Some(rd), Number(imm)) == Result(s, Normal)
    ensures var r := ExecUpper(op, s, Some(rd), Number(imm));
      r.outcome == Normal && r.state.pc == s.pc && r.state.memory == s.memory
      && (forall j :: 0 <= j < 32 && j != rd ==> r.state.registers[j] == s.registers[j])
    ensures rd != 0 ==>
      ExecUpper(op, s, Some(rd), Number(imm)).state.registers[rd]
      == (match op
          case LUI => (imm % 0x10_0000) * 0x1000
          case AUIPC => (s.pc + (imm % 0x10_0000) * 0x1000) % TWO32)
  {
    UpperMeaning(imm, s.pc);
  }

  /** The system instructions as dispatched. In finalGUI/backend_gui.py
      ECALL and EBREAK set the stop flag and the rest only move on; in
      store_load.py ECALL, EBREAK and HALT exit with status 0. */
  lemma SystemEffect(d: Draft, p: Program, s: State, op: SystemOp)
    requires |s.registers| == 32 && s.registers[0] == 0
    ensures var r := Dispatch(d, p, s, Instr(System(op), None, None, None, Missing));
      if d == StoreLoad && op in {ECALL, EBREAK, HALT} then r == Result(s, Exited(0))
      else r == Result(s.(pc := s.pc + 1, stop := s.stop || (op in {ECALL, EBREAK})), Normal)
  {
    var i := Instr(System(op), None, None, None, Missing);
    ResetRedundant(d, p, s, i);
  }

  // ---------------------------------------------------------------------
  // One iteration of the loop.

  /** A line that does not split, HALT in finalGUI/backend_gui.py among
      them, moves the PC on by one without touching anything else. */
  lemma RejectedSkipped(d: Draft, p: Program, code: seq<Splitting>, base: int, s: State)
    requires Decodes(p.executable, code)
    requires |s.registers| == 32 && 0 <= s.pc - base < |p.executable|
    requires code[s.pc - base] == SplitInstruction(PyText.Strip(p.executable[s.pc - base]), d == StoreLoad)
    requires SplitInstruction(PyText.Strip(p.executable[s.pc - base]), d == StoreLoad) == Rejected
    ensures Step(d, p, code, base, s) == Result(s.(pc := s.pc + 1), Normal)
  {
  }

  /** How the drafts split a line whose first token is `HALT` in any
      case: the operands after it are ignored. */
  lemma HaltSplits(d: Draft, line: string)
    requires var parts := Tokens(CleanLine(line)); |parts| >= 1 && PyText.Upper(parts[0]) == "HALT"
    ensures SplitInstruction(PyText.Strip(line), d == StoreLoad)
      == if d == FinalGui then Rejected else Decoded(Instr(System(HALT), None, None, None, Missing))
  {
    PyText.StripKeeps(PyText.Strip(line));
    assert CleanLine(PyText.Strip(line)) == CleanLine(line);
    var parts := Tokens(CleanLine(line));
    assert Name(System(HALT)) == "HALT";
    LookupName(System(HALT));
    assert SplitClean(CleanLine(line), d == StoreLoad) == SplitOperands(System(HALT), parts, d == StoreLoad);
  }

  // ---------------------------------------------------------------------
  // The loop.

  /** The loop keeps the machine sound. */
  lemma {:induction false} RunLoopSound(d: Draft, p: Program, code: seq<Splitting>, base: int, s: State, fuel: nat)
    requires Decodes(p.executable, code) && Sound(s)
    ensures Sound(RunLoop(d, p, code, base, s, fuel).state)
    decreases fuel
  {
    if Running(d, p, base, s) && fuel > 0 {
      var r := Step(d, p, code, base, s);
      StepSound(d, p, code, base, s);
      if r.outcome == Normal {
        RunLoopSound(d, p, code, base, r.state, fuel - 1);
      }
    }
  }

  /** The three cases of Step, by the table entry at the PC. */
  lemma StepCases(d: Draft, p: Program, code: seq<Splitting>, base: int, s: State)
    requires Decodes(p.executable, code)
    requires |s.registers| == 32 && 0 <= s.pc - base < |p.executable|
    ensures code[s.pc - base] == Rejected ==> Step(d, p, code, base, s) == Result(s.(pc := s.pc + 1), Normal)
    ensures code[s.pc - base].Crashed? ==> Step(d, p, code, base, s) == Result(s, Raised(code[s.pc - base].error))
    ensures code[s.pc - base].Decoded? ==> Step(d, p, code, base, s) == Dispatch(d, p, s, code[s.pc - base].instr)
  {
  }

  /** The loop resumed at s with rest + 1 iterations left ends as goal; one
      step to t that ends normally leaves t with rest iterations to end as
      goal, and one that raises is goal's end. */
  lemma RunLoopContinues(d: Draft, p: Program, code: seq<Splitting>, base: int, s: State, t: State, out: Outcome, rest: nat, goal: Run)
    requires Decodes(p.executable, code) && |s.registers| == 32
    requires Running(d, p, base, s) && RunLoop(d, p, code, base, s, rest + 1) == goal
    requires Result(t, out) == Step(d, p, code, base, s)
    ensures out == Normal ==> RunLoop(d, p, code, base, t, rest) == goal
    ensures out != Normal ==> Finished(t, out) == goal
  {
  }

  /** The loop resumed at s ends there when it no longer runs, and runs out
      of fuel there when it still would. */
  lemma RunLoopEnds(d: Draft, p: Program, code: seq<Splitting>, base: int, s: State, f: nat)
    requires Decodes(p.executable, code) && |s.registers| == 32
    ensures !Running(d, p, base, s) ==> RunLoop(d, p, code, base, s, f) == Finished(s, Normal)
    ensures Running(d, p, base, s) && f == 0 ==> RunLoop(d, p, code, base, s, f) == OutOfFuel(s)
  {
  }

  /** More fuel does not change a run that finished. */
  lemma {:induction false} RunLoopFuel(d: Draft, p: Program, code: seq<Splitting>, base: int, s: State, fuel: nat, more: nat)
    requires Decodes(p.executable, code) && |s.registers| == 32 && fuel <= more
    requires RunLoop(d, p, code, base, s, fuel).Finished?
    ensures RunLoop(d, p, code, base, s, more) == RunLoop(d, p, code, base, s, fuel)
    decreases fuel
  {
    if Running(d, p, base, s) && fuel > 0 {
      var r := Step(d, p, code, base, s);
      if r.outcome == Normal {
        RunLoopFuel(d, p, code, base, r.state, fuel - 1, more - 1);
        assert RunLoop(d, p, code, base, s, fuel) == RunLoop(d, p, code, base, r.state, fuel - 1);
        assert RunLoop(d, p, code, base, s, more) == RunLoop(d, p, code, base, r.state, more - 1);
      }
    }
  }

  /** `main` of finalGUI/backend_gui.py returns before executing anything
      exactly when the memory text loads and no line of the program is an
      instruction line. */
  lemma MainFinalRejects(instructionsText: string, memoryText: string, startingPc: int, fuel: nat)
    ensures var kinds := Kinds(PyText.SplitLines(instructionsText));
      MainFinal(instructionsText, memoryText, startingPc, fuel).StartRejected?
      <==> MemoryText.LoadMemoryText(map[], memoryText).outcome == Normal
           && forall k :: 0 <= k < |kinds| ==> !kinds[k].Instruction?
  {
    var lines := PyText.SplitLines(instructionsText);
    var kinds := Kinds(lines);
    EmptyProgram(kinds, startingPc);
    assert FirstPass(lines, startingPc) == Pass(kinds, startingPc);
  }

  /** When it runs, `main` of finalGUI/backend_gui.py keeps the state sound
      and, unless it raises, exits or runs out of fuel, stops where the
      loop condition fails. */
  lemma MainFinalRuns(instructionsText: string, memoryText: string, startingPc: int, fuel: nat)
    ensures var r := MainFinal(instructionsText, memoryText, startingPc, fuel);
      r.Executed? ==>
        Sound(r.run.state)
        && (r.run.Finished? && r.run.outcome == Normal ==> !Running(FinalGui, r.program, startingPc, r.run.state))
  {
    MemoryText.MemoryTextBytes(map[], memoryText);
    var loaded := MemoryText.LoadMemoryText(map[], memoryText);
    var p := FirstPass(PyText.SplitLines(instructionsText), startingPc);
    if loaded.outcome == Normal && 0 <= startingPc - startingPc < |p.executable| {
      RunLoopSound(FinalGui, p, Decode(FinalGui, p.executable), startingPc, State(Zeros, startingPc, loaded.memory, false), fuel);
    }
  }

  /** `main` of store_load.py executes nothing when the starting PC is not
      an index of the executable list. */
  lemma MainStoreLoadOutOfRange(lines: seq<string>, s: State, startingPc: int, fuel: nat)
    requires |s.registers| == 32
    requires startingPc < 0 || startingPc >= |FirstPass(lines, 0).executable|
    ensures MainStoreLoad(lines, s, startingPc, fuel) == Finished(s.(pc := startingPc), Normal)
  {
  }

  /** The two drafts run every instruction but the ALU and system ones the
      same way. */
  lemma DraftsAgree(p: Program, s: State, i: Instr)
    requires |s.registers| == 32 && RegistersInRange(i) && !i.op.Alu? && !i.op.System?
    ensures Dispatch(FinalGui, p, s, i) == Dispatch(StoreLoad, p, s, i)
  {
  }
}
