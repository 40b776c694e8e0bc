# RV32I instruction-index simulator, modelled in Dafny

The repository is a small Python simulator for a subset of the RV32I base
integer instruction set. It exists in three overlapping drafts.

- `finalGUI/backend_gui.py` is the most complete draft and the primary model.
  It has a sparse byte memory, 32 registers and one function per mnemonic.
  It has a line splitter that yields a six-field tuple, a first pass that
  records labels, a text memory loader and a fetch–execute loop.
- `store_load.py` has the same structure. Its logic operations, SLT/SLTI,
  SRA/SRAI and system instructions behave differently.
- `rv32i_simulator_v1.py` is an early draft. It has a different splitter, a
  loop that steps over raw file lines, and several x0, masking and
  label-lookup quirks.

The program counter is an instruction index in every draft, not a byte
address. The model follows the code wherever the code departs from the
ISA:
- BLT/BGE compare the stored unsigned values.
- AUIPC adds `imm << 12` to that index.
- JALR in the later drafts does not clear bit 0.
- rv32i_simulator_v1.py's `main` keys labels by raw line number.

Modules, one file each:

| module | file | models |
|---|---|---|
| `Wrappers` | wrappers.dfy | `Option` |
| `PyInt` | py_int.dfy | Python's unbounded `int`: `&`, `\|`, `^`, `<<`, `>>` on two's-complement integers; the masks; `to_signed32` |
| `PyText` | py_text.dfy | the `str` methods the drafts use: `strip`, `split()`, `split(c)`, `replace`, `upper`, `splitlines`, `isdigit`, `int(s)`, `int(s, 0)` |
| `Isa` | isa.dfy | the mnemonics and the `instructions` dispatch table |
| `Memory` | memory.dfy | the byte-map memory helpers shared by all three drafts, including a `ByteMemory` class whose `cells` map the stores update |
| `Semantics` | semantics.dfy | the value each instruction function computes, draft by draft |
| `Parser` | parser.dfy | `parse_register`, `parse_immediate` and `instruction_splitting` of the two later drafts |
| `Labels` | labels.dfy | the label passes: `main`'s first pass, `scan_labels`/`register_labels`, and the line-number pass of rv32i_simulator_v1.py |
| `MemoryText` | memory_text.dfy | `load_memory_from_text` |
| `Machine` | machine.dfy | one instruction and the fetch–execute loop of the two later drafts, as functions of a state value |
| `Simulator` | hart.dfy | class `Hart`: the module-level `registers`, `program_counter`, `stop_simulation`, `labels` and `executable_instructions`, updated in place by one method per instruction family and by `main` |
| `EarlyParser` | early_parser.dfy | rv32i_simulator_v1.py's `instruction_splitting` |
| `EarlyMachine` | early.dfy | rv32i_simulator_v1.py's instruction functions and `main` loop, as functions of a state value |
| `EarlySimulator` | early_hart.dfy | class `EarlyHart`: rv32i_simulator_v1.py's globals, updated in place |

Each method of `Hart` and `EarlyHart` is proved to leave the object in the
state the matching `Machine`/`EarlyMachine` function computes from the old
state. The properties are proved as lemmas about those functions.
Exceptions and `sys.exit` become outcome values: `Raised(TypeError)`,
`Raised(ValueError)`, `Raised(IndexError)` and `Exited(code)`. The loops
take a fuel bound and report when it runs out.

## Model

| member | source | states |
|---|---|---|
| PyInt.Mask32 | finalGUI/backend_gui.py:57-61 | `x & 0xFFFFFFFF` always lies in [0, 2^32) |
| PyInt.Mask8 | finalGUI/backend_gui.py:18-19 | `x & 0xFF` always lies in [0, 256) |
| PyInt.Mask16 | finalGUI/backend_gui.py:385 | `x & 0xFFFF` always lies in [0, 65536) |
| PyInt.ShiftAmount | finalGUI/backend_gui.py:116-121 | the shift count `y & 0x1F` is below 32 |
| PyInt.MasksAreAnds | finalGUI/backend_gui.py:116-184 | the masks and the shift count equal Python's `&` with 0xFFFFFFFF, 0xFFFF, 0xFF and 0x1F on every integer, negative ones included |
| PyInt.BitwiseSign | store_load.py:68-84 | the sign of `a & b`, `a \| b`, `a ^ b` is the same operation on the signs, so ORI/XORI with a negative immediate give a negative result |
| PyInt.BitwiseCommutes | finalGUI/backend_gui.py:168-184 | `&`, `\|`, `^` are commutative on all integers |
| PyInt.AndLowMask | finalGUI/backend_gui.py:18-29 | `x & (2^k - 1)` is `x mod 2^k` |
| PyInt.AndBit | finalGUI/backend_gui.py:12 | `x & 2^k` is 2^k exactly when bit k of x is set |
| PyInt.OrDisjoint | finalGUI/backend_gui.py:49-54 | or-ing a value shifted past the other's bits is addition |
| PyInt.BitwiseBound | finalGUI/backend_gui.py:174-184 | a bitwise result of two values in [0, 2^k) stays in [0, 2^k) |
| PyInt.AndNotOne | rv32i_simulator_v1.py:391 | `x & ~1` is x with its lowest bit cleared, `x - x % 2` |
| PyInt.BitSetIsAnd | finalGUI/backend_gui.py:12 | the bit test used for sign checks equals `x & 2^k != 0` |
| PyInt.ToSigned32Range | finalGUI/backend_gui.py:10-16 | `to_signed32(v)` subtracts 2^32 exactly when v ≥ 2^31, lies in [-2^31, 2^31) and is congruent to v mod 2^32 |
| PyInt.SignedRoundTrip | finalGUI/backend_gui.py:10-16 | `to_signed32(q & 0xFFFFFFFF) == q` for every q in the signed 32-bit range |
| PyText.Strip | finalGUI/backend_gui.py:479 | `strip()` drops leading and trailing whitespace and nothing more |
| PyText.LStripDrops | finalGUI/backend_gui.py:479 | the characters `lstrip` removes are exactly a whitespace prefix |
| PyText.RStripDrops | finalGUI/backend_gui.py:479 | the characters `rstrip` removes are exactly a whitespace suffix |
| PyText.SplitWords | finalGUI/backend_gui.py:486 | every field of `split()` is non-empty and has no whitespace |
| PyText.SplitJoin | finalGUI/backend_gui.py:486 | `split()` of words joined by whitespace gives the words back |
| PyText.SplitOn | finalGUI/backend_gui.py:495 | `split(c)` yields at least one piece and no piece contains c |
| PyText.SplitOnJoin | finalGUI/backend_gui.py:495 | joining the pieces of `split(c)` with c gives the string back |
| PyText.ReplaceChar | finalGUI/backend_gui.py:486 | `replace(a, b)` changes exactly the occurrences of a, position by position |
| PyText.RemoveChar | rv32i_simulator_v1.py:560 | `replace(',', '')` leaves no comma and never lengthens the line |
| PyText.RemoveJoin | rv32i_simulator_v1.py:560 | deleting a character from joined words deletes it from the separator only |
| PyText.Upper | finalGUI/backend_gui.py:487 | `upper()` keeps the length and upper-cases each character |
| PyText.SplitLines | finalGUI/backend_gui.py:674-675 | no line of `splitlines()` holds a line break |
| PyText.SplitLinesUnlines | finalGUI/backend_gui.py:654 | `splitlines()` of lines joined by newlines gives the lines back |
| PyText.ShowNat | finalGUI/backend_gui.py:465 | the decimal rendering is all digits, without a leading zero |
| PyText.ParseDecimalShow | finalGUI/backend_gui.py:465 | `int(s)` of the decimal rendering of n is n |
| PyText.ParseAutoShow | finalGUI/backend_gui.py:471-476 | `int(s, 0)` of the decimal rendering of n is n, negatives included |
| Isa.Find | finalGUI/backend_gui.py:750 | the lookup returns a mnemonic of the table with that name, or none when no mnemonic has it |
| Isa.NamesDistinct | finalGUI/backend_gui.py:750 | two mnemonics with the same name are the same mnemonic |
| Isa.AllListed | finalGUI/backend_gui.py:750 | every mnemonic is in the dispatch table |
| Isa.LookupName | finalGUI/backend_gui.py:750 | looking up a mnemonic's name finds that mnemonic |
| Memory.LoadByte | finalGUI/backend_gui.py:31-34 | `load_byte` of an unwritten address is 0, and of a byte memory is in [0, 256) |
| Memory.ByteJoin | finalGUI/backend_gui.py:39 | `(hi << 8) \| lo` is `hi * 256 + lo` for a byte lo |
| Memory.HalfwordValue | finalGUI/backend_gui.py:44-47 | `load_halfword_unsigned` is the little-endian value of two bytes, in [0, 2^16) |
| Memory.WordValue | finalGUI/backend_gui.py:49-54 | `load_word` is the little-endian value of four bytes, least significant first, in [0, 2^32) |
| Memory.HalfwordSignExtension | finalGUI/backend_gui.py:36-42 | `load_halfword` adds 0xFFFF0000 exactly when the high byte is ≥ 0x80 (bit 15 set), and stays in [0, 2^32) |
| Memory.HalfwordEarlyAgrees | rv32i_simulator_v1.py:32-37 | the early draft's `load_halfword` computes the same value as the final one |
| Memory.ByteSignExtension | finalGUI/backend_gui.py:317-320 | LB adds 0xFFFFFF00 exactly when bit 7 is set; the early draft's form agrees |
| Memory.WordStoredFrame | finalGUI/backend_gui.py:25-29 | `store_word` adds exactly addresses a..a+3 and leaves every other address unchanged |
| Memory.WordStoredBytes | finalGUI/backend_gui.py:25-29 | `store_word` puts byte k of v at a+k, least significant byte first |
| Memory.StoresKeepBytes | finalGUI/backend_gui.py:18-29 | byte, halfword and word stores keep every cell a byte |
| Memory.WordRoundTrip | finalGUI/backend_gui.py:25-29 | after `store_word(a, v)`, `load_word(a)` is `v & 0xFFFFFFFF` |
| Memory.HalfwordRoundTrip | finalGUI/backend_gui.py:21-23 | after `store_halfword(a, v)`, the unsigned load gives `v mod 2^16` and the signed load its sign extension |
| Memory.ByteRoundTrip | finalGUI/backend_gui.py:18-19 | after `store_byte(a, v)`, `load_byte(a)` is `v & 0xFF` |
| Memory.ByteMemory.constructor | finalGUI/backend_gui.py:6 | the memory starts empty |
| Memory.ByteMemory.Clear | finalGUI/backend_gui.py:688 | `memory = {}` leaves an empty map |
| Memory.ByteMemory.StoreByte | finalGUI/backend_gui.py:18-19 | the cells become the old cells with `value & 0xFF` at address |
| Memory.ByteMemory.StoreHalfword | finalGUI/backend_gui.py:21-23 | the cells become the old cells with the two low bytes stored little-endian |
| Memory.ByteMemory.StoreWord | finalGUI/backend_gui.py:25-29 | the cells become the old cells with the four low bytes stored little-endian |
| Semantics.Stored | finalGUI/backend_gui.py:359-388 | SW/SB/SH keep every cell a byte |
| Semantics.FinalAluRange | finalGUI/backend_gui.py:57-184 | every ALU result of backend_gui.py lies in [0, 2^32) |
| Semantics.FinalShiftMeaning | finalGUI/backend_gui.py:116-158 | SRL/SRLI divide by 2^(y&0x1F); SLL/SLLI multiply and wrap mod 2^32; SRA/SRAI read as signed equal the signed value floor-divided by 2^(y&0x1F) |
| Semantics.SetLessThanMeaning | finalGUI/backend_gui.py:93-114 | SLTU compares unsigned; SLT agrees with SLTU when the signs match and gives the opposite answer when they differ |
| Semantics.SltiMatchesSlt | finalGUI/backend_gui.py:101-106 | SLTI with a signed 32-bit immediate equals SLT against the immediate's 32-bit pattern |
| Semantics.BranchesCompareUnsigned | finalGUI/backend_gui.py:223-293 | on stored 32-bit values BLT and BLTU agree with SLTU, and BGE and BGEU are their negation; for 0xFFFFFFFF and 0, SLT says less but BLT does not branch |
| Semantics.UpperMeaning | finalGUI/backend_gui.py:415-431 | LUI writes `(imm mod 2^20) * 4096`; AUIPC adds that to the instruction index mod 2^32 |
| Semantics.LoadValueRange | finalGUI/backend_gui.py:296-357 | every load result of a byte memory lies in [0, 2^32) |
| Semantics.StoredFrame | finalGUI/backend_gui.py:18-29 | `store_word`, `store_halfword` and `store_byte` write the four, two or one cells from the address on, and no other cell |
| Semantics.StoredReadBack | finalGUI/backend_gui.py:31-54 | LW, LHU and LBU after SW, SH and SB at the same address read back the value mod 2^32, 2^16 and 2^8 |
| Semantics.StoreThenLoad | finalGUI/backend_gui.py:296-388 | LW after SW, LHU/LH after SH and LBU/LB after SB at the same address return the stored low bits, with sign extension for LH and LB |
| Semantics.EarlyLoadsAgree | rv32i_simulator_v1.py:214-293 | the early draft's loads equal the final ones, except that its LHU behaves as LH |
| Semantics.EarlyLhuSignExtends | rv32i_simulator_v1.py:280-293 | the early LHU sign-extends when the high byte is ≥ 0x80, unlike the final LHU |
| Semantics.OrSelf | rv32i_simulator_v1.py:263-277 | `x \| x == x`, so extending an extended halfword again changes nothing |
| Semantics.OrAssociates | rv32i_simulator_v1.py:263-277 | or-ing the same mask twice equals or-ing it once |
| Semantics.StoreLoadSraAgrees | store_load.py:118-156 | store_load.py's hand-filled SRA/SRAI equal backend_gui.py's on every 32-bit input |
| Semantics.ManualSraMeaning | store_load.py:118-129 | the hand-filled shift is the sign-propagating shift of `to_signed32(x)`, re-masked |
| Semantics.SraNegative | store_load.py:122-125 | with bit 31 set, `((v >> s) \| (0xFFFFFFFF << (32 - s))) & 0xFFFFFFFF` equals the arithmetic shift of v - 2^32 |
| Semantics.SraFill | store_load.py:122-125 | the fill mask or-ed onto the shifted value adds the fill bits above it |
| Semantics.SraWraps | store_load.py:122-125 | the filled value and the arithmetic shift agree mod 2^32 |
| Semantics.StoreLoadLogic | store_load.py:68-84 | the unmasked logic operations agree with backend_gui.py on 32-bit operands; OR/ORI/XOR/XORI with a negative operand give a negative result |
| Semantics.StoreLoadSltUnsigned | store_load.py:86-96 | SLT compares the stored values, so on 32-bit values it equals SLTU; SLTI with a negative immediate is always 0 |
| Semantics.EarlyMasking | rv32i_simulator_v1.py:55-122 | apart from SLT/SLTI/SRA/SRAI, masking the early draft's raw result gives backend_gui.py's result |
| Semantics.EarlySraLogical | rv32i_simulator_v1.py:104-106 | the early SRA/SRAI on a 32-bit pattern is the logical shift; the raw ADD of 0xFFFFFFFF and 1 is 2^32 and SUB can go negative |
| Parser.StripAvoids | finalGUI/backend_gui.py:479-481 | after `split('#')[0].strip()` no `#` is left |
| Parser.CleanLineFacts | finalGUI/backend_gui.py:479-481 | the cleaned line has no `#`, no surrounding whitespace, and cleaning it again changes nothing |
| Parser.ParseRegister | finalGUI/backend_gui.py:462-469 | the result is a register number exactly when the stripped text is `x` or `X` followed by ASCII digits whose `int` value is below 32, and then it is that value; otherwise None |
| Parser.RegisterNameFacts | finalGUI/backend_gui.py:462-469 | `parse_register("x" + r)` is r when r < 32 and None otherwise |
| Parser.OffsetOperandFacts | finalGUI/backend_gui.py:494-497 | `imm(xN)` splits on `(` into the immediate and the base register, and both parse back |
| Parser.SplitOperands | finalGUI/backend_gui.py:489-592 | a decoded line carries its own mnemonic, an accepted operand count and registers in 0..31 |
| Parser.SplitInstruction | finalGUI/backend_gui.py:478-592 | only a non-blank line with no fields crashes, with IndexError; a decoded line's first field upper-cases to the mnemonic, and its operand count fits the mnemonic |
| Parser.SplitClean | finalGUI/backend_gui.py:486-592 | the same facts for an already cleaned line |
| Parser.LineTokens | finalGUI/backend_gui.py:486 | a rendered `NAME op, op` line is clean and splits into the name and its operands |
| Parser.OperandsRoundTrip | finalGUI/backend_gui.py:489-584 | each operand form (memory, register, immediate, upper, branch/jump) of a canonical instruction decodes back to that instruction |
| Parser.RenderRoundTrip | finalGUI/backend_gui.py:478-592 | splitting the rendered text of a canonical instruction gives the instruction back |
| Parser.JalDefaultsToX1 | finalGUI/backend_gui.py:573-576 | `jal label` decodes with rd = 1 |
| Parser.HaltRendering | store_load.py:598 | `HALT` is the rendering of the halt instruction and of no other well-formed instruction |
| Parser.HaltAcceptance | store_load.py:598-599 | `HALT` decodes in store_load.py and is rejected in backend_gui.py |
| Labels.Kinds | finalGUI/backend_gui.py:699-717 | one line kind per input line |
| Labels.FirstPassSnoc | finalGUI/backend_gui.py:699-717 | the first pass over one more line extends the result by that line's kind |
| Labels.ExecutableLines | finalGUI/backend_gui.py:715-717 | the executable list is exactly the instruction lines, in order |
| Labels.InstructionIsClean | finalGUI/backend_gui.py:700-712 | a kept instruction is non-empty, has no `#`, does not end in `:` and is already clean |
| Labels.ExecutableClean | finalGUI/backend_gui.py:700-717 | every executable line is clean |
| Labels.EmptyProgram | finalGUI/backend_gui.py:720-727 | the executable list is empty exactly when no line is an instruction |
| Labels.BaseShift | finalGUI/backend_gui.py:713 | backend_gui.py's labels are store_load.py's labels shifted by the starting PC |
| Labels.LabelMeaning | finalGUI/backend_gui.py:710-713 | a name is a label exactly when some line defines it; its value is the base plus the instructions before its last definition |
| Labels.LabelRange | finalGUI/backend_gui.py:710-713 | every label lies between the base and the base plus the number of instructions |
| Labels.FirstPassLoop | finalGUI/backend_gui.py:695-717 | the label and instruction lists the loop builds equal the first-pass function |
| Labels.ScanLabels | rv32i_simulator_v1.py:517-535 | `scan_labels` gives the same labels as the first pass from base 0 |
| Labels.LineNumberMeaning | rv32i_simulator_v1.py:705-715 | a name is a line-number label exactly when some line defines it, mapped to the line number of its last definition |
| Labels.LineNumberTarget | rv32i_simulator_v1.py:705-715 | the line a line-number label maps to is that label's own line |
| Labels.ExecutableLength | finalGUI/backend_gui.py:715-717 | there are no more executable lines than input lines |
| Labels.LineNumbersExceedCounts | rv32i_simulator_v1.py:517-535 | both passes define the same names, and no line number is below the instruction count `scan_labels` gives |
| Labels.CommentIsBlank | finalGUI/backend_gui.py:702-708 | every line that starts with `#` once stripped is dropped as blank |
| Labels.LabelIsLabel | finalGUI/backend_gui.py:711-713 | `name:` defines the label `name` for every name without whitespace, commas or `#` |
| Labels.PassesDiffer | rv32i_simulator_v1.py:705-715 | after a comment line, `main` maps a label to line 1 where `scan_labels` maps it to 0 |
| Labels.LineNumberPass | rv32i_simulator_v1.py:705-715 | the loop builds the line-number label map |
| MemoryText.StoreCharsMeaning | finalGUI/backend_gui.py:661-665 | a string literal stores `ord(c) & 0xFF` of each character at consecutive addresses and nothing else changes |
| MemoryText.MemoryTextBytes | finalGUI/backend_gui.py:651-671 | loading memory text keeps every cell a byte |
| MemoryText.LoadLinesBytes | finalGUI/backend_gui.py:654-671 | loading any list of lines keeps every cell a byte |
| MemoryText.AddressedLine | finalGUI/backend_gui.py:656-660 | the line `addr, value` stores value at addr |
| MemoryText.WordLineRoundTrip | finalGUI/backend_gui.py:669-671 | `addr, n` stores n as a little-endian word, and `load_word(addr)` then gives `n & 0xFFFFFFFF` |
| MemoryText.StringLineRoundTrip | finalGUI/backend_gui.py:661-665 | `addr, "s"` stores the characters of s from addr |
| MemoryText.CharLineRoundTrip | finalGUI/backend_gui.py:666-668 | `addr, 'c'` stores the one byte `ord(c)` |
| MemoryText.LoneQuoteRaises | finalGUI/backend_gui.py:666-668 | a lone `'` starts and ends with a quote, so `value[1]` raises IndexError |
| MemoryText.StoreValueAt | finalGUI/backend_gui.py:660-671 | storing one value changes the memory as the value function says |
| MemoryText.LoadLine | finalGUI/backend_gui.py:656-671 | loading one line changes the memory as the line function says |
| MemoryText.LoadMemoryFromText | finalGUI/backend_gui.py:651-671 | loading the whole text changes the memory as the text function says, stopping at the first exception |
| Machine.ExecAlu | finalGUI/backend_gui.py:57-184 | an ALU instruction keeps the memory and x0 |
| Machine.ExecLoad | finalGUI/backend_gui.py:296-357 | a load keeps the memory and x0; LoadEffect gives its cases and the value written |
| Machine.ExecJal | finalGUI/backend_gui.py:390-399 | JAL keeps the memory and x0 |
| Machine.ExecJalr | finalGUI/backend_gui.py:401-412 | JALR keeps the memory and x0 |
| Machine.ExecUpper | finalGUI/backend_gui.py:415-431 | LUI/AUIPC keep the memory and x0 |
| Machine.Advance | finalGUI/backend_gui.py:763-790 | advancing the PC keeps the registers, the memory and the outcome |
| Machine.ExecBranch | finalGUI/backend_gui.py:187-293 | a branch changes only the PC |
| Machine.ExecStore | finalGUI/backend_gui.py:359-388 | a store changes no register and keeps every cell a byte; StoreEffect gives its cases and the cells written |
| Machine.ExecSystem | finalGUI/backend_gui.py:434-452 | a system instruction changes neither registers, memory nor PC |
| Machine.Dispatch | finalGUI/backend_gui.py:750-800 | after a normal step, x0 is 0 |
| Machine.Decode | finalGUI/backend_gui.py:743 | the decoded table has one split per executable line |
| Machine.DecodeAt | finalGUI/backend_gui.py:735-743 | entry k of the table is the split of stripped line k |
| Machine.Step | finalGUI/backend_gui.py:731-800 | a step keeps 32 registers |
| Machine.StepSound | finalGUI/backend_gui.py:731-800 | a step keeps x0 at 0 and every cell a byte |
| Machine.RunLoop | finalGUI/backend_gui.py:729 | a run that finishes normally stops with the PC outside the program or `stop_simulation` set |
| Machine.LoadEffect | finalGUI/backend_gui.py:296-357 | rd = 0 and a missing operand change nothing; a label offset raises TypeError; otherwise only `registers[rd]` changes, to the draft's load at `registers[rs1] + offset`, a value in [0, 2^32) on a byte memory |
| Machine.StoreEffect | finalGUI/backend_gui.py:359-388 | a missing operand changes nothing; a label offset raises TypeError; otherwise `registers[rs2]` is written at `registers[rs1] + offset`, only the store's width of cells from there change, and the matching unsigned load reads the low bits back |
| Machine.StoreLoadDispatch | finalGUI/backend_gui.py:758-778 | `SW x_data, off(x_base)` then `LW x_rd, off(x_base)` as `main` runs them complete, advance the PC by two, and leave x_rd holding x_data's low 32 bits with every other register unchanged |
| Machine.AluEffect | finalGUI/backend_gui.py:57-184 | rd = 0 changes nothing; a missing operand raises TypeError exactly when rd ≠ 0; only `registers[rd]` changes, and in backend_gui.py to a value in [0, 2^32) |
| Machine.Call | finalGUI/backend_gui.py:750-794 | calling an instruction function keeps x0 and every cell a byte |
| Machine.ResetRedundant | finalGUI/backend_gui.py:800 | with x0 already 0, the reset after each step changes nothing |
| Machine.BranchEffect | finalGUI/backend_gui.py:187-293 | a branch changes only the PC: to `labels[label]` when taken with a known label, else to PC + 1, which `main` adds at lines 752-755 |
| Machine.JalEffect | finalGUI/backend_gui.py:390-399 | JAL writes PC + 1 into rd ≠ 0 first; it jumps exactly when the label is known and otherwise raises ValueError with the PC unchanged |
| Machine.JalrEffect | finalGUI/backend_gui.py:401-412 | JALR writes PC + 1 into rd ≠ 0; it jumps to `(reg[rs1] + imm) & 0xFFFFFFFF` exactly when that is below the program length, else exits with 1 |
| Machine.JalrIgnoresBase | finalGUI/backend_gui.py:406-408 | with a starting PC past the program length, a JALR that jumps always leaves the loop |
| Machine.UpperEffect | finalGUI/backend_gui.py:415-431 | LUI/AUIPC change only `registers[rd]`, to the shifted immediate (plus the PC), and do nothing for rd = 0 |
| Machine.SystemEffect | finalGUI/backend_gui.py:434-452 | in backend_gui.py ECALL/EBREAK set the stop flag and every system instruction advances the PC; in store_load.py ECALL/EBREAK/HALT exit with 0 |
| Machine.RejectedSkipped | finalGUI/backend_gui.py:743-747 | a line the splitter rejects advances the PC by 1 and changes nothing else |
| Machine.HaltSplits | finalGUI/backend_gui.py:587-592 | a line whose first token upper-cases to `HALT` is rejected in backend_gui.py and decoded in store_load.py, whatever operands follow |
| Machine.RunLoopSound | finalGUI/backend_gui.py:729-800 | every run keeps x0 at 0 and every cell a byte |
| Machine.StepCases | finalGUI/backend_gui.py:743-794 | a rejected line advances the PC; a crashing split raises its error; a decoded one is dispatched |
| Machine.RunLoopContinues | finalGUI/backend_gui.py:729-800 | while the loop test holds, the run goes on from the state one step leaves, or ends there when that step exits or raises |
| Machine.RunLoopEnds | finalGUI/backend_gui.py:729 | a run whose loop test fails ends normally in that state, and one out of fuel while the test holds reports it |
| Machine.RunLoopFuel | finalGUI/backend_gui.py:729 | more fuel does not change a finished run |
| Machine.MainFinalRejects | finalGUI/backend_gui.py:720-727 | `main` returns without executing exactly when the memory text loads and there are no executable lines |
| Machine.MainFinalRuns | finalGUI/backend_gui.py:678-800 | an executed run keeps x0 and the byte cells, and a normal finish leaves the loop condition false |
| Machine.MainStoreLoadOutOfRange | store_load.py:746 | an out-of-range starting PC executes nothing |
| Machine.DraftsAgree | store_load.py:183-427 | apart from ALU and system instructions, the two later drafts execute every instruction identically |
| Simulator.Hart.constructor | finalGUI/backend_gui.py:4-8 | zero registers, PC 0, empty memory and labels |
| Simulator.Hart.Alu | finalGUI/backend_gui.py:57-184 | the new state is the ALU function of the old state |
| Simulator.Hart.Branch | finalGUI/backend_gui.py:187-293 | the new state and the taken flag are the branch function's |
| Simulator.Hart.Load | finalGUI/backend_gui.py:296-357 | the new state is the load function of the old state |
| Simulator.Hart.Store | finalGUI/backend_gui.py:359-388 | the new memory is the store function of the old state |
| Simulator.Hart.Link | finalGUI/backend_gui.py:392-393 | the return address is written as the link function says |
| Simulator.Hart.Jal | finalGUI/backend_gui.py:390-399 | the new state is the JAL function of the old state |
| Simulator.Hart.Jalr | finalGUI/backend_gui.py:401-412 | the new state is the JALR function of the old state |
| Simulator.Hart.Upper | finalGUI/backend_gui.py:415-431 | the new state is the LUI/AUIPC function of the old state |
| Simulator.Hart.System | finalGUI/backend_gui.py:434-452 | the new state is the system function of the old state |
| Simulator.Hart.Execute | finalGUI/backend_gui.py:750-800 | one dispatch plus the x0 reset |
| Simulator.Hart.Call | finalGUI/backend_gui.py:750-794 | the dispatch table sends each mnemonic to its instruction function |
| Simulator.Hart.Fetch | finalGUI/backend_gui.py:735-743 | the split of the line at the PC |
| Simulator.Hart.Step | finalGUI/backend_gui.py:731-800 | the new state is one step of the loop function |
| Simulator.Hart.Run | finalGUI/backend_gui.py:729-800 | the while loop ends in the state the loop function gives |
| Simulator.Hart.Advance | finalGUI/backend_gui.py:731-800 | one iteration takes the loop function one step closer, with less fuel |
| Simulator.Hart.LabelPass | finalGUI/backend_gui.py:695-717 | the labels and executable list are those of the first pass |
| Simulator.Hart.Reset | finalGUI/backend_gui.py:685-692 | zero registers, stop flag cleared, memory loaded from the text |
| Simulator.Hart.MainFinal | finalGUI/backend_gui.py:678-800 | `main` ends as the pure `main` function says |
| Simulator.Hart.Launch | finalGUI/backend_gui.py:695-800 | label pass, start check and run end as the pure function says |
| Simulator.Hart.Start | finalGUI/backend_gui.py:727-800 | the run from the starting PC ends as the loop function says |
| Simulator.Hart.MainStoreLoad | store_load.py:709-813 | store_load.py's `main` ends as its pure function says |
| EarlyParser.DigitsOrText | rv32i_simulator_v1.py:586-593 | an immediate is read as a number only when it is all digits, so numbers are never negative |
| EarlyParser.SplitMemoryOperands | rv32i_simulator_v1.py:564-583 | a malformed `offset(reg)` is rejected; a bad data register raises ValueError; decoded operands keep the early shape |
| EarlyParser.SplitThreeOperands | rv32i_simulator_v1.py:586-613 | a bad register raises ValueError; decoded operands keep the early shape |
| EarlyParser.SplitOperandsEarly | rv32i_simulator_v1.py:564-634 | unrecognised mnemonics, system ones included, are rejected; decoded lines fit the operand count |
| EarlyParser.EarlySplit | rv32i_simulator_v1.py:547-634 | a crash raises IndexError exactly for a non-blank line with no fields, or else ValueError; a decoded line's first field upper-cases to the mnemonic |
| EarlyParser.CommaSpaceRemoved | rv32i_simulator_v1.py:560 | deleting commas turns `a, b` into `a b` |
| EarlyParser.RegisterNumberName | rv32i_simulator_v1.py:566-570 | `xN` reads back as N |
| EarlyParser.OffsetBaseNumber | rv32i_simulator_v1.py:571-578 | `imm(xN)` splits into the offset and the base register |
| EarlyParser.DigitsRoundTrip | rv32i_simulator_v1.py:590-592 | a non-negative immediate reads back as its number |
| EarlyParser.NegativeStaysText | rv32i_simulator_v1.py:590-592 | a negative immediate stays a string |
| EarlyParser.MemoryPartsRead | rv32i_simulator_v1.py:564-583 | for a store the data register lands in rs2 and the base in rs1; for a load in rd and rs1 |
| EarlyParser.EarlyMemoryRoundTrip | rv32i_simulator_v1.py:564-583 | the early splitter's memory branch decodes a rendered canonical load or store back |
| EarlyParser.EarlyThreeRoundTrip | rv32i_simulator_v1.py:586-613 | the early splitter's four-token branch decodes a rendered canonical ALU, branch or JALR instruction back |
| EarlyParser.EarlyRenderRoundTrip | rv32i_simulator_v1.py:547-634 | the early splitter decodes a rendered canonical instruction back, as the later splitter does |
| EarlyParser.EarlyNegativeImmediate | rv32i_simulator_v1.py:586-593 | with a negative immediate, the early splitter keeps the text while the later one decodes the number |
| EarlyParser.CommaOnlyRejected | rv32i_simulator_v1.py:560 | `ADDI x1,x0,10` is rejected by the early splitter but split normally by the later ones |
| EarlyParser.TwoTokensRejected | rv32i_simulator_v1.py:633-634 | a line whose commas glued all operands into one field is rejected |
| EarlyMachine.Slot | rv32i_simulator_v1.py:55-57 | a Python index in -32..31 names slot r or r + 32 |
| EarlyMachine.Write | rv32i_simulator_v1.py:55-57 | writing a register changes that slot only |
| EarlyMachine.SecondOperand | rv32i_simulator_v1.py:55-122 | a missing immediate raises TypeError, a missing register IndexError |
| EarlyMachine.ExecAlu | rv32i_simulator_v1.py:55-122 | counting the redefinitions at lines 401-419, an ALU instruction changes only registers and never breaks the loop |
| EarlyMachine.ExecBranch | rv32i_simulator_v1.py:126-209 | a branch changes only the PC, and only to a label's value when taken |
| EarlyMachine.ExecLoad | rv32i_simulator_v1.py:214-293 | a load changes only registers and continues |
| EarlyMachine.ExecStore | rv32i_simulator_v1.py:296-351 | a store changes only memory and keeps every cell a byte |
| EarlyMachine.ExecJal | rv32i_simulator_v1.py:357-381 | JAL continues at its target exactly when rd is 0 or a valid index, and otherwise raises IndexError with nothing changed |
| EarlyMachine.ExecJalr | rv32i_simulator_v1.py:387-391 | JALR changes registers and PC only |
| EarlyMachine.ExecUpper | rv32i_simulator_v1.py:395-399 | LUI/AUIPC continue exactly when rd is a valid index |
| EarlyMachine.Advance | rv32i_simulator_v1.py:789-790 | the PC is incremented only when the instruction continues |
| EarlyMachine.Dispatch | rv32i_simulator_v1.py:752-784 | dispatch keeps the labels and every cell a byte |
| EarlyMachine.Fetch | rv32i_simulator_v1.py:723-752 | an instruction line is split by the early splitter |
| EarlyMachine.EarlyDecode | rv32i_simulator_v1.py:723-752 | one split per file line |
| EarlyMachine.EarlyDecodeAt | rv32i_simulator_v1.py:723-752 | entry k of the table is the fetch of line k |
| EarlyMachine.LineIndex | rv32i_simulator_v1.py:723 | a negative PC indexes from the end of the list |
| EarlyMachine.Step | rv32i_simulator_v1.py:723-790 | a step keeps the labels |
| EarlyMachine.RunLoop | rv32i_simulator_v1.py:722 | a normal finish leaves the PC at or past the last line; running out of fuel leaves it inside |
| EarlyMachine.EarlyAluEffect | rv32i_simulator_v1.py:55-122 | counting the redefinitions at lines 401-419, guarded operations skip rd = 0; otherwise the instruction continues exactly when its indices are valid, and writes the raw result into `registers[rd]` |
| EarlyMachine.AddiWritesX0 | rv32i_simulator_v1.py:63-68 | `ADDI x0 x1 n` decodes and writes into x0 |
| EarlyMachine.MinusThirtyTwoIsX0 | rv32i_simulator_v1.py:55-57 | an rd of -32 writes x0 |
| EarlyMachine.BeqNeverTaken | rv32i_simulator_v1.py:126-151 | with the module-level labels empty, BEQ only advances the PC |
| EarlyMachine.TakenBranchTargets | rv32i_simulator_v1.py:754-765 | a taken BNE/BGE/BLT/BLTU/BGEU continues at `labels[label] + 1`, or stays put for an unknown label |
| EarlyMachine.UntakenBranchAdvances | rv32i_simulator_v1.py:754-765 | an untaken branch advances the PC by 1 |
| EarlyMachine.FixpointExhausts | rv32i_simulator_v1.py:722-790 | a step that leaves the state unchanged repeats until the fuel runs out |
| EarlyMachine.UnknownLabelHangs | rv32i_simulator_v1.py:156-209 | a taken non-BEQ branch to an unknown label loops forever |
| EarlyMachine.LoadEffect | rv32i_simulator_v1.py:214-293 | a load writes the early load value into rd when both indices are valid, and advances |
| EarlyMachine.StoresSwapped | rv32i_simulator_v1.py:578-580 | `SW x_a, off(x_b)` decodes and stores `registers[b]` at `registers[a] + off` |
| EarlyMachine.StoreRoundTrip | rv32i_simulator_v1.py:564-583 | a rendered store decodes back |
| EarlyMachine.StoreDispatch | rv32i_simulator_v1.py:770-771 | the dispatched store writes the base register's value at the data register plus the offset |
| EarlyMachine.JalLandsOnLabel | rv32i_simulator_v1.py:772-776 | JAL to a known label continues at the label's own line, which the next step skips |
| EarlyMachine.LabelsAtLabelLines | rv32i_simulator_v1.py:705-715 | every label maps to a line that defines it |
| EarlyMachine.JalDispatch | rv32i_simulator_v1.py:772-776 | JAL to a known label jumps to its line number |
| EarlyMachine.LabelLineSkipped | rv32i_simulator_v1.py:739-741 | a label line only advances the PC |
| EarlyMachine.JalUnknownBreaks | rv32i_simulator_v1.py:777-779 | JAL to an unknown label ends the loop |
| EarlyMachine.JalrEven | rv32i_simulator_v1.py:387-391 | JALR continues at `(reg[rs1] + offset) & ~1`, which is even |
| EarlyMachine.UpperRaises | rv32i_simulator_v1.py:783-784 | LUI/AUIPC reached through the three-register call raise TypeError |
| EarlyMachine.UpperUnmasked | rv32i_simulator_v1.py:395-396 | `lui` stores `imm << 12` unmasked, so 0x100000 gives 2^32 |
| EarlyMachine.RunLoopKeepsBytes | rv32i_simulator_v1.py:722-790 | every run keeps every cell a byte |
| EarlyMachine.RunLoopContinues | rv32i_simulator_v1.py:722-779 | inside the program, the run goes on from the state one step leaves, or ends there when the step breaks or raises |
| EarlyMachine.RunLoopFuel | rv32i_simulator_v1.py:722 | more fuel does not change a finished run |
| EarlyMachine.RunLoopEnds | rv32i_simulator_v1.py:777-779 | a step that breaks or raises ends the run there |
| EarlyMachine.MainStart | rv32i_simulator_v1.py:722-723 | a starting PC below -len raises IndexError; a rejected line reached from a negative PC is skipped |
| EarlyMachine.MainEnds | rv32i_simulator_v1.py:696-790 | a normal finish leaves the PC past the last line and every cell a byte |
| EarlySimulator.EarlyHart.constructor | rv32i_simulator_v1.py:4-7 | zero registers, PC 0, empty memory and labels |
| EarlySimulator.EarlyHart.Write | rv32i_simulator_v1.py:55-57 | the register write the write function gives |
| EarlySimulator.EarlyHart.ReadOperand | rv32i_simulator_v1.py:55-122 | the second operand the operand function gives |
| EarlySimulator.EarlyHart.Alu | rv32i_simulator_v1.py:55-122 | the new state is the ALU function of the old state |
| EarlySimulator.EarlyHart.Branch | rv32i_simulator_v1.py:126-209 | the new state and taken flag are the branch function's |
| EarlySimulator.EarlyHart.Load | rv32i_simulator_v1.py:214-293 | the new state is the load function of the old state |
| EarlySimulator.EarlyHart.Store | rv32i_simulator_v1.py:296-351 | the new memory is the store function of the old state |
| EarlySimulator.EarlyHart.Link | rv32i_simulator_v1.py:367-368 | the return address is written as the link function says |
| EarlySimulator.EarlyHart.Jal | rv32i_simulator_v1.py:357-381 | the new state is the JAL function of the old state |
| EarlySimulator.EarlyHart.Jalr | rv32i_simulator_v1.py:387-391 | the new state is the JALR function of the old state |
| EarlySimulator.EarlyHart.Upper | rv32i_simulator_v1.py:395-399 | the new state is the LUI/AUIPC function of the old state |
| EarlySimulator.EarlyHart.RegisterLabels | rv32i_simulator_v1.py:442-461 | `register_labels` sets the labels of the first pass from 0 and nothing else |
| EarlySimulator.EarlyHart.Execute | rv32i_simulator_v1.py:752-784 | one dispatch as the dispatch function says |
| EarlySimulator.EarlyHart.Step | rv32i_simulator_v1.py:723-790 | one loop iteration as the step function says |
| EarlySimulator.EarlyHart.Run | rv32i_simulator_v1.py:722-790 | the while loop ends as the loop function says |
| EarlySimulator.EarlyHart.Advance | rv32i_simulator_v1.py:723-790 | one iteration takes the loop function one step closer, with less fuel |
| EarlySimulator.EarlyHart.MainEarly | rv32i_simulator_v1.py:696-790 | from the PC `user_input` read, `main` ends as the pure `main` function says, for a fresh machine |

## Left out

- File and console I/O: `read_instructions_from_file`, `user_input` and
  `load_memory_from_file` in store_load.py and rv32i_simulator_v1.py.
  finalGUI/backend_gui.py's `main` takes the program text, the memory text
  and the starting PC as parameters. `Machine.MainStoreLoad` and
  `Hart.MainStoreLoad` take the program lines, the starting PC and the
  machine state (registers and memory) that `user_input` leaves.
  `EarlyMachine` takes the lines, the starting PC and an integer memory map.
- store_load.py's `load_memory_from_file` (store_load.py:676-707) is not
  modelled. It skips a line that does not split into two parts where
  `load_memory_from_text` raises ValueError, and it turns a ValueError
  into `sys.exit(1)`.
- EarlyMachine.MainEarly: memory holds integers only. The string values
  rv32i_simulator_v1.py's `load_memory_from_file` stores for quoted
  values (`value[1:-1]`, `value[1]`), which `lbu` copies into a register
  and `load_word` and `lb` fail on with TypeError, are not modelled.
- `print`, `output_to_gui_global`, `printRegisters` and
  `output_to_gui_globalRegisters` have no effect on state and are not
  modelled.
- `sys.exit` and raised exceptions are outcome values. Process exit,
  tracebacks and the GUI callback are not modelled.
- The loops of `main` take a fuel bound. A program that never stops ends
  in an out-of-fuel outcome; unbounded execution is not modelled.
- `int(s, 0)` is modelled with a sign, decimal literals, and `0x`/`0o`/`0b`
  prefixes over ASCII digits; `int(s)` (PyText.ParseDecimal) with a sign
  and ASCII decimal digits. Underscores between digits and non-ASCII
  digits are not modelled for either, so `"1_0"` is rejected where
  rv32i_simulator_v1.py's `int(offset)` and `int(parts[1][1:])` accept it. `isdigit`, `strip` and `upper` are limited in the same way:
  ASCII digits, Python's whitespace set, and ASCII case.
- `csr_registers` is written but never read, so it is not modelled.
- rv32i_simulator_v1.py's `parse_register` and `parse_immediate` are never
  called, so they are not modelled.
- The `running` flag of the two later drafts is never cleared.
  backend_gui.py's parser rejects `HALT`, and store_load.py's `halt` exits
  before the flag is set. The model leaves the flag out of the loop test.
- The decoded line table in `Machine` and `EarlyMachine` is a ghost view
  of splitting each line when it is fetched; the methods split the line at
  the PC, as the source does.
- Registers are a sequence of 32 integers reassigned whole, not a list
  mutated in place. Python aliasing of the list is not modelled.
- The GUI files, the unfinished stub `rv32i_simulator_v1.py.py`, and the
  test harnesses in `Tests/` are not part of this model.
- Machine.RunLoop: its contract states only how a finished run ends. Its
  step-by-step meaning is given by the step lemmas and the `Hart` methods.
