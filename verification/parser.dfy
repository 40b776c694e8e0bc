/** The text front end of finalGUI/backend_gui.py and store_load.py:
    `parse_register`, `parse_immediate` and `instruction_splitting`, which
    the two drafts share word for word except that store_load.py also
    recognises HALT. A rendering of decoded instructions back to assembly
    text is the splitter's partner in the round-trip lemma. */
module Parser {
  import opened Wrappers
  import opened PyText
  import opened Isa

  /** The fifth element of the splitter's tuple: absent, an integer
      (an immediate or an offset), or a label. */
  datatype Arg = Missing | Number(n: int) | Text(s: string)

  /** The splitter's tuple `(opcode, rd, rs1, rs2, imm_or_label, offset)`;
      the last element is always None and is dropped. */
  datatype Instr = Instr(op: Mnemonic, rd: Option<int>, rs1: Option<int>, rs2: Option<int>, arg: Arg)

  /** What `instruction_splitting` does with a line: six Nones, a decoded
      tuple, or an exception that escapes it. */
  datatype Splitting = Rejected | Decoded(instr: Instr) | Crashed(error: PyError)

  /** `line.strip()`, and when it holds `#`, the part before it stripped
      again. The label pass and the splitter both clean lines this way. */
  function CleanLine(line: string): string
  {
    var s := Strip(line);
    if '#' in s then Strip(SplitOn(s, '#')[0]) else s
  }

  /** strip() only removes characters. */
  lemma StripAvoids(s: string, c: char)
    requires c !in s
    ensures c !in Strip(s)
  {
    LStripDrops(s);
    var t := LStrip(s);
    assert forall i :: 0 <= i < |RStrip(t)| ==> RStrip(t)[i] == t[i] == s[|s| - |t| + i];
  }

  /** A cleaned line holds no comment, has no whitespace at either end, and
      is its own cleaning, so the splitter's cleanup does nothing to the
      lines the label pass keeps. */
  lemma CleanLineFacts(line: string)
    ensures var c := CleanLine(line);
      '#' !in c && (c == [] || (!IsSpace(c[0]) && !IsSpace(c[|c| - 1])))
      && CleanLine(c) == c
  {
    var s := Strip(line);
    if '#' in s {
      StripAvoids(SplitOn(s, '#')[0], '#');
    }
    var c := CleanLine(line);
    StripKeeps(c);
  }

  // ---------------------------------------------------------------------
  // Operands.

  /** `parse_register`: after strip(), an `x` or `X` followed by decimal
      digits whose value is below 32; None otherwise. */
  function ParseRegister(reg: string): (r: Option<int>)
    ensures r.Some? ==> 0 <= r.value < 32
    ensures r.Some? ==> |Strip(reg)| >= 2 && (Strip(reg)[0] == 'x' || Strip(reg)[0] == 'X')
    ensures r.Some? ==> IsDigit(Strip(reg)[1..]) && ParseDecimal(Strip(reg)[1..]) == Some(r.value)
    ensures r.None? <==>
      var t := Strip(reg);
      |t| < 2 || (t[0] != 'x' && t[0] != 'X') || !IsDigit(t[1..])
      || !(ParseDecimal(t[1..]).Some? && ParseDecimal(t[1..]).value < 32)
  {
    var t := Strip(reg);
    assert |t| >= 2 && IsDigit(t[1..]) ==> ParseDecimal(t[1..]) == Some(DigitsValue(t[1..], 10)) by {
      if |t| >= 2 && IsDigit(t[1..]) { DigitsParse(t[1..]); }
    }
    if |t| >= 1 && LowerChar(t[0]) == 'x' && IsDigit(t[1..]) && DigitsValue(t[1..], 10) < 32
    then Some(DigitsValue(t[1..], 10))
    else None
  }

  /** `parse_immediate`: `int(value, 0)`, with None for a ValueError. */
  function ParseImmediate(value: string): Option<int>
  {
    ParseAuto(value)
  }

  /** The immediate as the tuple carries it. */
  function ImmediateArg(o: Option<int>): Arg
  {
    match o
    case Some(n) => Number(n)
    case None => Missing
  }

  /** `line.replace(',', ' ').split()`. */
  function Tokens(line: string): seq<string>
  {
    Split(ReplaceChar(line, ',', ' '))
  }

  // ---------------------------------------------------------------------
  // The splitter.

  /** The operand counts the splitter accepts for each mnemonic, counting
      the mnemonic itself; system instructions ignore their operands. */
  predicate ArityOk(m: Mnemonic, n: nat)
  {
    match m
    case Alu(_) => n == 4
    case Branch(_) => n == 4
    case Load(_) => n == 3
    case Store(_) => n == 3
    case Upper(_) => n == 3
    case JAL => n == 2 || n == 3
    case JALR => 2 <= n <= 4
    case System(_) => true
  }

  /** Every register field is a register number. */
  predicate RegistersInRange(i: Instr)
  {
    (i.rd.Some? ==> 0 <= i.rd.value < 32)
    && (i.rs1.Some? ==> 0 <= i.rs1.value < 32)
    && (i.rs2.Some? ==> 0 <= i.rs2.value < 32)
  }

  /** The fields the splitter fills for each kind of mnemonic: labels for
      branches and JAL only, no rd for stores, branches and system
      instructions, and nothing at all for system instructions. */
  predicate Shaped(i: Instr)
  {
    (i.arg.Text? <==> (i.op.Branch? || i.op == JAL))
    && ((i.op.Store? || i.op.Branch? || i.op.System?) ==> i.rd.None?)
    && (i.op.System? ==> i.rs1.None? && i.rs2.None? && i.arg.Missing?)
  }

  /** The branch of `instruction_splitting` for a recognised mnemonic, given
      the tokens of the line. */
  function SplitOperands(m: Mnemonic, parts: seq<string>, acceptsHalt: bool): (r: Splitting)
    requires |parts| >= 1
    ensures !r.Crashed?
    ensures r.Decoded? ==> r.instr.op == m && ArityOk(m, |parts|)
    ensures r.Decoded? ==> RegistersInRange(r.instr) && Shaped(r.instr)
  {
    match m
    case Load(_) | Store(_) =>
      if |parts| != 3 then Rejected
      else
        var reg1 := ParseRegister(parts[1]);
        var pieces := SplitOn(parts[2], '(');
        if |pieces| != 2 then Rejected
        else
          var offset := ParseImmediate(pieces[0]);
          var reg2 := ParseRegister(DropLast(pieces[1]));
          if m.Store? then Decoded(Instr(m, None, reg2, reg1, ImmediateArg(offset)))
          else Decoded(Instr(m, reg1, reg2, None, ImmediateArg(offset)))
    case JALR =>
      if |parts| == 2 then Decoded(Instr(m, ParseRegister(parts[1]), None, None, Number(0)))
      else if |parts| == 3 then
        Decoded(Instr(m, ParseRegister(parts[1]), ParseRegister(parts[2]), None, Number(0)))
      else if |parts| == 4 then
        Decoded(Instr(m, ParseRegister(parts[1]), ParseRegister(parts[2]), None,
                      ImmediateArg(ParseImmediate(parts[3]))))
      else Rejected
    case Alu(op) =>
      if |parts| != 4 then Rejected
      else if IsImmediate(op) then
        Decoded(Instr(m, ParseRegister(parts[1]), ParseRegister(parts[2]), None,
                      ImmediateArg(ParseImmediate(parts[3]))))
      else
        Decoded(Instr(m, ParseRegister(parts[1]), ParseRegister(parts[2]), ParseRegister(parts[3]), Missing))
    case Branch(_) =>
      if |parts| != 4 then Rejected
      else Decoded(Instr(m, None, ParseRegister(parts[1]), ParseRegister(parts[2]), Text(parts[3])))
    case Upper(_) =>
      if |parts| != 3 then Rejected
      else Decoded(Instr(m, ParseRegister(parts[1]), None, None, ImmediateArg(ParseImmediate(parts[2]))))
    case JAL =>
      if |parts| == 2 then Decoded(Instr(m, Some(1), None, None, Text(parts[1])))
      else if |parts| == 3 then Decoded(Instr(m, ParseRegister(parts[1]), None, None, Text(parts[2])))
      else Rejected
    case System(s) =>
      if s == HALT && !acceptsHalt then Rejected else Decoded(Instr(m, None, None, None, Missing))
  }

  /** `instruction_splitting(line)`; acceptsHalt is true for store_load.py.
      A line of commas alone has no tokens, and `parts[0]` raises. */
  function SplitInstruction(line: string, acceptsHalt: bool): (r: Splitting)
    ensures r.Crashed? <==> CleanLine(line) != [] && Tokens(CleanLine(line)) == []
    ensures r.Crashed? ==> r.error == IndexError
    ensures r.Decoded? ==>
      var parts := Tokens(CleanLine(line));
      |parts| >= 1 && Lookup(PyText.Upper(parts[0])) == Some(r.instr.op) && ArityOk(r.instr.op, |parts|)
    ensures r.Decoded? ==> RegistersInRange(r.instr) && Shaped(r.instr)
  {
    SplitClean(CleanLine(line), acceptsHalt)
  }

  /** The splitter after the comment and the surrounding whitespace are
      gone. */
  function SplitClean(l: string, acceptsHalt: bool): (r: Splitting)
    ensures r.Crashed? <==> l != [] && Tokens(l) == []
    ensures r.Crashed? ==> r.error == IndexError
    ensures r.Decoded? ==>
      var parts := Tokens(l);
      |parts| >= 1 && Lookup(PyText.Upper(parts[0])) == Some(r.instr.op) && ArityOk(r.instr.op, |parts|)
    ensures r.Decoded? ==> RegistersInRange(r.instr) && Shaped(r.instr)
  {
    if l == [] then Rejected
    else
      var parts := Tokens(l);
      if parts == [] then Crashed(IndexError)
      else
        match Lookup(PyText.Upper(parts[0]))
        case None => Rejected
        case Some(m) => SplitOperands(m, parts, acceptsHalt)
  }

  // ---------------------------------------------------------------------
  // Rendering, the splitter's partner.

  /** A token the splitter passes through whole: non-empty, and without
      whitespace, commas or a comment sign. */
  predicate Token(w: string)
  {
    IsWord(w) && ',' !in w && '#' !in w
  }

  predicate IsRegister(o: Option<int>)
  {
    o.Some? && 0 <= o.value < 32
  }

  /** The instructions the splitter produces from well-formed text, in the
      operand form of the line they would be written as. */
  predicate Canonical(i: Instr, acceptsHalt: bool)
  {
    match i.op
    case Alu(op) =>
      IsRegister(i.rd) && IsRegister(i.rs1)
      && (if IsImmediate(op) then i.rs2.None? && i.arg.Number? else IsRegister(i.rs2) && i.arg.Missing?)
    case Branch(_) =>
      i.rd.None? && IsRegister(i.rs1) && IsRegister(i.rs2) && i.arg.Text? && Token(i.arg.s)
    case Load(_) => IsRegister(i.rd) && IsRegister(i.rs1) && i.rs2.None? && i.arg.Number?
    case Store(_) => i.rd.None? && IsRegister(i.rs1) && IsRegister(i.rs2) && i.arg.Number?
    case Upper(_) => IsRegister(i.rd) && i.rs1.None? && i.rs2.None? && i.arg.Number?
    case JAL => IsRegister(i.rd) && i.rs1.None? && i.rs2.None? && i.arg.Text? && Token(i.arg.s)
    case JALR => IsRegister(i.rd) && IsRegister(i.rs1) && i.rs2.None? && i.arg.Number?
    case System(s) =>
      i.rd.None? && i.rs1.None? && i.rs2.None? && i.arg.Missing? && (s != HALT || acceptsHalt)
  }

  function RegisterName(r: nat): string
  {
    "x" + ShowNat(r)
  }

  /** `offset(xN)`. */
  function OffsetOperand(offset: int, base: nat): string
  {
    ShowInt(offset) + "(" + RegisterName(base) + ")"
  }

  /** The operands of an instruction as assembly text. */
  function Operands(i: Instr): seq<string>
    requires Canonical(i, true)
  {
    match i.op
    case Alu(op) =>
      [RegisterName(i.rd.value), RegisterName(i.rs1.value),
       if IsImmediate(op) then ShowInt(i.arg.n) else RegisterName(i.rs2.value)]
    case Branch(_) => [RegisterName(i.rs1.value), RegisterName(i.rs2.value), i.arg.s]
    case Load(_) => [RegisterName(i.rd.value), OffsetOperand(i.arg.n, i.rs1.value)]
    case Store(_) => [RegisterName(i.rs2.value), OffsetOperand(i.arg.n, i.rs1.value)]
    case Upper(_) => [RegisterName(i.rd.value), ShowInt(i.arg.n)]
    case JAL => [RegisterName(i.rd.value), i.arg.s]
    case JALR => [RegisterName(i.rd.value), RegisterName(i.rs1.value), ShowInt(i.arg.n)]
    case System(_) => []
  }

  /** A mnemonic and its operands separated by commas, as in `ADDI x1, x0, 5`. */
  function Line(name: string, operands: seq<string>): string
  {
    if operands == [] then name else name + " " + Join(operands, ", ")
  }

  function Render(i: Instr): string
    requires Canonical(i, true)
  {
    Line(Name(i.op), Operands(i))
  }

  // Facts about the pieces of a rendered line.

  /** Upper-case letters and dots, the alphabet of the mnemonics. */
  predicate Capitals(s: string)
  {
    forall k :: 0 <= k < |s| ==> 'A' <= s[k] <= 'Z' || s[k] == '.'
  }

  lemma CapitalsToken(s: string)
    requires s != [] && Capitals(s)
    ensures Token(s) && PyText.Upper(s) == s
  {
    UpperKeeps(s);
  }

  lemma AluNameCapitals(op: AluOp)
    ensures Capitals(AluName(op))
  {
  }

  lemma BranchNameCapitals(op: BranchOp)
    ensures Capitals(BranchName(op))
  {
  }

  lemma LoadNameCapitals(op: LoadOp)
    ensures Capitals(LoadName(op))
  {
  }

  lemma StoreNameCapitals(op: StoreOp)
    ensures Capitals(StoreName(op))
  {
  }

  lemma SystemNameCapitals(op: SystemOp)
    ensures Capitals(SystemName(op))
  {
  }

  lemma NameCapitals(m: Mnemonic)
    ensures Name(m) != [] && Capitals(Name(m))
  {
    match m
    case Alu(op) => AluNameCapitals(op);
    case Branch(op) => BranchNameCapitals(op);
    case Load(op) => LoadNameCapitals(op);
    case Store(op) => StoreNameCapitals(op);
    case Upper(op) =>
    case JAL =>
    case JALR =>
    case System(op) => SystemNameCapitals(op);
  }

  /** Mnemonic names pass through the splitter whole and unchanged by
      upper-casing. */
  lemma NameIsToken(m: Mnemonic)
    ensures Token(Name(m)) && PyText.Upper(Name(m)) == Name(m)
  {
    NameCapitals(m);
    CapitalsToken(Name(m));
  }

  lemma ShowIntIsToken(n: int)
    ensures Token(ShowInt(n)) && '(' !in ShowInt(n)
  {
    var s := ShowInt(n);
    assert forall k :: 0 <= k < |s| ==> s[k] == '-' || '0' <= s[k] <= '9';
  }

  lemma RegisterNameToken(r: nat)
    ensures Token(RegisterName(r)) && '(' !in RegisterName(r)
  {
    var s := RegisterName(r);
    assert forall k :: 0 <= k < |s| ==> s[k] == 'x' || '0' <= s[k] <= '9';
  }

  lemma RegisterNameFacts(r: nat)
    ensures Token(RegisterName(r)) && '(' !in RegisterName(r)
    ensures ParseRegister(RegisterName(r)) == if r < 32 then Some(r) else None
  {
    var s := RegisterName(r);
    RegisterNameToken(r);
    StripKeeps(s);
    assert s[1..] == ShowNat(r);
    ShowNatValue(r);
  }

  lemma TokenConcat(u: string, v: string)
    requires Token(u) && Token(v)
    ensures Token(u + v)
  {
    var w := u + v;
    assert forall k :: 0 <= k < |w| ==> w[k] == if k < |u| then u[k] else v[k - |u|];
  }

  lemma OffsetOperandFacts(offset: int, base: nat)
    requires base < 32
    ensures Token(OffsetOperand(offset, base))
    ensures var pieces := SplitOn(OffsetOperand(offset, base), '(');
      pieces == [ShowInt(offset), RegisterName(base) + ")"]
      && ParseImmediate(pieces[0]) == Some(offset)
      && ParseRegister(DropLast(pieces[1])) == Some(base)
  {
    var a, r := ShowInt(offset), RegisterName(base);
    var b := r + ")";
    ShowIntIsToken(offset);
    RegisterNameFacts(base);
    assert Token("(") && Token(")");
    TokenConcat(a, "(");
    TokenConcat(r, ")");
    TokenConcat(a + "(", b);
    assert OffsetOperand(offset, base) == a + "(" + b;
    assert '(' !in b by {
      assert forall k :: 0 <= k < |b| ==> b[k] == if k < |r| then r[k] else ')';
    }
    SplitOnPair(a, b, '(');
    assert DropLast(b) == r;
    ParseAutoShow(offset);
  }

  /** A line built from tokens is already clean, and its tokens are the
      mnemonic followed by the operands. */
  lemma LineTokens(name: string, operands: seq<string>)
    requires Token(name) && forall k :: 0 <= k < |operands| ==> Token(operands[k])
    ensures CleanLine(Line(name, operands)) == Line(name, operands)
    ensures Tokens(Line(name, operands)) == [name] + operands
  {
    if operands == [] {
      BareNameTokens(name);
    } else {
      OperandLineTokens(name, operands);
    }
  }

  /** LineTokens for a mnemonic without operands. */
  lemma BareNameTokens(name: string)
    requires Token(name)
    ensures CleanLine(name) == name && Tokens(name) == [name]
  {
    StripKeeps(name);
    SplitJoin([name], " ");
    assert Join([name], " ") == name;
    ReplaceAbsent(name, ',', ' ');
  }

  /** LineTokens for a mnemonic with operands. */
  lemma OperandLineTokens(name: string, operands: seq<string>)
    requires Token(name) && operands != [] && forall k :: 0 <= k < |operands| ==> Token(operands[k])
    ensures CleanLine(Line(name, operands)) == Line(name, operands)
    ensures Tokens(Line(name, operands)) == [name] + operands
  {
    OperandLineClean(name, operands);
    OperandLineSpaced(name, operands);
    SplitCons(name, " ", Join(operands, "  "));
    SplitJoin(operands, "  ");
  }

  /** A rendered line with operands has no comment and no surrounding
      whitespace. */
  lemma OperandLineClean(name: string, operands: seq<string>)
    requires Token(name) && operands != [] && forall k :: 0 <= k < |operands| ==> Token(operands[k])
    ensures CleanLine(Line(name, operands)) == Line(name, operands)
  {
    assert Line(name, operands) == name + " " + Join(operands, ", ");
    JoinedLineClean(name, operands, ", ");
  }

  /** A mnemonic followed by tokens joined with a separator free of `#`
      is a clean line. */
  lemma JoinedLineClean(name: string, operands: seq<string>, sep: string)
    requires Token(name) && operands != [] && forall k :: 0 <= k < |operands| ==> Token(operands[k])
    requires '#' !in sep
    ensures CleanLine(name + " " + Join(operands, sep)) == name + " " + Join(operands, sep)
  {
    var j, w := Join(operands, sep), operands[|operands| - 1];
    var l := name + " " + j;
    JoinAvoids(operands, sep, '#');
    JoinEndsWithWord(operands, sep);
    assert !IsSpace(l[0]) by { assert l[0] == name[0]; }
    assert !IsSpace(l[|l| - 1]) by { assert l[|l| - 1] == j[|j| - 1] == w[|w| - 1]; }
    assert '#' !in l by { assert '#' !in name && '#' !in j; }
    CleanKeeps(l);
  }

  /** A line without `#` that starts and ends with non-whitespace is clean. */
  lemma CleanKeeps(l: string)
    requires l != [] && !IsSpace(l[0]) && !IsSpace(l[|l| - 1]) && '#' !in l
    ensures CleanLine(l) == l
  {
    StripKeeps(l);
  }

  /** Replacing the commas of a rendered line with operands turns each
      separator ", " into two spaces. */
  lemma OperandLineSpaced(name: string, operands: seq<string>)
    requires Token(name) && forall k :: 0 <= k < |operands| ==> Token(operands[k])
    ensures ReplaceChar(name + " " + Join(operands, ", "), ',', ' ') == name + " " + Join(operands, "  ")
  {
    var head, j := name + " ", Join(operands, ", ");
    ReplaceJoin(operands, ", ", ',', ' ');
    CommaSpaced();
    assert ReplaceChar(j, ',', ' ') == Join(operands, "  ");
    ReplaceAbsent(head, ',', ' ');
    ReplaceConcat(head, j, ',', ' ');
  }

  /** The separator ", " with its comma replaced is two spaces. */
  lemma CommaSpaced()
    ensures ReplaceChar(", ", ',', ' ') == "  "
  {
    var r := ReplaceChar(", ", ',', ' ');
    assert r[0] == ' ' && r[1] == ' ';
  }

  /** The operands of a rendered instruction are tokens. */
  lemma OperandsAreTokens(i: Instr)
    requires Canonical(i, true)
    ensures forall k :: 0 <= k < |Operands(i)| ==> Token(Operands(i)[k])
  {
    match i.op
    case Alu(op) =>
      RegisterNameToken(i.rd.value);
      RegisterNameToken(i.rs1.value);
      if IsImmediate(op) { ShowIntIsToken(i.arg.n); } else { RegisterNameToken(i.rs2.value); }
    case Branch(_) =>
      RegisterNameToken(i.rs1.value);
      RegisterNameToken(i.rs2.value);
    case Load(_) =>
      RegisterNameToken(i.rd.value);
      OffsetOperandFacts(i.arg.n, i.rs1.value);
    case Store(_) =>
      RegisterNameToken(i.rs2.value);
      OffsetOperandFacts(i.arg.n, i.rs1.value);
    case Upper(_) =>
      RegisterNameToken(i.rd.value);
      ShowIntIsToken(i.arg.n);
    case JAL =>
      RegisterNameToken(i.rd.value);
    case JALR =>
      RegisterNameToken(i.rd.value);
      RegisterNameToken(i.rs1.value);
      ShowIntIsToken(i.arg.n);
    case System(_) =>
  }

  /** The register names among the operands are tokens and read back as
      their numbers. */
  lemma RegisterNamesFacts(i: Instr)
    ensures i.rd.Some? && i.rd.value >= 0 ==> RegisterMeaning(i.rd.value)
    ensures i.rs1.Some? && i.rs1.value >= 0 ==> RegisterMeaning(i.rs1.value)
    ensures i.rs2.Some? && i.rs2.value >= 0 ==> RegisterMeaning(i.rs2.value)
  {
    if i.rd.Some? && i.rd.value >= 0 { RegisterNameFacts(i.rd.value); }
    if i.rs1.Some? && i.rs1.value >= 0 { RegisterNameFacts(i.rs1.value); }
    if i.rs2.Some? && i.rs2.value >= 0 { RegisterNameFacts(i.rs2.value); }
  }

  /** What RegisterNameFacts proves about register r. */
  predicate RegisterMeaning(r: nat)
  {
    Token(RegisterName(r)) && '(' !in RegisterName(r) &&
    ParseRegister(RegisterName(r)) == if r < 32 then Some(r) else None
  }

  /** The operand branch reads back a load or a store. */
  lemma MemoryOperandsRoundTrip(i: Instr, acceptsHalt: bool)
    requires Canonical(i, acceptsHalt) && (i.op.Load? || i.op.Store?)
    ensures SplitOperands(i.op, [Name(i.op)] + Operands(i), acceptsHalt) == Decoded(i)
  {
    var reg := if i.op.Store? then i.rs2.value else i.rd.value;
    var parts := [Name(i.op)] + Operands(i);
    assert parts == [Name(i.op), RegisterName(reg), OffsetOperand(i.arg.n, i.rs1.value)];
    RegisterNameFacts(reg);
    OffsetOperandFacts(i.arg.n, i.rs1.value);
  }

  /** The operand branch reads back an ALU instruction on registers. */
  lemma RegisterOperandsRoundTrip(i: Instr, acceptsHalt: bool)
    requires Canonical(i, acceptsHalt) && i.op.Alu? && !IsImmediate(i.op.alu)
    ensures SplitOperands(i.op, [Name(i.op)] + Operands(i), acceptsHalt) == Decoded(i)
  {
    var parts := [Name(i.op)] + Operands(i);
    assert parts == [Name(i.op), RegisterName(i.rd.value), RegisterName(i.rs1.value), RegisterName(i.rs2.value)];
    RegisterNameFacts(i.rd.value);
    RegisterNameFacts(i.rs1.value);
    RegisterNameFacts(i.rs2.value);
  }

  /** The operand branch reads back an ALU instruction with an immediate or
      a JALR. */
  lemma ImmediateOperandsRoundTrip(i: Instr, acceptsHalt: bool)
    requires Canonical(i, acceptsHalt) && ((i.op.Alu? && IsImmediate(i.op.alu)) || i.op == JALR)
    ensures SplitOperands(i.op, [Name(i.op)] + Operands(i), acceptsHalt) == Decoded(i)
  {
    var parts := [Name(i.op)] + Operands(i);
    assert parts == [Name(i.op), RegisterName(i.rd.value), RegisterName(i.rs1.value), ShowInt(i.arg.n)];
    RegisterNameFacts(i.rd.value);
    RegisterNameFacts(i.rs1.value);
    ParseAutoShow(i.arg.n);
  }

  /** The operand branch reads back LUI and AUIPC. */
  lemma UpperOperandsRoundTrip(i: Instr, acceptsHalt: bool)
    requires Canonical(i, acceptsHalt) && i.op.Upper?
    ensures SplitOperands(i.op, [Name(i.op)] + Operands(i), acceptsHalt) == Decoded(i)
  {
    var parts := [Name(i.op)] + Operands(i);
    assert parts == [Name(i.op), RegisterName(i.rd.value), ShowInt(i.arg.n)];
    RegisterNameFacts(i.rd.value);
    ParseAutoShow(i.arg.n);
  }

  /** The operand branch reads back a branch, a jump or a system call. */
  lemma ControlOperandsRoundTrip(i: Instr, acceptsHalt: bool)
    requires Canonical(i, acceptsHalt) && (i.op.Branch? || i.op == JAL || i.op.System?)
    ensures SplitOperands(i.op, [Name(i.op)] + Operands(i), acceptsHalt) == Decoded(i)
  {
    RegisterNamesFacts(i);
  }

  /** The operand branch of the splitter reads the rendered operands back. */
  lemma OperandsRoundTrip(i: Instr, acceptsHalt: bool)
    requires Canonical(i, acceptsHalt)
    ensures SplitOperands(i.op, [Name(i.op)] + Operands(i), acceptsHalt) == Decoded(i)
  {
    if i.op.Load? || i.op.Store? {
      MemoryOperandsRoundTrip(i, acceptsHalt);
    } else if i.op.Alu? && !IsImmediate(i.op.alu) {
      RegisterOperandsRoundTrip(i, acceptsHalt);
    } else if i.op.Alu? || i.op == JALR {
      ImmediateOperandsRoundTrip(i, acceptsHalt);
    } else if i.op.Upper? {
      UpperOperandsRoundTrip(i, acceptsHalt);
    } else {
      ControlOperandsRoundTrip(i, acceptsHalt);
    }
  }

  /** The splitter reaches the operand branch with the mnemonic and the
      operands of a line built from tokens. */
  lemma LineSplits(m: Mnemonic, ops: seq<string>, acceptsHalt: bool)
    requires forall k :: 0 <= k < |ops| ==> Token(ops[k])
    ensures SplitInstruction(Line(Name(m), ops), acceptsHalt) == SplitOperands(m, [Name(m)] + ops, acceptsHalt)
  {
    NameIsToken(m);
    LineTokens(Name(m), ops);
    LookupName(m);
    var parts := Tokens(CleanLine(Line(Name(m), ops)));
    assert parts == [Name(m)] + ops;
  }

  /** LineSplits for the rendering of an instruction. */
  lemma RenderSplits(i: Instr, acceptsHalt: bool)
    requires Canonical(i, true)
    ensures SplitInstruction(Render(i), acceptsHalt) == SplitOperands(i.op, [Name(i.op)] + Operands(i), acceptsHalt)
  {
    OperandsAreTokens(i);
    LineSplits(i.op, Operands(i), acceptsHalt);
  }

  /** Splitting the rendering of a well-formed instruction gives the
      instruction back. */
  lemma RenderRoundTrip(i: Instr, acceptsHalt: bool)
    requires Canonical(i, acceptsHalt)
    ensures SplitInstruction(Render(i), acceptsHalt) == Decoded(i)
  {
    RenderSplits(i, acceptsHalt);
    OperandsRoundTrip(i, acceptsHalt);
  }

  /** `jal label` links through x1. */
  lemma JalDefaultsToX1(target: string, acceptsHalt: bool)
    requires Token(target)
    ensures SplitInstruction(Line(Name(JAL), [target]), acceptsHalt) == Decoded(Instr(JAL, Some(1), None, None, Text(target)))
  {
    LineSplits(JAL, [target], acceptsHalt);
  }

  /** The instruction a HALT line stands for. */
  const Halt := Instr(System(HALT), None, None, None, Missing)

  /** `HALT` is the rendering of Halt and of no other instruction. */
  lemma HaltRendering(i: Instr)
    requires Canonical(i, true)
    ensures Render(Halt) == "HALT"
    ensures Render(i) == "HALT" <==> i == Halt
  {
    assert Operands(Halt) == [];
    if Operands(i) != [] {
      var n := Name(i.op);
      assert Render(i)[|n|] == ' ';
      assert ' ' !in "HALT";
    } else if Render(i) == "HALT" {
      assert Name(i.op) == Name(System(HALT));
      NamesDistinct(i.op, System(HALT));
    }
  }

  /** finalGUI/backend_gui.py rejects HALT, store_load.py decodes it. */
  lemma HaltAcceptance(acceptsHalt: bool)
    ensures SplitInstruction(Render(Halt), acceptsHalt) == if acceptsHalt then Decoded(Halt) else Rejected
  {
    RenderSplits(Halt, acceptsHalt);
    assert Operands(Halt) == [];
  }
}
