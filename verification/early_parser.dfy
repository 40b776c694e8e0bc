/** The text front end of rv32i_simulator_v1.py: its `instruction_splitting`.
    It deletes commas instead of replacing them with spaces, reads every
    register number with `int(text[1:])` whatever the first character is,
    lets the ValueError of those reads escape except inside the `offset(reg)`
    try block, keeps an immediate that is not all digits as text, and has
    no branch for the system mnemonics or for SLLI, SRLI and SRAI. It fills
    the same six-element tuple as the later drafts, so it shares their
    Instr and Splitting types and their rendering. */
module EarlyParser {
  import opened Wrappers
  import opened PyText
  import opened Isa
  import opened Parser

  /** `line.replace(',', '').split()`. */
  function EarlyTokens(line: string): seq<string>
  {
    Split(RemoveChar(line, ','))
  }

  /** `int(text[1:])`: None where `int` raises ValueError. */
  function RegisterNumber(text: string): Option<int>
  {
    ParseDecimal(DropFirst(text))
  }

  /** `int(p) if p.isdigit() else p`. */
  function DigitsOrText(p: string): (a: Arg)
    ensures a.Number? ==> a.n >= 0
  {
    if IsDigit(p) then Number(DigitsValue(p, 10)) else Text(p)
  }

  /** The mnemonics the splitter has a branch for. */
  predicate Recognised(m: Mnemonic)
  {
    !m.System? && m != Alu(SLLI) && m != Alu(SRLI) && m != Alu(SRAI)
  }

  /** The operand counts the branches check, counting the mnemonic. */
  predicate EarlyArity(m: Mnemonic, n: nat)
  {
    if m.Alu? || m.Branch? || m == JALR then n == 4 else n == 3
  }

  /** The fields each branch of the splitter fills: every register field it
      fills holds an integer (which may lie outside 0..31), loads and stores
      carry an integer offset, LUI and AUIPC an integer immediate, branches
      and JAL a label, and the I-type immediate is a number or text. */
  predicate EarlyShaped(i: Instr)
  {
    Recognised(i.op)
    && match i.op
       case Alu(op) =>
         i.rd.Some? && i.rs1.Some?
         && (if IsImmediate(op) then i.rs2.None? && !i.arg.Missing? else i.rs2.Some? && i.arg.Missing?)
       case Branch(_) => i.rd.None? && i.rs1.Some? && i.rs2.Some? && i.arg.Text?
       case Load(_) => i.rd.Some? && i.rs1.Some? && i.rs2.None? && i.arg.Number?
       case Store(_) => i.rd.None? && i.rs1.Some? && i.rs2.Some? && i.arg.Number?
       case Upper(_) => i.rd.Some? && i.rs1.None? && i.rs2.None? && i.arg.Number?
       case JAL => i.rd.Some? && i.rs1.None? && i.rs2.None? && i.arg.Text?
       case JALR => i.rd.Some? && i.rs1.Some? && i.rs2.None? && !i.arg.Missing?
       case System(_) => false
  }

  /** The branch for loads and stores: `offset, base = parts[2].split('(')`
      and the two `int` calls after it are in a try block that turns a
      ValueError into six Nones; `int(parts[1][1:])` comes after it. */
  function SplitMemoryOperands(m: Mnemonic, parts: seq<string>): (r: Splitting)
    requires (m.Load? || m.Store?) && |parts| == 3
    ensures r.Crashed? ==> r.error == ValueError
    ensures r.Decoded? ==> r.instr.op == m && EarlyShaped(r.instr)
  {
    var pieces := SplitOn(parts[2], '(');
    if |pieces| != 2 then Rejected
    else
      match (ParseDecimal(pieces[0]), RegisterNumber(DropLast(pieces[1])))
      case (Some(offset), Some(base)) =>
        (match RegisterNumber(parts[1])
         case None => Crashed(ValueError)
         case Some(reg) =>
           if m.Store? then Decoded(Instr(m, None, Some(base), Some(reg), Number(offset)))
           else Decoded(Instr(m, Some(reg), Some(base), None, Number(offset))))
      case _ => Rejected
  }

  /** The branches for the I-type, R-type and B-type mnemonics, all of
      four tokens: the first two operands are register numbers. */
  function SplitThreeOperands(m: Mnemonic, parts: seq<string>): (r: Splitting)
    requires (m.Alu? || m.Branch? || m == JALR) && Recognised(m) && |parts| == 4
    ensures r.Crashed? ==> r.error == ValueError
    ensures r.Decoded? ==> r.instr.op == m && EarlyShaped(r.instr)
  {
    match (RegisterNumber(parts[1]), RegisterNumber(parts[2]))
    case (Some(a), Some(b)) =>
      if m.Branch? then Decoded(Instr(m, None, Some(a), Some(b), Text(parts[3])))
      else if m == JALR || IsImmediate(m.alu) then Decoded(Instr(m, Some(a), Some(b), None, DigitsOrText(parts[3])))
      else
        (match RegisterNumber(parts[3])
         case Some(c) => Decoded(Instr(m, Some(a), Some(b), Some(c), Missing))
         case None => Crashed(ValueError))
    case _ => Crashed(ValueError)
  }

  /** The branch of `instruction_splitting` for the mnemonic of the line,
      given its tokens. */
  function SplitOperandsEarly(m: Mnemonic, parts: seq<string>): (r: Splitting)
    requires |parts| >= 1
    ensures r.Crashed? ==> r.error == ValueError
    ensures r.Decoded? ==> r.instr.op == m && EarlyShaped(r.instr) && EarlyArity(m, |parts|)
    ensures !Recognised(m) ==> r == Rejected
  {
    if !Recognised(m) then Rejected
    else if !EarlyArity(m, |parts|) then Rejected
    else if m.Load? || m.Store? then SplitMemoryOperands(m, parts)
    else if m.Alu? || m.Branch? || m == JALR then SplitThreeOperands(m, parts)
    else if m.Upper? then
      match (RegisterNumber(parts[1]), ParseDecimal(parts[2]))
      case (Some(rd), Some(imm)) => Decoded(Instr(m, Some(rd), None, None, Number(imm)))
      case _ => Crashed(ValueError)
    else
      match RegisterNumber(parts[1])
      case Some(rd) => Decoded(Instr(m, Some(rd), None, None, Text(parts[2])))
      case None => Crashed(ValueError)
  }

  /** `instruction_splitting(line)` of rv32i_simulator_v1.py. A line with
      nothing but commas has no tokens and `parts[0]` raises IndexError;
      the register reads outside the try block raise ValueError. */
  function EarlySplit(line: string): (r: Splitting)
    ensures r.Crashed? ==> r.error == IndexError || r.error == ValueError
    ensures r == Crashed(IndexError) <==> CleanLine(line) != [] && EarlyTokens(CleanLine(line)) == []
    ensures r.Decoded? ==>
      var parts := EarlyTokens(CleanLine(line));
      |parts| >= 1 && Lookup(PyText.Upper(parts[0])) == Some(r.instr.op) && EarlyArity(r.instr.op, |parts|)
    ensures r.Decoded? ==> EarlyShaped(r.instr)
  {
    var l := CleanLine(line);
    if l == [] then Rejected
    else
      var parts := EarlyTokens(l);
      if parts == [] then Crashed(IndexError)
      else
        match Lookup(PyText.Upper(parts[0]))
        case None => Rejected
        case Some(m) => SplitOperandsEarly(m, parts)
  }

  // ---------------------------------------------------------------------
  // Reading rendered lines back.

  /** The instructions the splitter gives back from their rendering: the
      later drafts' well-formed instructions that it has a branch for, with
      immediates that are written with digits alone. */
  predicate EarlyCanonical(i: Instr)
  {
    Canonical(i, false) && Recognised(i.op)
    && ((i.op.Alu? && IsImmediate(i.op.alu)) || i.op == JALR ==> i.arg.n >= 0)
  }

  /** Deleting the commas of a line built from tokens leaves the mnemonic
      and the operands separated by single spaces. */
  lemma EarlyLineTokens(name: string, operands: seq<string>)
    requires Token(name) && operands != [] && forall k :: 0 <= k < |operands| ==> Token(operands[k])
    ensures CleanLine(Line(name, operands)) == Line(name, operands)
    ensures EarlyTokens(Line(name, operands)) == [name] + operands
  {
    OperandLineClean(name, operands);
    assert Line(name, operands) == name + " " + Join(operands, ", ");
    CommaSpaceRemoved(name, operands);
    SpacedTokens(name, operands);
  }

  /** Deleting the commas of `name a, b, …` leaves `name a b …`. */
  lemma CommaSpaceRemoved(name: string, operands: seq<string>)
    requires Token(name) && forall k :: 0 <= k < |operands| ==> Token(operands[k])
    ensures RemoveChar(name + " " + Join(operands, ", "), ',') == name + " " + Join(operands, " ")
  {
    var head, j := name + " ", Join(operands, ", ");
    RemoveJoin(operands, ", ", ',');
    CommaRemoved();
    RemoveAbsent(head, ',');
    RemoveConcat(head, j, ',');
  }

  /** split() of tokens separated by single spaces gives the tokens. */
  lemma SpacedTokens(name: string, operands: seq<string>)
    requires Token(name) && operands != [] && forall k :: 0 <= k < |operands| ==> Token(operands[k])
    ensures Split(name + " " + Join(operands, " ")) == [name] + operands
  {
    SplitCons(name, " ", Join(operands, " "));
    SplitJoin(operands, " ");
  }

  /** `int(text[1:])` reads the number of a register name back. */
  lemma RegisterNumberName(r: nat)
    ensures RegisterNumber(RegisterName(r)) == Some(r)
  {
    assert DropFirst(RegisterName(r)) == ShowInt(r);
    ParseDecimalShow(r);
  }

  /** The base register of `offset(xN)` as the try block reads it. */
  lemma OffsetBaseNumber(offset: int, base: nat)
    requires base < 32
    ensures var pieces := SplitOn(OffsetOperand(offset, base), '(');
      |pieces| == 2 && ParseDecimal(pieces[0]) == Some(offset)
      && RegisterNumber(DropLast(pieces[1])) == Some(base)
  {
    OffsetOperandFacts(offset, base);
    var b := RegisterName(base) + ")";
    assert DropLast(b) == RegisterName(base);
    RegisterNumberName(base);
    ParseDecimalShow(offset);
  }

  /** A non-negative immediate is all digits and reads back as itself. */
  lemma DigitsRoundTrip(n: int)
    requires n >= 0
    ensures DigitsOrText(ShowInt(n)) == Number(n)
  {
    ShowNatValue(n);
  }

  /** A negative immediate starts with '-' and stays text. */
  lemma NegativeStaysText(n: int)
    requires n < 0
    ensures DigitsOrText(ShowInt(n)) == Text(ShowInt(n))
  {
    assert ShowInt(n)[0] == '-';
  }

  /** The load and store branch reads a register and an `offset(xN)`. */
  lemma MemoryPartsRead(m: Mnemonic, reg: nat, offset: int, base: nat)
    requires (m.Load? || m.Store?) && base < 32
    ensures SplitMemoryOperands(m, [Name(m), RegisterName(reg), OffsetOperand(offset, base)])
      == Decoded(if m.Store? then Instr(m, None, Some(base), Some(reg), Number(offset))
                 else Instr(m, Some(reg), Some(base), None, Number(offset)))
  {
    RegisterNumberName(reg);
    OffsetBaseNumber(offset, base);
  }

  /** The operand branch reads back a load or a store. */
  lemma EarlyMemoryRoundTrip(i: Instr)
    requires EarlyCanonical(i) && (i.op.Load? || i.op.Store?)
    ensures SplitOperandsEarly(i.op, [Name(i.op)] + Operands(i)) == Decoded(i)
  {
    var reg := if i.op.Store? then i.rs2.value else i.rd.value;
    var parts := [Name(i.op)] + Operands(i);
    assert parts == [Name(i.op), RegisterName(reg), OffsetOperand(i.arg.n, i.rs1.value)];
    assert SplitOperandsEarly(i.op, parts) == SplitMemoryOperands(i.op, parts);
    MemoryPartsRead(i.op, reg, i.arg.n, i.rs1.value);
  }

  /** The branch of four tokens reads two register names and a third
      operand. */
  lemma ThreePartsRead(m: Mnemonic, a: nat, b: nat, third: string)
    requires (m.Alu? || m.Branch? || m == JALR) && Recognised(m)
    ensures SplitThreeOperands(m, [Name(m), RegisterName(a), RegisterName(b), third])
      == if m.Branch? then Decoded(Instr(m, None, Some(a), Some(b), Text(third)))
         else if m == JALR || IsImmediate(m.alu) then Decoded(Instr(m, Some(a), Some(b), None, DigitsOrText(third)))
         else match RegisterNumber(third)
              case Some(c) => Decoded(Instr(m, Some(a), Some(b), Some(c), Missing))
              case None => Crashed(ValueError)
  {
    RegisterNumberName(a);
    RegisterNumberName(b);
  }

  /** The operand branch reads back an instruction of four tokens. */
  lemma EarlyThreeRoundTrip(i: Instr)
    requires EarlyCanonical(i) && (i.op.Alu? || i.op.Branch? || i.op == JALR)
    ensures SplitOperandsEarly(i.op, [Name(i.op)] + Operands(i)) == Decoded(i)
  {
    var parts := [Name(i.op)] + Operands(i);
    var os := Operands(i);
    assert |parts| == 4 && parts == [Name(i.op), os[0], os[1], os[2]];
    assert SplitOperandsEarly(i.op, parts) == SplitThreeOperands(i.op, parts);
    if i.op.Branch? {
      ThreePartsRead(i.op, i.rs1.value, i.rs2.value, i.arg.s);
    } else if i.op == JALR || IsImmediate(i.op.alu) {
      ThreePartsRead(i.op, i.rd.value, i.rs1.value, ShowInt(i.arg.n));
      DigitsRoundTrip(i.arg.n);
    } else {
      ThreePartsRead(i.op, i.rd.value, i.rs1.value, RegisterName(i.rs2.value));
      RegisterNumberName(i.rs2.value);
    }
  }

  /** The operand branch reads back LUI, AUIPC and JAL. */
  lemma EarlyTwoRoundTrip(i: Instr)
    requires EarlyCanonical(i) && (i.op.Upper? || i.op == JAL)
    ensures SplitOperandsEarly(i.op, [Name(i.op)] + Operands(i)) == Decoded(i)
  {
    var second := if i.op.Upper? then ShowInt(i.arg.n) else i.arg.s;
    assert [Name(i.op)] + Operands(i) == [Name(i.op), RegisterName(i.rd.value), second];
    RegisterNumberName(i.rd.value);
    if i.op.Upper? {
      ParseDecimalShow(i.arg.n);
    }
  }

  /** The splitter reaches the operand branch with the tokens of a rendered
      instruction. */
  lemma EarlyRenderSplits(i: Instr)
    requires Canonical(i, false) && Recognised(i.op)
    ensures EarlySplit(Render(i)) == SplitOperandsEarly(i.op, [Name(i.op)] + Operands(i))
  {
    OperandsAreTokens(i);
    NameIsToken(i.op);
    EarlyLineTokens(Name(i.op), Operands(i));
    LookupName(i.op);
  }

  /** The splitter of rv32i_simulator_v1.py reads a rendered instruction
      back, and so agrees with the later drafts' splitter on it. */
  lemma EarlyRenderRoundTrip(i: Instr)
    requires EarlyCanonical(i)
    ensures EarlySplit(Render(i)) == Decoded(i)
    ensures EarlySplit(Render(i)) == SplitInstruction(Render(i), false)
  {
    EarlyRenderSplits(i);
    if i.op.Load? || i.op.Store? {
      EarlyMemoryRoundTrip(i);
    } else if i.op.Alu? || i.op.Branch? || i.op == JALR {
      EarlyThreeRoundTrip(i);
    } else {
      EarlyTwoRoundTrip(i);
    }
    RenderRoundTrip(i, false);
  }

  /** A negative immediate of an I-type instruction comes back as the text
      of the number, where the later drafts read the number. */
  lemma EarlyNegativeImmediate(i: Instr)
    requires Canonical(i, false) && ((i.op.Alu? && IsImmediate(i.op.alu) && Recognised(i.op)) || i.op == JALR)
    requires i.arg.n < 0
    ensures EarlySplit(Render(i)) == Decoded(i.(arg := Text(ShowInt(i.arg.n))))
    ensures SplitInstruction(Render(i), false) == Decoded(i)
  {
    NegativeImmediateSplits(i);
    RenderRoundTrip(i, false);
  }

  /** The splitter keeps a negative immediate as its text. */
  lemma NegativeImmediateSplits(i: Instr)
    requires Canonical(i, false) && ((i.op.Alu? && IsImmediate(i.op.alu) && Recognised(i.op)) || i.op == JALR)
    requires i.arg.n < 0
    ensures EarlySplit(Render(i)) == Decoded(Instr(i.op, i.rd, i.rs1, None, Text(ShowInt(i.arg.n))))
  {
    EarlyRenderSplits(i);
    var parts := [Name(i.op), RegisterName(i.rd.value), RegisterName(i.rs1.value), ShowInt(i.arg.n)];
    ImmediateOperands(i);
    ThreeDispatch(i.op, parts);
    ThreePartsRead(i.op, i.rd.value, i.rs1.value, ShowInt(i.arg.n));
    NegativeStaysText(i.arg.n);
  }

  /** Four tokens of an I-type, R-type, B-type mnemonic or JALR reach the
      branch of four tokens. */
  lemma ThreeDispatch(m: Mnemonic, parts: seq<string>)
    requires (m.Alu? || m.Branch? || m == JALR) && Recognised(m) && |parts| == 4
    ensures SplitOperandsEarly(m, parts) == SplitThreeOperands(m, parts)
  {
  }

  /** The operands of an I-type instruction or of JALR. */
  lemma ImmediateOperands(i: Instr)
    requires Canonical(i, false) && ((i.op.Alu? && IsImmediate(i.op.alu)) || i.op == JALR)
    ensures [Name(i.op)] + Operands(i)
      == [Name(i.op), RegisterName(i.rd.value), RegisterName(i.rs1.value), ShowInt(i.arg.n)]
  {
  }

  /** Operands separated by bare commas run together into one token once
      the commas are deleted, so the line has two tokens and every branch
      rejects it, where the later drafts read the operands. */
  lemma CommaOnlyRejected(m: Mnemonic, operands: seq<string>, acceptsHalt: bool)
    requires |operands| >= 2 && forall k :: 0 <= k < |operands| ==> Token(operands[k])
    ensures EarlySplit(Name(m) + " " + Join(operands, ",")) == Rejected
    ensures SplitInstruction(Name(m) + " " + Join(operands, ","), acceptsHalt)
      == SplitOperands(m, [Name(m)] + operands, acceptsHalt)
  {
    CommaOnlyEarly(m, operands);
    CommaOnlyLater(m, operands, acceptsHalt);
  }

  /** The early splitter sees two tokens and rejects the line. */
  lemma CommaOnlyEarly(m: Mnemonic, operands: seq<string>)
    requires |operands| >= 1 && forall k :: 0 <= k < |operands| ==> Token(operands[k])
    ensures EarlySplit(Name(m) + " " + Join(operands, ",")) == Rejected
  {
    var name := Name(m);
    NameIsToken(m);
    calc {
      EarlySplit(name + " " + Join(operands, ","));
      { CommaOnlyClean(name, operands); CommaOnlyGlued(name, operands); LookupName(m); }
      SplitOperandsEarly(m, [name, Join(operands, [])]);
      { TwoTokensRejected(m, [name, Join(operands, [])]); }
      Rejected;
    }
  }

  /** No branch takes two tokens. */
  lemma TwoTokensRejected(m: Mnemonic, parts: seq<string>)
    requires |parts| == 2
    ensures SplitOperandsEarly(m, parts) == Rejected
  {
  }

  /** The later splitter reaches its operand branch with every operand. */
  lemma CommaOnlyLater(m: Mnemonic, operands: seq<string>, acceptsHalt: bool)
    requires |operands| >= 1 && forall k :: 0 <= k < |operands| ==> Token(operands[k])
    ensures SplitInstruction(Name(m) + " " + Join(operands, ","), acceptsHalt)
      == SplitOperands(m, [Name(m)] + operands, acceptsHalt)
  {
    var name := Name(m);
    NameIsToken(m);
    calc {
      SplitInstruction(name + " " + Join(operands, ","), acceptsHalt);
      { CommaOnlyClean(name, operands); }
      SplitClean(name + " " + Join(operands, ","), acceptsHalt);
      { CommaOnlySpaced(name, operands); CommaOnlyClean(name, operands); LookupName(m); }
      SplitOperands(m, [name] + operands, acceptsHalt);
    }
  }

  /** Deleting the bare commas glues the operands into one token. */
  lemma CommaOnlyGlued(name: string, operands: seq<string>)
    requires Token(name) && |operands| >= 1 && forall k :: 0 <= k < |operands| ==> Token(operands[k])
    ensures EarlyTokens(name + " " + Join(operands, ",")) == [name, Join(operands, [])]
  {
    var glued := Join(operands, []);
    JoinedTokens(operands);
    calc {
      EarlyTokens(name + " " + Join(operands, ","));
      Split(RemoveChar(name + " " + Join(operands, ","), ','));
      { CommaOnlyRemoved(name, operands); }
      Split(name + " " + glued);
      { TwoWords(name, glued); }
      [name, glued];
    }
  }

  /** split() of two words separated by a space. */
  lemma TwoWords(a: string, b: string)
    requires IsWord(a) && IsWord(b)
    ensures Split(a + " " + b) == [a, b]
  {
    SplitCons(a, " ", b);
    SplitJoin([b], " ");
    assert Join([b], " ") == b;
  }

  /** Deleting the commas of `name a,b,…` leaves `name ab…`. */
  lemma CommaOnlyRemoved(name: string, operands: seq<string>)
    requires Token(name) && forall k :: 0 <= k < |operands| ==> Token(operands[k])
    ensures RemoveChar(name + " " + Join(operands, ","), ',') == name + " " + Join(operands, [])
  {
    RemoveJoin(operands, ",", ',');
    CommaRemoved();
    RemoveAbsent(name + " ", ',');
    RemoveConcat(name + " ", Join(operands, ","), ',');
  }

  /** Tokens glued together make one token. */
  lemma {:induction false} JoinedTokens(ws: seq<string>)
    requires |ws| >= 1 && forall k :: 0 <= k < |ws| ==> Token(ws[k])
    ensures Token(Join(ws, []))
  {
    if |ws| > 1 {
      JoinedTokens(ws[1..]);
      assert Join(ws, []) == ws[0] + Join(ws[1..], []);
      TokenConcat(ws[0], Join(ws[1..], []));
    }
  }

  /** A mnemonic and comma-separated tokens form a clean line. */
  lemma CommaOnlyClean(name: string, operands: seq<string>)
    requires Token(name) && |operands| >= 1 && forall k :: 0 <= k < |operands| ==> Token(operands[k])
    ensures CleanLine(name + " " + Join(operands, ",")) == name + " " + Join(operands, ",")
  {
    JoinedLineClean(name, operands, ",");
  }

  /** The later drafts replace each bare comma with a space. */
  lemma CommaOnlySpaced(name: string, operands: seq<string>)
    requires Token(name) && |operands| >= 1 && forall k :: 0 <= k < |operands| ==> Token(operands[k])
    ensures Tokens(CleanLine(name + " " + Join(operands, ","))) == [name] + operands
  {
    CommaOnlyClean(name, operands);
    CommaOnlyReplaced(name, operands);
    SpacedTokens(name, operands);
  }

  /** Replacing the commas of `name a,b,…` with spaces gives `name a b …`. */
  lemma CommaOnlyReplaced(name: string, operands: seq<string>)
    requires Token(name) && forall k :: 0 <= k < |operands| ==> Token(operands[k])
    ensures ReplaceChar(name + " " + Join(operands, ","), ',', ' ') == name + " " + Join(operands, " ")
  {
    ReplaceJoin(operands, ",", ',', ' ');
    assert ReplaceChar(",", ',', ' ') == " ";
    ReplaceAbsent(name + " ", ',', ' ');
    ReplaceConcat(name + " ", Join(operands, ","), ',', ' ');
  }
}
