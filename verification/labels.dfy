/** The first pass over the program text. finalGUI/backend_gui.py and
    store_load.py clean every line, drop blank lines, record `name:` lines
    as labels and keep the rest as the executable instruction list; a label
    maps to the base address plus the number of instructions before it
    (the starting PC in finalGUI/backend_gui.py, 0 in store_load.py).
    rv32i_simulator_v1.py has two passes: `scan_labels` counts instructions
    the same way from 0, and its `main` maps a label to its own line number. */
module Labels {
  import opened PyText
  import opened Parser

  /** What a line is to the label pass, once cleaned. */
  datatype LineKind = Blank | LabelLine(name: string) | Instruction(text: string)

  /** `name:` defines the label `name` (stripped again); any other non-blank
      cleaned line is an instruction. */
  function Classify(line: string): LineKind
  {
    var l := CleanLine(line);
    if l == [] then Blank
    else if EndsWith(l, ':') then LabelLine(Strip(DropLast(l)))
    else Instruction(l)
  }

  /** The kinds of the lines of a program text, in order. */
  function Kinds(lines: seq<string>): (r: seq<LineKind>)
    ensures |r| == |lines|
    decreases |lines|
  {
    if lines == [] then [] else Kinds(lines[..|lines| - 1]) + [Classify(lines[|lines| - 1])]
  }

  lemma {:induction false} KindsAt(lines: seq<string>, i: int)
    requires 0 <= i < |lines|
    ensures Kinds(lines)[i] == Classify(lines[i])
    decreases |lines|
  {
    if i < |lines| - 1 {
      KindsAt(lines[..|lines| - 1], i);
    }
  }

  /** The label dictionary and the executable instruction list. */
  datatype Program = Program(labels: map<string, int>, executable: seq<string>)

  /** One iteration of the pass: a label line maps its name to the base
      plus the number of instructions so far, an instruction line is
      appended, a blank line changes nothing. */
  function Extend(p: Program, kind: LineKind, base: int): Program
  {
    match kind
    case Blank => p
    case LabelLine(name) => Program(p.labels[name := base + |p.executable|], p.executable)
    case Instruction(text) => Program(p.labels, p.executable + [text])
  }

  /** The pass as the loop runs it, one line at a time, on the kinds of the
      lines. */
  function Pass(kinds: seq<LineKind>, base: int): Program
    decreases |kinds|
  {
    if kinds == [] then Program(map[], [])
    else Extend(Pass(kinds[..|kinds| - 1], base), kinds[|kinds| - 1], base)
  }

  /** The first pass of `main` over the program text. */
  function FirstPass(lines: seq<string>, base: int): Program
  {
    Pass(Kinds(lines), base)
  }

  /** The pass over one more line is one more iteration. */
  lemma FirstPassSnoc(lines: seq<string>, k: int, base: int)
    requires 0 <= k < |lines|
    ensures FirstPass(lines[..k + 1], base) == Extend(FirstPass(lines[..k], base), Classify(lines[k]), base)
  {
    var init := lines[..k + 1];
    assert init[..k] == lines[..k];
    var kinds := Kinds(init);
    assert kinds == Kinds(lines[..k]) + [Classify(lines[k])];
    assert kinds[..k] == Kinds(lines[..k]);
  }

  /** The text a line contributes to the executable list. */
  function Kept(k: LineKind): seq<string>
  {
    match k
    case Instruction(text) => [text]
    case _ => []
  }

  /** The instruction lines, in order: the reference the executable list is
      checked against. */
  function Instructions(kinds: seq<LineKind>): seq<string>
    decreases |kinds|
  {
    if kinds == [] then [] else Kept(kinds[0]) + Instructions(kinds[1..])
  }

  lemma {:induction false} InstructionsSnoc(kinds: seq<LineKind>, k: LineKind)
    ensures Instructions(kinds + [k]) == Instructions(kinds) + Kept(k)
    decreases |kinds|
  {
    if kinds == [] {
      assert [k][1..] == [];
    } else {
      var rest := kinds[1..];
      assert (kinds + [k])[0] == kinds[0];
      assert (kinds + [k])[1..] == rest + [k];
      InstructionsSnoc(rest, k);
      calc {
        Instructions(kinds + [k]);
        Kept(kinds[0]) + Instructions(rest + [k]);
        Kept(kinds[0]) + (Instructions(rest) + Kept(k));
        (Kept(kinds[0]) + Instructions(rest)) + Kept(k);
      }
    }
  }

  /** The executable list is exactly the instruction lines. */
  lemma {:induction false} ExecutableLines(kinds: seq<LineKind>, base: int)
    ensures Pass(kinds, base).executable == Instructions(kinds)
    decreases |kinds|
  {
    if kinds != [] {
      var init := kinds[..|kinds| - 1];
      ExecutableLines(init, base);
      assert kinds == init + [kinds[|kinds| - 1]];
      InstructionsSnoc(init, kinds[|kinds| - 1]);
    }
  }

  /** An instruction line is clean, non-empty and does not end in `:`. */
  lemma InstructionIsClean(line: string)
    requires Classify(line).Instruction?
    ensures var t := Classify(line).text;
      t != [] && !EndsWith(t, ':') && '#' !in t && CleanLine(t) == t
  {
    CleanLineFacts(line);
  }

  /** The text of an instruction line as the loop fetches it. */
  predicate CleanInstruction(t: string)
  {
    t != [] && !EndsWith(t, ':') && CleanLine(t) == t
  }

  lemma {:induction false} PassKeepsClean(kinds: seq<LineKind>, base: int)
    requires forall i :: 0 <= i < |kinds| ==> kinds[i].Instruction? ==> CleanInstruction(kinds[i].text)
    ensures forall k :: 0 <= k < |Pass(kinds, base).executable| ==> CleanInstruction(Pass(kinds, base).executable[k])
    decreases |kinds|
  {
    if kinds != [] {
      var init := kinds[..|kinds| - 1];
      assert forall i :: 0 <= i < |init| ==> init[i] == kinds[i];
      PassKeepsClean(init, base);
    }
  }

  /** Every executable line is clean, so fetching and cleaning it again in
      the execution loop changes nothing. */
  lemma ExecutableClean(lines: seq<string>, base: int)
    ensures forall k :: 0 <= k < |FirstPass(lines, base).executable| ==>
      CleanInstruction(FirstPass(lines, base).executable[k])
  {
    var kinds := Kinds(lines);
    forall i | 0 <= i < |kinds| && kinds[i].Instruction?
      ensures CleanInstruction(kinds[i].text)
    {
      KindsAt(lines, i);
      InstructionIsClean(lines[i]);
    }
    PassKeepsClean(kinds, base);
  }

  /** A program without instruction lines has an empty executable list,
      and conversely. */
  lemma {:induction false} EmptyProgram(kinds: seq<LineKind>, base: int)
    ensures Pass(kinds, base).executable == [] <==> forall i :: 0 <= i < |kinds| ==> !kinds[i].Instruction?
    decreases |kinds|
  {
    if kinds != [] {
      var init := kinds[..|kinds| - 1];
      EmptyProgram(init, base);
      assert forall i :: 0 <= i < |init| ==> init[i] == kinds[i];
    }
  }

  /** The labels store_load.py computes from 0, shifted by the starting PC,
      are the labels finalGUI/backend_gui.py computes; the executable lists
      are the same. */
  lemma {:induction false} BaseShift(kinds: seq<LineKind>, base: int)
    ensures Pass(kinds, base).executable == Pass(kinds, 0).executable
    ensures Pass(kinds, base).labels.Keys == Pass(kinds, 0).labels.Keys
    ensures forall l :: l in Pass(kinds, base).labels ==>
      Pass(kinds, base).labels[l] == base + Pass(kinds, 0).labels[l]
    decreases |kinds|
  {
    if kinds != [] {
      BaseShift(kinds[..|kinds| - 1], base);
    }
  }

  /** Line i is the last one that defines l. */
  predicate LastDefinition(kinds: seq<LineKind>, l: string, i: int)
  {
    0 <= i < |kinds| && kinds[i] == LabelLine(l)
    && forall j :: i < j < |kinds| ==> kinds[j] != LabelLine(l)
  }

  /** A name is a label exactly when some line defines it, and it maps to
      the base plus the number of instruction lines before its last
      definition: a later duplicate overwrites an earlier one. */
  lemma {:induction false} LabelMeaning(kinds: seq<LineKind>, base: int, l: string)
    ensures l in Pass(kinds, base).labels <==> exists i :: 0 <= i < |kinds| && kinds[i] == LabelLine(l)
    ensures l in Pass(kinds, base).labels ==>
      exists i :: LastDefinition(kinds, l, i)
        && Pass(kinds, base).labels[l] == base + |Instructions(kinds[..i])|
    decreases |kinds|
  {
    if kinds != [] {
      var n := |kinds| - 1;
      var init := kinds[..n];
      LabelMeaning(init, base, l);
      assert forall i :: 0 <= i < n ==> init[i] == kinds[i];
      var p := Pass(init, base);
      if kinds[n] == LabelLine(l) {
        ExecutableLines(init, base);
        assert LastDefinition(kinds, l, n);
      } else if l in p.labels {
        var i :| LastDefinition(init, l, i) && p.labels[l] == base + |Instructions(init[..i])|;
        assert init[..i] == kinds[..i];
        assert LastDefinition(kinds, l, i);
      }
    }
  }

  /** Every label lies between the base and one past the last instruction. */
  lemma {:induction false} LabelRange(kinds: seq<LineKind>, base: int)
    ensures forall l :: l in Pass(kinds, base).labels ==>
      base <= Pass(kinds, base).labels[l] <= base + |Pass(kinds, base).executable|
    decreases |kinds|
  {
    if kinds != [] {
      LabelRange(kinds[..|kinds| - 1], base);
    }
  }

  /** The first pass of `main` in finalGUI/backend_gui.py and
      store_load.py: the loop over the lines that fills the label
      dictionary and the executable list, labels counted from base. */
  method FirstPassLoop(lines: seq<string>, base: int) returns (labels: map<string, int>, executable: seq<string>)
    ensures Program(labels, executable) == FirstPass(lines, base)
  {
    labels, executable := map[], [];
    ghost var p := Program(labels, executable);
    for k := 0 to |lines|
      invariant p == FirstPass(lines[..k], base)
      invariant labels == p.labels && executable == p.executable
    {
      FirstPassSnoc(lines, k, base);
      p := Extend(p, Classify(lines[k]), base);
      var stripped := CleanLine(lines[k]);
      if stripped != [] {
        if EndsWith(stripped, ':') {
          labels := labels[Strip(DropLast(stripped)) := base + |executable|];
        } else {
          executable := executable + [stripped];
        }
      }
    }
    assert lines[..|lines|] == lines;
  }

  // ---------------------------------------------------------------------
  // rv32i_simulator_v1.py.

  /** `scan_labels`: the loop over lines with an instruction counter. */
  method ScanLabels(lines: seq<string>) returns (labels: map<string, int>)
    ensures labels == FirstPass(lines, 0).labels
  {
    labels := map[];
    var address := 0;
    var i := 0;
    while i < |lines|
      invariant 0 <= i <= |lines|
      invariant labels == FirstPass(lines[..i], 0).labels
      invariant address == |FirstPass(lines[..i], 0).executable|
    {
      FirstPassSnoc(lines, i, 0);
      var line := CleanLine(lines[i]);
      if line != [] {
        if EndsWith(line, ':') {
          labels := labels[Strip(DropLast(line)) := address];
        } else {
          address := address + 1;
        }
      }
      i := i + 1;
    }
    assert lines[..i] == lines;
  }

  /** The label pass of rv32i_simulator_v1.py's `main`: a label maps to the
      index of its own line in the file. */
  function LineNumberLabels(kinds: seq<LineKind>): map<string, int>
    decreases |kinds|
  {
    if kinds == [] then map[]
    else
      var m := LineNumberLabels(kinds[..|kinds| - 1]);
      match kinds[|kinds| - 1]
      case LabelLine(name) => m[name := |kinds| - 1]
      case _ => m
  }

  /** A line-number label points at the line that last defines it. */
  lemma {:induction false} LineNumberMeaning(kinds: seq<LineKind>, l: string)
    ensures l in LineNumberLabels(kinds) <==> exists i :: 0 <= i < |kinds| && kinds[i] == LabelLine(l)
    ensures l in LineNumberLabels(kinds) ==> LastDefinition(kinds, l, LineNumberLabels(kinds)[l])
    decreases |kinds|
  {
    if kinds != [] {
      var n := |kinds| - 1;
      var init := kinds[..n];
      LineNumberMeaning(init, l);
      assert forall i :: 0 <= i < n ==> init[i] == kinds[i];
    }
  }

  /** A line-number label points at a line that defines it. */
  lemma LineNumberTarget(kinds: seq<LineKind>, l: string)
    requires l in LineNumberLabels(kinds)
    ensures 0 <= LineNumberLabels(kinds)[l] < |kinds| && kinds[LineNumberLabels(kinds)[l]] == LabelLine(l)
  {
    LineNumberMeaning(kinds, l);
  }

  lemma {:induction false} ExecutableLength(kinds: seq<LineKind>)
    ensures |Pass(kinds, 0).executable| <= |kinds|
    decreases |kinds|
  {
    if kinds != [] {
      ExecutableLength(kinds[..|kinds| - 1]);
    }
  }

  /** The two passes of rv32i_simulator_v1.py know the same labels, and the
      line number is never below the instruction count. */
  lemma {:induction false} LineNumbersExceedCounts(kinds: seq<LineKind>)
    ensures LineNumberLabels(kinds).Keys == Pass(kinds, 0).labels.Keys
    ensures forall l :: l in LineNumberLabels(kinds) ==>
      Pass(kinds, 0).labels[l] <= LineNumberLabels(kinds)[l]
    decreases |kinds|
  {
    if kinds != [] {
      var n := |kinds| - 1;
      LineNumbersExceedCounts(kinds[..n]);
      ExecutableLength(kinds[..n]);
    }
  }

  /** A line that is a comment once stripped is dropped. */
  lemma CommentIsBlank(line: string)
    requires Strip(line) != [] && Strip(line)[0] == '#'
    ensures Classify(line) == Blank
  {
    var s := Strip(line);
    assert IndexOf(s, '#') == 0;
    assert SplitOn(s, '#')[0] == [];
  }

  /** `name:` defines the label name, for every name the splitter would
      read as one token. */
  lemma LabelIsLabel(name: string)
    requires Token(name)
    ensures Classify(name + ":") == LabelLine(name)
  {
    var l := name + ":";
    StripKeeps(l);
    assert '#' !in l;
    assert DropLast(l) == name;
    StripKeeps(name);
  }

  /** A comment line before a label already separates the two passes. */
  lemma PassesDiffer()
    ensures LineNumberLabels(Kinds(["# start", "loop:"])) == map["loop" := 1]
    ensures FirstPass(["# start", "loop:"], 0).labels == map["loop" := 0]
  {
    CommentThenLabel();
    var kinds := [Blank, LabelLine("loop")];
    assert kinds[..1] == [Blank];
    assert kinds[..1][..0] == [];
    assert Pass(kinds[..1], 0) == Program(map[], []);
  }

  /** The kinds of the two lines PassesDiffer runs on. */
  lemma CommentThenLabel()
    ensures Kinds(["# start", "loop:"]) == [Blank, LabelLine("loop")]
  {
    var lines := ["# start", "loop:"];
    StripKeeps(lines[0]);
    CommentIsBlank(lines[0]);
    assert Token("loop");
    LabelIsLabel("loop");
    assert lines[1] == "loop" + ":";
    assert lines[..1] == ["# start"];
    assert lines[..1][..0] == [];
  }

  /** The loop of `main` in rv32i_simulator_v1.py that fills its local
      label dictionary. */
  method LineNumberPass(lines: seq<string>) returns (labels: map<string, int>)
    ensures labels == LineNumberLabels(Kinds(lines))
  {
    labels := map[];
    for lineNumber := 0 to |lines|
      invariant labels == LineNumberLabels(Kinds(lines[..lineNumber]))
    {
      assert lines[..lineNumber + 1][..lineNumber] == lines[..lineNumber];
      var line := CleanLine(lines[lineNumber]);
      if line != [] && EndsWith(line, ':') {
        labels := labels[Strip(DropLast(line)) := lineNumber];
      }
    }
    assert lines[..|lines|] == lines;
  }
}
