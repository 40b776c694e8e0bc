/** `load_memory_from_text` of finalGUI/backend_gui.py: each non-blank,
    non-comment line is `address, value`, where the address is read by
    `int(_, 0)` and the value is a `"..."` string (one byte per character
    at consecutive addresses), a `'c'` character (one byte), or a number
    (a little-endian word). A malformed line raises, which ends the load
    with the lines before it applied. */
module MemoryText {
  import opened Wrappers
  import opened PyInt
  import opened PyText
  import opened Isa
  import opened Memory

  /** The memory dictionary after a load, and how the load ended. */
  datatype Loaded = Loaded(memory: map<int, int>, outcome: Outcome)

  /** `value[1:-1]`. */
  function Inner(value: string): string
  {
    if |value| >= 2 then value[1..|value| - 1] else []
  }

  /** `for i, char in enumerate(s): store_byte(address + i, ord(char))`. */
  function StoreChars(m: map<int, int>, address: int, s: string): map<int, int>
    decreases |s|
  {
    if s == [] then m else StoreChars(ByteStored(m, address, s[0] as int), address + 1, s[1..])
  }

  /** The value part of a line, stored at the address. */
  function StoreValue(m: map<int, int>, address: int, value: string): Loaded
  {
    if StartsWith(value, "\"") && EndsWith(value, '"') then
      Loaded(StoreChars(m, address, Inner(value)), Normal)
    else if StartsWith(value, "'") && EndsWith(value, '\'') then
      if |value| < 2 then Loaded(m, Raised(IndexError))
      else Loaded(ByteStored(m, address, value[1] as int), Normal)
    else
      match ParseAuto(value)
      case None => Loaded(m, Raised(ValueError))
      case Some(v) => Loaded(WordStored(m, address, v), Normal)
  }

  /** `address_str, value_str = line.split(',')`, then the address. */
  function Entry(m: map<int, int>, parts: seq<string>): Loaded
  {
    if |parts| != 2 then Loaded(m, Raised(ValueError))
    else
      match ParseAuto(Strip(parts[0]))
      case None => Loaded(m, Raised(ValueError))
      case Some(address) => StoreValue(m, address, Strip(parts[1]))
  }

  /** One line of the memory text: blank and comment lines are skipped. */
  function MemoryLine(m: map<int, int>, line: string): Loaded
  {
    var l := Strip(line);
    if l == [] || StartsWith(l, "#") then Loaded(m, Normal) else Entry(m, SplitOn(l, ','))
  }

  /** The lines in order, up to the first that raises. */
  function LoadLines(m: map<int, int>, lines: seq<string>): Loaded
    decreases |lines|
  {
    if lines == [] then Loaded(m, Normal)
    else
      var r := MemoryLine(m, lines[0]);
      if r.outcome != Normal then r else LoadLines(r.memory, lines[1..])
  }

  /** `load_memory_from_text(memory_text)`. */
  function LoadMemoryText(m: map<int, int>, text: string): Loaded
  {
    if text == [] then Loaded(m, Normal) else LoadLines(m, SplitLines(text))
  }

  // ---------------------------------------------------------------------
  // What a load stores.

  /** A string literal puts the low byte of each character's code point at
      consecutive addresses and leaves every other address alone. */
  lemma {:induction false} StoreCharsMeaning(m: map<int, int>, address: int, s: string)
    ensures forall a :: address <= a < address + |s| ==>
      a in StoreChars(m, address, s) && StoreChars(m, address, s)[a] == Mask8(s[a - address] as int)
    ensures forall a :: (a < address || a >= address + |s|) ==>
      (a in StoreChars(m, address, s) <==> a in m)
      && (a in m ==> StoreChars(m, address, s)[a] == m[a])
    ensures ValidBytes(m) ==> ValidBytes(StoreChars(m, address, s))
    decreases |s|
  {
    if s != [] {
      var m1 := ByteStored(m, address, s[0] as int);
      StoreCharsMeaning(m1, address + 1, s[1..]);
      assert forall k :: 1 <= k < |s| ==> s[1..][k - 1] == s[k];
    }
  }

  /** A load keeps every stored value a byte. */
  lemma StoreValueBytes(m: map<int, int>, address: int, value: string)
    requires ValidBytes(m)
    ensures ValidBytes(StoreValue(m, address, value).memory)
  {
    StoreCharsMeaning(m, address, Inner(value));
    match ParseAuto(value)
    case None =>
    case Some(v) => StoresKeepBytes(m, address, v);
  }

  lemma MemoryLineBytes(m: map<int, int>, line: string)
    requires ValidBytes(m)
    ensures ValidBytes(MemoryLine(m, line).memory)
  {
    var l := Strip(line);
    if l != [] && !StartsWith(l, "#") {
      var parts := SplitOn(l, ',');
      if |parts| == 2 && ParseAuto(Strip(parts[0])).Some? {
        StoreValueBytes(m, ParseAuto(Strip(parts[0])).value, Strip(parts[1]));
      }
    }
  }

  lemma {:induction false} LoadLinesBytes(m: map<int, int>, lines: seq<string>)
    requires ValidBytes(m)
    ensures ValidBytes(LoadLines(m, lines).memory)
    decreases |lines|
  {
    if lines != [] {
      MemoryLineBytes(m, lines[0]);
      LoadLinesBytes(MemoryLine(m, lines[0]).memory, lines[1..]);
    }
  }

  lemma MemoryTextBytes(m: map<int, int>, text: string)
    requires ValidBytes(m)
    ensures ValidBytes(LoadMemoryText(m, text).memory)
  {
    if text != [] {
      LoadLinesBytes(m, SplitLines(text));
    }
  }

  // ---------------------------------------------------------------------
  // Reading written lines back.

  lemma LeadingSpaceStripped(t: string)
    requires t != [] && !IsSpace(t[0]) && !IsSpace(t[|t| - 1])
    ensures Strip(" " + t) == t
  {
    assert (" " + t)[1..] == t;
    StripKeeps(t);
  }

  lemma ShowIntFacts(n: int)
    ensures var s := ShowInt(n);
      s != [] && ',' !in s && !IsSpace(s[0]) && !IsSpace(s[|s| - 1])
      && (s[0] == '-' || '0' <= s[0] <= '9') && '0' <= s[|s| - 1] <= '9'
  {
    var s := ShowInt(n);
    assert forall k :: 0 <= k < |s| ==> s[k] == '-' || '0' <= s[k] <= '9';
  }

  /** The text `address, value` is already stripped, is not a comment,
      and splits at its one comma. */
  lemma AddressedLineParts(address: int, value: string)
    requires value != [] && !IsSpace(value[0]) && !IsSpace(value[|value| - 1]) && ',' !in value
    ensures var line := ShowInt(address) + ", " + value;
      Strip(line) == line && line != [] && !StartsWith(line, "#")
      && SplitOn(line, ',') == [ShowInt(address), " " + value]
  {
    ShowIntFacts(address);
    var a := ShowInt(address);
    var line := a + ", " + value;
    CommaParts(a, value);
    SplitOnPair(a, " " + value, ',');
    assert line[0] == a[0] && line[|line| - 1] == value[|value| - 1];
    StripKeeps(line);
  }

  /** `a, value` is a, a comma, and a space before a comma-free value. */
  lemma CommaParts(a: string, value: string)
    requires ',' !in value
    ensures a + ", " + value == a + [','] + (" " + value)
    ensures ',' !in " " + value
  {
    assert ", " == [','] + " ";
    assert forall k :: 1 <= k < |" " + value| ==> (" " + value)[k] == value[k - 1];
  }

  lemma AddressedEntry(m: map<int, int>, address: int, value: string)
    requires value != [] && !IsSpace(value[0]) && !IsSpace(value[|value| - 1])
    ensures Entry(m, [ShowInt(address), " " + value]) == StoreValue(m, address, value)
  {
    ShowIntFacts(address);
    StripKeeps(ShowInt(address));
    ParseAutoShow(address);
    LeadingSpaceStripped(value);
  }

  /** The text `address, value` loads the value at the address. */
  lemma AddressedLine(m: map<int, int>, address: int, value: string)
    requires value != [] && !IsSpace(value[0]) && !IsSpace(value[|value| - 1]) && ',' !in value
    ensures MemoryLine(m, ShowInt(address) + ", " + value) == StoreValue(m, address, value)
  {
    AddressedLineParts(address, value);
    AddressedEntry(m, address, value);
  }

  lemma NumberValue(m: map<int, int>, address: int, v: int)
    ensures StoreValue(m, address, ShowInt(v)) == Loaded(WordStored(m, address, v), Normal)
  {
    ShowIntFacts(v);
    var t := ShowInt(v);
    assert !StartsWith(t, "\"") && !StartsWith(t, "'") by {
      assert t[..1] == [t[0]];
    }
    ParseAutoShow(v);
  }

  /** A line `address, value` written with `str` loads the word value. */
  lemma WordLineRoundTrip(m: map<int, int>, address: int, v: int)
    requires ValidBytes(m)
    ensures MemoryLine(m, ShowInt(address) + ", " + ShowInt(v)) == Loaded(WordStored(m, address, v), Normal)
    ensures LoadWord(MemoryLine(m, ShowInt(address) + ", " + ShowInt(v)).memory, address) == Mask32(v)
  {
    ShowIntFacts(v);
    AddressedLine(m, address, ShowInt(v));
    NumberValue(m, address, v);
    WordRoundTrip(m, address, v);
  }

  /** A line `address, "s"` loads the characters of s. */
  lemma StringLineRoundTrip(m: map<int, int>, address: int, s: string)
    requires ',' !in s
    ensures MemoryLine(m, ShowInt(address) + ", \"" + s + "\"") == Loaded(StoreChars(m, address, s), Normal)
  {
    var value := "\"" + s + "\"";
    QuotedValue(m, address, s);
    AddressedLine(m, address, value);
    QuotedLine(ShowInt(address), s);
  }

  /** The line `a, "s"` is a, the separator and the quoted value. */
  lemma QuotedLine(a: string, s: string)
    ensures a + ", \"" + s + "\"" == a + ", " + ("\"" + s + "\"")
  {
    assert ", \"" == ", " + "\"";
  }

  /** A double-quoted value without commas stores the characters between
      the quotes. */
  lemma QuotedValue(m: map<int, int>, address: int, s: string)
    requires ',' !in s
    ensures ',' !in "\"" + s + "\""
    ensures StoreValue(m, address, "\"" + s + "\"") == Loaded(StoreChars(m, address, s), Normal)
  {
    var value := "\"" + s + "\"";
    assert value[0] == '"' && value[|value| - 1] == '"';
    assert value[1..|value| - 1] == s;
    assert value[..1] == "\"";
    assert forall k :: 0 <= k < |value| ==> value[k] == '"' || value[k] == s[k - 1];
  }

  /** A line `address, 'c'` loads one byte. */
  lemma CharLineRoundTrip(m: map<int, int>, address: int, c: char)
    requires c != ',' && c != '"'
    ensures MemoryLine(m, ShowInt(address) + ", '" + [c] + "'") == Loaded(ByteStored(m, address, c as int), Normal)
  {
    var value := "'" + [c] + "'";
    AddressedLine(m, address, value);
    assert ShowInt(address) + ", '" + [c] + "'" == ShowInt(address) + ", " + value;
    CharValue(m, address, c);
  }

  /** A quoted character stores its code as one byte. */
  lemma CharValue(m: map<int, int>, address: int, c: char)
    requires c != '"'
    ensures StoreValue(m, address, "'" + [c] + "'") == Loaded(ByteStored(m, address, c as int), Normal)
  {
    var value := "'" + [c] + "'";
    assert value[0] == '\'' && value[1] == c && value[2] == '\'' && |value| == 3;
    assert !StartsWith(value, "\"") && StartsWith(value, "'") && EndsWith(value, '\'');
  }

  /** A lone quote as the value raises IndexError at `value[1]`. */
  lemma LoneQuoteRaises(m: map<int, int>, address: int)
    ensures MemoryLine(m, ShowInt(address) + ", '") == Loaded(m, Raised(IndexError))
  {
    AddressedLine(m, address, "'");
    assert ShowInt(address) + ", '" == ShowInt(address) + ", " + "'";
  }

  // ---------------------------------------------------------------------
  // The loader, updating the memory dictionary in place.

  /** Storing one value part at its address. */
  method StoreValueAt(mem: ByteMemory, address: int, value: string) returns (out: Outcome)
    requires mem.Valid()
    modifies mem
    ensures mem.Valid()
    ensures Loaded(mem.cells, out) == StoreValue(old(mem.cells), address, value)
  {
    if StartsWith(value, "\"") && EndsWith(value, '"') {
      var s := Inner(value);
      for k := 0 to |s|
        invariant mem.Valid()
        invariant StoreChars(old(mem.cells), address, s) == StoreChars(mem.cells, address + k, s[k..])
      {
        assert s[k..][0] == s[k] && s[k..][1..] == s[k + 1..];
        mem.StoreByte(address + k, s[k] as int);
      }
      assert s[|s|..] == [];
      return Normal;
    } else if StartsWith(value, "'") && EndsWith(value, '\'') {
      if |value| < 2 {
        return Raised(IndexError);
      }
      mem.StoreByte(address, value[1] as int);
      return Normal;
    } else {
      var v := ParseAuto(value);
      if v.None? {
        return Raised(ValueError);
      }
      mem.StoreWord(address, v.value);
      return Normal;
    }
  }

  /** One line of the memory text, applied to the memory. */
  method LoadLine(mem: ByteMemory, text: string) returns (out: Outcome)
    requires mem.Valid()
    modifies mem
    ensures mem.Valid()
    ensures Loaded(mem.cells, out) == MemoryLine(old(mem.cells), text)
  {
    var line := Strip(text);
    if line == [] || StartsWith(line, "#") {
      return Normal;
    }
    var parts := SplitOn(line, ',');
    if |parts| != 2 {
      return Raised(ValueError);
    }
    var address := ParseAuto(Strip(parts[0]));
    if address.None? {
      return Raised(ValueError);
    }
    assert MemoryLine(old(mem.cells), text) == StoreValue(old(mem.cells), address.value, Strip(parts[1]));
    out := StoreValueAt(mem, address.value, Strip(parts[1]));
  }

  /** `load_memory_from_text(memory_text)` on the given memory. */
  method LoadMemoryFromText(mem: ByteMemory, text: string) returns (out: Outcome)
    requires mem.Valid()
    modifies mem
    ensures mem.Valid()
    ensures Loaded(mem.cells, out) == LoadMemoryText(old(mem.cells), text)
  {
    if text == [] {
      return Normal;
    }
    var lines := SplitLines(text);
    var i := 0;
    while i < |lines|
      invariant 0 <= i <= |lines| && mem.Valid()
      invariant LoadLines(old(mem.cells), lines) == LoadLines(mem.cells, lines[i..])
    {
      assert lines[i..][0] == lines[i] && lines[i..][1..] == lines[i + 1..];
      out := LoadLine(mem, lines[i]);
      if out != Normal {
        return;
      }
      i := i + 1;
    }
    return Normal;
  }
}
