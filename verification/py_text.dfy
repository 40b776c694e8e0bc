/** The Python string operations the simulator's text front end is built
    from: `strip`, `split()`, `split(sep)`, `splitlines`, `replace`,
    `upper`/`lower`, `isdigit`, `int(s)` and `int(s, 0)`, together with a
    decimal renderer that serves as their partner in round-trip lemmas. */
module PyText {
  import opened Wrappers

  // ---------------------------------------------------------------------
  // Whitespace, strip and split().

  /** Python's `str.isspace` on one character (the full set Python uses for
      `strip()` and `split()` with no argument). */
  predicate IsSpace(c: char)
  {
    var n := c as int;
    (9 <= n <= 13) || (28 <= n <= 32) || n == 0x85 || n == 0xA0 || n == 0x1680
    || (0x2000 <= n <= 0x200A) || n == 0x2028 || n == 0x2029 || n == 0x202F
    || n == 0x205F || n == 0x3000
  }

  predicate NoSpace(s: string)
  {
    forall i :: 0 <= i < |s| ==> !IsSpace(s[i])
  }

  predicate AllSpace(s: string)
  {
    forall i :: 0 <= i < |s| ==> IsSpace(s[i])
  }

  /** `s.lstrip()`. */
  function LStrip(s: string): (r: string)
    ensures |r| <= |s|
    ensures r == [] || !IsSpace(r[0])
  {
    if |s| > 0 && IsSpace(s[0]) then LStrip(s[1..]) else s
  }

  /** lstrip() removes a leading run of whitespace and nothing else. */
  lemma {:induction false} LStripDrops(s: string)
    ensures LStrip(s) == s[|s| - |LStrip(s)|..]
    ensures AllSpace(s[..|s| - |LStrip(s)|])
  {
    if |s| > 0 && IsSpace(s[0]) {
      LStripDrops(s[1..]);
    }
  }

  /** `s.rstrip()`. */
  function RStrip(s: string): (r: string)
    ensures |r| <= |s| && r == s[..|r|]
    ensures r == [] || !IsSpace(r[|r| - 1])
  {
    if |s| > 0 && IsSpace(s[|s| - 1]) then RStrip(s[..|s| - 1]) else s
  }

  /** rstrip() removes a trailing run of whitespace and nothing else. */
  lemma {:induction false} RStripDrops(s: string)
    ensures AllSpace(s[|RStrip(s)|..])
  {
    if |s| > 0 && IsSpace(s[|s| - 1]) {
      RStripDrops(s[..|s| - 1]);
      assert s[|RStrip(s)|..] == s[..|s| - 1][|RStrip(s)|..] + [s[|s| - 1]];
    }
  }

  /** `s.strip()`: neither end of the result is whitespace. */
  function Strip(s: string): (r: string)
    ensures |r| <= |s|
    ensures r == [] || (!IsSpace(r[0]) && !IsSpace(r[|r| - 1]))
  {
    RStrip(LStrip(s))
  }

  /** A string whose ends are not whitespace is left alone by strip. */
  lemma StripKeeps(s: string)
    requires s == [] || (!IsSpace(s[0]) && !IsSpace(s[|s| - 1]))
    ensures Strip(s) == s
  {
  }

  /** The length of the leading run of non-whitespace characters. */
  function WordLength(t: string): (n: nat)
    ensures n <= |t|
    ensures NoSpace(t[..n])
    ensures n == |t| || IsSpace(t[n])
  {
    if |t| == 0 || IsSpace(t[0]) then 0
    else
      var m := WordLength(t[1..]);
      assert t[..m + 1] == [t[0]] + t[1..][..m];
      1 + m
  }

  /** `s.split()`: the maximal runs of non-whitespace characters. */
  function Split(s: string): seq<string>
    decreases |s|
  {
    var t := LStrip(s);
    if t == [] then []
    else
      var n := WordLength(t);
      [t[..n]] + Split(t[n..])
  }

  predicate IsWord(w: string)
  {
    w != [] && NoSpace(w)
  }

  /** Every piece split() returns is a non-empty run without whitespace. */
  lemma {:induction false} SplitWords(s: string)
    ensures forall k :: 0 <= k < |Split(s)| ==> IsWord(Split(s)[k])
    decreases |s|
  {
    var t := LStrip(s);
    if t != [] {
      var n := WordLength(t);
      SplitWords(t[n..]);
      var rest := Split(t[n..]);
      assert Split(s) == [t[..n]] + rest;
      assert IsWord(t[..n]);
    }
  }

  /** Words joined by a separator. */
  function Join(ws: seq<string>, sep: string): string
  {
    if |ws| == 0 then []
    else if |ws| == 1 then ws[0]
    else ws[0] + sep + Join(ws[1..], sep)
  }

  lemma {:induction false} WordLengthOfPrefix(w: string, rest: string)
    requires NoSpace(w)
    requires rest == [] || IsSpace(rest[0])
    ensures WordLength(w + rest) == |w|
  {
    if w != [] {
      assert (w + rest)[1..] == w[1..] + rest;
      WordLengthOfPrefix(w[1..], rest);
    }
  }

  lemma {:induction false} LStripSpaces(sep: string, u: string)
    requires AllSpace(sep)
    ensures LStrip(sep + u) == LStrip(u)
  {
    if sep != [] {
      assert (sep + u)[0] == sep[0] && IsSpace(sep[0]);
      assert (sep + u)[1..] == sep[1..] + u;
      assert AllSpace(sep[1..]);
      LStripSpaces(sep[1..], u);
    } else {
      assert sep + u == u;
    }
  }

  /** split() undoes joining non-empty, whitespace-free words with a
      whitespace separator. */
  lemma {:induction false} SplitJoin(ws: seq<string>, sep: string)
    requires forall k :: 0 <= k < |ws| ==> IsWord(ws[k])
    requires sep != [] && AllSpace(sep)
    ensures Split(Join(ws, sep)) == ws
  {
    if |ws| == 1 {
      var w := ws[0];
      assert Join(ws, sep) == w;
      WordLengthOfPrefix(w, []);
      assert w + [] == w;
      assert w[|w|..] == [];
    } else if |ws| > 1 {
      var w, rest := ws[0], Join(ws[1..], sep);
      var line := w + (sep + rest);
      assert Join(ws, sep) == line;
      assert LStrip(line) == line;
      WordLengthOfPrefix(w, sep + rest);
      assert line[..|w|] == w;
      assert line[|w|..] == sep + rest;
      SplitJoin(ws[1..], sep);
      LStripSpaces(sep, rest);
      assert rest != [] && !IsSpace(rest[0]) by { JoinStartsWithWord(ws[1..], sep); }
      assert Split(sep + rest) == Split(rest);
    }
  }

  lemma JoinStartsWithWord(ws: seq<string>, sep: string)
    requires |ws| >= 1 && ws[0] != []
    ensures Join(ws, sep) != [] && Join(ws, sep)[0] == ws[0][0]
  {
  }

  lemma {:induction false} JoinEndsWithWord(ws: seq<string>, sep: string)
    requires |ws| >= 1 && ws[|ws| - 1] != []
    ensures var j, w := Join(ws, sep), ws[|ws| - 1]; j != [] && j[|j| - 1] == w[|w| - 1]
  {
    if |ws| > 1 {
      JoinEndsWithWord(ws[1..], sep);
    }
  }

  /** A character in none of the words and not in the separator is not in
      their join. */
  lemma {:induction false} JoinAvoids(ws: seq<string>, sep: string, c: char)
    requires c !in sep && forall k :: 0 <= k < |ws| ==> c !in ws[k]
    ensures c !in Join(ws, sep)
  {
    if |ws| > 1 {
      JoinAvoids(ws[1..], sep, c);
    }
  }

  /** split() takes a leading word followed by whitespace off the front. */
  lemma SplitCons(w: string, sep: string, rest: string)
    requires IsWord(w) && sep != [] && AllSpace(sep)
    ensures Split(w + sep + rest) == [w] + Split(rest)
  {
    var line := w + (sep + rest);
    assert w + sep + rest == line;
    assert LStrip(line) == line;
    WordLengthOfPrefix(w, sep + rest);
    assert line[..|w|] == w;
    assert line[|w|..] == sep + rest;
    LStripSpaces(sep, rest);
    assert Split(sep + rest) == Split(rest);
  }

  // ---------------------------------------------------------------------
  // split(sep), replace, upper and lower.

  function IndexOf(s: string, c: char): (i: nat)
    requires c in s
    ensures i < |s| && s[i] == c && c !in s[..i]
  {
    if s[0] == c then 0 else 1 + IndexOf(s[1..], c)
  }

  /** `s.split(sep)` for a one-character separator. */
  function SplitOn(s: string, sep: char): (r: seq<string>)
    ensures |r| >= 1
    ensures forall k :: 0 <= k < |r| ==> sep !in r[k]
    decreases |s|
  {
    if sep in s then
      var i := IndexOf(s, sep);
      [s[..i]] + SplitOn(s[i + 1..], sep)
    else
      [s]
  }

  /** Joining the pieces of `s.split(sep)` with sep gives s back. */
  lemma {:induction false} SplitOnJoin(s: string, sep: char)
    ensures Join(SplitOn(s, sep), [sep]) == s
    decreases |s|
  {
    if sep in s {
      var i := IndexOf(s, sep);
      var rest := SplitOn(s[i + 1..], sep);
      var ws := [s[..i]] + rest;
      assert SplitOn(s, sep) == ws;
      assert ws[0] == s[..i] && ws[1..] == rest && |ws| >= 2;
      SplitOnJoin(s[i + 1..], sep);
      assert Join(ws, [sep]) == s[..i] + [sep] + s[i + 1..];
      assert s == s[..i] + [sep] + s[i + 1..];
    }
  }

  /** `s.replace(a, b)` for single characters. */
  function ReplaceChar(s: string, a: char, b: char): (r: string)
    ensures |r| == |s|
    ensures forall i :: 0 <= i < |s| ==> r[i] == (if s[i] == a then b else s[i])
  {
    seq(|s|, i requires 0 <= i < |s| => if s[i] == a then b else s[i])
  }

  lemma ReplaceConcat(s: string, t: string, a: char, b: char)
    ensures ReplaceChar(s + t, a, b) == ReplaceChar(s, a, b) + ReplaceChar(t, a, b)
  {
  }

  lemma ReplaceAbsent(s: string, a: char, b: char)
    requires a !in s
    ensures ReplaceChar(s, a, b) == s
  {
  }

  /** Replacing a character that only the separator holds replaces it in
      the separator. */
  lemma {:induction false} ReplaceJoin(ws: seq<string>, sep: string, a: char, b: char)
    requires forall k :: 0 <= k < |ws| ==> a !in ws[k]
    ensures ReplaceChar(Join(ws, sep), a, b) == Join(ws, ReplaceChar(sep, a, b))
  {
    if |ws| == 1 {
      ReplaceAbsent(ws[0], a, b);
    } else if |ws| > 1 {
      ReplaceJoin(ws[1..], sep, a, b);
      ReplaceAbsent(ws[0], a, b);
      ReplaceConcat(ws[0] + sep, Join(ws[1..], sep), a, b);
      ReplaceConcat(ws[0], sep, a, b);
    }
  }

  /** `(a + sep + b).split(sep)` is `[a, b]` when neither part holds sep. */
  lemma SplitOnPair(a: string, b: string, sep: char)
    requires sep !in a && sep !in b
    ensures SplitOn(a + [sep] + b, sep) == [a, b]
  {
    var s := a + [sep] + b;
    assert s[|a|] == sep;
    var i := IndexOf(s, sep);
    assert s[..i] == a;
    assert s[i + 1..] == b;
  }

  /** `s.replace(a, '')`. */
  function RemoveChar(s: string, a: char): (r: string)
    ensures a !in r && |r| <= |s|
  {
    if s == [] then []
    else (if s[0] == a then [] else [s[0]]) + RemoveChar(s[1..], a)
  }

  lemma {:induction false} RemoveConcat(s: string, t: string, a: char)
    ensures RemoveChar(s + t, a) == RemoveChar(s, a) + RemoveChar(t, a)
    decreases |s|
  {
    if s == [] {
      assert s + t == t;
    } else {
      var h := if s[0] == a then [] else [s[0]];
      assert (s + t)[0] == s[0] && (s + t)[1..] == s[1..] + t;
      calc {
        RemoveChar(s + t, a);
        h + RemoveChar(s[1..] + t, a);
        { RemoveConcat(s[1..], t, a); }
        h + (RemoveChar(s[1..], a) + RemoveChar(t, a));
        (h + RemoveChar(s[1..], a)) + RemoveChar(t, a);
      }
    }
  }

  lemma {:induction false} RemoveAbsent(s: string, a: char)
    requires a !in s
    ensures RemoveChar(s, a) == s
    decreases |s|
  {
    if s != [] {
      assert a !in s[1..];
      RemoveAbsent(s[1..], a);
      assert s == [s[0]] + s[1..];
    }
  }

  /** Removing a character that only the separator holds removes it from
      the separator. */
  lemma {:induction false} RemoveJoin(ws: seq<string>, sep: string, a: char)
    requires forall k :: 0 <= k < |ws| ==> a !in ws[k]
    ensures RemoveChar(Join(ws, sep), a) == Join(ws, RemoveChar(sep, a))
  {
    if |ws| == 1 {
      RemoveAbsent(ws[0], a);
    } else if |ws| > 1 {
      RemoveJoin(ws[1..], sep, a);
      RemoveAbsent(ws[0], a);
      RemoveConcat(ws[0] + sep, Join(ws[1..], sep), a);
      RemoveConcat(ws[0], sep, a);
    }
  }

  /** The separators ", " and "," with the comma removed. */
  lemma CommaRemoved()
    ensures RemoveChar(", ", ',') == " "
    ensures RemoveChar(",", ',') == []
  {
    assert ", "[1..] == " " && " "[1..] == [] && ","[1..] == [];
  }

  function UpperChar(c: char): char
  {
    if 'a' <= c <= 'z' then (c as int - 32) as char else c
  }

  function LowerChar(c: char): char
  {
    if 'A' <= c <= 'Z' then (c as int + 32) as char else c
  }

  /** `s.upper()` on ASCII letters. */
  function Upper(s: string): (r: string)
    ensures |r| == |s|
    ensures forall i :: 0 <= i < |s| ==> r[i] == UpperChar(s[i])
  {
    seq(|s|, i requires 0 <= i < |s| => UpperChar(s[i]))
  }

  /** upper() leaves a string without lower-case ASCII letters alone. */
  lemma UpperKeeps(s: string)
    requires forall i :: 0 <= i < |s| ==> !('a' <= s[i] <= 'z')
    ensures Upper(s) == s
  {
  }

  predicate StartsWith(s: string, p: string)
  {
    |p| <= |s| && s[..|p|] == p
  }

  predicate EndsWith(s: string, c: char)
  {
    |s| > 0 && s[|s| - 1] == c
  }

  /** `s[:-1]`: everything but the last character (the empty string stays empty). */
  function DropLast(s: string): string
  {
    if s == [] then [] else s[..|s| - 1]
  }

  /** `s[1:]`. */
  function DropFirst(s: string): string
  {
    if s == [] then [] else s[1..]
  }

  // ---------------------------------------------------------------------
  // splitlines().

  /** The characters at which Python's `str.splitlines` breaks a line. */
  predicate IsLineBreak(c: char)
  {
    var n := c as int;
    (10 <= n <= 13) || (28 <= n <= 30) || n == 0x85 || n == 0x2028 || n == 0x2029
  }

  predicate NoLineBreak(s: string)
  {
    forall i :: 0 <= i < |s| ==> !IsLineBreak(s[i])
  }

  function LineLength(t: string): (n: nat)
    ensures n <= |t|
    ensures forall i :: 0 <= i < n ==> !IsLineBreak(t[i])
    ensures n == |t| || IsLineBreak(t[n])
  {
    if |t| == 0 || IsLineBreak(t[0]) then 0 else 1 + LineLength(t[1..])
  }

  /** `s.splitlines()`: "\r\n" counts as one break, and a final break does
      not start an empty line. */
  function SplitLines(s: string): (r: seq<string>)
    ensures forall k :: 0 <= k < |r| ==> NoLineBreak(r[k])
    decreases |s|
  {
    if s == [] then []
    else
      var n := LineLength(s);
      if n == |s| then [s]
      else
        var skip := if s[n] == '\r' && n + 1 < |s| && s[n + 1] == '\n' then 2 else 1;
        [s[..n]] + SplitLines(s[n + skip..])
  }

  /** Lines each terminated by "\n". */
  function Unlines(ls: seq<string>): string
  {
    if ls == [] then [] else ls[0] + "\n" + Unlines(ls[1..])
  }

  /** splitlines() gives back lines that were each written with a final "\n". */
  lemma {:induction false} SplitLinesUnlines(ls: seq<string>)
    requires forall k :: 0 <= k < |ls| ==> NoLineBreak(ls[k])
    ensures SplitLines(Unlines(ls)) == ls
  {
    if ls != [] {
      var l, rest := ls[0], Unlines(ls[1..]);
      var s := l + ("\n" + rest);
      assert Unlines(ls) == s;
      LineLengthOfPrefix(l, "\n" + rest);
      assert s[..|l|] == l;
      assert s[|l| + 1..] == rest;
      SplitLinesUnlines(ls[1..]);
    }
  }

  lemma {:induction false} LineLengthOfPrefix(l: string, rest: string)
    requires NoLineBreak(l)
    requires rest == [] || IsLineBreak(rest[0])
    ensures LineLength(l + rest) == |l|
  {
    if l != [] {
      assert (l + rest)[1..] == l[1..] + rest;
      LineLengthOfPrefix(l[1..], rest);
    }
  }

  // ---------------------------------------------------------------------
  // Integer literals: int(s) and int(s, 0).

  /** The value of a digit character in bases up to 16. */
  function DigitValue(c: char): (d: nat)
  {
    if '0' <= c <= '9' then c as int - '0' as int
    else if 'a' <= c <= 'f' then c as int - 'a' as int + 10
    else if 'A' <= c <= 'F' then c as int - 'A' as int + 10
    else 16
  }

  /** A non-empty run of digits of the base. */
  predicate AllDigits(s: string, base: nat)
  {
    |s| > 0 && forall i :: 0 <= i < |s| ==> DigitValue(s[i]) < base
  }

  /** `s.isdigit()` on ASCII digits. */
  predicate IsDigit(s: string)
  {
    |s| > 0 && forall i :: 0 <= i < |s| ==> '0' <= s[i] <= '9'
  }

  /** The value of a digit string, most significant digit first. */
  function DigitsValue(s: string, base: nat): nat
  {
    if s == [] then 0
    else DigitsValue(s[..|s| - 1], base) * base + DigitValue(s[|s| - 1]) % 16
  }

  /** Split off an optional leading sign. */
  function SignSplit(t: string): (bool, string)
  {
    if |t| > 0 && t[0] == '-' then (true, t[1..])
    else if |t| > 0 && t[0] == '+' then (false, t[1..])
    else (false, t)
  }

  function Signed(negative: bool, magnitude: nat): int
  {
    if negative then -(magnitude as int) else magnitude
  }

  /** Python's `int(s)`: optional whitespace, optional sign, decimal digits. */
  function ParseDecimal(s: string): (r: Option<int>)
  {
    var (negative, body) := SignSplit(Strip(s));
    if AllDigits(body, 10) then Some(Signed(negative, DigitsValue(body, 10))) else None
  }

  /** `int(s)` of a run of ASCII digits is the digits' value. */
  lemma DigitsParse(s: string)
    requires IsDigit(s)
    ensures ParseDecimal(s) == Some(DigitsValue(s, 10))
  {
    StripKeeps(s);
    assert AllDigits(s, 10);
  }

  /** The magnitude after a base prefix, or a plain decimal literal, under the
      rules of `int(s, 0)`: a decimal literal may not start with 0 unless it
      is all zeros. */
  function AutoMagnitude(body: string): Option<nat>
  {
    if |body| >= 2 && body[0] == '0' && (body[1] == 'x' || body[1] == 'X') then
      (if AllDigits(body[2..], 16) then Some(DigitsValue(body[2..], 16)) else None)
    else if |body| >= 2 && body[0] == '0' && (body[1] == 'o' || body[1] == 'O') then
      (if AllDigits(body[2..], 8) then Some(DigitsValue(body[2..], 8)) else None)
    else if |body| >= 2 && body[0] == '0' && (body[1] == 'b' || body[1] == 'B') then
      (if AllDigits(body[2..], 2) then Some(DigitsValue(body[2..], 2)) else None)
    else if AllDigits(body, 10) && (body[0] != '0' || DigitsValue(body, 10) == 0) then
      Some(DigitsValue(body, 10))
    else
      None
  }

  /** Python's `int(s, 0)`: the base comes from the literal's prefix. */
  function ParseAuto(s: string): (r: Option<int>)
  {
    var (negative, body) := SignSplit(Strip(s));
    match AutoMagnitude(body)
    case Some(m) => Some(Signed(negative, m))
    case None => None
  }

  // ---------------------------------------------------------------------
  // Decimal rendering, the partner of the parsers.

  function DigitChar(d: nat): char
    requires d < 10
  {
    ('0' as int + d) as char
  }

  /** The decimal digits of n, without leading zeros. */
  function ShowNat(n: nat): (r: string)
    ensures IsDigit(r) && AllDigits(r, 10)
    ensures r[0] != '0' || n == 0
    decreases n
  {
    if n < 10 then [DigitChar(n)] else ShowNat(n / 10) + [DigitChar(n % 10)]
  }

  /** Python's `str(i)`. */
  function ShowInt(i: int): string
  {
    if i < 0 then "-" + ShowNat(-i) else ShowNat(i)
  }

  lemma {:induction false} ShowNatValue(n: nat)
    ensures DigitsValue(ShowNat(n), 10) == n
    decreases n
  {
    if n >= 10 {
      ShowNatValue(n / 10);
      var s := ShowNat(n);
      assert s[..|s| - 1] == ShowNat(n / 10);
    }
  }

  /** int(s) reads back what str(i) writes. */
  lemma ParseDecimalShow(i: int)
    ensures ParseDecimal(ShowInt(i)) == Some(i)
  {
    var s := ShowInt(i);
    var m := if i < 0 then -i else i;
    ShowNatValue(m);
    StripKeeps(s);
    assert SignSplit(s).1 == ShowNat(m);
  }

  /** int(s, 0) reads back what str(i) writes. */
  lemma ParseAutoShow(i: int)
    ensures ParseAuto(ShowInt(i)) == Some(i)
  {
    var s := ShowInt(i);
    var m := if i < 0 then -i else i;
    ShowNatValue(m);
    StripKeeps(s);
    var body := ShowNat(m);
    assert SignSplit(s).1 == body;
    assert |body| >= 2 ==>
      body[1] != 'x' && body[1] != 'X' && body[1] != 'o' && body[1] != 'O' && body[1] != 'b' && body[1] != 'B';
    assert AutoMagnitude(body) == Some(m);
  }
}
