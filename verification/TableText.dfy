/**
  Escaping and splitting the cells of a Markdown table row: `escape_text` and the job rows of
  tools/aegis_delivery_control/ci_durations.py, and `_split_cells` of
  scripts/ci/check_pr_body_skills.py, which reads such rows back.
 */
module TableText {
  import opened PyText

  const MAX_LENGTH: nat := 300

  // ----- escape_text, pass by pass -----

  /** The characters that may not appear raw: the ASCII controls, DEL and three separators. */
  predicate NeedsHex(c: char) {
    var n := c as int;
    n < 0x20 || n == 0x7f || n == 0x85 || n == 0x2028 || n == 0x2029
  }

  function HexDigit(d: nat): char
    requires d < 16
  {
    if d < 10 then '0' + d as char else 'a' + (d - 10) as char
  }

  /** `"%02x" % n`. */
  function Hex(n: nat): string {
    if n < 0x100 then [HexDigit(n / 16), HexDigit(n % 16)] else Hex(n / 16) + [HexDigit(n % 16)]
  }

  /** `text.replace(c, by)` for one character. */
  function Replace(text: string, c: char, subst: string): string {
    if text == [] then [] else (if text[0] == c then subst else [text[0]]) + Replace(text[1..], c, subst)
  }

  /** The pass that writes hexadecimal escapes. */
  function HexPass(text: string): string {
    if text == [] then []
    else (if NeedsHex(text[0]) then "\\x" + Hex(text[0] as nat) else [text[0]]) + HexPass(text[1..])
  }

  /** The three passes, before the length cap. */
  function Escaped(text: string): string {
    Replace(HexPass(Replace(text, '\\', "\\\\")), '|', "\\|")
  }

  /** What stands for the `n` characters that were cut off. */
  function Marker(n: nat): (marker: string)
    ensures marker != []
  {
    "\U{2026}[truncated " + Decimal(n) + "]"
  }

  /** `escape_text`; a missing value is the empty text. */
  function EscapeText(text: string): string {
    var escaped := Escaped(text);
    if |escaped| > MAX_LENGTH then escaped[..MAX_LENGTH] + Marker(|escaped| - MAX_LENGTH) else escaped
  }

  // ----- the passes are one substitution -----

  /** What a single character turns into. */
  function EscapeChar(c: char): string {
    if c == '\\' then "\\\\"
    else if NeedsHex(c) then "\\x" + Hex(c as nat)
    else if c == '|' then "\\|"
    else [c]
  }

  function Substituted(text: string): string {
    if text == [] then [] else EscapeChar(text[0]) + Substituted(text[1..])
  }

  lemma {:induction false} ReplaceAppends(a: string, b: string, c: char, subst: string)
    ensures Replace(a + b, c, subst) == Replace(a, c, subst) + Replace(b, c, subst)
  {
    if a == [] {
      assert a + b == b;
    } else {
      assert (a + b)[1..] == a[1..] + b;
      ReplaceAppends(a[1..], b, c, subst);
    }
  }

  lemma {:induction false} HexAppends(a: string, b: string)
    ensures HexPass(a + b) == HexPass(a) + HexPass(b)
  {
    if a == [] {
      assert a + b == b;
    } else {
      assert (a + b)[1..] == a[1..] + b;
      HexAppends(a[1..], b);
    }
  }

  lemma {:induction false} NothingToReplace(a: string, c: char, subst: string)
    requires forall i :: 0 <= i < |a| ==> a[i] != c
    ensures Replace(a, c, subst) == a
  {
    if a != [] {
      NothingToReplace(a[1..], c, subst);
    }
  }

  lemma {:induction false} HexIsPlain(n: nat)
    ensures forall i :: 0 <= i < |Hex(n)| ==> Hex(n)[i] != '|' && Hex(n)[i] != '\\' && !NeedsHex(Hex(n)[i])
  {
    if n >= 0x100 {
      HexIsPlain(n / 16);
    }
  }

  /** The passes do not disturb each other: each character is escaped on its own. */
  lemma {:induction false} PassesSubstitute(text: string)
    ensures Escaped(text) == Substituted(text)
  {
    if text != [] {
      var first, rest := text[0], text[1..];
      var doubled := if first == '\\' then "\\\\" else [first];
      PassesSubstitute(rest);
      HexAppends(doubled, Replace(rest, '\\', "\\\\"));
      ReplaceAppends(HexPass(doubled), HexPass(Replace(rest, '\\', "\\\\")), '|', "\\|");
      OneCharacter(first);
    }
  }

  lemma OneCharacter(c: char)
    ensures Replace(HexPass(if c == '\\' then "\\\\" else [c]), '|', "\\|") == EscapeChar(c)
  {
    if c == '\\' {
      assert "\\\\"[1..] == "\\";
      assert HexPass("\\") == "\\";
      assert HexPass("\\\\") == "\\\\";
      NothingToReplace("\\\\", '|', "\\|");
    } else if NeedsHex(c) {
      HexIsPlain(c as nat);
      assert HexPass([c]) == "\\x" + Hex(c as nat);
      NothingToReplace("\\x" + Hex(c as nat), '|', "\\|");
    } else {
      assert HexPass([c]) == [c];
    }
  }

  // ----- reading an escaped text back -----

  function HexValue(c: char): nat {
    if '0' <= c <= '9' then (c - '0') as nat
    else if 'a' <= c <= 'f' then (c - 'a') as nat + 10
    else 0
  }

  function HexPair(a: char, b: char): nat {
    16 * HexValue(a) + HexValue(b)
  }

  function CharOf(n: nat): char {
    if n < 0xd800 then n as char else '?'
  }

  /**
    Undo the escapes. Two hexadecimal digits name a character, except that `20`, which is never
    escaped itself, is the first half of one of the two four-digit separators.
   */
  function Unescape(s: string): string {
    if s == [] then []
    else if s[0] != '\\' then [s[0]] + Unescape(s[1..])
    else if |s| >= 2 && s[1] != 'x' then [s[1]] + Unescape(s[2..])
    else if |s| >= 6 && s[2] == '2' && s[3] == '0' then
      [CharOf(0x100 * HexPair(s[2], s[3]) + HexPair(s[4], s[5]))] + Unescape(s[6..])
    else if |s| >= 4 then [CharOf(HexPair(s[2], s[3]))] + Unescape(s[4..])
    else s
  }

  lemma UnescapePair(c: char, rest: string)
    requires c as nat < 0x100 && c as nat / 16 != 2
    ensures Unescape("\\x" + Hex(c as nat) + rest) == [c] + Unescape(rest)
  {
    var n := c as nat;
    var s := "\\x" + Hex(n) + rest;
    assert s == ['\\', 'x', HexDigit(n / 16), HexDigit(n % 16)] + rest;
    assert HexPair(s[2], s[3]) == n;
    assert s[4..] == rest;
  }

  lemma UnescapeSeparator(c: char, rest: string)
    requires c == '\U{2028}' || c == '\U{2029}'
    ensures Unescape("\\x" + Hex(c as nat) + rest) == [c] + Unescape(rest)
  {
    var n := c as nat;
    var s := "\\x" + Hex(n) + rest;
    assert Hex(n) == Hex(0x202) + [HexDigit(n % 16)];
    assert Hex(0x202) == Hex(0x20) + ['2'];
    assert s == ['\\', 'x', '2', '0', '2', HexDigit(n % 16)] + rest;
    assert s[6..] == rest;
  }

  lemma UnescapeOne(c: char, rest: string)
    ensures Unescape(EscapeChar(c) + rest) == [c] + Unescape(rest)
  {
    hide Hex;
    var s := EscapeChar(c) + rest;
    if c != '\\' && NeedsHex(c) {
      if c as nat < 0x100 {
        UnescapePair(c, rest);
      } else {
        UnescapeSeparator(c, rest);
      }
    } else if c == '\\' || c == '|' {
      assert s[2..] == rest;
    } else {
      assert s[1..] == rest;
    }
  }

  /** Escaping loses nothing: a text that is not truncated can be read back. */
  lemma {:induction false} EscapeRoundTrip(text: string)
    ensures Unescape(Escaped(text)) == text
    ensures |Escaped(text)| <= MAX_LENGTH ==> Unescape(EscapeText(text)) == text
  {
    PassesSubstitute(text);
    if text != [] {
      PassesSubstitute(text[1..]);
      EscapeRoundTrip(text[1..]);
      UnescapeOne(text[0], Substituted(text[1..]));
    }
  }

  // ----- what cannot get out of a cell -----

  /**
    Reading from the left, every backslash takes the next character with it and no pipe is
    left over. `complete` forbids a backslash with nothing behind it.
   */
  predicate Guarded(s: string, complete: bool) {
    if s == [] then true
    else if s[0] != '\\' then s[0] != '|' && Guarded(s[1..], complete)
    else if |s| == 1 then !complete
    else Guarded(s[2..], complete)
  }

  lemma {:induction false} GuardedAppends(a: string, b: string, complete: bool)
    requires Guarded(a, true) && Guarded(b, complete)
    ensures Guarded(a + b, complete)
  {
    if a == [] {
      assert a + b == b;
    } else if a[0] != '\\' {
      assert (a + b)[1..] == a[1..] + b;
      GuardedAppends(a[1..], b, complete);
    } else {
      assert (a + b)[2..] == a[2..] + b;
      GuardedAppends(a[2..], b, complete);
    }
  }

  lemma {:induction false} GuardedPrefix(s: string, n: nat)
    requires Guarded(s, false) && n <= |s|
    ensures Guarded(s[..n], false)
  {
    if n > 0 && s[0] != '\\' {
      GuardedPrefix(s[1..], n - 1);
      assert s[..n][1..] == s[1..][..n - 1];
    } else if n > 1 {
      GuardedPrefix(s[2..], n - 2);
      assert s[..n][2..] == s[2..][..n - 2];
    }
  }

  lemma {:induction false} PlainGuarded(s: string)
    requires forall i :: 0 <= i < |s| ==> s[i] != '|' && s[i] != '\\'
    ensures Guarded(s, true)
  {
    if s != [] {
      PlainGuarded(s[1..]);
    }
  }

  /** A cut-off backslash takes the next plain character with it. */
  lemma {:induction false} GuardedClosed(a: string, b: string)
    requires Guarded(a, false) && b != []
    requires forall i :: 0 <= i < |b| ==> b[i] != '|' && b[i] != '\\'
    ensures Guarded(a + b, true)
  {
    if a == [] {
      assert a + b == b;
      PlainGuarded(b);
    } else if a[0] != '\\' {
      assert (a + b)[1..] == a[1..] + b;
      GuardedClosed(a[1..], b);
    } else if |a| == 1 {
      assert (a + b)[2..] == b[1..];
      PlainGuarded(b[1..]);
    } else {
      assert (a + b)[2..] == a[2..] + b;
      GuardedClosed(a[2..], b);
    }
  }

  lemma {:induction false} GuardedWeaker(s: string)
    requires Guarded(s, true)
    ensures Guarded(s, false)
  {
    if s != [] {
      if s[0] != '\\' { GuardedWeaker(s[1..]); } else { GuardedWeaker(s[2..]); }
    }
  }

  lemma {:induction false} SubstitutedIsGuarded(text: string)
    ensures Guarded(Substituted(text), true) && Unbroken(Substituted(text))
  {
    if text != [] {
      SubstitutedIsGuarded(text[1..]);
      HexIsPlain(text[0] as nat);
      assert Guarded(EscapeChar(text[0]), true) by {
        if text[0] != '\\' && NeedsHex(text[0]) {
          PlainGuarded(Hex(text[0] as nat));
          assert EscapeChar(text[0])[2..] == Hex(text[0] as nat);
        }
      }
      GuardedAppends(EscapeChar(text[0]), Substituted(text[1..]), true);
    }
  }

  lemma MarkerIsPlain(n: nat)
    ensures var marker := Marker(n);
            Unbroken(marker) && forall i :: 0 <= i < |marker| ==> marker[i] != '|' && marker[i] != '\\'
  {
    var digits := Decimal(n);
    assert forall i :: 0 <= i < |digits| ==> IsDigit(digits[i]);
  }

  /** Truncated or not, an escaped text has no line break and no pipe that could end its cell. */
  lemma EscapedStaysInCell(text: string)
    ensures Guarded(EscapeText(text), true) && Unbroken(EscapeText(text))
  {
    hide Marker, IsLineBreak;
    PassesSubstitute(text);
    SubstitutedIsGuarded(text);
    var escaped := Escaped(text);
    if |escaped| > MAX_LENGTH {
      var n := |escaped| - MAX_LENGTH;
      MarkerIsPlain(n);
      GuardedWeaker(escaped);
      GuardedPrefix(escaped, MAX_LENGTH);
      GuardedClosed(escaped[..MAX_LENGTH], Marker(n));
    }
  }

  /** How many backslashes stand directly before position `i`. */
  function SlashesBefore(s: string, i: nat): (n: nat)
    requires i <= |s|
    ensures n <= i
  {
    if i > 0 && s[i - 1] == '\\' then 1 + SlashesBefore(s, i - 1) else 0
  }

  lemma {:induction false} SlashesBehind(s: string, cut: nat, i: nat)
    requires cut <= i <= |s| && cut > 0
    ensures SlashesBefore(s, i) == SlashesBefore(s[cut..], i - cut)
                                   + (if SlashesBefore(s[cut..], i - cut) == i - cut then SlashesBefore(s, cut) else 0)
    decreases i
  {
    if i > cut {
      assert s[i - 1] == s[cut..][i - 1 - cut];
      SlashesBehind(s, cut, i - 1);
    }
  }

  /** In guarded text every pipe has an odd number of backslashes before it. */
  lemma {:induction false} GuardedPipesAreEscaped(s: string, complete: bool, i: nat)
    requires Guarded(s, complete) && i < |s| && s[i] == '|'
    ensures SlashesBefore(s, i) % 2 == 1
    decreases |s|
  {
    if s[0] != '\\' {
      GuardedPipesAreEscaped(s[1..], complete, i - 1);
      SlashesBehind(s, 1, i);
    } else if i > 1 {
      GuardedPipesAreEscaped(s[2..], complete, i - 2);
      SlashesBehind(s, 2, i);
      assert SlashesBefore(s, 2) == 0 || SlashesBefore(s, 2) == 2;
    } else {
      assert SlashesBefore(s, 1) == 1 + SlashesBefore(s, 0);
    }
  }

  /** Truncated or not, every pipe of an escaped text has an odd number of backslashes before it. */
  lemma EscapedPipesAreEscaped(text: string, i: nat)
    requires i < |EscapeText(text)| && EscapeText(text)[i] == '|'
    ensures SlashesBefore(EscapeText(text), i) % 2 == 1
  {
    hide EscapeText;
    EscapedStaysInCell(text);
    GuardedPipesAreEscaped(EscapeText(text), true, i);
  }

  // ----- splitting a row -----

  /** The cells with `text` put before the first of them. */
  function Prepend(text: string, cells: seq<string>): (r: seq<string>)
    requires cells != []
    ensures |r| == |cells|
  {
    [text + cells[0]] + cells[1..]
  }

  /** The cells between the pipes that no backslash takes away. */
  function Cells(line: string): (cells: seq<string>)
    ensures cells != []
  {
    if line == [] then [""]
    else if line[0] == '\\' && |line| > 1 then Prepend(line[..2], Cells(line[2..]))
    else if line[0] == '|' then [""] + Cells(line[1..])
    else Prepend(line[..1], Cells(line[1..]))
  }

  lemma PrependTwice(a: string, b: string, cells: seq<string>)
    requires cells != []
    ensures Prepend(a, Prepend(b, cells)) == Prepend(a + b, cells)
    ensures Prepend("", cells) == cells
    ensures var padded: seq<string> := [""] + cells; Prepend(a, padded) == [a] + cells
  {
    assert Prepend(b, cells)[1..] == cells[1..];
    assert a + (b + cells[0]) == (a + b) + cells[0];
    var padded: seq<string> := [""] + cells;
    assert padded[1..] == cells;
    assert a + padded[0] == a;
    assert Prepend(a, padded) == [a] + cells;
    assert "" + cells[0] == cells[0];
  }

  /** `_split_cells`. */
  method SplitCells(line: string) returns (cells: seq<string>)
    ensures cells == Cells(line)
  {
    cells := [];
    var current := "";
    var i := 0;
    assert line[0..] == line;
    PrependTwice("", "", Cells(line));
    while i < |line|
      invariant 0 <= i <= |line|
      invariant Cells(line) == cells + Prepend(current, Cells(line[i..]))
    {
      var ch := line[i];
      ghost var rest := line[i..];
      if ch == '\\' && i + 1 < |line| {
        assert rest[2..] == line[i + 2..] && rest[..2] == [ch, line[i + 1]];
        PrependTwice(current, [ch, line[i + 1]], Cells(line[i + 2..]));
        current := current + [ch, line[i + 1]];
        i := i + 2;
      } else {
        assert rest[1..] == line[i + 1..] && rest[..1] == [ch];
        PrependTwice(current, [ch], Cells(line[i + 1..]));
        if ch == '|' {
          PrependTwice("", "", Cells(line[i + 1..]));
          cells := cells + [current];
          current := "";
        } else {
          current := current + [ch];
        }
        i := i + 1;
      }
    }
    assert line[i..] == [] && current + "" == current;
    cells := cells + [current];
  }

  /** `"|".join(cells)`. */
  function JoinCells(cells: seq<string>): string
    requires cells != []
  {
    if |cells| == 1 then cells[0] else cells[0] + "|" + JoinCells(cells[1..])
  }

  lemma JoinPrepended(text: string, cells: seq<string>)
    requires cells != []
    ensures JoinCells(Prepend(text, cells)) == text + JoinCells(cells)
  {
    assert Prepend(text, cells)[1..] == cells[1..];
  }

  /** Splitting loses nothing: the cells joined by pipes are the line. */
  lemma {:induction false} SplitThenJoin(line: string)
    ensures JoinCells(Cells(line)) == line
  {
    if line != [] {
      var step := if line[0] == '\\' && |line| > 1 then 2 else 1;
      SplitThenJoin(line[step..]);
      assert line == line[..step] + line[step..];
      if step == 1 && line[0] == '|' {
        assert Cells(line)[1..] == Cells(line[1..]);
      } else {
        JoinPrepended(line[..step], Cells(line[step..]));
      }
    }
  }

  lemma {:induction false} FirstCell(cell: string, rest: string)
    requires Guarded(cell, true)
    ensures Cells(cell + "|" + rest) == [cell] + Cells(rest)
  {
    var line := cell + "|" + rest;
    if cell == [] {
      assert line[1..] == rest;
    } else {
      var step := if cell[0] == '\\' then 2 else 1;
      assert line[step..] == cell[step..] + "|" + rest;
      assert cell[..step] + cell[step..] == cell;
      FirstCell(cell[step..], rest);
      assert line[..step] == cell[..step];
      assert Prepend(cell[..step], [cell[step..]] + Cells(rest)) == [cell] + Cells(rest);
    }
  }

  lemma {:induction false} SingleCell(cell: string)
    requires Guarded(cell, false)
    ensures Cells(cell) == [cell]
  {
    if cell != [] {
      var step := if cell[0] == '\\' && |cell| > 1 then 2 else 1;
      SingleCell(cell[step..]);
      assert cell[..step] + cell[step..] == cell;
    }
  }

  /** Joining loses nothing either, when no cell holds a bare pipe or, the last aside, ends in a bare backslash. */
  lemma {:induction false} JoinThenSplit(cells: seq<string>)
    requires cells != [] && forall i :: 0 <= i < |cells| ==> Guarded(cells[i], i + 1 < |cells|)
    ensures Cells(JoinCells(cells)) == cells
  {
    if |cells| == 1 {
      SingleCell(cells[0]);
    } else {
      JoinThenSplit(cells[1..]);
      FirstCell(cells[0], JoinCells(cells[1..]));
    }
  }

  /**
    No cut is missed: no cell holds a pipe that no backslash takes away, and only the last one can
    end in a backslash with nothing behind it.
   */
  lemma {:induction false} CellsAreGuarded(line: string, i: nat)
    requires i < |Cells(line)|
    ensures Guarded(Cells(line)[i], i + 1 < |Cells(line)|)
  {
    if line != [] {
      if line[0] == '\\' && |line| > 1 {
        CellsAreGuarded(line[2..], i);
        var cell := Cells(line[2..])[0];
        assert (line[..2] + cell)[2..] == cell;
      } else if line[0] == '|' {
        if i > 0 {
          CellsAreGuarded(line[1..], i - 1);
        }
      } else {
        CellsAreGuarded(line[1..], i);
        var cell := Cells(line[1..])[0];
        assert (line[..1] + cell)[1..] == cell;
        assert line[0] == '\\' ==> Cells(line[1..]) == [""];
      }
    }
  }

  /** What splitting gives: the one way to write the line as guarded cells joined by pipes. */
  lemma SplitMeans(line: string, cells: seq<string>)
    requires cells != []
    ensures cells == Cells(line) <==>
              JoinCells(cells) == line && forall i :: 0 <= i < |cells| ==> Guarded(cells[i], i + 1 < |cells|)
  {
    hide Guarded, Cells, JoinCells;
    if cells == Cells(line) {
      SplitThenJoin(line);
      forall i | 0 <= i < |cells| ensures Guarded(cells[i], i + 1 < |cells|) {
        CellsAreGuarded(line, i);
      }
    } else if JoinCells(cells) == line && forall i :: 0 <= i < |cells| ==> Guarded(cells[i], i + 1 < |cells|) {
      JoinThenSplit(cells);
    }
  }

  // ----- one job row of the table -----

  /** `" | ".join(values)`. */
  function JoinSpaced(values: seq<string>): string
    requires values != []
  {
    if |values| == 1 then values[0] else values[0] + " | " + JoinSpaced(values[1..])
  }

  function EscapeAll(values: seq<string>): (escaped: seq<string>)
    ensures |escaped| == |values|
    ensures forall i :: 0 <= i < |values| ==> escaped[i] == EscapeText(values[i])
  {
    seq(|values|, i requires 0 <= i < |values| => EscapeText(values[i]))
  }

  /** The line `render_table` writes for a job. */
  function RenderRow(values: seq<string>): string
    requires values != []
  {
    "| " + JoinSpaced(EscapeAll(values)) + " |"
  }

  function Padded(values: seq<string>): (cells: seq<string>)
    ensures |cells| == |values|
    ensures forall i :: 0 <= i < |values| ==> cells[i] == " " + values[i] + " "
  {
    seq(|values|, i requires 0 <= i < |values| => " " + values[i] + " ")
  }

  lemma {:induction false} SpacedIsPadded(values: seq<string>)
    requires values != []
    ensures " " + JoinSpaced(values) + " |" == JoinCells(Padded(values) + [""])
  {
    var cells := Padded(values) + [""];
    if |values| == 1 {
      assert cells[1..] == [""];
    } else {
      SpacedIsPadded(values[1..]);
      assert cells[1..] == Padded(values[1..]) + [""];
      SpacesAround(values[0], JoinSpaced(values[1..]));
    }
  }

  lemma SpacesAround(first: string, rest: string)
    ensures " " + (first + " | " + rest) + " |" == (" " + first + " ") + "|" + (" " + rest + " |")
  {
  }

  lemma RowSplits(values: seq<string>)
    requires values != []
    ensures Cells(RenderRow(values)) == [""] + Padded(EscapeAll(values)) + [""]
  {
    hide EscapeText, Unbroken;
    var escaped := EscapeAll(values);
    var cells := [""] + Padded(escaped) + [""];
    forall i | 0 <= i < |escaped|
      ensures Guarded(" " + escaped[i] + " ", true)
    {
      EscapedStaysInCell(values[i]);
      GuardedAppends(escaped[i], " ", true);
      assert (" " + escaped[i] + " ")[1..] == escaped[i] + " ";
    }
    SpacedIsPadded(escaped);
    assert cells[1..] == Padded(escaped) + [""];
    assert RenderRow(values) == "" + "|" + (" " + JoinSpaced(escaped) + " |");
    JoinThenSplit(cells);
  }

  lemma {:induction false} SpacedUnbroken(values: seq<string>)
    requires values != [] && forall i :: 0 <= i < |values| ==> Unbroken(values[i])
    ensures Unbroken(JoinSpaced(values))
  {
    if |values| > 1 {
      SpacedUnbroken(values[1..]);
    }
  }

  lemma RowUnbroken(values: seq<string>)
    requires values != []
    ensures Unbroken(RenderRow(values))
  {
    hide EscapeText;
    var escaped := EscapeAll(values);
    forall i | 0 <= i < |values| ensures Unbroken(escaped[i]) {
      EscapedStaysInCell(values[i]);
    }
    SpacedUnbroken(escaped);
  }

  /**
    Whatever the values, a rendered row splits into exactly one cell for each of them between
    two empty ones, and has no line break; a value that was not truncated can be read back.
   */
  lemma RowKeepsItsShape(values: seq<string>, i: nat)
    requires i < |values|
    ensures var cells := Cells(RenderRow(values));
            && |cells| == |values| + 2 && cells[0] == "" && cells[|values| + 1] == ""
            && cells[i + 1] == " " + EscapeText(values[i]) + " "
            && (|Escaped(values[i])| <= MAX_LENGTH ==> Unescape(cells[i + 1][1..|cells[i + 1]| - 1]) == values[i])
    ensures Unbroken(RenderRow(values))
  {
    hide EscapeText, Unescape, Escaped, RenderRow, Cells, Unbroken;
    RowUnbroken(values);
    RowSplits(values);
    EscapeRoundTrip(values[i]);
    var escaped, cell := EscapeText(values[i]), Cells(RenderRow(values))[i + 1];
    assert cell == " " + escaped + " ";
    assert cell[1..|cell| - 1] == escaped;
  }

  // ----- what an escaped text may hold -----

  /** No ASCII control, no DEL, and none of the three Unicode separators. */
  ghost predicate Printable(s: string) {
    forall c :: c in s ==> c >= ' ' && c != '\U{7f}' && c != '\U{85}' && c != '\U{2028}' && c != '\U{2029}'
  }

  lemma PrintableAppends(a: string, b: string)
    ensures Printable(a + b) <==> Printable(a) && Printable(b)
  {
    assert forall c :: c in a + b <==> c in a || c in b;
  }

  lemma {:induction false} SubstitutedIsPrintable(text: string)
    ensures Printable(Substituted(text))
  {
    if text != [] {
      SubstitutedIsPrintable(text[1..]);
      HexIsPlain(text[0] as nat);
      PrintableAppends(EscapeChar(text[0]), Substituted(text[1..]));
      PrintableAppends("\\x", Hex(text[0] as nat));
    }
  }

  lemma MarkerIsPrintable(n: nat)
    ensures Printable("\U{2026}[truncated " + Decimal(n) + "]")
  {
    var digits := Decimal(n);
    assert forall c :: c in digits ==> IsDigit(c);
    PrintableAppends("\U{2026}[truncated " + digits, "]");
    PrintableAppends("\U{2026}[truncated ", digits);
  }

  /**
    An escaped text holds printable characters only; and when it is cut it keeps 300 characters and
    ends by saying how many are missing.
   */
  lemma EscapedIsPrintable(text: string)
    ensures Printable(EscapeText(text))
    ensures |Escaped(text)| <= 300 ==> EscapeText(text) == Escaped(text)
    ensures |Escaped(text)| > 300 ==>
              EscapeText(text) == Escaped(text)[..300] + "\U{2026}[truncated " + Decimal(|Escaped(text)| - 300) + "]"
  {
    hide Printable, Escaped;
    PassesSubstitute(text);
    SubstitutedIsPrintable(text);
    var escaped := Escaped(text);
    if |escaped| > 300 {
      var marker := "\U{2026}[truncated " + Decimal(|escaped| - 300) + "]";
      assert escaped == escaped[..300] + escaped[300..];
      PrintableAppends(escaped[..300], escaped[300..]);
      MarkerIsPrintable(|escaped| - 300);
      PrintableAppends(escaped[..300], marker);
      assert escaped[..300] + marker == escaped[..300] + "\U{2026}[truncated " + Decimal(|escaped| - 300) + "]";
    }
  }
}
