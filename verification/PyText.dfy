/** The few Python string facts that several of the modelled scripts rely on. */
module PyText {

  /** `str.isspace` on one character: Python's fixed white-space table. */
  predicate IsSpace(c: char) {
    var n := c as int;
    || 0x09 <= n <= 0x0d
    || 0x1c <= n <= 0x20
    || n == 0x85 || n == 0xa0 || n == 0x1680
    || 0x2000 <= n <= 0x200a
    || n == 0x2028 || n == 0x2029 || n == 0x202f || n == 0x205f || n == 0x3000
  }

  /** The 29 characters Python calls white space, one by one. */
  lemma SpaceIsOneOf(c: char)
    ensures IsSpace(c) <==> c in "\t\n\U{b}\U{c}\r\U{1c}\U{1d}\U{1e}\U{1f} \U{85}\U{a0}\U{1680}"
                               + "\U{2000}\U{2001}\U{2002}\U{2003}\U{2004}\U{2005}\U{2006}\U{2007}\U{2008}\U{2009}\U{200a}"
                               + "\U{2028}\U{2029}\U{202f}\U{205f}\U{3000}"
  {
  }

  /** `not s.strip()`: nothing but white space. */
  predicate Blank(s: string) {
    forall i :: 0 <= i < |s| ==> IsSpace(s[i])
  }

  /** `s.rstrip()`. */
  function RStrip(s: string): string {
    if s != [] && IsSpace(s[|s| - 1]) then RStrip(s[..|s| - 1]) else s
  }

  /** `s.lstrip()`. */
  function LStrip(s: string): string {
    if s != [] && IsSpace(s[0]) then LStrip(s[1..]) else s
  }

  /** `s.strip()`. */
  function Strip(s: string): string {
    RStrip(LStrip(s))
  }

  /** Only white space goes, and the last character that stays is visible. */
  lemma {:induction false} RStripSpec(s: string)
    ensures RStrip(s) <= s && Blank(s[|RStrip(s)|..])
    ensures RStrip(s) != [] ==> !IsSpace(RStrip(s)[|RStrip(s)| - 1])
  {
    hide IsSpace;
    if s != [] && IsSpace(s[|s| - 1]) {
      RStripSpec(s[..|s| - 1]);
      var r := RStrip(s);
      assert forall i :: |r| <= i < |s| - 1 ==> s[i] == s[..|s| - 1][|r|..][i - |r|];
    }
  }

  lemma {:induction false} LStripSpec(s: string)
    ensures |LStrip(s)| <= |s| && LStrip(s) == s[|s| - |LStrip(s)|..] && Blank(s[..|s| - |LStrip(s)|])
    ensures LStrip(s) != [] ==> !IsSpace(LStrip(s)[0])
  {
    hide IsSpace;
    if s != [] && IsSpace(s[0]) {
      LStripSpec(s[1..]);
      var n := |s| - |LStrip(s)|;
      assert forall i :: 0 < i < n ==> s[i] == s[1..][..n - 1][i - 1];
    }
  }

  /** Stripped text has visible characters at both ends, and is empty exactly for a blank string. */
  lemma StripSpec(s: string)
    ensures Strip(s) != [] ==> !IsSpace(Strip(s)[0]) && !IsSpace(Strip(s)[|Strip(s)| - 1])
    ensures Strip(s) == [] <==> Blank(s)
  {
    hide IsSpace, LStrip, RStrip;
    var left := LStrip(s);
    LStripSpec(s);
    RStripSpec(left);
    assert s == s[..|s| - |left|] + left;
    assert left == Strip(s) + left[|Strip(s)|..];
  }

  // ----- decimal numbers -----

  /** The decimal digit `d`. */
  function Digit(d: nat): char
    requires d < 10
  {
    '0' + d as char
  }

  predicate IsDigit(c: char) {
    '0' <= c <= '9'
  }

  /** `str(n)`. */
  function Decimal(n: nat): (s: string)
    ensures s != [] && forall i :: 0 <= i < |s| ==> IsDigit(s[i])
  {
    if n < 10 then [Digit(n)] else Decimal(n / 10) + [Digit(n % 10)]
  }

  /** `int(s)` on decimal digits. */
  function FromDecimal(s: string): nat
    requires forall i :: 0 <= i < |s| ==> IsDigit(s[i])
  {
    if s == [] then 0 else 10 * FromDecimal(s[..|s| - 1]) + DigitValue(s[|s| - 1])
  }

  function DigitValue(c: char): nat
    requires IsDigit(c)
  {
    c as nat - '0' as nat
  }

  lemma {:induction false} DecimalRoundTrip(n: nat)
    ensures FromDecimal(Decimal(n)) == n
  {
    if n < 10 {
      assert Decimal(n)[..0] == [];
    } else {
      DecimalRoundTrip(n / 10);
      assert Decimal(n)[..|Decimal(n)| - 1] == Decimal(n / 10);
    }
  }

  /** The characters `str.splitlines` breaks at. */
  predicate IsLineBreak(c: char) {
    var n := c as int;
    0x0a <= n <= 0x0d || 0x1c <= n <= 0x1e || n == 0x85 || n == 0x2028 || n == 0x2029
  }

  predicate Unbroken(s: string) {
    forall i :: 0 <= i < |s| ==> !IsLineBreak(s[i])
  }

  /** The index of the first character that satisfies `p`, or the length. */
  function FirstIndex(s: string, p: char -> bool): (i: nat)
    ensures i <= |s| && (i < |s| ==> p(s[i]))
    ensures forall k :: 0 <= k < i ==> !p(s[k])
  {
    if s == [] || p(s[0]) then 0 else 1 + FirstIndex(s[1..], p)
  }

  /** `s.splitlines()` of a text without carriage returns. */
  function SplitLines(s: string): seq<string> {
    if s == [] then []
    else
      var i := FirstIndex(s, IsLineBreak);
      if i == |s| then [s] else [s[..i]] + SplitLines(s[i + 1..])
  }

  /** `s.split(c)`. */
  function SplitOn(s: string, c: char): (parts: seq<string>)
    ensures parts != []
  {
    var i := FirstIndex(s, x => x == c);
    if i == |s| then [s] else [s[..i]] + SplitOn(s[i + 1..], c)
  }

  lemma FirstIndexUnique(a: string, b: string, p: char -> bool)
    requires forall i :: 0 <= i < |a| ==> !p(a[i])
    requires b != [] && p(b[0])
    ensures FirstIndex(a + b, p) == |a|
  {
    var i := FirstIndex(a + b, p);
    assert (a + b)[|a|] == b[0];
    assert forall k :: 0 <= k < |a| ==> (a + b)[k] == a[k];
  }

  lemma SplitLinesFirst(line: string, rest: string)
    requires Unbroken(line)
    ensures SplitLines(line + "\n" + rest) == [line] + SplitLines(rest)
  {
    var s := line + "\n" + rest;
    assert s == line + ("\n" + rest);
    FirstIndexUnique(line, "\n" + rest, IsLineBreak);
    assert s[..|line|] == line && s[|line| + 1..] == rest;
  }

  lemma SplitOnFirst(part: string, c: char, rest: string)
    requires c !in part
    ensures SplitOn(part + [c] + rest, c) == [part] + SplitOn(rest, c)
    ensures SplitOn(part, c) == [part]
  {
    var s := part + [c] + rest;
    assert s == part + ([c] + rest);
    FirstIndexUnique(part, [c] + rest, x => x == c);
    assert s[..|part|] == part && s[|part| + 1..] == rest;
    assert FirstIndex(part, x => x == c) == |part|;
  }

  /** The pieces are free of what they were cut at. */
  lemma {:induction false} SplitLinesUnbroken(s: string)
    ensures forall i :: 0 <= i < |SplitLines(s)| ==> Unbroken(SplitLines(s)[i])
  {
    if s != [] {
      var i := FirstIndex(s, IsLineBreak);
      if i < |s| {
        SplitLinesUnbroken(s[i + 1..]);
      }
    }
  }

  lemma {:induction false} SplitOnFree(s: string, c: char)
    ensures forall i :: 0 <= i < |SplitOn(s, c)| ==> c !in SplitOn(s, c)[i]
    ensures forall i, k :: 0 <= i < |SplitOn(s, c)| && 0 <= k < |SplitOn(s, c)[i]| ==> SplitOn(s, c)[i][k] in s
    ensures SplitOn(s, c)[0] <= s
  {
    var i := FirstIndex(s, x => x == c);
    if i < |s| {
      SplitOnFree(s[i + 1..], c);
    }
  }
}
