/**
  Joining the lines of a hand-wrapped link, from scripts/ci/check-markdown-links.py, with the
  offset map that leads back from the joined text to the source lines.
 */
module UnwrapLinks {
  import opened PyText
  import opened LinkMatches

  // ----- the line tests -----

  /** `s.rfind(c)`. */
  function LastIndex(s: string, c: char): (i: int)
    ensures -1 <= i < |s|
    ensures i >= 0 ==> s[i] == c
    ensures forall k :: i < k < |s| ==> s[k] != c
  {
    if s == [] then -1
    else if s[|s| - 1] == c then |s| - 1
    else LastIndex(s[..|s| - 1], c)
  }

  /** `s.rfind(c + d)`. */
  function LastPair(s: string, c: char, d: char): (i: int)
    ensures -1 <= i && i + 1 < |s| + 1
    ensures i >= 0 ==> i + 1 < |s| && s[i] == c && s[i + 1] == d
    ensures forall k :: i < k < |s| - 1 ==> !(s[k] == c && s[k + 1] == d)
  {
    if |s| < 2 then -1
    else if s[|s| - 2] == c && s[|s| - 1] == d then |s| - 2
    else LastPair(s[..|s| - 1], c, d)
  }

  /** `link_text_open`. */
  predicate LinkTextOpen(line: string) {
    LastIndex(line, '[') > LastIndex(line, ']')
  }

  /** The line ends inside a link's text: some `[` has no `]` behind it. */
  lemma LinkTextOpenMeans(line: string)
    ensures LinkTextOpen(line) <==> exists i :: 0 <= i < |line| && line[i] == '[' && ']' !in line[i..]
  {
    var open, close := LastIndex(line, '['), LastIndex(line, ']');
    if open > close {
      assert ']' !in line[open..];
    }
    if i :| 0 <= i < |line| && line[i] == '[' && ']' !in line[i..] {
      assert forall k :: i <= k < |line| ==> line[i..][k - i] == line[k];
    }
  }

  /** `link_target_open`. */
  predicate LinkTargetOpen(line: string) {
    var closer := LastPair(line, ']', '(');
    && closer >= 0
    && LastIndex(line, '[') > LastPair(line, ']', ')')
    && (')' !in line[closer + 2..] || '(' in line[closer + 2..])
  }

  predicate LinkOpen(line: string) {
    LinkTextOpen(line) || LinkTargetOpen(line)
  }

  /** How many of the leading characters satisfy `p`. */
  function Leading(s: string, p: char -> bool): (n: nat)
    ensures n <= |s|
  {
    if s != [] && p(s[0]) then 1 + Leading(s[1..], p) else 0
  }

  /** `QUOTE_MARKER.sub("", line)`: drop one leading block quote marker. */
  function StripQuote(line: string): string {
    var n := Leading(line, c => c == ' ');
    if n <= 3 && n < |line| && line[n] == '>' then
      if n + 1 < |line| && (line[n + 1] == ' ' || line[n + 1] == '\t') then line[n + 2..] else line[n + 1..]
    else line
  }

  /** What a line contributes when it continues a wrapped link. */
  function Continuation(line: string): string {
    Strip(StripQuote(line))
  }

  /**
    `BLOCK_START`: the line opens a heading, a fence, a list item, a quote or a comment.
    `decimal` is the Unicode table behind `\d`.
   */
  predicate BlockStart(decimal: char -> bool, line: string) {
    var n := Leading(line, c => c == ' ');
    var rest := line[n..];
    var hashes := Leading(rest, c => c == '#');
    var digits := Leading(rest, decimal);
    && n <= 3
    && (|| (1 <= hashes <= 6 && hashes < |rest| && IsSpace(rest[hashes]))
        || "```" <= rest || "~~~" <= rest
        || (2 <= |rest| && rest[0] in "-*+" && rest[1] in " \t")
        || (1 <= digits && digits + 1 < |rest| && rest[digits] in ".)" && rest[digits + 1] in " \t")
        || ">" <= rest || "<!--" <= rest)
  }

  // ----- what the line tests mean -----

  function Blanks(n: nat): (s: string)
    ensures |s| == n && forall i :: 0 <= i < n ==> s[i] == ' '
  {
    seq(n, _ => ' ')
  }

  lemma {:induction false} LeadingIs(s: string, p: char -> bool, n: nat)
    requires n <= |s| && (forall i :: 0 <= i < n ==> p(s[i])) && (n < |s| ==> !p(s[n]))
    ensures Leading(s, p) == n
  {
    if n > 0 {
      LeadingIs(s[1..], p, n - 1);
    }
  }

  lemma {:induction false} LeadingMeans(s: string, p: char -> bool)
    ensures forall i :: 0 <= i < Leading(s, p) ==> p(s[i])
    ensures Leading(s, p) < |s| ==> !p(s[Leading(s, p)])
  {
    if s != [] && p(s[0]) {
      LeadingMeans(s[1..], p);
      assert forall i :: 0 < i < Leading(s, p) ==> s[i] == s[1..][i - 1];
    }
  }

  /** At most three blanks, `>` and one optional blank or tab are a quote marker, and go. */
  lemma QuoteMarkerGoes(n: nat, rest: string)
    requires n <= 3
    ensures StripQuote(Blanks(n) + ">" + rest) == if rest != "" && (rest[0] == ' ' || rest[0] == '\t') then rest[1..] else rest
  {
    var line := Blanks(n) + ">" + rest;
    LeadingIs(line, c => c == ' ', n);
    assert line[n] == '>' && line[n + 1..] == rest;
    assert rest != "" ==> line[n + 1] == rest[0] && line[n + 2..] == rest[1..];
  }

  /** The line starts with a quote marker. */
  ghost predicate Quoted(line: string) {
    exists n: nat :: n <= 3 && n < |line| && line[..n] == Blanks(n) && line[n] == '>'
  }

  /** A line without a marker contributes all of its own text. */
  lemma UnquotedStays(line: string)
    requires !Quoted(line)
    ensures StripQuote(line) == line
  {
    var n := Leading(line, c => c == ' ');
    LeadingMeans(line, c => c == ' ');
    assert line[..n] == Blanks(n);
  }

  /** One to six hashes and white space. */
  predicate Heading(rest: string, h: nat) {
    1 <= h <= 6 && h < |rest| && IsSpace(rest[h]) && forall i :: 0 <= i < h ==> rest[i] == '#'
  }

  /** Digits, a dot or parenthesis, and a blank or tab. */
  predicate Numbered(decimal: char -> bool, rest: string, d: nat) {
    && 1 <= d && d + 1 < |rest| && (rest[d] == '.' || rest[d] == ')') && (rest[d + 1] == ' ' || rest[d + 1] == '\t')
    && forall i :: 0 <= i < d ==> decimal(rest[i])
  }

  /** A block opens: heading, fence, list item, quote or comment. */
  ghost predicate OpensBlock(decimal: char -> bool, rest: string) {
    || (exists h: nat :: Heading(rest, h))
    || (|rest| >= 3 && (rest[..3] == "```" || rest[..3] == "~~~"))
    || (|rest| >= 2 && (rest[0] == '-' || rest[0] == '*' || rest[0] == '+') && (rest[1] == ' ' || rest[1] == '\t'))
    || (exists d: nat :: Numbered(decimal, rest, d))
    || (|rest| >= 1 && rest[0] == '>')
    || (|rest| >= 4 && rest[..4] == "<!--")
  }

  lemma HeadingIff(rest: string)
    ensures var h := Leading(rest, c => c == '#');
            (exists k: nat :: Heading(rest, k)) <==> 1 <= h <= 6 && h < |rest| && IsSpace(rest[h])
  {
    assert !IsSpace('#');
    hide PyText.IsSpace;
    var h := Leading(rest, c => c == '#');
    LeadingMeans(rest, c => c == '#');
    if k: nat :| Heading(rest, k) {
      LeadingIs(rest, c => c == '#', k);
    }
    assert 1 <= h <= 6 && h < |rest| && IsSpace(rest[h]) ==> Heading(rest, h);
  }

  lemma NumberedIff(decimal: char -> bool, rest: string)
    requires !decimal('.') && !decimal(')')
    ensures var d := Leading(rest, decimal);
            (exists k: nat :: Numbered(decimal, rest, k)) <==>
              1 <= d && d + 1 < |rest| && rest[d] in ".)" && rest[d + 1] in " \t"
  {
    var d := Leading(rest, decimal);
    LeadingMeans(rest, decimal);
    if k: nat :| Numbered(decimal, rest, k) {
      LeadingIs(rest, decimal, k);
    }
    assert 1 <= d && d + 1 < |rest| && rest[d] in ".)" && rest[d + 1] in " \t" ==> Numbered(decimal, rest, d);
  }

  lemma PrefixIff(p: string, rest: string)
    ensures p <= rest <==> |p| <= |rest| && rest[..|p|] == p
  {
  }

  lemma OpensBlockIff(decimal: char -> bool, rest: string)
    requires !decimal('.') && !decimal(')')
    ensures OpensBlock(decimal, rest) <==>
              var hashes, digits := Leading(rest, c => c == '#'), Leading(rest, decimal);
              || (1 <= hashes <= 6 && hashes < |rest| && IsSpace(rest[hashes]))
              || "```" <= rest || "~~~" <= rest
              || (2 <= |rest| && rest[0] in "-*+" && rest[1] in " \t")
              || (1 <= digits && digits + 1 < |rest| && rest[digits] in ".)" && rest[digits + 1] in " \t")
              || ">" <= rest || "<!--" <= rest
  {
    hide PyText.IsSpace, Heading, Numbered, Leading;
    HeadingIff(rest);
    NumberedIff(decimal, rest);
    PrefixIff("```", rest);
    PrefixIff("~~~", rest);
    PrefixIff("<!--", rest);
    PrefixIff(">", rest);
    assert |rest| >= 1 ==> (rest[..1] == ">" <==> rest[0] == '>');
  }

  /** A line opens a block exactly when at most three blanks stand before what opens one. */
  lemma BlockStartMeans(decimal: char -> bool, line: string)
    requires !decimal('.') && !decimal(')') && !decimal(' ')
    ensures BlockStart(decimal, line) <==>
              exists n: nat :: n <= 3 && n <= |line| && line[..n] == Blanks(n) && OpensBlock(decimal, line[n..])
  {
    var n := Leading(line, c => c == ' ');
    LeadingMeans(line, c => c == ' ');
    assert line[..n] == Blanks(n);
    OpensBlockIff(decimal, line[n..]);
    hide OpensBlock, Leading, PyText.IsSpace;
    assert BlockStart(decimal, line) <==> n <= 3 && OpensBlock(decimal, line[n..]);
    hide BlockStart;
    forall m: nat | m <= 3 && m <= |line| && line[..m] == Blanks(m) && OpensBlock(decimal, line[m..]) ensures m == n {
      BlockOpensVisibly(decimal, line[m..]);
      BlanksEnd(line, m, n);
    }
  }

  /** Blanks that are followed by a visible character are all the leading ones. */
  lemma BlanksEnd(line: string, m: nat, n: nat)
    requires m < |line| && n <= |line| && line[..m] == Blanks(m) && line[m..][0] != ' '
    requires (forall i :: 0 <= i < n ==> line[i] == ' ') && (n < |line| ==> line[n] != ' ')
    ensures m == n
  {
    assert forall i :: 0 <= i < m ==> line[i] == line[..m][i];
  }

  lemma BlockOpensVisibly(decimal: char -> bool, rest: string)
    requires OpensBlock(decimal, rest) && !decimal(' ')
    ensures rest != [] && rest[0] != ' '
  {
    hide PyText.IsSpace;
  }

  /**
    The line ends inside a link's target: behind its last `](` nothing is closed, or a parenthesis
    opens, and some `[` has no `])` behind it.
   */
  lemma LinkTargetOpenMeans(line: string)
    ensures LinkTargetOpen(line) <==>
              && (exists c: nat :: LastTargetAt(line, c) && (')' !in line[c + 2..] || '(' in line[c + 2..]))
              && (exists i: nat :: i < |line| && line[i] == '[' && NoPairFrom(line, i))
  {
    var closer, open, pair := LastPair(line, ']', '('), LastIndex(line, '['), LastPair(line, ']', ')');
    if closer >= 0 {
      assert LastTargetAt(line, closer);
    }
    forall c: nat | LastTargetAt(line, c) ensures c == closer {
    }
    if open > pair {
      assert NoPairFrom(line, open);
    }
    if i: nat :| i < |line| && line[i] == '[' && NoPairFrom(line, i) {
      assert pair < i <= open;
    }
  }

  /** The last `](` of the line is at `c`. */
  predicate LastTargetAt(line: string, c: nat) {
    && c + 1 < |line| && line[c] == ']' && line[c + 1] == '('
    && forall k :: c < k < |line| - 1 ==> !(line[k] == ']' && line[k + 1] == '(')
  }

  predicate NoPairFrom(line: string, i: nat) {
    forall k :: i <= k < |line| - 1 ==> !(line[k] == ']' && line[k + 1] == ')')
  }

  /** The wrap goes on: the text so far is inside a link and the next line continues the paragraph. */
  predicate Joins(decimal: char -> bool, current: string, next: string) {
    LinkOpen(current) && !Blank(StripQuote(next)) && !BlockStart(decimal, StripQuote(next))
  }

  // ----- joining with single spaces -----

  /** A source line's number and the offset at which its text starts in the joined line. */
  datatype Position = Position(start: nat, number: nat)

  /** `" ".join(parts)`. */
  ghost function JoinText(parts: seq<string>): string
    requires parts != []
  {
    if |parts| == 1 then parts[0] else JoinText(parts[..|parts| - 1]) + " " + parts[|parts| - 1]
  }

  /** Where part `k` starts in the joined text. */
  ghost function StartOf(parts: seq<string>, k: nat): nat
    requires k < |parts|
  {
    if k == 0 then 0 else |JoinText(parts[..k])| + 1
  }

  /** The offset map of parts that come from consecutive lines, the first numbered `number`. */
  ghost function Map(parts: seq<string>, number: nat): (positions: seq<Position>)
    ensures |positions| == |parts|
    ensures forall k :: 0 <= k < |parts| ==> positions[k] == Position(StartOf(parts, k), number + k)
  {
    seq(|parts|, k requires 0 <= k < |parts| => Position(StartOf(parts, k), number + k))
  }

  /** The first parts, joined, are a prefix, and a space follows them. */
  lemma {:induction false} JoinedPrefix(parts: seq<string>, k: nat)
    requires 1 <= k <= |parts|
    ensures JoinText(parts[..k]) <= JoinText(parts)
    ensures k < |parts| ==> |JoinText(parts[..k])| < |JoinText(parts)| && JoinText(parts)[|JoinText(parts[..k])|] == ' '
    decreases |parts|
  {
    if k == |parts| {
      assert parts[..k] == parts;
    } else {
      var most := parts[..|parts| - 1];
      JoinedPrefix(most, k);
      assert most[..k] == parts[..k];
    }
  }

  /**
    The parts tile the joined text: part `k` is exactly the slice from its start, and one space
    lies between that slice and the next start.
   */
  lemma PartsTileTheText(parts: seq<string>, k: nat)
    requires k < |parts|
    ensures var text, start, end := JoinText(parts), StartOf(parts, k), StartOf(parts, k) + |parts[k]|;
            && end <= |text| && text[start..end] == parts[k]
            && (if k + 1 < |parts| then end < |text| && text[end] == ' ' && StartOf(parts, k + 1) == end + 1
                else end == |text|)
  {
    hide JoinText;
    JoinedPrefix(parts, k + 1);
    LastPart(parts, k);
    if k + 1 == |parts| {
      assert parts[..k + 1] == parts;
    }
  }

  /** The last part ends the joined text and stands at its start offset. */
  lemma LastPart(parts: seq<string>, k: nat)
    requires k < |parts|
    ensures |JoinText(parts[..k + 1])| == StartOf(parts, k) + |parts[k]|
    ensures JoinText(parts[..k + 1])[StartOf(parts, k)..] == parts[k]
  {
    var upto := parts[..k + 1];
    assert upto[..k] == parts[..k] && upto[k] == parts[k];
    assert JoinText(upto) == if k == 0 then parts[k] else JoinText(parts[..k]) + " " + parts[k];
  }

  /** Appending a part appends to the text and to the map. */
  lemma PartAppended(parts: seq<string>, tail: string, number: nat)
    requires parts != []
    ensures JoinText(parts + [tail]) == JoinText(parts) + " " + tail
    ensures Map(parts + [tail], number) == Map(parts, number) + [Position(|JoinText(parts)| + 1, number + |parts|)]
  {
    var more := parts + [tail];
    assert more[..|more| - 1] == parts;
    forall k | 0 <= k < |parts| ensures StartOf(more, k) == StartOf(parts, k) {
      assert more[..k] == parts[..k];
    }
  }

  // ----- what a joined line is -----

  /** What the source lines `a..b` contribute when they are joined. */
  ghost function Parts(lines: seq<string>, a: nat, b: nat): (parts: seq<string>)
    requires a <= b < |lines|
    ensures |parts| == b - a + 1
  {
    if a == b then [lines[a]]
    else (if a == b - 1 then [RStrip(lines[a])] else Parts(lines, a, b - 1)) + [Continuation(lines[b])]
  }

  /** The text joined from `a..i` goes on with the line behind `i`. */
  ghost predicate JoinsAt(decimal: char -> bool, lines: seq<string>, a: nat, i: nat) {
    a <= i && i + 1 < |lines| && Joins(decimal, JoinText(Parts(lines, a, i)), lines[i + 1])
  }

  /** The lines behind `a` were joined, each because the text so far asked for it, as far as `b` and no further. */
  ghost predicate Group(decimal: char -> bool, lines: seq<string>, a: nat, b: nat) {
    && a <= b < |lines|
    && (forall i :: a <= i < b ==> JoinsAt(decimal, lines, a, i))
    && !JoinsAt(decimal, lines, a, b)
  }

  lemma VisibleBracket()
    ensures !IsSpace('[')
  {
  }

  /** An open line has a bracket to show for it. */
  lemma OpenLineIsNotBlank(line: string)
    requires LinkOpen(line)
    ensures RStrip(line) != []
  {
    VisibleBracket();
    hide PyText.IsSpace, PyText.RStrip;
    RStripSpec(line);
    var at := LastIndex(line, '[');
    assert line[at] == '[';
    assert line == RStrip(line) + line[|RStrip(line)|..];
  }

  lemma VisibleEnd(head: string, tail: string)
    requires tail != [] && !IsSpace(tail[|tail| - 1])
    ensures RStrip(head + " " + tail) == head + " " + tail
  {
    var text := head + " " + tail;
    assert text[|text| - 1] == tail[|tail| - 1];
  }

  /** Only the first line can lose white space at its end; every other line is trimmed to its text. */
  lemma {:induction false} PartsAre(lines: seq<string>, a: nat, b: nat, k: nat)
    requires a <= b < |lines| && k <= b - a
    ensures Parts(lines, a, b)[k]
         == if k > 0 then Continuation(lines[a + k]) else if a == b then lines[a] else RStrip(lines[a])
    decreases b
  {
    hide PyText.IsSpace, PyText.RStrip, Continuation;
    if a + 1 < b && a + k < b {
      PartsAre(lines, a, b - 1, k);
    }
  }

  /** The joined text so far keeps its end when it has been joined before. */
  lemma JoinedTextIsTrimmed(decimal: char -> bool, lines: seq<string>, a: nat, b: nat)
    requires a < b && JoinsAt(decimal, lines, a, b - 1)
    ensures RStrip(JoinText(Parts(lines, a, b))) == JoinText(Parts(lines, a, b))
  {
    var parts := Parts(lines, a, b);
    var tail := Continuation(lines[b]);
    assert parts[|parts| - 1] == tail;
    StripSpec(StripQuote(lines[b]));
    VisibleEnd(JoinText(parts[..|parts| - 1]), tail);
  }

  /** What one turn of the joining loop computes. */
  lemma JoinOneMore(decimal: char -> bool, lines: seq<string>, a: nat, b: nat)
    requires JoinsAt(decimal, lines, a, b)
    requires a < b ==> JoinsAt(decimal, lines, a, b - 1)
    ensures var head, tail := RStrip(JoinText(Parts(lines, a, b))), Continuation(lines[b + 1]);
            && JoinText(Parts(lines, a, b + 1)) == head + " " + tail
            && Map(Parts(lines, a, b + 1), a + 1) == Map(Parts(lines, a, b), a + 1) + [Position(|head| + 1, b + 2)]
  {
    hide PyText.IsSpace, PyText.RStrip, Joins, Continuation;
    var tail := Continuation(lines[b + 1]);
    if a == b {
      PartAppended([RStrip(lines[a])], tail, a + 1);
    } else {
      JoinedTextIsTrimmed(decimal, lines, a, b);
      PartAppended(Parts(lines, a, b), tail, a + 1);
    }
  }

  /** Every part of a joined line is visible text. */
  lemma PartsAreVisible(decimal: char -> bool, lines: seq<string>, a: nat, b: nat, k: nat)
    requires Group(decimal, lines, a, b) && a < b && k <= b - a
    ensures Parts(lines, a, b)[k] != []
  {
    PartsAre(lines, a, b, k);
    if k == 0 {
      assert JoinsAt(decimal, lines, a, a);
      OpenLineIsNotBlank(lines[a]);
    } else {
      assert JoinsAt(decimal, lines, a, a + k - 1);
      StripSpec(StripQuote(lines[a + k]));
    }
  }

  // ----- the methods -----

  /** A link of the chain: the groups cover the lines between the cuts, in order. */
  ghost predicate Grouped(decimal: char -> bool, lines: seq<string>, cuts: seq<nat>, upto: nat,
                          merged: seq<string>, spans: seq<seq<Position>>)
  {
    && |cuts| == |merged| + 1 && |spans| == |merged|
    && cuts[0] == 0 && cuts[|merged|] == upto
    && forall m :: 0 <= m < |merged| ==> IsMerged(decimal, lines, cuts[m], cuts[m + 1], merged[m], spans[m])
  }

  /** The lines from `a` up to, but not including, `end` form one group with this text and map. */
  ghost predicate IsMerged(decimal: char -> bool, lines: seq<string>, a: nat, end: nat, text: string, positions: seq<Position>) {
    && a < end <= |lines| && Group(decimal, lines, a, end - 1)
    && text == JoinText(Parts(lines, a, end - 1))
    && positions == Map(Parts(lines, a, end - 1), a + 1)
  }

  lemma GroupStart(lines: seq<string>, first: nat)
    requires first < |lines|
    ensures JoinText(Parts(lines, first, first)) == lines[first]
    ensures Map(Parts(lines, first, first), first + 1) == [Position(0, first + 1)]
  {
  }

  /** The inner loop: join on from line `first` for as long as the text asks for it. */
  method JoinFrom(decimal: char -> bool, lines: seq<string>, first: nat)
    returns (current: string, positions: seq<Position>, index: nat)
    requires first < |lines|
    ensures first <= index < |lines|
    ensures IsMerged(decimal, lines, first, index + 1, current, positions)
  {
    hide PyText.IsSpace, PyText.RStrip, PyText.Strip, PyText.Blank, LinkOpen, BlockStart, StripQuote, JoinText, Parts, Map;
    GroupStart(lines, first);
    current, positions, index := lines[first], [Position(0, first + 1)], first;
    while index + 1 < |lines|
      invariant first <= index < |lines|
      invariant forall i :: first <= i < index ==> JoinsAt(decimal, lines, first, i)
      invariant current == JoinText(Parts(lines, first, index))
      invariant positions == Map(Parts(lines, first, index), first + 1)
      invariant index + 1 == |lines| ==> !JoinsAt(decimal, lines, first, index)
    {
      if !LinkOpen(current) {
        break;
      }
      var stripped := StripQuote(lines[index + 1]);
      if Blank(stripped) || BlockStart(decimal, stripped) {
        break;
      }
      assert JoinsAt(decimal, lines, first, index);
      JoinOneMore(decimal, lines, first, index);
      var head := RStrip(current);
      var tail := Strip(stripped);
      current := head + " " + tail;
      positions := positions + [Position(|head| + 1, index + 2)];
      index := index + 1;
    }
  }

  /** `unwrap_links`. */
  method Unwrap(decimal: char -> bool, lines: seq<string>)
    returns (merged: seq<string>, spans: seq<seq<Position>>)
    ensures exists cuts :: Grouped(decimal, lines, cuts, |lines|, merged, spans)
  {
    hide IsMerged;
    merged, spans := [], [];
    ghost var cuts: seq<nat> := [0];
    var index := 0;
    while index < |lines|
      invariant 0 <= index <= |lines|
      invariant Grouped(decimal, lines, cuts, index, merged, spans)
    {
      var current, positions, last := JoinFrom(decimal, lines, index);
      merged, spans, cuts := merged + [current], spans + [positions], cuts + [last + 1];
      index := last + 1;
    }
  }

  /** Entry `k` is the last of the leading entries that start at or before `offset` (the first one, if none does). */
  ghost predicate LastStarted(positions: seq<Position>, offset: nat, k: nat) {
    && k < |positions|
    && (forall j :: 1 <= j <= k ==> positions[j].start <= offset)
    && (k + 1 == |positions| || positions[k + 1].start > offset || (k == 0 && positions[0].start > offset))
  }

  /** `source_line_at`. */
  method SourceLineAt(positions: seq<Position>, offset: nat) returns (found: nat)
    requires positions != []
    ensures exists k: nat :: LastStarted(positions, offset, k) && found == positions[k].number
  {
    found := positions[0].number;
    ghost var k := 0;
    var i := 0;
    while i < |positions|
      invariant 0 <= i <= |positions|
      invariant k == (if i == 0 then 0 else i - 1) && found == positions[k].number
      invariant forall j :: 0 <= j < i ==> positions[j].start <= offset
    {
      if positions[i].start > offset {
        assert LastStarted(positions, offset, k);
        return;
      }
      found, k := positions[i].number, i;
      i := i + 1;
    }
    assert LastStarted(positions, offset, k);
  }

  // ----- what the map promises -----

  /** The line numbers of all the maps, one after the other. */
  ghost function Numbers(spans: seq<seq<Position>>): seq<nat> {
    if spans == [] then []
    else Numbers(spans[..|spans| - 1]) + seq(|spans[|spans| - 1]|, k requires 0 <= k < |spans[|spans| - 1]| => spans[|spans| - 1][k].number)
  }

  /** The maps partition the source: read in order they name the lines 1, 2, ... once each. */
  lemma {:induction false} LinesPartitioned(decimal: char -> bool, lines: seq<string>, cuts: seq<nat>, upto: nat,
                                            merged: seq<string>, spans: seq<seq<Position>>)
    requires Grouped(decimal, lines, cuts, upto, merged, spans)
    ensures |Numbers(spans)| == upto
    ensures forall i :: 0 <= i < upto ==> Numbers(spans)[i] == i + 1
    decreases |merged|
  {
    hide PyText.IsSpace, Group, JoinText;
    if merged != [] {
      var m := |merged| - 1;
      assert IsMerged(decimal, lines, cuts[m], cuts[m + 1], merged[m], spans[m]);
      LinesPartitioned(decimal, lines, cuts[..m + 1], cuts[m], merged[..m], spans[..m]);
    }
  }

  /** The starts in one map strictly increase from 0. */
  lemma StartsIncrease(decimal: char -> bool, lines: seq<string>, a: nat, end: nat, text: string, positions: seq<Position>)
    requires IsMerged(decimal, lines, a, end, text, positions)
    ensures positions[0] == Position(0, a + 1)
    ensures forall j, l :: 0 <= j < l < |positions| ==> positions[j].start < positions[l].start
  {
    hide PyText.IsSpace, Group, JoinText, Parts;
    var parts := Parts(lines, a, end - 1);
    forall j, l | 0 <= j < l < |parts|
      ensures StartOf(parts, j) < StartOf(parts, l)
    {
      StartsGrow(parts, j, l);
    }
  }

  lemma {:induction false} StartsGrow(parts: seq<string>, j: nat, l: nat)
    requires j < l < |parts|
    ensures StartOf(parts, j) + |parts[j]| < StartOf(parts, l)
    decreases l
  {
    hide JoinText;
    PartsTileTheText(parts, j);
    if j + 1 < l {
      StartsGrow(parts, j, l - 1);
      PartsTileTheText(parts, l - 1);
    }
  }

  /**
    The character at `offset` belongs to source line `k + 1`: it is a character of that line's
    part, or the one joining space behind the part.
   */
  ghost predicate Owns(lines: seq<string>, a: nat, end: nat, text: string, offset: nat, k: nat)
    requires offset < |text|
  {
    a <= k < end <= |lines| &&
    var parts := Parts(lines, a, end - 1);
    var part, start := parts[k - a], StartOf(parts, k - a);
    || (start <= offset < start + |part| && text[offset] == part[offset - start])
    || (k + 1 < end && offset == start + |part| && text[offset] == ' ')
  }

  /** `source_line_at` names the line whose own text stands at the offset. */
  lemma LineNamed(decimal: char -> bool, lines: seq<string>, a: nat, end: nat, text: string,
                  positions: seq<Position>, offset: nat, k: nat)
    requires IsMerged(decimal, lines, a, end, text, positions) && offset < |text|
    requires LastStarted(positions, offset, k)
    ensures Owns(lines, a, end, text, offset, a + k) && positions[k].number == a + k + 1
  {
    hide PyText.IsSpace, Group, JoinText, Parts;
    var parts := Parts(lines, a, end - 1);
    StartsIncrease(decimal, lines, a, end, text, positions);
    PartsTileTheText(parts, k);
    var start := StartOf(parts, k);
    assert forall i :: start <= i < start + |parts[k]| ==> text[i] == text[start..start + |parts[k]|][i - start];
  }

  /** A character has one owner. */
  lemma OwnerUnique(lines: seq<string>, a: nat, end: nat, text: string, offset: nat, k: nat, l: nat)
    requires offset < |text|
    requires Owns(lines, a, end, text, offset, k) && Owns(lines, a, end, text, offset, l)
    ensures k == l
  {
    hide JoinText, Parts;
    if k < l {
      StartsGrow(Parts(lines, a, end - 1), k - a, l - a);
    } else if l < k {
      StartsGrow(Parts(lines, a, end - 1), l - a, k - a);
    }
  }

  /**
    No line of a wrapped link is swallowed: each source line of a group owns the character at its
    entry's offset, and when lines were joined that character comes from its own text.
   */
  lemma EveryLineIsSeen(decimal: char -> bool, lines: seq<string>, a: nat, end: nat, text: string,
                        positions: seq<Position>, k: nat)
    requires IsMerged(decimal, lines, a, end, text, positions) && a + 1 < end && a <= k < end
    ensures var start := positions[k - a].start;
            && start < |text| && Owns(lines, a, end, text, start, k)
            && Parts(lines, a, end - 1)[k - a] != [] && text[start] == Parts(lines, a, end - 1)[k - a][0]
  {
    hide Group, JoinText, Parts;
    var parts := Parts(lines, a, end - 1);
    PartsAreVisible(decimal, lines, a, end - 1, k - a);
    PartsTileTheText(parts, k - a);
    var start := StartOf(parts, k - a);
    assert text[start..start + |parts[k - a]|][0] == text[start];
  }

  /** A group's end is determined by its first line. */
  lemma GroupEndUnique(decimal: char -> bool, lines: seq<string>, a: nat, b: nat, c: nat)
    requires Group(decimal, lines, a, b) && Group(decimal, lines, a, c)
    ensures b == c
  {
    hide Joins, JoinText, Parts;
    assert b < c ==> JoinsAt(decimal, lines, a, b);
    assert c < b ==> JoinsAt(decimal, lines, a, c);
  }

  /** The cuts of two groupings agree as far as both go. */
  lemma {:induction false} CutsUnique(decimal: char -> bool, lines: seq<string>, cuts: seq<nat>, merged: seq<string>,
                                      spans: seq<seq<Position>>, cuts': seq<nat>, merged': seq<string>,
                                      spans': seq<seq<Position>>, n: nat)
    requires Grouped(decimal, lines, cuts, |lines|, merged, spans)
    requires Grouped(decimal, lines, cuts', |lines|, merged', spans')
    requires n <= |merged|
    ensures n <= |merged'| && cuts[n] == cuts'[n]
    ensures forall m :: 0 <= m < n ==> cuts[m] == cuts'[m] && merged[m] == merged'[m] && spans[m] == spans'[m]
  {
    hide Group, JoinText, Parts;
    if n > 0 {
      CutsUnique(decimal, lines, cuts, merged, spans, cuts', merged', spans', n - 1);
      var m := n - 1;
      assert IsMerged(decimal, lines, cuts[m], cuts[n], merged[m], spans[m]);
      assert cuts'[m] < |lines|;
      assert IsMerged(decimal, lines, cuts'[m], cuts'[n], merged'[m], spans'[m]);
      GroupEndUnique(decimal, lines, cuts[m], cuts[n] - 1, cuts'[n] - 1);
    }
  }

  /** Unwrapping has one result: any two groupings of the same lines have the same cuts, texts and maps. */
  lemma GroupingUnique(decimal: char -> bool, lines: seq<string>, cuts: seq<nat>, merged: seq<string>,
                       spans: seq<seq<Position>>, cuts': seq<nat>, merged': seq<string>, spans': seq<seq<Position>>)
    requires Grouped(decimal, lines, cuts, |lines|, merged, spans)
    requires Grouped(decimal, lines, cuts', |lines|, merged', spans')
    ensures cuts == cuts' && merged == merged' && spans == spans'
  {
    hide IsMerged;
    CutsUnique(decimal, lines, cuts, merged, spans, cuts', merged', spans', |merged|);
    CutsUnique(decimal, lines, cuts', merged', spans', cuts, merged, spans, |merged'|);
  }

  // ----- the links of the lines -----

  /**
    Exactly when every link that is complete on its own line is found again where it stands in
    the joined text: the links found across the edges of the line's part keep clear of its own.
   */
  lemma LinksOfLine(decimal: char -> bool, lines: seq<string>, a: nat, end: nat, text: string,
                    positions: seq<Position>, k: nat)
    requires IsMerged(decimal, lines, a, end, text, positions) && a <= k < end
    ensures var part, u := Parts(lines, a, end - 1)[k - a], positions[k - a].start;
            && u + |part| <= |text| && text[u..u + |part|] == part
            && (AllSurvive(text, u, u + |part|) <==> EdgesClear(text, u, u + |part|))
  {
    hide Group, JoinText, Parts, AllSurvive, EdgesClear;
    var parts := Parts(lines, a, end - 1);
    PartsTileTheText(parts, k - a);
    SurvivalIff(text, StartOf(parts, k - a), StartOf(parts, k - a) + |parts[k - a]|);
  }

  /** The first line of a group keeps all its links when it has no `<`. */
  lemma FirstLineKeepsLinks(decimal: char -> bool, lines: seq<string>, a: nat, end: nat, text: string, positions: seq<Position>)
    requires IsMerged(decimal, lines, a, end, text, positions) && '<' !in Parts(lines, a, end - 1)[0]
    ensures var v := |Parts(lines, a, end - 1)[0]|;
            v <= |text| && text[..v] == Parts(lines, a, end - 1)[0] && AllSurvive(text, 0, v)
  {
    hide Group, JoinText, Parts, AllSurvive;
    PartsTileTheText(Parts(lines, a, end - 1), 0);
    FirstPartKeepsLinks(text, |Parts(lines, a, end - 1)[0]|);
  }

  /** A link found where a line's own link stands is reported on that line. */
  lemma LinkIsReportedOnItsLine(decimal: char -> bool, lines: seq<string>, a: nat, end: nat, text: string,
                                positions: seq<Position>, k: nat, m: Span, j: nat)
    requires IsMerged(decimal, lines, a, end, text, positions) && a <= k < end
    requires Found(Parts(lines, a, end - 1)[k - a], m) && LastStarted(positions, positions[k - a].start + m.start, j)
    ensures positions[j].number == k + 1
  {
    hide Group, JoinText, Parts, Found;
    var parts := Parts(lines, a, end - 1);
    var offset := StartOf(parts, k - a) + m.start;
    FoundApart(parts[k - a], m, m);
    PartsTileTheText(parts, k - a);
    LineNamed(decimal, lines, a, end, text, positions, offset, j);
    assert text[offset] == text[StartOf(parts, k - a)..StartOf(parts, k - a) + |parts[k - a]|][m.start];
    assert Owns(lines, a, end, text, offset, k);
    OwnerUnique(lines, a, end, text, offset, a + j, k);
  }

  // ----- two lines that lose a link -----

  /** Two lines join when the first is open and the second, its quote marker gone, is ordinary text. */
  lemma TwoLines(decimal: char -> bool, x: string, second: string, y: string)
    requires LinkOpen(x) && RStrip(x) == x && StripQuote(second) == y && Strip(y) == y && y != [] && !BlockStart(decimal, y)
    ensures Parts([x, second], 0, 1) == [x, y]
    ensures IsMerged(decimal, [x, second], 0, 2, x + " " + y, [Position(0, 1), Position(|x| + 1, 2)])
  {
    hide LinkOpen, PyText.Strip, PyText.RStrip, PyText.Blank, StripQuote, BlockStart;
    var lines := [x, second];
    StripSpec(y);
    assert Parts(lines, 0, 0) == [x] && JoinText([x]) == x;
    assert JoinsAt(decimal, lines, 0, 0);
    assert Parts(lines, 0, 1) == [x] + [y];
    PartAppended([x], y, 1);
    assert Map([x], 1) == [Position(0, 1)];
  }

  /** A quote marker: at most three blanks, `>`, and nothing, a blank or a tab. */
  predicate QuoteMarker(m: string, n: nat, pad: string) {
    n <= 3 && m == Blanks(n) + ">" + pad && (pad == "" || pad == " " || pad == "\t")
  }

  lemma MarkedTextStays(m: string, n: nat, pad: string, y: string)
    requires QuoteMarker(m, n, pad) && y != "" && y[0] != ' ' && y[0] != '\t'
    ensures StripQuote(m + y) == y
  {
    hide StripQuote;
    assert m + y == Blanks(n) + ">" + (pad + y);
    QuoteMarkerGoes(n, pad + y);
    if pad == "" {
      assert pad + y == y;
    } else {
      assert (pad + y)[1..] == y && (pad + y)[0] == pad[0];
    }
  }

  /** A quoted continuation joins without its marker, whichever of its forms that has. */
  lemma QuotedLinesJoin(decimal: char -> bool, x: string, m: string, n: nat, pad: string, y: string)
    requires LinkOpen(x) && RStrip(x) == x && Strip(y) == y && y != [] && !BlockStart(decimal, y) && QuoteMarker(m, n, pad)
    ensures IsMerged(decimal, [x, m + y], 0, 2, x + " " + y, [Position(0, 1), Position(|x| + 1, 2)])
  {
    assert IsSpace(' ') && IsSpace('\t');
    hide IsMerged, LinkOpen, PyText.RStrip, BlockStart, PyText.Strip, PyText.IsSpace, StripQuote;
    StripSpec(y);
    MarkedTextStays(m, n, pad, y);
    TwoLines(decimal, x, m + y, y);
  }

  /** An unquoted continuation joins as it stands. */
  lemma PlainLinesJoin(decimal: char -> bool, x: string, y: string)
    requires LinkOpen(x) && RStrip(x) == x && Strip(y) == y && y != [] && !BlockStart(decimal, y) && !Quoted(y)
    ensures IsMerged(decimal, [x, y], 0, 2, x + " " + y, [Position(0, 1), Position(|x| + 1, 2)])
    ensures Parts([x, y], 0, 1) == [x, y]
  {
    hide IsMerged, LinkOpen, PyText.RStrip, BlockStart, PyText.Strip;
    UnquotedStays(y);
    TwoLines(decimal, x, y, y);
  }

  lemma BracketStart(decimal: char -> bool, y: string)
    requires y != [] && y[0] == '[' && !decimal('[')
    ensures !Quoted(y) && !BlockStart(decimal, y)
  {
    hide PyText.IsSpace;
    LeadingIs(y, c => c == ' ', 0);
    LeadingIs(y, c => c == '#', 0);
    LeadingIs(y, decimal, 0);
    assert y[0..] == y;
    assert forall n: nat :: 0 < n < |y| ==> y[..n][0] == '[' && Blanks(n)[0] == ' ';
  }

  lemma EndsVisible(s: string)
    requires s != [] && !IsSpace(s[0]) && !IsSpace(s[|s| - 1])
    ensures RStrip(s) == s && Strip(s) == s
  {
    hide PyText.IsSpace;
  }

  lemma Brackets()
    ensures !IsSpace('[') && !IsSpace('<') && !IsSpace(')') && !IsSpace('x')
  {
  }

  /** A link at the very front is found. */
  lemma FirstLink(text: string, c: nat, e: nat)
    requires LabelAt(text, 0, c)
    requires AngleAt(text, c + 2, e) || (PlainAt(text, c + 2, e) && forall i :: c + 2 <= i < |text| ==> text[i] != '<')
    ensures Found(text, Span(0, e))
  {
    hide PyText.IsSpace;
    assert DestinationAt(text, c + 2, e);
    hide DestinationAt, LabelAt, AngleAt, PlainAt;
    UncoveredFound(text, Span(0, e));
  }

  lemma CompleteLink(y: string)
    requires |y| >= 9 && y[..9] == "[a](b.md)" && forall i :: 4 <= i < |y| ==> y[i] != '<'
    ensures Found(y, Span(0, 9))
  {
    assert forall i :: 0 <= i < 9 ==> y[i] == "[a](b.md)"[i];
    assert LabelAt(y, 0, 2) && PlainAt(y, 4, 9);
    hide LabelAt, PlainAt, AngleAt;
    FirstLink(y, 2, 9);
  }

  lemma AngleText(text: string)
    requires text == "[p](< [a](b.md)>)"
    ensures text[6..17] == "[a](b.md)>)" && Found(text[6..17], Span(0, 9))
    ensures LabelAt(text, 0, 2) && AngleParts(text, 4, 4, 15, 17)
  {
    hide Found;
    var y := text[6..17];
    assert y == "[a](b.md)>)";
    assert y[..9] == "[a](b.md)";
    CompleteLink(y);
  }

  lemma AngleLinesJoin(decimal: char -> bool)
    requires !decimal('[')
    ensures IsMerged(decimal, ["[p](<", "[a](b.md)>)"], 0, 2, "[p](<" + " " + "[a](b.md)>)", [Position(0, 1), Position(6, 2)])
    ensures Parts(["[p](<", "[a](b.md)>)"], 0, 1)[1] == "[a](b.md)>)"
  {
    hide IsMerged, PyText.IsSpace, PyText.Strip, PyText.RStrip, Parts;
    Brackets();
    var x, y := "[p](<", "[a](b.md)>)";
    assert LinkOpen(x) by {
      assert LastPair(x, ']', '(') == 2 && x[0] == '[' && x[4..] == "<";
    }
    EndsVisible(x);
    EndsVisible(y);
    BracketStart(decimal, y);
    PlainLinesJoin(decimal, x, y);
  }

  /**
    `[a](b.md)` is complete on the second of these lines, and the joined text has one link, from
    the first bracket to the last parenthesis.
   */
  lemma AngleSwallowsLink(decimal: char -> bool)
    requires !decimal('[')
    ensures var text := "[p](<" + " " + "[a](b.md)>)";
            && IsMerged(decimal, ["[p](<", "[a](b.md)>)"], 0, 2, text, [Position(0, 1), Position(6, 2)])
            && Parts(["[p](<", "[a](b.md)>)"], 0, 1)[1] == text[6..17]
            && Found(text[6..17], Span(0, 9)) && Found(text, Span(0, 17)) && !Found(text, Span(6, 15))
            && !AllSurvive(text, 6, 17)
  {
    hide IsMerged, Parts, Found, LabelAt;
    var text := "[p](<" + " " + "[a](b.md)>)";
    AngleLinesJoin(decimal);
    assert text == "[p](< [a](b.md)>)";
    AngleText(text);
    FirstLink(text, 2, 17);
    assert Shift(Span(0, 9), 6) == Span(6, 15);
    if Found(text, Span(6, 15)) {
      FoundApart(text, Span(0, 17), Span(6, 15));
    }
  }

  lemma StrayText(text: string)
    requires text == "[x [a](b.md)"
    ensures text[3..12] == "[a](b.md)" && Found(text[3..12], Span(0, 9))
    ensures LabelAt(text, 0, 5) && PlainAt(text, 7, 12) && forall i :: 0 <= i < |text| ==> text[i] != '<'
  {
    hide Found;
    var y := text[3..12];
    assert y == "[a](b.md)";
    assert y[..9] == y;
    CompleteLink(y);
  }

  lemma StrayLinesJoin(decimal: char -> bool)
    requires !decimal('[')
    ensures IsMerged(decimal, ["[x", "[a](b.md)"], 0, 2, "[x" + " " + "[a](b.md)", [Position(0, 1), Position(3, 2)])
  {
    hide IsMerged, PyText.IsSpace, PyText.Strip, PyText.RStrip, Parts;
    Brackets();
    var x, y := "[x", "[a](b.md)";
    assert LinkOpen(x) by {
      assert x[0] == '[' && ']' !in x;
    }
    EndsVisible(x);
    EndsVisible(y);
    BracketStart(decimal, y);
    PlainLinesJoin(decimal, x, y);
  }

  /** A stray bracket on the first line makes the second line's link start there, and be reported there. */
  lemma StrayBracketMovesLink(decimal: char -> bool)
    requires !decimal('[')
    ensures var text := "[x" + " " + "[a](b.md)";
            && IsMerged(decimal, ["[x", "[a](b.md)"], 0, 2, text, [Position(0, 1), Position(3, 2)])
            && Found(text[3..12], Span(0, 9)) && Found(text, Span(0, 12)) && !Found(text, Span(3, 12))
            && !AllSurvive(text, 3, 12)
            && LastStarted([Position(0, 1), Position(3, 2)], 0, 0)
  {
    hide IsMerged, Parts, Found, LabelAt, PlainAt;
    var text := "[x" + " " + "[a](b.md)";
    StrayLinesJoin(decimal);
    assert text == "[x [a](b.md)";
    StrayText(text);
    FirstLink(text, 5, 12);
    assert Shift(Span(0, 9), 3) == Span(3, 12);
    if Found(text, Span(3, 12)) {
      FoundApart(text, Span(0, 12), Span(3, 12));
    }
  }
}
