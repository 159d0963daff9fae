/**
  Finding the skills tables of a pull-request body and crediting Row source records to them, from
  scripts/ci/check_pr_body_skills.py. The lines are the field's lines after comment stripping.

  `lower` is Unicode lower case, `parseInt` is `int(...)`, and `rowToken` reads the `row=` field
  out of one record line (the empty string when it has none).
 */
module SkillsTables {
  import opened Options
  import opened PyText
  import opened TableText
  import RowCoverage

  datatype Text = Text(lower: string -> string, parseInt: string -> Option<int>, rowToken: string -> string)

  // ----- classifying a line -----

  function StripAll(cells: seq<string>): (stripped: seq<string>)
    ensures |stripped| == |cells|
  {
    seq(|cells|, i requires 0 <= i < |cells| => Strip(cells[i]))
  }

  /** `[c.strip() for c in _split_cells(line)][1:-1]`. */
  function InnerCells(line: string): seq<string> {
    var cells := StripAll(Cells(line));
    if |cells| <= 2 then [] else cells[1..|cells| - 1]
  }

  /** `" ".join(s.split())`, for a stripped text. */
  function Collapse(s: string): string {
    if |s| < 2 then s
    else if IsSpace(s[0]) && IsSpace(s[1]) then Collapse(s[1..])
    else [if IsSpace(s[0]) then ' ' else s[0]] + Collapse(s[1..])
  }

  /** `_is_header_row`: the four documented column titles. */
  predicate IsHeader(t: Text, line: string) {
    var cells := InnerCells(line);
    && |cells| == 4
    && Collapse(Strip(t.lower(cells[0]))) == "skill" && Collapse(Strip(t.lower(cells[1]))) == "stage / agent"
    && Collapse(Strip(t.lower(cells[2]))) == "how applied" && Collapse(Strip(t.lower(cells[3]))) == "result / evidence"
  }

  /** The cell without a colon at its front and one at its end. */
  function Inner(c: string): string {
    var a := if c != "" && c[0] == ':' then c[1..] else c;
    if a != "" && a[|a| - 1] == ':' then a[..|a| - 1] else a
  }

  /** `:?-{3,}:?`. */
  predicate DelimiterCell(c: string) {
    |Inner(c)| >= 3 && forall i :: 0 <= i < |Inner(c)| ==> Inner(c)[i] == '-'
  }

  /** `_is_delimiter_row`. */
  predicate IsDelimiter(line: string) {
    var cells := InnerCells(line);
    |cells| == 4 && forall i :: 0 <= i < 4 ==> DelimiterCell(cells[i])
  }

  function CountPipes(s: string): nat {
    if s == [] then 0 else (if s[0] == '|' then 1 else 0) + CountPipes(s[1..])
  }

  /** Whether `_data_rows([line])` keeps the line. */
  predicate IsDataRow(t: Text, line: string) {
    var cells := InnerCells(line);
    && "|" <= line && CountPipes(line) >= 5
    && |cells| == 4 && cells[0] != "" && t.lower(cells[0]) != "skill" && !("<skill name" <= t.lower(cells[0]))
    && !(forall i :: 0 <= i < 4 ==> cells[i] != "" && forall k :: 0 <= k < |cells[i]| ==> cells[i][k] in "- :")
  }

  /** `ROW_SOURCE_RE.match` on a stripped line without line breaks. */
  predicate IsRecord(stripped: string) {
    "<!--" <= stripped &&
    var rest := LStrip(stripped[4..]);
    "Row source:" <= rest &&
    var content := rest[11..];
    var end := FirstTerminator(content);
    end >= 0 && Blank(content[end + 3..])
  }

  predicate ArrowAt(s: string, i: int) {
    0 <= i && i + 3 <= |s| && s[i] == '-' && s[i + 1] == '-' && s[i + 2] == '>'
  }

  /** Where `-->` first occurs. */
  function FirstTerminator(s: string): (i: int)
    ensures i == -1 || ArrowAt(s, i)
    ensures forall k :: ArrowAt(s, k) ==> 0 <= i <= k
  {
    if |s| < 3 then -1
    else if ArrowAt(s, 0) then 0
    else
      var i := FirstTerminator(s[1..]);
      assert forall k :: k > 0 ==> ArrowAt(s, k) == ArrowAt(s[1..], k - 1);
      if i < 0 then -1 else i + 1
  }

  /** A lower-case pattern letter against a character, ignoring case as Python's `re` does. */
  predicate SameLetter(p: char, c: char) {
    || p == c
    || ('a' <= p <= 'z' && 'A' <= c <= 'Z' && (p as int) - 32 == c as int)
    || (p == 's' && c == '\U{17f}') || (p == 'k' && c == '\U{212a}')
    || (p == 'i' && (c == '\U{130}' || c == '\U{131}'))
  }

  const OWED_NOTE := "stage a (plan author) and stage b (plan auditor) rows are owed"

  /** The characters a pattern letter stands for: itself, its capital, and what Python folds into `s`, `k` and `i`. */
  lemma SameLetterMeans(p: char, c: char)
    ensures 'a' <= p <= 'z' && p != 's' && p != 'k' && p != 'i' ==> (SameLetter(p, c) <==> c == p || c == p - ' ')
    ensures !('a' <= p <= 'z') ==> (SameLetter(p, c) <==> c == p)
    ensures SameLetter('s', c) <==> c in "sS\U{17f}"
    ensures SameLetter('k', c) <==> c in "kK\U{212a}"
    ensures SameLetter('i', c) <==> c in "iI\U{130}\U{131}"
  {
  }

  predicate Like(p: string, s: string) {
    |p| == |s| && forall i :: 0 <= i < |p| ==> SameLetter(p[i], s[i])
  }

  lemma LikeAppends(p: string, s: string, q: string, t: string)
    requires Like(p, s) && Like(q, t)
    ensures Like(p + q, s + t)
  {
  }

  /** The note as it is published, with its capitals, is recognized, whatever follows it. */
  lemma OwedNoteIsRead(rest: string)
    ensures IsOwedNote("Stage A (plan author) and Stage B (plan auditor)" + (" rows are owed" + rest))
  {
    OwedNoteHead();
    OwedNoteText();
    hide SameLetter;
    LikePrefix("stage a (plan author) and stage b (plan auditor)", "Stage A (plan author) and Stage B (plan auditor)",
               " rows are owed", rest);
  }

  lemma OwedNoteText()
    ensures OWED_NOTE == "stage a (plan author) and stage b (plan auditor)" + " rows are owed"
  {
  }

  lemma LikePrefix(p: string, q: string, tail: string, rest: string)
    requires Like(p, q) && OWED_NOTE == p + tail
    ensures IsOwedNote(q + (tail + rest))
  {
    hide SameLetter;
    LikeItself(tail);
    LikeAppends(p, q, tail, tail);
    assert q + (tail + rest) == (q + tail) + rest;
  }

  lemma OwedNoteHead()
    ensures Like("stage a (plan author) and stage b (plan auditor)", "Stage A (plan author) and Stage B (plan auditor)")
  {
    hide Like;
    FirstStage();
    SecondStage();
    LikeBoth("stage a (plan author)", "Stage A (plan author)", "stage b (plan auditor)", "Stage B (plan auditor)");
    NoteText();
    NoteTextWithCapitals();
  }

  lemma NoteText()
    ensures "stage a (plan author)" + " and " + "stage b (plan auditor)" == "stage a (plan author) and stage b (plan auditor)"
  {
  }

  lemma NoteTextWithCapitals()
    ensures "Stage A (plan author)" + " and " + "Stage B (plan auditor)" == "Stage A (plan author) and Stage B (plan auditor)"
  {
  }

  lemma FirstStage()
    ensures Like("stage a (plan author)", "Stage A (plan author)")
  {
    assert Like("a", "A");
    hide Like;
    StageLike("a", "A", " (plan author)");
    FirstStageText();
  }

  lemma FirstStageText()
    ensures "stage " + "a" + " (plan author)" == "stage a (plan author)"
    ensures "Stage " + "A" + " (plan author)" == "Stage A (plan author)"
  {
  }

  lemma SecondStage()
    ensures Like("stage b (plan auditor)", "Stage B (plan auditor)")
  {
    assert Like("b", "B");
    hide Like;
    StageLike("b", "B", " (plan auditor)");
    SecondStageText();
  }

  lemma SecondStageText()
    ensures "stage " + "b" + " (plan auditor)" == "stage b (plan auditor)"
    ensures "Stage " + "B" + " (plan auditor)" == "Stage B (plan auditor)"
  {
  }

  lemma LikeBoth(p: string, q: string, r: string, t: string)
    requires Like(p, q) && Like(r, t)
    ensures Like(p + " and " + r, q + " and " + t)
  {
    hide SameLetter;
    LikeItself(" and ");
    LikeAppends(p, q, " and ", " and ");
    LikeAppends(p + " and ", q + " and ", r, t);
  }

  lemma LikeItself(s: string)
    ensures Like(s, s)
  {
  }

  lemma StageLike(letter: string, capital: string, rest: string)
    requires Like(letter, capital)
    ensures Like("stage " + letter + rest, "Stage " + capital + rest)
  {
    assert Like("stage ", "Stage ");
    LikeAppends("stage ", "Stage ", letter, capital);
    LikeItself(rest);
    LikeAppends("stage " + letter, "Stage " + capital, rest, rest);
  }

  /** `OWED_NOTE_RE.match`. */
  predicate IsOwedNote(stripped: string) {
    |OWED_NOTE| <= |stripped| && forall i :: 0 <= i < |OWED_NOTE| ==> SameLetter(OWED_NOTE[i], stripped[i])
  }

  /** The record search behind a table may pass over the line or take it. */
  predicate Attaches(line: string) {
    var stripped := Strip(line);
    stripped == "" || IsOwedNote(stripped) || IsRecord(stripped)
  }

  /** A data row starts with a pipe, so it ends the search for records. */
  lemma DataRowStops(t: Text, line: string)
    requires IsDataRow(t, line)
    ensures !Attaches(line)
  {
    VisiblePipe();
    hide PyText.IsSpace;
    assert line[0] == '|' && LStrip(line) == line;
    RStripSpec(line);
    StripSpec(line);
    assert Strip(line) != "" && Strip(line)[0] == '|';
    OwedNoteStart();
  }

  lemma OwedNoteStart()
    ensures |OWED_NOTE| > 0 && OWED_NOTE[0] == 's'
  {
    assert "stage a (plan author)"[0] == 's';
  }

  lemma VisiblePipe()
    ensures !IsSpace('|')
  {
  }

  // ----- a line that is both -----

  /** A record whose text is a row of cells: what stands before the first pipe and behind the last is no cell. */
  function RecordRow(titles: seq<string>): string {
    "<!--Row source:|" + JoinCells(titles + ["-->"])
  }

  /** Lower-case words, slashes and hyphens with single blanks between them. */
  predicate Tidy(s: string) {
    && s != [] && s[0] != ' ' && s[|s| - 1] != ' '
    && (forall i :: 0 <= i < |s| ==> 'a' <= s[i] <= 'z' || s[i] in "/- ")
    && (forall i :: 0 <= i < |s| - 1 && s[i] == ' ' ==> s[i + 1] != ' ')
  }

  lemma OnlyBlanks(c: char)
    requires 'a' <= c <= 'z' || c in "/- "
    ensures IsSpace(c) <==> c == ' '
  {
  }

  lemma AlreadyStripped(s: string)
    requires s != [] && !IsSpace(s[0]) && !IsSpace(s[|s| - 1])
    ensures Strip(s) == s
  {
    hide PyText.IsSpace;
  }

  lemma {:induction false} AlreadyCollapsed(s: string)
    requires forall i :: 0 <= i < |s| && IsSpace(s[i]) ==> s[i] == ' ' && (i + 1 < |s| ==> !IsSpace(s[i + 1]))
    ensures Collapse(s) == s
  {
    hide PyText.IsSpace;
    if |s| >= 2 {
      AlreadyCollapsed(s[1..]);
      assert [s[0]] + s[1..] == s;
    }
  }

  lemma TidyMeans(s: string)
    requires Tidy(s)
    ensures Guarded(s, true) && Strip(s) == s && Collapse(s) == s && '>' !in s
  {
    hide PyText.IsSpace;
    forall i | 0 <= i < |s| ensures IsSpace(s[i]) <==> s[i] == ' ' {
      OnlyBlanks(s[i]);
    }
    PlainGuarded(s);
    AlreadyStripped(s);
    AlreadyCollapsed(s);
  }

  lemma TitlesAreTidy()
    ensures Tidy("skill") && Tidy("stage / agent") && Tidy("how applied") && Tidy("result / evidence")
  {
    assert Tidy("skill");
    assert Tidy("stage / agent");
    assert Tidy("how applied");
    assert Tidy("result / evidence");
  }

  /** One and the same line can be a Row source record and the header of a skills table. */
  lemma RecordMayBeHeader(t: Text)
    requires forall c :: c in ["skill", "stage / agent", "how applied", "result / evidence"] ==> t.lower(c) == c
    ensures var line := RecordRow(["skill", "stage / agent", "how applied", "result / evidence"]);
            IsRecord(Strip(line)) && IsHeader(t, line)
  {
    hide Tidy, RecordRow, IsRecord, PyText.Strip, Collapse;
    var titles := ["skill", "stage / agent", "how applied", "result / evidence"];
    TitlesAreTidy();
    RecordRowIsRecord(titles);
    InnerCellsOfRecordRow(titles);
    forall i | 0 <= i < 4 ensures t.lower(titles[i]) == titles[i] && Strip(titles[i]) == titles[i] == Collapse(titles[i]) {
      assert titles[i] in titles;
      TidyMeans(titles[i]);
    }
  }

  /** And one and the same line can be a Row source record and the delimiter line. */
  lemma RecordMayBeDelimiter()
    ensures var line := RecordRow(["---", "---", "---", "---"]); IsRecord(Strip(line)) && IsDelimiter(line)
  {
    hide RecordRow, IsRecord, PyText.Strip;
    var cells := ["---", "---", "---", "---"];
    assert Tidy("---") && DelimiterCell("---");
    hide Tidy;
    RecordRowIsRecord(cells);
    InnerCellsOfRecordRow(cells);
  }

  lemma RecordRowIsRecord(titles: seq<string>)
    requires titles != [] && forall i :: 0 <= i < |titles| ==> Tidy(titles[i])
    ensures IsRecord(Strip(RecordRow(titles)))
  {
    hide Tidy, JoinCells, IsRecord, PyText.Strip;
    var body := "|" + JoinCells(titles) + "|";
    JoinLast(titles, "-->");
    assert RecordRow(titles) == "<!--Row source:" + body + "-->";
    forall i | 0 <= i < |titles| ensures '>' !in titles[i] {
      TidyMeans(titles[i]);
    }
    JoinedWithout(titles, '>');
    RecordOf(body);
  }

  lemma InnerCellsOfRecordRow(titles: seq<string>)
    requires titles != [] && forall i :: 0 <= i < |titles| ==> Tidy(titles[i])
    ensures InnerCells(RecordRow(titles)) == titles
  {
    hide Tidy, JoinCells, Guarded, Cells, PyText.Strip, Collapse;
    var inner := titles + ["-->"];
    forall i | 0 <= i < |titles| ensures Guarded(titles[i], true) && Strip(titles[i]) == titles[i] {
      TidyMeans(titles[i]);
    }
    PlainGuarded("<!--Row source:");
    PlainGuarded("-->");
    GuardedWeaker("-->");
    JoinThenSplit(inner);
    FirstCell("<!--Row source:", JoinCells(inner));
    assert RecordRow(titles) == "<!--Row source:" + "|" + JoinCells(inner);
  }

  lemma {:induction false} JoinedWithout(cells: seq<string>, c: char)
    requires cells != [] && c != '|' && forall i :: 0 <= i < |cells| ==> c !in cells[i]
    ensures c !in JoinCells(cells)
  {
    if |cells| > 1 {
      JoinedWithout(cells[1..], c);
    }
  }

  lemma {:induction false} JoinLast(cells: seq<string>, last: string)
    requires cells != []
    ensures JoinCells(cells + [last]) == JoinCells(cells) + "|" + last
  {
    if |cells| == 1 {
      assert (cells + [last])[1..] == [last];
    } else {
      assert (cells + [last])[1..] == cells[1..] + [last];
      JoinLast(cells[1..], last);
    }
  }

  lemma RecordOf(body: string)
    requires '>' !in body
    ensures IsRecord(Strip("<!--Row source:" + body + "-->"))
  {
    var line, content := "<!--Row source:" + body + "-->", body + "-->";
    AlreadyStripped(line);
    assert line == "<!--" + "Row source:" + content;
    assert line[4..] == "Row source:" + content;
    assert LStrip(line[4..]) == line[4..];
    assert ("Row source:" + content)[11..] == content;
    assert ArrowAt(content, |body|);
    assert forall i :: 0 <= i < |body| ==> content[i] in body;
    assert content[|body| + 1] == '-';
    assert FirstTerminator(content) == |body|;
  }

  // ----- which lines are headers, delimiters, data rows and records -----

  /** A table line: the cells with a pipe before, between and behind them. */
  function RowLine(cells: seq<string>): string {
    JoinCells([""] + cells + [""])
  }

  lemma RowLineCells(cells: seq<string>)
    requires cells != [] && forall i :: 0 <= i < |cells| ==> Guarded(cells[i], true) && Strip(cells[i]) == cells[i]
    ensures InnerCells(RowLine(cells)) == cells
  {
    hide Guarded, PyText.Strip, Cells, JoinCells;
    var all := [""] + cells + [""];
    EmptyIsGuarded();
    JoinThenSplit(all);
  }

  lemma EmptyIsGuarded()
    ensures Guarded("", true) && Guarded("", false) && Strip("") == ""
  {
  }

  /** Of the lines written from lower-case cells exactly one is a header: four cells, with the documented titles. */
  lemma HeaderIff(t: Text, cells: seq<string>)
    requires cells != [] && forall i :: 0 <= i < |cells| ==> Tidy(cells[i]) && t.lower(cells[i]) == cells[i]
    ensures IsHeader(t, RowLine(cells)) <==> cells == ["skill", "stage / agent", "how applied", "result / evidence"]
  {
    hide Tidy, RowLine, PyText.Strip, Collapse, Guarded;
    forall i | 0 <= i < |cells| ensures Guarded(cells[i], true) && Strip(cells[i]) == cells[i] == Collapse(cells[i]) {
      TidyMeans(cells[i]);
    }
    RowLineCells(cells);
  }

  /** A line written from trimmed cells is a delimiter exactly when they are four, each of hyphens with optional colons. */
  lemma DelimiterIff(cells: seq<string>)
    requires cells != [] && forall i :: 0 <= i < |cells| ==> Guarded(cells[i], true) && Strip(cells[i]) == cells[i]
    ensures IsDelimiter(RowLine(cells)) <==>
              && |cells| == 4 && DelimiterCell(cells[0]) && DelimiterCell(cells[1]) && DelimiterCell(cells[2])
              && DelimiterCell(cells[3])
  {
    hide Guarded, PyText.Strip, InnerCells, RowLine, DelimiterCell;
    RowLineCells(cells);
  }

  /** Words are joined by single blanks, whatever white space stood between them. */
  lemma {:induction false} CollapseJoinsWords(word: string, gap: string, rest: string)
    requires word != "" && gap != "" && rest != "" && !IsSpace(rest[0])
    requires (forall i :: 0 <= i < |word| ==> !IsSpace(word[i])) && Blank(gap)
    ensures Collapse(word + gap + rest) == word + " " + Collapse(rest)
  {
    hide PyText.IsSpace;
    var s := word + gap + rest;
    if |word| > 1 {
      assert s[1..] == word[1..] + gap + rest && s[0] == word[0] && s[1] == word[1];
      CollapseJoinsWords(word[1..], gap, rest);
      assert [word[0]] + (word[1..] + " " + Collapse(rest)) == word + " " + Collapse(rest);
    } else {
      assert s[1..] == gap + rest && s[0] == word[0] && s[1] == gap[0];
      CollapseGap(gap, rest);
      assert [word[0]] + (" " + Collapse(rest)) == word + " " + Collapse(rest);
    }
  }

  lemma {:induction false} CollapseGap(gap: string, rest: string)
    requires gap != "" && Blank(gap) && rest != "" && !IsSpace(rest[0])
    ensures Collapse(gap + rest) == " " + Collapse(rest)
  {
    hide PyText.IsSpace;
    var s := gap + rest;
    assert s[1..] == gap[1..] + rest && s[0] == gap[0];
    if |gap| > 1 {
      assert s[1] == gap[1];
      CollapseGap(gap[1..], rest);
    } else {
      assert s[1] == rest[0] && gap[1..] + rest == rest;
    }
  }

  lemma {:induction false} CountPipesMeans(s: string)
    ensures CountPipes(s) == multiset(s)['|']
  {
    if s != [] {
      assert s == [s[0]] + s[1..];
      CountPipesMeans(s[1..]);
    }
  }

  lemma {:induction false} PipesBetween(cells: seq<string>)
    requires cells != []
    ensures CountPipes(JoinCells(cells)) >= |cells| - 1
  {
    CountPipesMeans(JoinCells(cells));
    if |cells| > 1 {
      PipesBetween(cells[1..]);
      CountPipesMeans(JoinCells(cells[1..]));
      assert JoinCells(cells) == cells[0] + "|" + JoinCells(cells[1..]);
    }
  }

  /** A cell of hyphens, blanks and colons, not empty. */
  ghost predicate Rule(cell: string) {
    cell != "" && forall c :: c in cell ==> c == '-' || c == ' ' || c == ':'
  }

  /**
    A line written from trimmed cells is a data row exactly when they are four, the first is
    neither empty nor the title nor the template's placeholder, and they are not all rules.
   */
  lemma DataRowIff(t: Text, cells: seq<string>)
    requires cells != [] && forall i :: 0 <= i < |cells| ==> Guarded(cells[i], true) && Strip(cells[i]) == cells[i]
    ensures IsDataRow(t, RowLine(cells)) <==>
              && |cells| == 4 && cells[0] != "" && t.lower(cells[0]) != "skill"
              && !(|t.lower(cells[0])| >= 11 && t.lower(cells[0])[..11] == "<skill name")
              && !(Rule(cells[0]) && Rule(cells[1]) && Rule(cells[2]) && Rule(cells[3]))
  {
    hide Guarded, PyText.Strip, InnerCells;
    RowLineCells(cells);
    var all := [""] + cells + [""];
    PipesBetween(all);
    assert all[1..] == cells + [""] && RowLine(cells) == "" + "|" + JoinCells(all[1..]);
    hide RowLine, JoinCells;
    assert "|" <= RowLine(cells);
    assert |"<skill name"| == 11;
    forall i | 0 <= i < |cells|
      ensures Rule(cells[i]) <==> cells[i] != "" && forall k :: 0 <= k < |cells[i]| ==> cells[i][k] in "- :"
    {
      RuleIs(cells[i]);
    }
  }

  lemma RuleIs(cell: string)
    ensures Rule(cell) <==> cell != "" && forall k :: 0 <= k < |cell| ==> cell[k] in "- :"
  {
    assert forall k :: 0 <= k < |cell| ==> cell[k] in cell;
  }

  /** Whatever its cells, a data row starts with a pipe and has at least five. */
  lemma DataRowShape(t: Text, line: string)
    requires IsDataRow(t, line)
    ensures line != "" && line[0] == '|' && multiset(line)['|'] >= 5
  {
    CountPipesMeans(line);
  }

  function Dashes(n: nat): (s: string)
    ensures |s| == n && forall i :: 0 <= i < n ==> s[i] == '-'
  {
    seq(n, _ => '-')
  }

  ghost predicate RuleOf(c: string, a: string, n: nat, b: string) {
    n >= 3 && (a == "" || a == ":") && (b == "" || b == ":") && c == a + Dashes(n) + b
  }

  lemma RuleIsDelimiter(a: string, n: nat, b: string)
    requires n >= 3 && (a == "" || a == ":") && (b == "" || b == ":")
    ensures DelimiterCell(a + Dashes(n) + b)
  {
    var c, dashes := a + Dashes(n) + b, Dashes(n);
    if a == ":" {
      assert c[0] == ':' && c[1..] == dashes + b;
    } else {
      assert c == dashes + b;
      assert c[0] == dashes[0];
    }
    var x := dashes + b;
    if b == ":" {
      assert x[|x| - 1] == ':' && x[..|x| - 1] == dashes;
    } else {
      assert x == dashes;
      assert dashes[n - 1] == '-';
    }
  }

  lemma InnerSplits(c: string) returns (a: string, b: string)
    ensures c == a + Inner(c) + b && (a == "" || a == ":") && (b == "" || b == ":")
  {
    var x := if c != "" && c[0] == ':' then c[1..] else c;
    a := if c != "" && c[0] == ':' then ":" else "";
    b := if x != "" && x[|x| - 1] == ':' then ":" else "";
    assert x == Inner(c) + b && c == a + x;
    assert a + (Inner(c) + b) == a + Inner(c) + b;
  }

  /** A delimiter cell is at least three hyphens with an optional colon at either end. */
  lemma DelimiterCellIff(c: string)
    ensures DelimiterCell(c) <==> exists a, n: nat, b :: RuleOf(c, a, n, b)
  {
    if DelimiterCell(c) {
      var a, b := InnerSplits(c);
      assert Inner(c) == Dashes(|Inner(c)|);
      assert RuleOf(c, a, |Inner(c)|, b);
    }
    if a, n: nat, b :| RuleOf(c, a, n, b) {
      RuleIsDelimiter(a, n, b);
    }
  }

  ghost predicate RecordParts(line: string, gap: string, body: string, tail: string) {
    && line == "<!--" + gap + "Row source:" + body + "-->" + tail
    && Blank(gap) && Blank(tail) && forall i :: !ArrowAt(body + "-->", i) || i == |body|
  }

  /** A record is a comment that begins with `Row source:` and whose first `-->` ends the line, white space aside. */
  lemma RecordIff(line: string)
    ensures IsRecord(line) <==> exists gap, body, tail :: RecordParts(line, gap, body, tail)
  {
    hide IsRecord, RecordParts;
    if IsRecord(line) {
      RecordPartsFound(line);
    }
    if gap, body, tail :| RecordParts(line, gap, body, tail) {
      RecordPartsRead(line, gap, body, tail);
    }
  }

  lemma PrefixSplits(p: string, s: string)
    requires p <= s
    ensures s == p + s[|p|..]
  {
  }

  lemma RecordUnfolds(line: string)
    requires IsRecord(line)
    ensures "<!--" <= line && "Row source:" <= LStrip(line[|"<!--"|..])
    ensures var content := LStrip(line[|"<!--"|..])[|"Row source:"|..];
            FirstTerminator(content) >= 0 && Blank(content[FirstTerminator(content) + 3..])
  {
    hide PyText.IsSpace, PyText.LStrip, PyText.Blank, FirstTerminator;
  }

  /** The text behind two prefixes, the second behind white space. */
  lemma Unwraps(open: string, title: string, line: string)
    requires open <= line && title <= LStrip(line[|open|..])
    ensures var after := line[|open|..];
            var rest := LStrip(after);
            && |rest| <= |after| && Blank(after[..|after| - |rest|])
            && line == open + (after[..|after| - |rest|] + (title + rest[|title|..]))
  {
    hide PyText.IsSpace, PyText.LStrip, PyText.Blank;
    PrefixSplits(open, line);
    LStripSpec(line[|open|..]);
    PrefixSplits(title, LStrip(line[|open|..]));
  }

  lemma RecordPartsFound(line: string)
    requires IsRecord(line)
    ensures exists gap, body, tail :: RecordParts(line, gap, body, tail)
  {
    RecordUnfolds(line);
    hide IsRecord, PyText.IsSpace, PyText.LStrip, PyText.Blank, FirstTerminator, RecordParts;
    Unwraps("<!--", "Row source:", line);
    var after := line[|"<!--"|..];
    var rest := LStrip(after);
    var content := rest[|"Row source:"|..];
    var end := FirstTerminator(content);
    ContentSplits(content, end);
    hide ArrowAt;
    RecordOfPieces(line, after[..|after| - |rest|], content[..end], content[end + 3..]);
  }

  lemma RecordOfPieces(line: string, gap: string, body: string, tail: string)
    requires line == "<!--" + (gap + ("Row source:" + (body + "-->" + tail))) && Blank(gap) && Blank(tail)
    requires forall i :: ArrowAt(body + "-->", i) ==> i == |body|
    ensures RecordParts(line, gap, body, tail)
  {
    hide ArrowAt, PyText.IsSpace;
    Nest("<!--", gap, "Row source:", body, "-->", tail);
    assert RecordParts(line, gap, body, tail);
  }

  lemma ContentSplits(content: string, end: nat)
    requires ArrowAt(content, end) && forall k :: ArrowAt(content, k) ==> end <= k
    ensures content == content[..end] + "-->" + content[end + 3..]
    ensures forall i :: ArrowAt(content[..end] + "-->", i) ==> i == end
  {
    var head := content[..end] + "-->";
    assert forall i :: 0 <= i < |head| ==> head[i] == content[i];
    forall i | ArrowAt(head, i) ensures i == end {
      assert ArrowAt(content, i);
    }
  }

  lemma Nest(a: string, b: string, c: string, d: string, e: string, f: string)
    ensures a + b + c + d + e + f == a + (b + (c + (d + e + f)))
  {
  }

  lemma RecordPartsRead(line: string, gap: string, body: string, tail: string)
    requires RecordParts(line, gap, body, tail)
    ensures IsRecord(line)
  {
    assert !IsSpace('R');
    hide PyText.IsSpace;
    var content := body + "-->" + tail;
    var rest := "Row source:" + content;
    assert line == "<!--" + (gap + rest);
    assert line[4..] == gap + rest;
    LStripBlank(gap, rest);
    assert rest[11..] == content;
    assert ArrowAt(content, |body|);
    forall i | 0 <= i < |body| ensures !ArrowAt(content, i) {
      assert ArrowAt(content, i) ==> ArrowAt(body + "-->", i);
    }
    assert FirstTerminator(content) == |body|;
    assert content[|body| + 3..] == tail;
  }

  lemma {:induction false} LStripBlank(gap: string, rest: string)
    requires Blank(gap) && rest != "" && !IsSpace(rest[0])
    ensures LStrip(gap + rest) == rest
  {
    hide PyText.IsSpace;
    if gap == "" {
      assert gap + rest == rest;
    } else {
      assert (gap + rest)[1..] == gap[1..] + rest;
      LStripBlank(gap[1..], rest);
    }
  }

  // ----- tables -----

  /** A table and the half-open interval of lines it occupies. */
  datatype Table = Table(rows: seq<string>, start: nat, end: nat)

  predicate HeaderAt(t: Text, lines: seq<string>, i: int) {
    0 <= i && i + 1 < |lines| && IsHeader(t, lines[i]) && IsDelimiter(lines[i + 1])
  }

  /** Header, delimiter and then every data row there is. */
  ghost predicate IsTable(t: Text, lines: seq<string>, table: Table) {
    && HeaderAt(t, lines, table.start)
    && table.start + 2 <= table.end <= |lines|
    && table.rows == lines[table.start + 2..table.end]
    && (forall j :: table.start + 2 <= j < table.end ==> IsDataRow(t, lines[j]))
    && (table.end < |lines| ==> !IsDataRow(t, lines[table.end]))
  }

  ghost predicate Within(tables: seq<Table>, i: int) {
    exists k :: 0 <= k < |tables| && tables[k].start <= i < tables[k].end
  }

  /** The tables below `upto`: real, ordered, disjoint, and none missed. */
  ghost predicate AreTables(t: Text, lines: seq<string>, tables: seq<Table>, upto: int) {
    && (forall k :: 0 <= k < |tables| ==> IsTable(t, lines, tables[k]) && tables[k].end <= upto)
    && (forall k, l :: 0 <= k < l < |tables| ==> tables[k].end <= tables[l].start)
    && (forall i {:trigger Within(tables, i)} :: 0 <= i < upto && HeaderAt(t, lines, i) ==> Within(tables, i))
  }

  /** `_tables`. */
  method FindTables(t: Text, lines: seq<string>) returns (tables: seq<Table>)
    ensures AreTables(t, lines, tables, |lines|)
  {
    hide IsHeader, IsDelimiter, IsDataRow, AreTables;
    tables := [];
    NoTables(t, lines);
    var i := 0;
    while i < |lines|
      invariant 0 <= i <= |lines|
      invariant AreTables(t, lines, tables, i)
    {
      if IsHeader(t, lines[i]) && i + 1 < |lines| && IsDelimiter(lines[i + 1]) {
        var rows: seq<string> := [];
        var j := i + 2;
        while j < |lines| && IsDataRow(t, lines[j])
          invariant i + 2 <= j <= |lines|
          invariant rows == lines[i + 2..j]
          invariant forall k :: i + 2 <= k < j ==> IsDataRow(t, lines[k])
        {
          rows := rows + [lines[j]];
          j := j + 1;
        }
        assert IsTable(t, lines, Table(rows, i, j));
        TableAdded(t, lines, tables, Table(rows, i, j));
        tables := tables + [Table(rows, i, j)];
        i := j;
      } else {
        NoTableHere(t, lines, tables, i);
        i := i + 1;
      }
    }
  }

  lemma NoTables(t: Text, lines: seq<string>)
    ensures AreTables(t, lines, [], 0)
  {
  }

  lemma NoTableHere(t: Text, lines: seq<string>, tables: seq<Table>, i: nat)
    requires AreTables(t, lines, tables, i) && !HeaderAt(t, lines, i)
    ensures AreTables(t, lines, tables, i + 1)
  {
    hide HeaderAt, IsTable;
  }

  lemma TableAdded(t: Text, lines: seq<string>, tables: seq<Table>, table: Table)
    requires AreTables(t, lines, tables, table.start) && IsTable(t, lines, table)
    ensures AreTables(t, lines, tables + [table], table.end)
  {
    hide IsHeader, IsDelimiter, IsDataRow;
    var more := tables + [table];
    assert more[|tables|] == table && forall k :: 0 <= k < |tables| ==> more[k] == tables[k];
    forall i | 0 <= i < table.end && HeaderAt(t, lines, i) ensures Within(more, i) {
      if i < table.start {
        assert Within(tables, i);
        var k :| 0 <= k < |tables| && tables[k].start <= i < tables[k].end;
        assert more[k].start <= i < more[k].end;
      } else {
        assert more[|tables|].start <= i < more[|tables|].end;
      }
    }
  }

  /** Which lines are tables is determined by the lines. */
  lemma {:induction false} TablesUnique(t: Text, lines: seq<string>, a: seq<Table>, b: seq<Table>, n: nat)
    requires AreTables(t, lines, a, |lines|) && AreTables(t, lines, b, |lines|)
    requires n <= |a|
    ensures n <= |b| && a[..n] == b[..n]
  {
    hide AreTables;
    if n > 0 {
      TablesUnique(t, lines, a, b, n - 1);
      StartsAgree(t, lines, a, b, n - 1);
      assert a[..n] == a[..n - 1] + [a[n - 1]] && b[..n] == b[..n - 1] + [b[n - 1]];
    }
  }

  /** Any two complete lists of tables of the same lines are equal. */
  lemma TableListUnique(t: Text, lines: seq<string>, a: seq<Table>, b: seq<Table>)
    requires AreTables(t, lines, a, |lines|) && AreTables(t, lines, b, |lines|)
    ensures a == b
  {
    TablesUnique(t, lines, a, b, |a|);
    TablesUnique(t, lines, b, a, |b|);
    assert a[..|a|] == a && b[..|b|] == b;
  }

  lemma StartsAgree(t: Text, lines: seq<string>, a: seq<Table>, b: seq<Table>, n: nat)
    requires AreTables(t, lines, a, |lines|) && AreTables(t, lines, b, |lines|)
    requires n < |a| && n <= |b| && a[..n] == b[..n]
    ensures n < |b| && a[n] == b[n]
  {
    hide HeaderAt, IsDataRow;
    NextTable(t, lines, a, b, n);
    assert b[..n] == a[..n];
    NextTable(t, lines, b, a, n);
    SameStartSameTable(t, lines, a[n], b[n]);
  }

  lemma HeaderInside(t: Text, lines: seq<string>, tables: seq<Table>, i: nat) returns (k: nat)
    requires AreTables(t, lines, tables, |lines|) && HeaderAt(t, lines, i)
    ensures k < |tables| && tables[k].start <= i < tables[k].end
  {
    assert Within(tables, i);
    k :| 0 <= k < |tables| && tables[k].start <= i < tables[k].end;
  }

  lemma TablesInOrder(t: Text, lines: seq<string>, tables: seq<Table>, k: nat, l: nat)
    requires AreTables(t, lines, tables, |lines|) && k <= l < |tables|
    ensures IsTable(t, lines, tables[k])
    ensures k < l ==> tables[k].end <= tables[l].start
  {
  }

  /** The next table of `b` starts no later than the next table of `a`. */
  lemma NextTable(t: Text, lines: seq<string>, a: seq<Table>, b: seq<Table>, n: nat)
    requires AreTables(t, lines, a, |lines|) && AreTables(t, lines, b, |lines|)
    requires n < |a| && n <= |b| && a[..n] == b[..n]
    ensures n < |b| && b[n].start <= a[n].start
  {
    hide HeaderAt, IsDataRow, AreTables;
    TablesInOrder(t, lines, a, n, n);
    var k := HeaderInside(t, lines, b, a[n].start);
    if k < n {
      TablesInOrder(t, lines, a, k, n);
      SharedPrefix(a, b, n, k);
    } else if n < k {
      TablesInOrder(t, lines, b, n, k);
    }
  }

  lemma SharedPrefix(a: seq<Table>, b: seq<Table>, n: nat, k: nat)
    requires k < n <= |a| && n <= |b| && a[..n] == b[..n]
    ensures a[k] == b[k]
  {
    assert a[k] == a[..n][k] && b[k] == b[..n][k];
  }

  lemma SameStartSameTable(t: Text, lines: seq<string>, x: Table, y: Table)
    requires IsTable(t, lines, x) && IsTable(t, lines, y) && x.start == y.start
    ensures x == y
  {
    hide HeaderAt, IsDataRow;
    assert x.end < |lines| ==> !IsDataRow(t, lines[x.end]);
    assert y.end < |lines| ==> !IsDataRow(t, lines[y.end]);
  }

  // ----- records -----

  /** Where the search for records behind line `from` stops. */
  function RegionEnd(lines: seq<string>, from: nat): (end: nat)
    requires from <= |lines|
    ensures from <= end <= |lines|
    ensures forall i :: from <= i < end ==> Attaches(lines[i])
    ensures end < |lines| ==> !Attaches(lines[end])
    decreases |lines| - from
  {
    if from < |lines| && Attaches(lines[from]) then RegionEnd(lines, from + 1) else from
  }

  /** The line is a record the search takes; the owed note is looked for first. */
  predicate TakenRecord(line: string) {
    var stripped := Strip(line);
    stripped != "" && !IsOwedNote(stripped) && IsRecord(stripped)
  }

  /** The record lines credited to a table that ends at `from`. */
  ghost function Credited(lines: seq<string>, from: nat): set<int>
    requires from <= |lines|
  {
    set i | from <= i < RegionEnd(lines, from) && TakenRecord(lines[i])
  }

  /** The row tokens of the records from line `from` up to line `end`. */
  function Tokens(t: Text, lines: seq<string>, from: nat, end: nat): (tokens: seq<string>)
    requires from <= end <= |lines|
    decreases end - from
  {
    if from == end then []
    else Tokens(t, lines, from, end - 1) + (if TakenRecord(lines[end - 1]) then [t.rowToken(lines[end - 1])] else [])
  }

  /** The loop that collects a table's tokens. */
  method CollectTokens(t: Text, lines: seq<string>, from: nat) returns (tokens: seq<string>)
    requires from <= |lines|
    ensures tokens == Tokens(t, lines, from, RegionEnd(lines, from))
  {
    hide IsRecord, IsOwedNote, PyText.Strip;
    tokens := [];
    var idx := from;
    while idx < |lines|
      invariant from <= idx <= |lines|
      invariant RegionEnd(lines, idx) == RegionEnd(lines, from)
      invariant tokens == Tokens(t, lines, from, idx)
    {
      var stripped := Strip(lines[idx]);
      if stripped == "" {
        idx := idx + 1;
        continue;
      }
      if IsOwedNote(stripped) {
        idx := idx + 1;
        continue;
      }
      if IsRecord(stripped) {
        tokens := tokens + [t.rowToken(lines[idx])];
        idx := idx + 1;
        continue;
      }
      break;
    }
  }

  /** Of two tables with data rows, the first one's search ends before the second one's rows. */
  lemma RegionsApart(t: Text, lines: seq<string>, tables: seq<Table>, k: nat, l: nat)
    requires AreTables(t, lines, tables, |lines|) && k < l < |tables| && tables[l].rows != []
    ensures RegionEnd(lines, tables[k].end) <= tables[l].start + 2 < tables[l].end
  {
    hide IsHeader, IsDelimiter, IsDataRow, Attaches;
    assert IsTable(t, lines, tables[l]) && IsTable(t, lines, tables[k]);
    assert IsDataRow(t, lines[tables[l].start + 2]);
    DataRowStops(t, lines[tables[l].start + 2]);
  }

  /** No Row source record is credited to two tables. */
  lemma NoRecordCreditedTwice(t: Text, lines: seq<string>, tables: seq<Table>, k: nat, l: nat)
    requires AreTables(t, lines, tables, |lines|) && k < l < |tables|
    requires tables[k].rows != [] && tables[l].rows != []
    ensures Credited(lines, tables[k].end) !! Credited(lines, tables[l].end)
  {
    RegionsApart(t, lines, tables, k, l);
  }

  // ----- the failures -----

  datatype Failure =
    | NoRecord(block: nat, rows: nat)
    | BadRecord(error: RowCoverage.Error)
    | TooFewRows(block: nat, named: nat, rows: nat)

  /** The table has records of its own, they are in order, and they name enough source rows. */
  ghost predicate Covered(t: Text, lines: seq<string>, table: Table)
    requires table.end <= |lines|
  {
    var tokens := Tokens(t, lines, table.end, RegionEnd(lines, table.end));
    var parts := RowCoverage.AllParts(t.parseInt, tokens);
    tokens != [] && RowCoverage.Acceptable(parts) && RowCoverage.TotalSize(parts) >= |table.rows|
  }

  /** A covered table's own records name at least as many distinct source rows as it publishes. */
  lemma CoveredNamesEnough(t: Text, lines: seq<string>, table: Table)
    requires table.end <= |lines| && Covered(t, lines, table)
    ensures var parts := RowCoverage.AllParts(t.parseInt, Tokens(t, lines, table.end, RegionEnd(lines, table.end)));
            |RowCoverage.NamedOrdinals(parts)| + |RowCoverage.NamedLocators(parts)| >= |table.rows|
  {
    hide RowCoverage.AllParts, Tokens, RegionEnd;
    RowCoverage.CountFromSets(RowCoverage.AllParts(t.parseInt, Tokens(t, lines, table.end, RegionEnd(lines, table.end))));
  }

  ghost function TokensOf(t: Text, lines: seq<string>, table: Table): seq<string>
    requires table.end <= |lines|
  {
    Tokens(t, lines, table.end, RegionEnd(lines, table.end))
  }

  /** How many distinct source rows the accepted parts of some tokens name. */
  ghost function NamedBy(t: Text, tokens: seq<string>): nat {
    var accepted := RowCoverage.Accepted(RowCoverage.AllParts(t.parseInt, tokens));
    |RowCoverage.NamedOrdinals(accepted)| + |RowCoverage.NamedLocators(accepted)|
  }

  /** The failures of table number `block`: no record at all, or each error of its records and too few rows named. */
  ghost function FailuresOf(t: Text, lines: seq<string>, table: Table, block: nat): seq<Failure>
    requires table.end <= |lines|
  {
    var tokens := TokensOf(t, lines, table);
    var errors := RowCoverage.TakeAll(RowCoverage.AllParts(t.parseInt, tokens)).errors;
    if tokens == [] then [NoRecord(block, |table.rows|)]
    else
      seq(|errors|, e requires 0 <= e < |errors| => BadRecord(errors[e]))
      + (if NamedBy(t, tokens) < |table.rows| then [TooFewRows(block, NamedBy(t, tokens), |table.rows|)] else [])
  }

  /** Those of all tables that publish rows, in order; tables are counted from 1. */
  ghost function AllFailures(t: Text, lines: seq<string>, tables: seq<Table>): seq<Failure>
    requires forall k :: 0 <= k < |tables| ==> tables[k].end <= |lines|
  {
    if tables == [] then []
    else
      var n := |tables| - 1;
      AllFailures(t, lines, tables[..n]) + (if tables[n].rows == [] then [] else FailuresOf(t, lines, tables[n], n + 1))
  }

  /** The failures of one table that publishes rows. */
  method TableFailures(t: Text, lines: seq<string>, table: Table, block: nat) returns (failures: seq<Failure>)
    requires table.end <= |lines| && table.rows != []
    ensures failures == [] <==> Covered(t, lines, table)
    ensures failures == FailuresOf(t, lines, table, block)
  {
    hide RegionEnd, RowCoverage.AllParts, RowCoverage.Acceptable, RowCoverage.TotalSize, Tokens, RowCoverage.TakeAll,
      RowCoverage.Accepted, RowCoverage.NamedOrdinals, RowCoverage.NamedLocators;
    var tokens := CollectTokens(t, lines, table.end);
    if tokens == [] {
      return [NoRecord(block, |table.rows|)];
    }
    var total, errors := RowCoverage.BlockRowCoverage(t.parseInt, tokens);
    failures := seq(|errors|, e requires 0 <= e < |errors| => BadRecord(errors[e]));
    assert failures + [] == failures;
    assert errors != [] ==> failures[0] == BadRecord(errors[0]);
    if total < |table.rows| {
      failures := failures + [TooFewRows(block, total, |table.rows|)];
    }
  }

  /** `_skills_field_failures`: no failure exactly when every table that publishes rows is covered. */
  method SkillsFieldFailures(t: Text, lines: seq<string>) returns (failures: seq<Failure>)
    ensures exists tables: seq<Table> ::
              && AreTables(t, lines, tables, |lines|)
              && (failures == [] <==> forall k :: 0 <= k < |tables| && tables[k].rows != [] ==> Covered(t, lines, tables[k]))
              && failures == AllFailures(t, lines, tables)
  {
    hide IsTable, Covered, FailuresOf;
    var tables := FindTables(t, lines);
    failures := [];
    for b := 0 to |tables|
      invariant failures == [] <==> forall k :: 0 <= k < b && tables[k].rows != [] ==> Covered(t, lines, tables[k])
      invariant failures == AllFailures(t, lines, tables[..b])
    {
      assert tables[..b + 1][..b] == tables[..b];
      if tables[b].rows != [] {
        var more := TableFailures(t, lines, tables[b], b + 1);
        failures := failures + more;
      }
    }
    assert tables[..|tables|] == tables;
  }
}
