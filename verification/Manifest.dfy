/**
  The retained manifest of scripts/verify_consumer_live.py: printing it, parsing it back, and
  the verdict that compares it with what the site serves.

  The digest and Python's tables of digits beyond ASCII are parameters; served files and the fetched
  responses are inputs.
 */
module Manifest {
  import opened Options
  import opened PyText
  import opened NameOrder

  datatype ManifestError =
    | Bom | CarriageReturn | Encoding | CommentCount | CommentFormat | RowCount
    | RowFields | RowName | RowDuplicate | RowCounts | RowSha

  /** `ValueError` is the exception `int(...)` raises; nothing in the script catches it. */
  datatype Result<+T> = Ok(value: T) | Error(error: ManifestError) | ValueError

  datatype Row = Row(name: string, nbytes: nat, nlf: nat, sha256: string)

  datatype Parsed = Parsed(rows: seq<Row>, aggBytes: nat, aggSha: string)

  /** The file's bytes, decoded where they are UTF-8. */
  datatype Raw = NotUtf8(bom: bool, cr: bool) | Utf8Text(text: string)

  const BOM: char := '\U{feff}'

  function NameOf(r: Row): string { r.name }

  function Names(rows: seq<Row>): set<string> {
    set r | r in rows :: r.name
  }

  predicate IsSha(s: string) {
    |s| == 64 && forall i :: 0 <= i < |s| ==> '0' <= s[i] <= '9' || 'a' <= s[i] <= 'f'
  }

  // ----- numbers -----

  /**
    Python beyond ASCII: the decimal digits `\d` matches, the digits `str.isdigit` admits, and
    `int(...)` on texts that hold such characters. `limit` is the interpreter's bound on the length of
    a decimal text it converts, if it has one.
   */
  datatype Python = Python(decimal: char -> bool, digit: char -> bool, convert: string -> Option<nat>, limit: Option<nat>)

  /** `\d` on one character. */
  predicate DecimalChar(py: Python, c: char) {
    IsDigit(c) || (c >= '\U{80}' && py.decimal(c))
  }

  /** `s.isdigit()`. */
  predicate AllDigits(py: Python, s: string) {
    s != [] && forall i :: 0 <= i < |s| ==> IsDigit(s[i]) || (s[i] >= '\U{80}' && py.digit(s[i]))
  }

  predicate Plain(s: string) {
    forall i :: 0 <= i < |s| ==> IsDigit(s[i])
  }

  predicate WithinLimit(py: Python, s: string) {
    py.limit.Some? ==> |s| <= py.limit.value
  }

  /** `int(s)`, on a non-empty run of digits; `None` where it raises. */
  function Int(py: Python, s: string): Option<nat> {
    if !Plain(s) then py.convert(s) else if WithinLimit(py, s) then Some(FromDecimal(s)) else None
  }

  /** A printed number reads back unless it is longer than the interpreter converts. */
  lemma IntOfDecimal(py: Python, n: nat)
    ensures AllDigits(py, Decimal(n))
    ensures Int(py, Decimal(n)) == if WithinLimit(py, Decimal(n)) then Some(n) else None
  {
    DecimalRoundTrip(n);
  }

  /** A run of ASCII digits converts unless the interpreter has a limit and the run is longer. */
  lemma IntOfDigits(py: Python, s: string)
    requires s != "" && forall i :: 0 <= i < |s| ==> '0' <= s[i] <= '9'
    ensures AllDigits(py, s)
    ensures Int(py, s) == if py.limit.Some? && |s| > py.limit.value then None else Some(FromDecimal(s))
  {
  }

  /** A comment starts with `#`; everything else is data. */
  lemma CommentMeans(line: string)
    ensures IsComment(line) <==> line != "" && line[0] == '#'
    ensures IsData(line) <==> line == "" || line[0] != '#'
  {
  }

  /** 64 of the sixteen lower-case hexadecimal digits. */
  lemma ShaMeans(s: string)
    ensures IsSha(s) <==> |s| == 64 && forall c :: c in s ==> c in "0123456789abcdef"
  {
    assert forall i :: 0 <= i < |s| ==> s[i] in s;
  }

  // ----- printing -----

  /** `"%s\t%d\t%d\t%s" % row.fields()`. */
  function RowLine(r: Row): string {
    r.name + "\t" + Decimal(r.nbytes) + "\t" + Decimal(r.nlf) + "\t" + r.sha256
  }

  function Concat(rows: seq<Row>): string {
    if rows == [] then "" else RowLine(rows[0]) + "\n" + Concat(rows[1..])
  }

  function SerializeText(rows: seq<Row>): string {
    Concat(Sort(NameOf, rows))
  }

  /** `serialize`. */
  function Serialize(rows: seq<Row>): seq<nat> {
    Utf8(SerializeText(rows))
  }

  function AggregateLine(rows: nat, bytes: nat, sha: string): string {
    "# aggregate rows=" + Decimal(rows) + " serialized_bytes=" + Decimal(bytes) + " sha256=" + sha
  }

  /** A manifest as the producer writes it: the rows, then the aggregate comment. */
  function ManifestText(rows: seq<Row>, bytes: nat, sha: string): string {
    SerializeText(rows) + AggregateLine(|rows|, bytes, sha) + "\n"
  }

  // ----- parsing -----

  /** A non-empty run of decimal digits at the front, and what follows it. */
  function TakeDigits(py: Python, s: string): Option<(string, string)> {
    var n := FirstIndex(s, c => !DecimalChar(py, c));
    if n == 0 then None else Some((s[..n], s[n..]))
  }

  function AfterLiteral(s: string, literal: string): Option<string> {
    if literal <= s then Some(s[|literal|..]) else None
  }

  /** `AGGREGATE.fullmatch`, with its three groups. */
  function ParseAggregate(py: Python, line: string): Option<(string, string, string)> {
    match AfterLiteral(line, "# aggregate rows=")
    case None => None
    case Some(a) =>
      match TakeDigits(py, a)
      case None => None
      case Some((rows, b)) =>
        match AfterLiteral(b, " serialized_bytes=")
        case None => None
        case Some(c) =>
          match TakeDigits(py, c)
          case None => None
          case Some((bytes, d)) =>
            match AfterLiteral(d, " sha256=")
            case None => None
            case Some(sha) => if IsSha(sha) then Some((rows, bytes, sha)) else None
  }

  /** One data line; `seen` are the names of the lines before it. */
  function ParseRow(py: Python, line: string, seen: set<string>): Result<Row> {
    var fields := SplitOn(line, '\t');
    if |fields| != 4 then Error(RowFields)
    else if fields[0] == "" then Error(RowName)
    else if fields[0] in seen then Error(RowDuplicate)
    else if !AllDigits(py, fields[1]) || !AllDigits(py, fields[2]) then Error(RowCounts)
    else if !IsSha(fields[3]) then Error(RowSha)
    else
      var nbytes, nlf := Int(py, fields[1]), Int(py, fields[2]);
      if nbytes == None || nlf == None then ValueError
      else Ok(Row(fields[0], nbytes.value, nlf.value, fields[3]))
  }

  function ParseRows(py: Python, lines: seq<string>, seen: set<string>): Result<seq<Row>> {
    if lines == [] then Ok([])
    else
      match ParseRow(py, lines[0], seen)
      case Error(e) => Error(e)
      case ValueError => ValueError
      case Ok(row) =>
        match ParseRows(py, lines[1..], seen + {row.name})
        case Error(e) => Error(e)
        case ValueError => ValueError
        case Ok(rest) => Ok([row] + rest)
  }

  /** Which of a row's checks fails first, for four fields without tabs. */
  lemma RowErrors(py: Python, name: string, nbytes: string, nlf: string, sha: string, seen: set<string>)
    requires '\t' !in name && '\t' !in nbytes && '\t' !in nlf && '\t' !in sha
    ensures var row := ParseRow(py, name + "\t" + nbytes + "\t" + nlf + "\t" + sha, seen);
            && (name == "" ==> row == Error(RowName))
            && (name != "" && name in seen ==> row == Error(RowDuplicate))
            && (name != "" && name !in seen ==>
                  && (!AllDigits(py, nbytes) || !AllDigits(py, nlf) ==> row == Error(RowCounts))
                  && (AllDigits(py, nbytes) && AllDigits(py, nlf) && !IsSha(sha) ==> row == Error(RowSha)))
  {
    hide SplitOn, AllDigits, IsSha, Int;
    FourFields(name, nbytes, nlf, sha);
  }

  lemma FourFields(a: string, b: string, c: string, d: string)
    requires '\t' !in a && '\t' !in b && '\t' !in c && '\t' !in d
    ensures SplitOn(a + "\t" + b + "\t" + c + "\t" + d, '\t') == [a, b, c, d]
  {
    hide SplitOn;
    SplitOnFirst(d, '\t', "");
    SplitOnFirst(c, '\t', d);
    SplitOnFirst(b, '\t', c + ['\t'] + d);
    SplitOnFirst(a, '\t', b + ['\t'] + (c + ['\t'] + d));
    assert a + "\t" + b + "\t" + c + "\t" + d == a + ['\t'] + (b + ['\t'] + (c + ['\t'] + d));
  }

  /** A line with another number of tabs than three has the wrong number of fields. */
  lemma TabsDecide(py: Python, line: string, seen: set<string>)
    requires multiset(line)['\t'] != 3
    ensures ParseRow(py, line, seen) == Error(RowFields)
  {
    TabsCount(line);
  }

  lemma {:induction false} TabsCount(line: string)
    ensures |SplitOn(line, '\t')| == multiset(line)['\t'] + 1
  {
    var i := FirstIndex(line, x => x == '\t');
    SplitOnOnce(line, i);
    hide SplitOn;
    if i < |line| {
      TabsCount(line[i + 1..]);
      OneTab(line, i);
    } else {
      assert '\t' !in line;
    }
  }

  lemma SplitOnOnce(line: string, i: nat)
    requires i <= |line| && (i < |line| ==> line[i] == '\t')
    requires forall k :: 0 <= k < i ==> line[k] != '\t'
    ensures |SplitOn(line, '\t')| == if i == |line| then 1 else 1 + |SplitOn(line[i + 1..], '\t')|
  {
    hide SplitOn;
    if i < |line| {
      SplitOnFirst(line[..i], '\t', line[i + 1..]);
      assert line == line[..i] + ['\t'] + line[i + 1..];
    } else {
      SplitOnFirst(line, '\t', "");
    }
  }

  lemma OneTab(line: string, i: nat)
    requires i < |line| && line[i] == '\t' && forall k :: 0 <= k < i ==> line[k] != '\t'
    ensures multiset(line)['\t'] == 1 + multiset(line[i + 1..])['\t']
  {
    assert '\t' !in line[..i];
    assert line == line[..i] + (['\t'] + line[i + 1..]);
  }

  predicate IsComment(line: string) {
    "#" <= line
  }

  predicate IsData(line: string) {
    !IsComment(line)
  }

  predicate Visible(line: string) {
    !Blank(line)
  }

  /** `[line for line in lines if p(line)]`. */
  function Keep(lines: seq<string>, p: string -> bool): seq<string> {
    if lines == [] then [] else (if p(lines[0]) then [lines[0]] else []) + Keep(lines[1..], p)
  }

  function ParseText(py: Python, text: string): Result<Parsed> {
    var lines := Keep(SplitLines(text), Visible);
    var data := Keep(lines, IsData);
    var comments := Keep(lines, IsComment);
    if |comments| != 1 then Error(CommentCount)
    else
      match ParseAggregate(py, comments[0])
      case None => Error(CommentFormat)
      case Some((rowDigits, byteDigits, aggSha)) =>
        var aggRows, aggBytes := Int(py, rowDigits), Int(py, byteDigits);
        if aggRows == None || aggBytes == None then ValueError
        else if aggRows.value != |data| then Error(RowCount)
        else
          match ParseRows(py, data, {})
          case Error(e) => Error(e)
          case ValueError => ValueError
          case Ok(rows) => Ok(Parsed(Sort(NameOf, rows), aggBytes.value, aggSha))
  }

  function Parse(py: Python, raw: Raw): Result<Parsed> {
    match raw
    case NotUtf8(bom, cr) => if bom then Error(Bom) else if cr then Error(CarriageReturn) else Error(Encoding)
    case Utf8Text(text) =>
      if StartsWithBom(text) then Error(Bom)
      else if '\r' in text then Error(CarriageReturn)
      else ParseText(py, text)
  }

  lemma ParseOne(py: Python, line: string, seen: set<string>)
    requires ParseRow(py, line, seen).Ok?
    ensures ParseRows(py, [line], seen) == Ok([ParseRow(py, line, seen).value])
  {
    hide ParseRow;
    var names := seen + {ParseRow(py, line, seen).value.name};
    var none: seq<string> := [];
    assert [line][1..] == none;
    var row := ParseRow(py, line, seen).value;
    assert ParseRows(py, none, names) == Ok([]) && [row] + [] == [row];
  }

  lemma {:induction false} ParseRowsStep(py: Python, lines: seq<string>, seen: set<string>, i: nat, rows: seq<Row>)
    requires i <= |lines| && ParseRows(py, lines[..i], {}) == Ok(rows) && seen == Names(rows)
    ensures i < |lines| ==>
              match ParseRow(py, lines[i], seen)
              case Ok(row) => ParseRows(py, lines[..i + 1], {}) == Ok(rows + [row])
              case Error(e) => ParseRows(py, lines, {}) == Error(e)
              case ValueError => ParseRows(py, lines, {}) == ValueError
  {
    if i < |lines| {
      assert lines[..i + 1] == lines[..i] + [lines[i]] && lines == lines[..i] + lines[i..];
      assert lines[i..] == [lines[i]] + lines[i + 1..];
      ParseRowsAppend(py, lines[..i], [lines[i]], {}, rows);
      ParseRowsAppend(py, lines[..i], lines[i..], {}, rows);
      assert {} + Names(rows) == seen;
      assert lines[i..][0] == lines[i];
      if ParseRow(py, lines[i], seen).Ok? {
        ParseOne(py, lines[i], seen);
      } else {
        assert ParseRows(py, lines[i..], seen)
            == match ParseRow(py, lines[i], seen) case Error(e) => Error(e) case _ => ValueError;
      }
    }
  }

  lemma {:induction false} ParseRowsAppend(py: Python, a: seq<string>, b: seq<string>, seen: set<string>, rows: seq<Row>)
    requires ParseRows(py, a, seen) == Ok(rows)
    ensures var names := seen + Names(rows);
            ParseRows(py, a + b, seen)
            == match ParseRows(py, b, names) case Ok(more) => Ok(rows + more) case Error(e) => Error(e) case ValueError => ValueError
  {
    hide ParseRow;
    var names := seen + Names(rows);
    if a == [] {
      assert a + b == b && names == seen;
      assert forall more: seq<Row> :: rows + more == more;
    } else {
      var row, rest := ParseRow(py, a[0], seen).value, ParseRows(py, a[1..], seen + {ParseRow(py, a[0], seen).value.name}).value;
      ParseRowsAppend(py, a[1..], b, seen + {row.name}, rest);
      assert (a + b)[1..] == a[1..] + b;
      assert names == seen + {row.name} + Names(rest);
      assert forall more: seq<Row> :: [row] + (rest + more) == rows + more;
    }
  }

  /** The loop over the data lines, which remembers the names it has seen. */
  method ParseDataLines(py: Python, lines: seq<string>) returns (result: Result<seq<Row>>)
    ensures result == ParseRows(py, lines, {})
  {
    hide ParseRow;
    var rows: seq<Row>, seen: set<string> := [], {};
    for i := 0 to |lines|
      invariant ParseRows(py, lines[..i], {}) == Ok(rows)
      invariant seen == Names(rows)
    {
      ParseRowsStep(py, lines, seen, i, rows);
      var parsed := ParseRow(py, lines[i], seen);
      match parsed {
        case Error(e) => return Error(e);
        case ValueError => return ValueError;
        case Ok(row) =>
          seen := seen + {row.name};
          rows := rows + [row];
      }
    }
    assert lines[..|lines|] == lines;
    result := Ok(rows);
  }

  /** `parse_manifest`. */
  method ParseManifest(py: Python, raw: Raw) returns (result: Result<Parsed>)
    ensures result == Parse(py, raw)
  {
    if raw.NotUtf8? {
      return if raw.bom then Error(Bom) else if raw.cr then Error(CarriageReturn) else Error(Encoding);
    }
    var text := raw.text;
    if StartsWithBom(text) {
      return Error(Bom);
    }
    if '\r' in text {
      return Error(CarriageReturn);
    }
    var lines := Keep(SplitLines(text), Visible);
    var data := Keep(lines, IsData);
    var comments := Keep(lines, IsComment);
    if |comments| != 1 {
      return Error(CommentCount);
    }
    var aggregate := ParseAggregate(py, comments[0]);
    if aggregate == None {
      return Error(CommentFormat);
    }
    var aggRows, aggBytes := Int(py, aggregate.value.0), Int(py, aggregate.value.1);
    if aggRows == None || aggBytes == None {
      return ValueError;
    }
    if aggRows.value != |data| {
      return Error(RowCount);
    }
    var parsed := ParseDataLines(py, data);
    match parsed {
      case Error(e) => return Error(e);
      case ValueError => return ValueError;
      case Ok(rows) => return Ok(Parsed(Sort(NameOf, rows), aggBytes.value, aggregate.value.2));
    }
  }

  // ----- the round trip -----

  /** A row the format can carry. */
  predicate GoodRow(r: Row) {
    r.name != "" && Unbroken(r.name) && '\t' !in r.name && r.name[0] != '#' && IsSha(r.sha256)
  }

  /** The interpreter converts both numbers of the row. */
  predicate RowFits(py: Python, r: Row) {
    WithinLimit(py, Decimal(r.nbytes)) && WithinLimit(py, Decimal(r.nlf))
  }

  ghost predicate RowsFit(py: Python, rows: seq<Row>) {
    forall i :: 0 <= i < |rows| ==> RowFits(py, rows[i])
  }

  /** It converts every number of the manifest. */
  ghost predicate NumbersFit(py: Python, rows: seq<Row>, bytes: nat) {
    WithinLimit(py, Decimal(|rows|)) && WithinLimit(py, Decimal(bytes)) && RowsFit(py, rows)
  }

  predicate StartsWithBom(s: string) {
    s != [] && s[0] == BOM
  }

  /** Rows that survive being printed and parsed. */
  ghost predicate Publishable(rows: seq<Row>) {
    && (forall i :: 0 <= i < |rows| ==> GoodRow(rows[i]))
    && Distinct(NameOf, rows)
    && (rows != [] ==> !StartsWithBom(Sort(NameOf, rows)[0].name))
  }

  function RowLines(rows: seq<Row>): (lines: seq<string>)
    ensures |lines| == |rows|
    ensures forall i :: 0 <= i < |rows| ==> lines[i] == RowLine(rows[i])
  {
    seq(|rows|, i requires 0 <= i < |rows| => RowLine(rows[i]))
  }

  lemma DigitsArePlain(s: string)
    requires forall i :: 0 <= i < |s| ==> IsDigit(s[i])
    ensures Unbroken(s) && '\t' !in s
  {
  }

  lemma ShaIsPlain(s: string)
    requires IsSha(s)
    ensures Unbroken(s) && '\t' !in s
  {
  }

  lemma RowLineIsPlain(r: Row)
    requires GoodRow(r)
    ensures Unbroken(RowLine(r)) && !IsComment(RowLine(r)) && !Blank(RowLine(r))
  {
    DigitsArePlain(Decimal(r.nbytes));
    DigitsArePlain(Decimal(r.nlf));
    ShaIsPlain(r.sha256);
    var line := RowLine(r);
    var at := |r.name| + 1;
    assert line[0] == r.name[0];
    assert line == (r.name + "\t") + (Decimal(r.nbytes) + "\t" + Decimal(r.nlf) + "\t" + r.sha256);
    assert line[at] == Decimal(r.nbytes)[0] && IsDigit(line[at]);
  }

  /** A printed row parses to itself, when its numbers can be converted. */
  lemma RowRoundTrip(py: Python, r: Row, seen: set<string>)
    requires GoodRow(r) && r.name !in seen
    ensures ParseRow(py, RowLine(r), seen) == if RowFits(py, r) then Ok(r) else ValueError
  {
    hide SplitOn, Unbroken, Decimal, Int, AllDigits, WithinLimit;
    DigitsArePlain(Decimal(r.nbytes));
    DigitsArePlain(Decimal(r.nlf));
    ShaIsPlain(r.sha256);
    IntOfDecimal(py, r.nbytes);
    IntOfDecimal(py, r.nlf);
    var tail2 := Decimal(r.nlf) + ['\t'] + r.sha256;
    var tail1 := Decimal(r.nbytes) + ['\t'] + tail2;
    assert RowLine(r) == r.name + ['\t'] + tail1;
    SplitOnFirst(r.sha256, '\t', "");
    SplitOnFirst(Decimal(r.nlf), '\t', r.sha256);
    SplitOnFirst(Decimal(r.nbytes), '\t', tail2);
    SplitOnFirst(r.name, '\t', tail1);
    assert SplitOn(RowLine(r), '\t') == [r.name, Decimal(r.nbytes), Decimal(r.nlf), r.sha256];
  }

  lemma {:induction false} RowsRoundTrip(py: Python, rows: seq<Row>, seen: set<string>)
    requires forall i :: 0 <= i < |rows| ==> GoodRow(rows[i]) && rows[i].name !in seen
    requires Distinct(NameOf, rows)
    ensures ParseRows(py, RowLines(rows), seen)
         == if RowsFit(py, rows) then Ok(rows) else ValueError
  {
    hide ParseRow, GoodRow, RowLine, RowFits;
    if rows != [] {
      RowRoundTrip(py, rows[0], seen);
      assert RowLines(rows)[1..] == RowLines(rows[1..]) && rows == [rows[0]] + rows[1..];
      forall i | 0 <= i < |rows| - 1
        ensures rows[1..][i] == rows[i + 1] && rows[1..][i].name !in seen + {rows[0].name}
      {
        assert NameOf(rows[0]) != NameOf(rows[i + 1]);
      }
      RowsRoundTrip(py, rows[1..], seen + {rows[0].name});
    }
  }

  lemma RowLinesStep(rows: seq<Row>)
    requires rows != []
    ensures RowLines(rows) == [RowLine(rows[0])] + RowLines(rows[1..])
    ensures Concat(rows) == RowLine(rows[0]) + "\n" + Concat(rows[1..])
  {
    hide RowLine;
  }

  lemma Regroup(a: string, b: string, c: string)
    ensures (a + "\n" + b) + c + "\n" == a + "\n" + (b + c + "\n")
  {
  }

  lemma {:induction false} LinesRoundTrip(rows: seq<Row>, last: string)
    requires forall i :: 0 <= i < |rows| ==> GoodRow(rows[i])
    requires Unbroken(last)
    ensures SplitLines(Concat(rows) + last + "\n") == RowLines(rows) + [last]
  {
    assert SplitLines("") == [];
    hide GoodRow, RowLine, SplitLines, Unbroken;
    if rows == [] {
      SplitLinesFirst(last, "");
      assert Concat(rows) + last + "\n" == last + "\n" + "";
    } else {
      var rest := Concat(rows[1..]);
      RowLineIsPlain(rows[0]);
      LinesRoundTrip(rows[1..], last);
      SplitLinesFirst(RowLine(rows[0]), rest + last + "\n");
      Regroup(RowLine(rows[0]), rest, last);
      RowLinesStep(rows);
      hide Concat;
      assert [RowLine(rows[0])] + (RowLines(rows[1..]) + [last]) == ([RowLine(rows[0])] + RowLines(rows[1..])) + [last];
    }
  }

  lemma {:induction false} KeepAll(lines: seq<string>, last: string, p: string -> bool)
    requires forall i :: 0 <= i < |lines| ==> p(lines[i])
    ensures Keep(lines + [last], p) == lines + (if p(last) then [last] else [])
  {
    if lines == [] {
      assert lines + [last] == [last];
    } else {
      assert (lines + [last])[1..] == lines[1..] + [last];
      KeepAll(lines[1..], last, p);
    }
  }

  lemma {:induction false} KeepNone(lines: seq<string>, last: string, p: string -> bool)
    requires forall i :: 0 <= i < |lines| ==> !p(lines[i])
    ensures Keep(lines + [last], p) == if p(last) then [last] else []
  {
    if lines == [] {
      assert lines + [last] == [last];
    } else {
      assert (lines + [last])[1..] == lines[1..] + [last];
      KeepNone(lines[1..], last, p);
    }
  }

  lemma DigitsTaken(py: Python, n: nat, rest: string)
    requires rest != [] && !DecimalChar(py, rest[0])
    ensures TakeDigits(py, Decimal(n) + rest) == Some((Decimal(n), rest))
  {
    FirstIndexUnique(Decimal(n), rest, c => !DecimalChar(py, c));
    var s := Decimal(n) + rest;
    assert s[..|Decimal(n)|] == Decimal(n) && s[|Decimal(n)|..] == rest;
  }

  lemma LiteralTaken(literal: string, rest: string)
    ensures AfterLiteral(literal + rest, literal) == Some(rest)
  {
    assert (literal + rest)[|literal|..] == rest;
  }

  /** The aggregate comment parses to its three groups. */
  lemma AggregateRoundTrip(py: Python, rows: nat, bytes: nat, sha: string)
    requires IsSha(sha)
    ensures var line := AggregateLine(rows, bytes, sha);
            ParseAggregate(py, line) == Some((Decimal(rows), Decimal(bytes), sha)) && Unbroken(line) && IsComment(line) && !Blank(line)
  {
    hide TakeDigits, Unbroken, IsComment, Blank, IsSha, Decimal;
    var line := AggregateLine(rows, bytes, sha);
    var d := " sha256=" + sha;
    var c := Decimal(bytes) + d;
    var b := " serialized_bytes=" + c;
    var a := Decimal(rows) + b;
    DigitsTaken(py, bytes, d);
    DigitsTaken(py, rows, b);
    assert line == "# aggregate rows=" + a;
    LiteralTaken("# aggregate rows=", a);
    LiteralTaken(" serialized_bytes=", c);
    LiteralTaken(" sha256=", sha);
    hide AfterLiteral;
    AggregateIsPlain(rows, bytes, sha);
  }

  lemma AggregateIsPlain(rows: nat, bytes: nat, sha: string)
    requires IsSha(sha)
    ensures var line := AggregateLine(rows, bytes, sha); Unbroken(line) && IsComment(line) && !Blank(line)
  {
    DigitsArePlain(Decimal(rows));
    DigitsArePlain(Decimal(bytes));
    ShaIsPlain(sha);
    assert AggregateLine(rows, bytes, sha)[0] == '#';
  }

  lemma {:induction false} RowLinesHaveNoCr(rows: seq<Row>)
    requires forall i :: 0 <= i < |rows| ==> GoodRow(rows[i])
    ensures '\r' !in Concat(rows)
  {
    hide GoodRow, RowLine;
    if rows != [] {
      RowLineIsPlain(rows[0]);
      RowLinesHaveNoCr(rows[1..]);
      assert '\r' !in RowLine(rows[0]) by {
        assert IsLineBreak('\r');
      }
    }
  }

  lemma SortKeepsGood(rows: seq<Row>)
    requires forall i :: 0 <= i < |rows| ==> GoodRow(rows[i])
    requires Distinct(NameOf, rows)
    ensures var sorted := Sort(NameOf, rows);
            (forall i :: 0 <= i < |sorted| ==> GoodRow(sorted[i])) && Distinct(NameOf, sorted)
  {
    hide GoodRow;
    var sorted := Sort(NameOf, rows);
    DistinctKept(NameOf, rows, sorted);
    forall i | 0 <= i < |sorted| ensures GoodRow(sorted[i]) {
      assert sorted[i] in multiset(rows);
    }
  }

  /** Sorting what is sorted changes nothing. */
  lemma SortTwice(rows: seq<Row>)
    requires Distinct(NameOf, rows)
    ensures Sort(NameOf, Sort(NameOf, rows)) == Sort(NameOf, rows)
  {
    SortForgetsOrder(NameOf, rows, Sort(NameOf, rows));
  }

  lemma PublishedLines(rows: seq<Row>, last: string)
    requires forall i :: 0 <= i < |rows| ==> GoodRow(rows[i])
    requires Unbroken(last) && IsComment(last) && !Blank(last)
    ensures var lines := Keep(SplitLines(Concat(rows) + last + "\n"), Visible);
            Keep(lines, IsData) == RowLines(rows) && Keep(lines, IsComment) == [last]
  {
    hide SplitLines, GoodRow, RowLine, IsComment, Blank, Unbroken;
    LinesRoundTrip(rows, last);
    var lines := RowLines(rows);
    forall i | 0 <= i < |lines| ensures Visible(lines[i]) && IsData(lines[i]) {
      RowLineIsPlain(rows[i]);
    }
    KeepAll(lines, last, Visible);
    KeepAll(lines, last, IsData);
    KeepNone(lines, last, IsComment);
  }

  lemma FitsSorted(py: Python, rows: seq<Row>)
    ensures |Sort(NameOf, rows)| == |rows| && (RowsFit(py, Sort(NameOf, rows)) <==> RowsFit(py, rows))
  {
    hide Sort, RowFits;
    var sorted := Sort(NameOf, rows);
    SameMembers(rows, sorted);
    assert |multiset(rows)| == |multiset(sorted)|;
    assert RowsFit(py, rows) <==> forall r :: r in rows ==> RowFits(py, r);
    assert RowsFit(py, sorted) <==> forall r :: r in sorted ==> RowFits(py, r);
  }

  /** What a text with these data lines and this comment parses to. */
  lemma TextParsesAs(py: Python, text: string, rows: seq<Row>, last: string, bytes: nat, sha: string)
    requires var lines := Keep(SplitLines(text), Visible);
             Keep(lines, IsData) == RowLines(rows) && Keep(lines, IsComment) == [last]
    requires ParseAggregate(py, last) == Some((Decimal(|rows|), Decimal(bytes), sha))
    requires ParseRows(py, RowLines(rows), {}) == if RowsFit(py, rows) then Ok(rows) else ValueError
    ensures ParseText(py, text)
         == if NumbersFit(py, rows, bytes) then Ok(Parsed(Sort(NameOf, rows), bytes, sha)) else ValueError
  {
    hide Keep, SplitLines, IsComment, Blank, ParseAggregate, ParseRows, RowsFit, Decimal, Int, WithinLimit, Sort, RowLine;
    IntOfDecimal(py, |rows|);
    IntOfDecimal(py, bytes);
  }

  lemma PublishedTextParses(py: Python, rows: seq<Row>, bytes: nat, sha: string)
    requires Publishable(rows) && IsSha(sha)
    ensures ParseText(py, ManifestText(rows, bytes, sha))
         == if NumbersFit(py, rows, bytes) then Ok(Parsed(Sort(NameOf, rows), bytes, sha)) else ValueError
  {
    hide ParseText, ParseAggregate, AggregateLine, GoodRow, Keep, ParseRows, IsSha, Concat, Distinct, Unbroken, Blank,
      IsComment, SplitLines, RowsFit, WithinLimit, Decimal, Sort, StartsWithBom;
    var sorted := Sort(NameOf, rows);
    var last := AggregateLine(|rows|, bytes, sha);
    FitsSorted(py, rows);
    AggregateRoundTrip(py, |rows|, bytes, sha);
    SortKeepsGood(rows);
    PublishedLines(sorted, last);
    RowsRoundTrip(py, sorted, {});
    TextParsesAs(py, ManifestText(rows, bytes, sha), sorted, last, bytes, sha);
    SortTwice(rows);
  }

  /** What every parsed manifest satisfies. */
  lemma {:induction false} ParsedRowsAreGood(py: Python, lines: seq<string>, seen: set<string>)
    requires ParseRows(py, lines, seen).Ok?
    requires forall i :: 0 <= i < |lines| ==> Unbroken(lines[i]) && !IsComment(lines[i])
    ensures var rows := ParseRows(py, lines, seen).value;
            && (forall i :: 0 <= i < |rows| ==> GoodRow(rows[i]) && rows[i].name !in seen)
            && Distinct(NameOf, rows)
  {
    hide GoodRow, ParseRow, IsComment, Unbroken;
    if lines != [] {
      var row := ParseRow(py, lines[0], seen).value;
      ParsedRowIsGood(py, lines[0], seen);
      ParsedRowsAreGood(py, lines[1..], seen + {row.name});
      var rest := ParseRows(py, lines[1..], seen + {row.name}).value;
      var rows := [row] + rest;
      forall i, j | 0 <= i < j < |rows| ensures NameOf(rows[i]) != NameOf(rows[j]) {
        assert rows[j] == rest[j - 1];
        assert i > 0 ==> rows[i] == rest[i - 1];
      }
    }
  }

  lemma ParsedRowIsGood(py: Python, line: string, seen: set<string>)
    requires ParseRow(py, line, seen).Ok? && Unbroken(line) && !IsComment(line)
    ensures GoodRow(ParseRow(py, line, seen).value) && ParseRow(py, line, seen).value.name !in seen
  {
    hide IsLineBreak;
    SplitOnFree(line, '\t');
    var fields := SplitOn(line, '\t');
    assert fields[0] <= line && fields[0][0] == line[0];
    forall k | 0 <= k < |fields[0]| ensures !IsLineBreak(fields[0][k]) {
      assert fields[0][k] in line;
    }
  }

  lemma {:induction false} KeptAre(lines: seq<string>, p: string -> bool)
    ensures forall i :: 0 <= i < |Keep(lines, p)| ==> p(Keep(lines, p)[i]) && Keep(lines, p)[i] in lines
  {
    if lines != [] {
      KeptAre(lines[1..], p);
    }
  }

  lemma DataLinesAreClean(text: string)
    ensures var data := DataLines(text);
            forall i :: 0 <= i < |data| ==> Unbroken(data[i]) && !IsComment(data[i])
  {
    hide IsComment, Blank, Unbroken, SplitLines, Keep;
    var all := SplitLines(text);
    SplitLinesUnbroken(text);
    KeptAre(all, Visible);
    KeptAre(Keep(all, Visible), IsData);
  }

  /** Rows as parsed: good, distinct by name, in name order. */
  ghost predicate WellListed(rows: seq<Row>) {
    && (forall i :: 0 <= i < |rows| ==> GoodRow(rows[i]))
    && Distinct(NameOf, rows) && Ordered(NameOf, rows) && Sort(NameOf, rows) == rows
  }

  lemma SortedIsWellListed(rows: seq<Row>)
    requires (forall i :: 0 <= i < |rows| ==> GoodRow(rows[i])) && Distinct(NameOf, rows)
    ensures WellListed(Sort(NameOf, rows))
  {
    hide GoodRow, Distinct, Ordered, Sort;
    SortKeepsGood(rows);
    SortOrdered(NameOf, rows);
    SortTwice(rows);
  }

  /** The data lines of a manifest text. */
  function DataLines(text: string): seq<string> {
    Keep(Keep(SplitLines(text), Visible), IsData)
  }

  lemma ParsedFromDataLines(py: Python, raw: Raw)
    requires Parse(py, raw).Ok?
    ensures ParseRows(py, DataLines(raw.text), {}).Ok?
    ensures Parse(py, raw).value.rows == Sort(NameOf, ParseRows(py, DataLines(raw.text), {}).value)
  {
    hide ParseRows, Sort, SplitLines, Keep, IsComment, Blank, ParseAggregate;
  }

  /** A parsed manifest lists good rows with distinct names, in name order. */
  lemma ParsedIsGood(py: Python, raw: Raw)
    requires Parse(py, raw).Ok?
    ensures WellListed(Parse(py, raw).value.rows)
  {
    hide WellListed, GoodRow, IsComment, Unbroken, Distinct, Keep, SplitLines, ParseRows, Sort, ParseText;
    ParsedFromDataLines(py, raw);
    DataLinesAreClean(raw.text);
    ParsedRowsAreGood(py, DataLines(raw.text), {});
    SortedIsWellListed(ParseRows(py, DataLines(raw.text), {}).value);
  }

  lemma PublishedHeader(rows: seq<Row>, last: string)
    requires forall i :: 0 <= i < |rows| ==> GoodRow(rows[i])
    requires Unbroken(last) && IsComment(last)
    ensures var text := Concat(rows) + last + "\n";
            '\r' !in text && (StartsWithBom(text) <==> rows != [] && StartsWithBom(rows[0].name))
  {
    hide GoodRow, Unbroken, StartsWithBom, Concat;
    RowLinesHaveNoCr(rows);
    NoCarriageReturn(last);
    FirstCharacter(rows, last + "\n");
    assert Concat(rows) + last + "\n" == Concat(rows) + (last + "\n");
  }

  lemma ParsedRowsWerePublishable(py: Python, rows: seq<Row>, bytes: nat, sha: string)
    requires IsSha(sha)
    requires Parse(py, Utf8Text(ManifestText(rows, bytes, sha))) == Ok(Parsed(Sort(NameOf, rows), bytes, sha))
    ensures Publishable(rows)
  {
    hide GoodRow, ParseText, AggregateLine, IsSha, Distinct, Concat, Ordered, StartsWithBom, Unbroken, IsComment;
    var sorted := Sort(NameOf, rows);
    ParsedIsGood(py, Utf8Text(ManifestText(rows, bytes, sha)));
    DistinctKept(NameOf, sorted, rows);
    forall i | 0 <= i < |rows| ensures GoodRow(rows[i]) {
      assert rows[i] in multiset(sorted);
    }
    AggregateIsPlain(|rows|, bytes, sha);
    PublishedHeader(sorted, AggregateLine(|rows|, bytes, sha));
  }

  /**
    Exactly which rows survive: printing them with an aggregate comment and parsing the text
    gives the sorted rows and the aggregate back if and only if the rows are publishable and the
    interpreter converts numbers of that length.
   */
  lemma ManifestRoundTrip(py: Python, rows: seq<Row>, bytes: nat, sha: string)
    requires IsSha(sha)
    ensures Parse(py, Utf8Text(ManifestText(rows, bytes, sha))) == Ok(Parsed(Sort(NameOf, rows), bytes, sha))
            <==> Publishable(rows) && NumbersFit(py, rows, bytes)
  {
    hide NumbersFit, GoodRow, ParseText, AggregateLine, IsSha, Distinct, Concat, Sort, StartsWithBom, Unbroken, IsComment;
    if Publishable(rows) {
      PublishedTextParses(py, rows, bytes, sha);
      SortKeepsGood(rows);
      AggregateIsPlain(|rows|, bytes, sha);
      PublishedHeader(Sort(NameOf, rows), AggregateLine(|rows|, bytes, sha));
    } else if Parse(py, Utf8Text(ManifestText(rows, bytes, sha))) == Ok(Parsed(Sort(NameOf, rows), bytes, sha)) {
      ParsedRowsWerePublishable(py, rows, bytes, sha);
    }
  }

  lemma SortOne(r: Row)
    ensures Sort(NameOf, [r]) == [r]
  {
    assert Sort(NameOf, [r][1..]) == [];
  }

  const ZEROS: string := seq(64, _ => '0')

  /** A well-formed row whose name is the one character U+FEFF is printed and then refused. */
  lemma BomNameRefused(py: Python, bytes: nat)
    ensures var rows := [Row([BOM], 0, 0, ZEROS)];
            GoodRow(rows[0]) && Parse(py, Utf8Text(ManifestText(rows, bytes, ZEROS))) == Error(Bom)
  {
    hide Concat, AggregateLine, ParseText;
    var rows := [Row([BOM], 0, 0, ZEROS)];
    SortOne(rows[0]);
    AggregateIsPlain(1, bytes, ZEROS);
    PublishedHeader(rows, AggregateLine(1, bytes, ZEROS));
  }

  lemma NoCarriageReturn(line: string)
    requires Unbroken(line)
    ensures '\r' !in line
  {
    assert IsLineBreak('\r');
  }

  lemma FirstCharacter(rows: seq<Row>, tail: string)
    requires forall i :: 0 <= i < |rows| ==> GoodRow(rows[i])
    requires IsComment(tail)
    ensures StartsWithBom(Concat(rows) + tail) <==> rows != [] && StartsWithBom(rows[0].name)
  {
    hide Unbroken, IsSha, Decimal;
    if rows != [] {
      assert GoodRow(rows[0]);
      assert RowLine(rows[0])[0] == rows[0].name[0];
    }
  }

  /** Serialization does not depend on the order in which rows with distinct names are given. */
  lemma SerializeForgetsOrder(a: seq<Row>, b: seq<Row>)
    requires Distinct(NameOf, a) && multiset(a) == multiset(b)
    ensures Serialize(a) == Serialize(b)
  {
    SortForgetsOrder(NameOf, a, b);
  }

  // ----- manifests that raise -----

  /** The line passes every check before the conversion, and one of its two counts does not convert. */
  ghost predicate RowRaises(py: Python, line: string, seen: set<string>) {
    var fields := SplitOn(line, '\t');
    && |fields| == 4 && fields[0] != "" && fields[0] !in seen
    && AllDigits(py, fields[1]) && AllDigits(py, fields[2]) && IsSha(fields[3])
    && (Int(py, fields[1]) == None || Int(py, fields[2]) == None)
  }

  /** Line `k` raises, after lines that all parse. */
  ghost predicate RaisesAt(py: Python, lines: seq<string>, k: nat) {
    && k < |lines| && ParseRows(py, lines[..k], {}).Ok?
    && RowRaises(py, lines[k], Names(ParseRows(py, lines[..k], {}).value))
  }

  /** The first line that does not parse raises. */
  ghost predicate SomeLineRaises(py: Python, lines: seq<string>) {
    exists k: nat :: RaisesAt(py, lines, k)
  }

  lemma {:induction false} FirstRaise(py: Python, lines: seq<string>, n: nat)
    requires n <= |lines| && ParseRows(py, lines[..n], {}).Ok? && ParseRows(py, lines, {}).ValueError?
    ensures SomeLineRaises(py, lines)
    decreases |lines| - n
  {
    hide SplitOn, IsSha, AllDigits, Int;
    assert lines[..|lines|] == lines;
    if n < |lines| {
      var rows := ParseRows(py, lines[..n], {}).value;
      ParseRowsStep(py, lines, Names(rows), n, rows);
      if ParseRow(py, lines[n], Names(rows)).Ok? {
        FirstRaise(py, lines, n + 1);
      } else {
        assert RaisesAt(py, lines, n);
      }
    }
  }

  lemma RowsRaiseIff(py: Python, lines: seq<string>)
    ensures ParseRows(py, lines, {}).ValueError? <==> SomeLineRaises(py, lines)
  {
    hide SplitOn, IsSha, AllDigits, Int;
    if ParseRows(py, lines, {}).ValueError? {
      assert ParseRows(py, lines[..0], {}) == Ok([]);
      FirstRaise(py, lines, 0);
    }
    if k: nat :| RaisesAt(py, lines, k) {
      var rows := ParseRows(py, lines[..k], {}).value;
      ParseRowsStep(py, lines, Names(rows), k, rows);
    }
  }

  /**
    The text has its one comment in the right format, and either a number of the comment does
    not convert or, the row count being right, a data line raises.
   */
  ghost predicate TextRaises(py: Python, text: string) {
    var lines := Keep(SplitLines(text), Visible);
    var data, comments := Keep(lines, IsData), Keep(lines, IsComment);
    && |comments| == 1 && ParseAggregate(py, comments[0]).Some?
    && var aggregate := ParseAggregate(py, comments[0]).value;
    && (|| Int(py, aggregate.0) == None || Int(py, aggregate.1) == None
        || (Int(py, aggregate.0) == Some(|data|) && SomeLineRaises(py, data)))
  }

  /** Exactly which manifests end the parser with the exception of `int`. */
  lemma ParseRaisesIff(py: Python, raw: Raw)
    ensures Parse(py, raw).ValueError? <==>
              raw.Utf8Text? && !StartsWithBom(raw.text) && '\r' !in raw.text && TextRaises(py, raw.text)
  {
    hide SplitLines, Keep, IsComment, Blank, ParseAggregate, ParseRows, SomeLineRaises, Int, StartsWithBom, Sort;
    if raw.Utf8Text? {
      RowsRaiseIff(py, Keep(Keep(SplitLines(raw.text), Visible), IsData));
    }
  }

  /** A manifest of one row, with a number as it is spelled. */
  function OneRow(count: string, bytes: nat, sha: string): string {
    "a\t" + count + "\t0\t" + sha + "\n" + AggregateLine(1, bytes, sha) + "\n"
  }

  lemma ForeignRow(py: Python, c: char, sha: string)
    requires c >= '\U{80}' && py.digit(c) && WithinLimit(py, "0") && IsSha(sha)
    ensures ParseRow(py, "a\t" + [c] + "\t0\t" + sha, {})
         == match py.convert([c]) case None => ValueError case Some(n) => Ok(Row("a", n, 0, sha))
  {
    hide SplitOn, Decimal;
    var line := "a\t" + [c] + "\t0\t" + sha;
    ShaIsPlain(sha);
    SplitOnFirst(sha, '\t', "");
    SplitOnFirst("0", '\t', sha);
    SplitOnFirst([c], '\t', "0" + ['\t'] + sha);
    SplitOnFirst("a", '\t', [c] + ['\t'] + ("0" + ['\t'] + sha));
    assert line == "a" + ['\t'] + ([c] + ['\t'] + ("0" + ['\t'] + sha));
    assert SplitOn(line, '\t') == ["a", [c], "0", sha];
    assert Int(py, "0") == Some(0) by {
      assert "0"[..0] == "";
    }
    assert !IsDigit([c][0]) && AllDigits(py, [c]);
  }

  lemma OneRowLines(count: string, bytes: nat, sha: string)
    requires Unbroken(count) && IsSha(sha)
    ensures var lines := Keep(SplitLines(OneRow(count, bytes, sha)), Visible);
            && Keep(lines, IsData) == ["a\t" + count + "\t0\t" + sha]
            && Keep(lines, IsComment) == [AggregateLine(1, bytes, sha)]
  {
    var line, last := "a\t" + count + "\t0\t" + sha, AggregateLine(1, bytes, sha);
    ShaIsPlain(sha);
    assert Unbroken(line) && !IsComment(line) && !Blank(line) by {
      assert line[0] == 'a' && !IsSpace('a');
    }
    AggregateIsPlain(1, bytes, sha);
    assert SplitLines("") == [];
    hide SplitLines, Unbroken, Blank, IsComment, AggregateLine;
    assert OneRow(count, bytes, sha) == line + "\n" + (last + "\n" + "");
    SplitLinesFirst(line, last + "\n" + "");
    SplitLinesFirst(last, "");
    assert SplitLines(OneRow(count, bytes, sha)) == [line] + [last];
    KeepAll([line], last, Visible);
    KeepAll([line], last, IsData);
    KeepNone([line], last, IsComment);
  }

  lemma OneRowHeader(count: string, bytes: nat, sha: string)
    requires Unbroken(count) && IsSha(sha)
    ensures !StartsWithBom(OneRow(count, bytes, sha)) && '\r' !in OneRow(count, bytes, sha)
  {
    var line, last := "a\t" + count + "\t0\t" + sha, AggregateLine(1, bytes, sha);
    AggregateIsPlain(1, bytes, sha);
    ShaIsPlain(sha);
    assert IsLineBreak('\r');
    assert '\r' !in line && '\r' !in last;
    hide AggregateLine;
    assert OneRow(count, bytes, sha) == line + "\n" + last + "\n" && line[0] == 'a';
  }

  /** What such a manifest parses to, given what its row does. */
  lemma OneRowParses(py: Python, count: string, bytes: nat, sha: string)
    requires Unbroken(count) && IsSha(sha) && WithinLimit(py, Decimal(1)) && WithinLimit(py, Decimal(bytes))
    ensures var row := ParseRow(py, "a\t" + count + "\t0\t" + sha, {});
            ParseText(py, OneRow(count, bytes, sha))
            == if row.Ok? then Ok(Parsed([row.value], bytes, sha)) else if row.Error? then Error(row.error) else ValueError
  {
    var line := "a\t" + count + "\t0\t" + sha;
    AggregateRoundTrip(py, 1, bytes, sha);
    OneRowLines(count, bytes, sha);
    IntOfDecimal(py, 1);
    IntOfDecimal(py, bytes);
    hide OneRow, Keep, SplitLines, IsComment, Blank, Unbroken, ParseAggregate, ParseRow, Int, WithinLimit, Decimal,
      AggregateLine, IsSha, AllDigits;
    if ParseRow(py, line, {}).Ok? {
      ParseOne(py, line, {});
      SortOne(ParseRow(py, line, {}).value);
    }
  }

  /**
    A count written as one digit beyond ASCII passes the digit test; what becomes of the whole
    manifest is up to `int`.
   */
  lemma ForeignDigit(py: Python, c: char, bytes: nat, sha: string)
    requires c >= '\U{80}' && py.digit(c) && !IsLineBreak(c) && IsSha(sha)
    requires WithinLimit(py, "0") && WithinLimit(py, Decimal(1)) && WithinLimit(py, Decimal(bytes))
    ensures Parse(py, Utf8Text(OneRow([c], bytes, sha)))
         == match py.convert([c]) case None => ValueError case Some(n) => Ok(Parsed([Row("a", n, 0, sha)], bytes, sha))
  {
    hide ParseText, ParseRow, OneRow, StartsWithBom, WithinLimit, Decimal, IsSha, IsLineBreak;
    OneRowHeader([c], bytes, sha);
    OneRowParses(py, [c], bytes, sha);
    ForeignRow(py, c, sha);
  }

  /** A manifest whose one row counts a superscript two of bytes ends the parser with an exception. */
  lemma SuperscriptRaises(py: Python)
    requires py.digit('\U{b2}') && py.convert("\U{b2}") == None
    requires WithinLimit(py, "0") && WithinLimit(py, Decimal(1)) && WithinLimit(py, Decimal(0))
    ensures Parse(py, Utf8Text(OneRow("\U{b2}", 0, ZEROS))).ValueError?
  {
    ForeignDigit(py, '\U{b2}', 0, ZEROS);
    assert ['\U{b2}'] == "\U{b2}";
  }

  // ----- the verdict -----

  /** What a GET of one file gives: the bytes of a 200, a 404, or anything else. */
  datatype Response = Body(data: seq<nat>) | NotFound | Unreachable

  function CountLf(data: seq<nat>): nat {
    if data == [] then 0 else (if data[0] == 10 then 1 else 0) + CountLf(data[1..])
  }

  /** The number of line feed bytes. */
  lemma {:induction false} CountLfMeans(data: seq<nat>)
    ensures CountLf(data) == multiset(data)[10]
  {
    if data != [] {
      assert data == [data[0]] + data[1..];
      CountLfMeans(data[1..]);
    }
  }

  /** `measure`. */
  function Measure(digest: seq<nat> -> string, name: string, data: seq<nat>): Row {
    Row(name, |data|, CountLf(data), digest(data))
  }

  datatype Finding =
    | RowMissing(name: string)
    | RowExtra(name: string)
    | ServedMissing(name: string)
    | FileBytes(name: string, served: nat, recorded: nat)
    | FileLf(name: string, served: nat, recorded: nat)
    | FileSha(name: string, servedSha: string, recordedSha: string)
    | AggregateBytes(actual: nat, claimed: nat)
    | AggregateSha(actualSha: string, claimedSha: string)
    | Transport(name: string)

  /** The rows name exactly the required files, and each file is served as its row says. */
  ghost predicate SameFiles(rows: seq<Row>, required: seq<string>, fetch: string -> Response, digest: seq<nat> -> string) {
    && (forall name :: name in required <==> name in Names(rows))
    && (forall r :: r in rows ==> fetch(r.name).Body? && Measure(digest, r.name, fetch(r.name).data) == r)
  }

  /** The manifest agrees with the required names, the served bytes and its own aggregate. */
  ghost predicate Agrees(m: Parsed, required: seq<string>, fetch: string -> Response, digest: seq<nat> -> string) {
    && SameFiles(m.rows, required, fetch, digest)
    && m.aggBytes == |Serialize(m.rows)| && m.aggSha == digest(Serialize(m.rows))
  }

  /** `{row.name: row for row in rows}`. */
  method Record(rows: seq<Row>) returns (recorded: map<string, Row>)
    requires Distinct(NameOf, rows)
    ensures forall r :: r in rows ==> r.name in recorded && recorded[r.name] == r
    ensures recorded.Keys == Names(rows)
  {
    recorded := map[];
    for i := 0 to |rows|
      invariant forall k :: 0 <= k < i ==> rows[k].name in recorded && recorded[rows[k].name] == rows[k]
      invariant forall name :: name in recorded ==> name in Names(rows)
    {
      assert forall k :: 0 <= k < i ==> NameOf(rows[k]) != NameOf(rows[i]);
      assert rows[i] in rows;
      recorded := recorded[rows[i].name := rows[i]];
    }
  }

  /** A finding about the two sets of names. */
  ghost predicate RowSetFinding(f: Finding, required: seq<string>, recorded: map<string, Row>) {
    || (f.RowMissing? && f.name in required && f.name !in recorded)
    || (f.RowExtra? && f.name in recorded && f.name !in required)
  }

  /** The row-set findings: required names without a row, then rows outside the required set. */
  method RowSetFindings(required: seq<string>, recorded: map<string, Row>) returns (findings: seq<Finding>)
    ensures forall f :: f in findings <==> RowSetFinding(f, required, recorded)
    ensures findings == [] <==> forall name :: name in required <==> name in recorded.Keys
  {
    findings := [];
    for i := 0 to |required|
      invariant forall f :: f in findings <==> f.RowMissing? && f.name in required[..i] && f.name !in recorded
    {
      assert required[..i + 1] == required[..i] + [required[i]];
      if required[i] !in recorded {
        findings := findings + [RowMissing(required[i])];
      }
    }
    assert required[..|required|] == required;
    var left := recorded.Keys;
    while left != {}
      invariant left <= recorded.Keys
      invariant forall f :: f in findings <==>
                  || (f.RowMissing? && f.name in required && f.name !in recorded)
                  || (f.RowExtra? && f.name in recorded.Keys - left && f.name !in required)
      decreases |left|
    {
      var name :| name in left;
      if name !in required {
        findings := findings + [RowExtra(name)];
      }
      left := left - {name};
    }
    assert forall name :: name in required && name !in recorded ==> RowMissing(name) in findings;
    assert forall name :: name in recorded && name !in required ==> RowExtra(name) in findings;
    if findings != [] {
      assert RowSetFinding(findings[0], required, recorded);
    }
  }

  /** A finding about a served row that differs from its record: which value, as served and as recorded. */
  ghost predicate RowFinding(f: Finding, row: Row, expected: Row) {
    || (f == FileBytes(row.name, row.nbytes, expected.nbytes) && row.nbytes != expected.nbytes)
    || (f == FileLf(row.name, row.nlf, expected.nlf) && row.nlf != expected.nlf)
    || (f == FileSha(row.name, row.sha256, expected.sha256) && row.sha256 != expected.sha256)
  }

  /** The three comparisons of one served row with its recorded row. */
  method CompareRow(row: Row, expected: Row) returns (findings: seq<Finding>)
    requires expected.name == row.name
    ensures forall f :: f in findings <==> RowFinding(f, row, expected)
    ensures findings == [] <==> row == expected
  {
    findings := [];
    if row.nbytes != expected.nbytes {
      findings := findings + [FileBytes(row.name, row.nbytes, expected.nbytes)];
    }
    if row.nlf != expected.nlf {
      findings := findings + [FileLf(row.name, row.nlf, expected.nlf)];
    }
    if row.sha256 != expected.sha256 {
      findings := findings + [FileSha(row.name, row.sha256, expected.sha256)];
    }
  }

  /** `per_file_findings`: each served row against its recorded row, value by value. */
  method PerFileFindings(served: seq<Row>, recorded: map<string, Row>) returns (findings: seq<Finding>)
    requires forall name :: name in recorded ==> recorded[name].name == name
    ensures forall f :: f in findings <==> exists r :: r in served && r.name in recorded && RowFinding(f, r, recorded[r.name])
    ensures findings == [] <==> forall r :: r in served && r.name in recorded ==> recorded[r.name] == r
  {
    hide Sort, RowFinding;
    var ordered := Sort(NameOf, served);
    findings := [];
    for i := 0 to |ordered|
      invariant forall f :: f in findings <==>
                  exists r :: r in ordered[..i] && r.name in recorded && RowFinding(f, r, recorded[r.name])
      invariant findings == [] <==>
                forall k :: 0 <= k < i && ordered[k].name in recorded ==> recorded[ordered[k].name] == ordered[k]
    {
      assert ordered[..i + 1] == ordered[..i] + [ordered[i]];
      if ordered[i].name in recorded {
        var differing := CompareRow(ordered[i], recorded[ordered[i].name]);
        findings := findings + differing;
      }
    }
    assert ordered[..|ordered|] == ordered;
    SameMembers(served, ordered);
  }

  lemma SameMembers(a: seq<Row>, b: seq<Row>)
    requires multiset(a) == multiset(b)
    ensures forall r :: r in a <==> r in b
  {
    forall r ensures r in a <==> r in b {
      assert r in a <==> r in multiset(a);
      assert r in b <==> r in multiset(b);
    }
  }

  /** The fetch loop: what each required file measures, and which could not be read. */
  method FetchAll(required: seq<string>, fetch: string -> Response, digest: seq<nat> -> string)
    returns (served: seq<Row>, missing: seq<Finding>, transport: seq<Finding>)
    requires Distinct(SameName, required)
    ensures AreServed(served, required, fetch, digest)
    ensures forall f :: f in transport <==> f.Transport? && f.name in required && fetch(f.name).Unreachable?
    ensures forall f :: f in missing <==> f.ServedMissing? && f.name in required && fetch(f.name).NotFound?
    ensures transport == [] <==> forall name :: name in required ==> !fetch(name).Unreachable?
    ensures missing == [] <==> forall name :: name in required ==> !fetch(name).NotFound?
  {
    served, missing, transport := [], [], [];
    for i := 0 to |required|
      invariant Distinct(NameOf, served)
      invariant forall r :: r in served <==>
                  r.name in required[..i] && fetch(r.name).Body? && r == Measure(digest, r.name, fetch(r.name).data)
      invariant forall f :: f in transport <==> f.Transport? && f.name in required[..i] && fetch(f.name).Unreachable?
      invariant forall f :: f in missing <==> f.ServedMissing? && f.name in required[..i] && fetch(f.name).NotFound?
      invariant transport == [] <==> forall k :: 0 <= k < i ==> !fetch(required[k]).Unreachable?
      invariant missing == [] <==> forall k :: 0 <= k < i ==> !fetch(required[k]).NotFound?
    {
      var name := required[i];
      assert required[..i + 1] == required[..i] + [name];
      assert name !in required[..i] by {
        assert forall k :: 0 <= k < i ==> SameName(required[k]) != SameName(name);
      }
      match fetch(name) {
        case Body(data) =>
          assert forall k :: 0 <= k < |served| ==> served[k] in served;
          served := served + [Measure(digest, name, data)];
        case NotFound =>
          missing := missing + [ServedMissing(name)];
        case Unreachable =>
          transport := transport + [Transport(name)];
      }
    }
    assert required[..|required|] == required;
  }

  /** The rows that a complete fetch of these names yields. */
  ghost predicate AreServed(served: seq<Row>, names: seq<string>, fetch: string -> Response, digest: seq<nat> -> string) {
    && Distinct(NameOf, served)
    && forall r :: r in served <==> r.name in names && fetch(r.name).Body? && r == Measure(digest, r.name, fetch(r.name).data)
  }

  lemma {:induction false} SameElements(a: seq<Row>, b: seq<Row>)
    requires Distinct(NameOf, a) && Distinct(NameOf, b) && forall r :: r in a <==> r in b
    ensures multiset(a) == multiset(b)
  {
    forall r ensures multiset(a)[r] == multiset(b)[r] {
      if r in a {
        var i :| 0 <= i < |a| && a[i] == r;
        var j :| 0 <= j < |b| && b[j] == r;
        OnceCounted(NameOf, a, i);
        OnceCounted(NameOf, b, j);
      } else {
        assert r !in multiset(a) && r !in multiset(b);
      }
    }
  }

  /** No finding before the aggregate means the same files, and then the same serialization. */
  lemma NoFindingMeansSame(rows: seq<Row>, required: seq<string>, recorded: map<string, Row>, served: seq<Row>,
                           fetch: string -> Response, digest: seq<nat> -> string)
    requires Distinct(NameOf, rows) && recorded.Keys == Names(rows)
    requires forall r :: r in rows ==> r.name in recorded && recorded[r.name] == r
    requires AreServed(served, required, fetch, digest)
    requires forall name :: name in required ==> !fetch(name).Unreachable?
    ensures SameFiles(rows, required, fetch, digest) <==>
              && (forall name :: name in required <==> name in recorded.Keys)
              && (forall name :: name in required ==> !fetch(name).NotFound?)
              && (forall r :: r in served && r.name in recorded ==> recorded[r.name] == r)
    ensures SameFiles(rows, required, fetch, digest) ==>
              Names(served) == Names(rows) && Serialize(served) == Serialize(rows)
  {
    hide Serialize, Measure, Distinct;
    if SameFiles(rows, required, fetch, digest) {
      forall r ensures r in served <==> r in rows {
        if r in served {
          var other :| other in rows && other.name == r.name;
        }
      }
      SameElements(rows, served);
      SerializeForgetsOrder(rows, served);
    }
    if (forall name :: name in required <==> name in recorded.Keys)
       && (forall name :: name in required ==> !fetch(name).NotFound?)
       && (forall r :: r in served && r.name in recorded ==> recorded[r.name] == r)
    {
      forall r | r in rows
        ensures fetch(r.name).Body? && Measure(digest, r.name, fetch(r.name).data) == r
      {
        assert r.name in recorded.Keys && r.name in required;
        var row := Measure(digest, r.name, fetch(r.name).data);
        assert MeasuredName(digest, r.name, fetch(r.name).data) == r.name;
        assert row in served && recorded[row.name] == row;
      }
    }
  }

  /** When every answer is a body or a 404, a name without a row was a 404. */
  lemma UnservedIsMissing(names: seq<string>, served: seq<Row>, fetch: string -> Response, digest: seq<nat> -> string)
    requires AreServed(served, names, fetch, digest) && Names(served) != set name | name in names
    requires forall name :: name in names ==> !fetch(name).Unreachable?
    ensures exists name :: name in names && fetch(name).NotFound?
  {
    hide Measure, Distinct;
    if forall name :: name in names ==> !fetch(name).NotFound? {
      forall name | name in names ensures name in Names(served) {
        var row := Measure(digest, name, fetch(name).data);
        assert MeasuredName(digest, name, fetch(name).data) == name;
        assert row in served;
      }
    }
  }

  function MeasuredName(digest: seq<nat> -> string, name: string, data: seq<nat>): (n: string)
    ensures n == name && Measure(digest, name, data).name == name
  {
    Measure(digest, name, data).name
  }

  /** Everything `verify` can report about a parsed manifest, and when. */
  ghost predicate Reportable(f: Finding, m: Parsed, required: seq<string>, fetch: string -> Response, digest: seq<nat> -> string) {
    match f
    case RowMissing(name) => name in required && name !in Names(m.rows)
    case RowExtra(name) => name in Names(m.rows) && name !in required
    case ServedMissing(name) => name in required && fetch(name).NotFound?
    case Transport(name) => name in required && fetch(name).Unreachable?
    case AggregateBytes(actual, claimed) =>
      claimed == m.aggBytes && exists served :: AllServed(served, required, fetch, digest) && actual == |Serialize(served)| != claimed
    case AggregateSha(actual, claimed) =>
      claimed == m.aggSha && exists served :: AllServed(served, required, fetch, digest) && actual == digest(Serialize(served)) != claimed
    case _ =>
      exists r :: r in m.rows && r.name in required && fetch(r.name).Body?
                  && RowFinding(f, Measure(digest, r.name, fetch(r.name).data), r)
  }

  /** The measured rows of a site that serves every required file. */
  ghost predicate AllServed(served: seq<Row>, required: seq<string>, fetch: string -> Response, digest: seq<nat> -> string) {
    AreServed(served, required, fetch, digest) && forall name :: name in required ==> fetch(name).Body?
  }

  /** What is found before the aggregate is compared. */
  lemma ReportedSoFar(m: Parsed, required: seq<string>, names: seq<string>, recorded: map<string, Row>, served: seq<Row>,
                      fetch: string -> Response, digest: seq<nat> -> string, rowSet: seq<Finding>, missing: seq<Finding>,
                      differing: seq<Finding>, transport: seq<Finding>, f: Finding)
    requires forall name :: name in names <==> name in required
    requires recorded.Keys == Names(m.rows) && forall r :: r in m.rows ==> r.name in recorded && recorded[r.name] == r
    requires AreServed(served, names, fetch, digest)
    requires f in rowSet <==> RowSetFinding(f, names, recorded)
    requires f in missing <==> f.ServedMissing? && f.name in names && fetch(f.name).NotFound?
    requires f in differing <==> exists r :: r in served && r.name in recorded && RowFinding(f, r, recorded[r.name])
    requires f in transport <==> f.Transport? && f.name in names && fetch(f.name).Unreachable?
    ensures f in rowSet + missing + differing + transport <==>
              Reportable(f, m, required, fetch, digest) && !f.AggregateBytes? && !f.AggregateSha?
  {
    hide Measure, Distinct, Serialize, RowFinding;
    RowFindingKinds(f);
    if f in differing {
      var r :| r in served && r.name in recorded && RowFinding(f, r, recorded[r.name]);
      var other :| other in m.rows && other.name == r.name;
      assert recorded[r.name] == other;
    }
    if r :| r in m.rows && r.name in required && fetch(r.name).Body?
            && RowFinding(f, Measure(digest, r.name, fetch(r.name).data), r)
    {
      var row := Measure(digest, r.name, fetch(r.name).data);
      assert MeasuredName(digest, r.name, fetch(r.name).data) == r.name;
      assert row in served;
    }
  }

  lemma RowFindingKinds(f: Finding)
    ensures forall row, expected :: RowFinding(f, row, expected) ==> f.FileBytes? || f.FileLf? || f.FileSha?
  {
  }

  lemma NoAggregate(m: Parsed, required: seq<string>, names: seq<string>, fetch: string -> Response, digest: seq<nat> -> string)
    requires forall name :: name in names <==> name in required
    requires exists name :: name in names && !fetch(name).Body?
    ensures forall f: Finding :: f.AggregateBytes? || f.AggregateSha? ==> !Reportable(f, m, required, fetch, digest)
  {
    hide AreServed, Serialize;
  }

  lemma AggregateReported(m: Parsed, required: seq<string>, names: seq<string>, served: seq<Row>,
                          fetch: string -> Response, digest: seq<nat> -> string, f: Finding)
    requires forall name :: name in names <==> name in required
    requires AreServed(served, names, fetch, digest) && Names(served) == set name | name in names
    requires f.AggregateBytes? || f.AggregateSha?
    ensures Reportable(f, m, required, fetch, digest) <==>
              || (f == AggregateBytes(|Serialize(served)|, m.aggBytes) && |Serialize(served)| != m.aggBytes)
              || (f == AggregateSha(digest(Serialize(served)), m.aggSha) && digest(Serialize(served)) != m.aggSha)
  {
    hide Serialize, Measure, Distinct;
    forall name | name in required ensures fetch(name).Body? {
      assert name in Names(served);
    }
    assert AllServed(served, required, fetch, digest);
    forall other | AllServed(other, required, fetch, digest) ensures Serialize(other) == Serialize(served) {
      SameElements(other, served);
      SerializeForgetsOrder(other, served);
    }
    hide AllServed;
  }

  /** The comparison of the served serialization with what the manifest's own comment claims. */
  method AggregateFindings(m: Parsed, served: seq<Row>, digest: seq<nat> -> string) returns (findings: seq<Finding>)
    ensures forall f: Finding :: f in findings <==>
              || (f == AggregateBytes(|Serialize(served)|, m.aggBytes) && |Serialize(served)| != m.aggBytes)
              || (f == AggregateSha(digest(Serialize(served)), m.aggSha) && digest(Serialize(served)) != m.aggSha)
    ensures findings == [] <==> m.aggBytes == |Serialize(served)| && m.aggSha == digest(Serialize(served))
  {
    hide Serialize;
    findings := [];
    var serialized := Serialize(served);
    var actual := digest(serialized);
    if |serialized| != m.aggBytes {
      findings := findings + [AggregateBytes(|serialized|, m.aggBytes)];
    }
    if actual != m.aggSha {
      findings := findings + [AggregateSha(actual, m.aggSha)];
    }
  }

  /** What the files give: the served rows, the findings before the aggregate, and the unreadable files. */
  method FileFindings(m: Parsed, required: seq<string>, names: seq<string>, fetch: string -> Response, digest: seq<nat> -> string)
    returns (served: seq<Row>, findings: seq<Finding>, transport: seq<Finding>)
    requires WellListed(m.rows) && Distinct(SameName, names) && forall name :: name in names <==> name in required
    ensures AreServed(served, names, fetch, digest)
    ensures transport == [] <==> forall name :: name in names ==> !fetch(name).Unreachable?
    ensures transport == [] ==> (findings == [] <==> SameFiles(m.rows, names, fetch, digest))
    ensures transport == [] && findings == [] ==> Names(served) == Names(m.rows) && Serialize(served) == Serialize(m.rows)
    ensures (exists name :: name in names && fetch(name).NotFound?) ==> findings != []
    ensures forall f: Finding :: f in findings + transport <==>
              Reportable(f, m, required, fetch, digest) && !f.AggregateBytes? && !f.AggregateSha?
    ensures forall f: Finding :: f in findings ==> !f.AggregateBytes? && !f.AggregateSha?
  {
    hide Serialize, Measure, SameFiles, Distinct, AreServed, RowSetFinding, RowFinding, Reportable, Sort, GoodRow;
    var recorded := Record(m.rows);
    var rowSet := RowSetFindings(names, recorded);
    var missing;
    served, missing, transport := FetchAll(names, fetch, digest);
    var differing := PerFileFindings(served, recorded);
    findings := rowSet + missing + differing;
    if transport == [] {
      NoFindingMeansSame(m.rows, names, recorded, served, fetch, digest);
    }
    forall f: Finding
      ensures f in findings + transport <==> Reportable(f, m, required, fetch, digest) && !f.AggregateBytes? && !f.AggregateSha?
    {
      ReportedSoFar(m, required, names, recorded, served, fetch, digest, rowSet, missing, differing, transport, f);
    }
    assert forall f: Finding :: f in findings ==> f in findings + transport;
  }

  /** `verify` and the exit code `main` makes of it, 0 to 3; the exception nothing catches ends the process with 1. */
  method Verify(py: Python, raw: Raw, required: seq<string>, fetch: string -> Response, digest: seq<nat> -> string)
    returns (code: nat, findings: seq<Finding>)
    ensures code <= 3
    ensures code == 2 <==> Parse(py, raw).Error?
    ensures code == 1 && findings == [] <==> Parse(py, raw).ValueError?
    ensures code == 3 <==> Parse(py, raw).Ok? && exists name :: name in required && fetch(name).Unreachable?
    ensures code == 0 <==> Parse(py, raw).Ok? && Agrees(Parse(py, raw).value, required, fetch, digest)
    ensures Parse(py, raw).Ok? ==>
              forall f: Finding :: f in findings <==> Reportable(f, Parse(py, raw).value, required, fetch, digest)
  {
    hide Parse, Serialize, Measure, SameFiles, Distinct, Reportable, AreServed, WellListed;
    var parsed := ParseManifest(py, raw);
    if parsed.Error? {
      return 2, [];
    }
    if parsed.ValueError? {
      return 1, [];
    }
    var m := parsed.value;
    ParsedIsGood(py, raw);
    var names := SortedSet(required);
    var served, transport;
    served, findings, transport := FileFindings(m, required, names, fetch, digest);
    SameFilesOfSet(m.rows, names, required, fetch, digest);
    if transport != [] {
      NoAggregate(m, required, names, fetch, digest);
      return 3, findings + transport;
    }
    assert findings + transport == findings;
    if Names(served) != (set name | name in names) {
      UnservedIsMissing(names, served, fetch, digest);
      NoAggregate(m, required, names, fetch, digest);
      return 1, findings;
    }
    forall f: Finding | f.AggregateBytes? || f.AggregateSha?
      ensures Reportable(f, m, required, fetch, digest) <==>
                || (f == AggregateBytes(|Serialize(served)|, m.aggBytes) && |Serialize(served)| != m.aggBytes)
                || (f == AggregateSha(digest(Serialize(served)), m.aggSha) && digest(Serialize(served)) != m.aggSha)
    {
      AggregateReported(m, required, names, served, fetch, digest, f);
    }
    var aggregate := AggregateFindings(m, served, digest);
    findings := findings + aggregate;
    code := if findings != [] then 1 else 0;
  }

  /** A site that serves what its publisher measured passes against the manifest its publisher wrote. */
  lemma PublishedSiteAgrees(py: Python, rows: seq<Row>, required: seq<string>, fetch: string -> Response, digest: seq<nat> -> string)
    requires Publishable(rows) && IsSha(digest(Serialize(rows))) && NumbersFit(py, rows, |Serialize(rows)|)
    requires SameFiles(rows, required, fetch, digest)
    ensures var raw := Utf8Text(ManifestText(rows, |Serialize(rows)|, digest(Serialize(rows))));
            Parse(py, raw).Ok? && Agrees(Parse(py, raw).value, required, fetch, digest)
  {
    hide Parse, IsSha, GoodRow, Measure, ManifestText, Sort, Distinct, StartsWithBom, Concat, Utf8;
    var sorted := Sort(NameOf, rows);
    ManifestRoundTrip(py, rows, |Serialize(rows)|, digest(Serialize(rows)));
    SortTwice(rows);
    SameMembers(rows, sorted);
  }

  lemma SameFilesOfSet(rows: seq<Row>, names: seq<string>, required: seq<string>,
                       fetch: string -> Response, digest: seq<nat> -> string)
    requires forall name :: name in names <==> name in required
    ensures SameFiles(rows, names, fetch, digest) <==> SameFiles(rows, required, fetch, digest)
    ensures SameFiles(rows, names, fetch, digest) ==> Names(rows) == set name | name in names
    ensures SameFiles(rows, names, fetch, digest) ==> forall name :: name in names ==> !fetch(name).Unreachable?
  {
    if SameFiles(rows, names, fetch, digest) {
      forall name | name in names ensures !fetch(name).Unreachable? {
        assert name in Names(rows);
      }
    }
  }
}
