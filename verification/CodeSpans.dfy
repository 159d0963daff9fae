/**
  Blanking inline code spans, from scripts/ci/check-markdown-links.py.

  A code span is a maximal run of backticks paired with the nearest later maximal run of the
  same length (section 6.1 of CommonMark 0.31). `Pairing` says what a correct set of spans is
  without saying how to find it; it has exactly one solution for every text.
 */
module CodeSpans {

  const TICK := '`'

  /** The span that opens at `open` and closes with the run at `close`, both `len` backticks long. */
  datatype Span = Span(open: nat, close: nat, len: nat) {
    predicate Covers(i: int) {
      open <= i < close + len
    }
  }

  /** `n` backticks stand at `i`, perhaps inside a longer run. */
  predicate TicksAt(text: string, i: int, n: int) {
    0 <= i && 1 <= n && i + n <= |text| && forall k :: i <= k < i + n ==> text[k] == TICK
  }

  /** A maximal run of exactly `n` backticks starts at `i`. */
  ghost predicate RunAt(text: string, i: int, n: int) {
    && TicksAt(text, i, n)
    && (i == 0 || text[i - 1] != TICK)
    && (i + n == |text| || text[i + n] != TICK)
  }

  /** The first maximal run of `n` backticks at or behind `start` is at `c`. */
  ghost predicate NearestRun(text: string, start: int, n: int, c: int) {
    && start <= c && RunAt(text, c, n)
    && forall j :: start <= j < c ==> !RunAt(text, j, n)
  }

  /** A later maximal run could close the run of `n` backticks at `i`. */
  ghost predicate HasCloser(text: string, i: int, n: int) {
    exists j :: i + n <= j && RunAt(text, j, n)
  }

  ghost predicate Inside(spans: seq<Span>, i: int) {
    exists k :: 0 <= k < |spans| && spans[k].Covers(i)
  }

  ghost predicate IsSpan(text: string, s: Span) {
    RunAt(text, s.open, s.len) && NearestRun(text, s.open + s.len, s.len, s.close)
  }

  /** Ordered, disjoint, and each a run with its nearest closer. */
  ghost predicate AreSpans(text: string, from: int, spans: seq<Span>) {
    && (forall k :: 0 <= k < |spans| ==> IsSpan(text, spans[k]) && from <= spans[k].open)
    && (forall k, l :: 0 <= k < l < |spans| ==> spans[k].close + spans[k].len <= spans[l].open)
  }

  /** No run outside the spans has a later run of its length to pair with. */
  ghost predicate NothingUnpaired(text: string, from: int, spans: seq<Span>) {
    forall i, n {:trigger HasCloser(text, i, n)} ::
      from <= i && RunAt(text, i, n) && HasCloser(text, i, n) ==> Inside(spans, i)
  }

  /** `spans` are the code spans of `text` at and behind `from`. */
  ghost predicate Pairing(text: string, from: int, spans: seq<Span>) {
    AreSpans(text, from, spans) && NothingUnpaired(text, from, spans)
  }

  /** A position starts at most one maximal run. */
  lemma RunLengthUnique(text: string, i: int, n: int, m: int)
    requires RunAt(text, i, n) && RunAt(text, i, m)
    ensures n == m
  {
    assert i + n < |text| ==> text[i + n] != TICK;
    assert i + m < |text| ==> text[i + m] != TICK;
  }

  lemma BeforeFirst(text: string, from: int, spans: seq<Span>, i: int)
    requires Pairing(text, from, spans) && (spans == [] || i < spans[0].open)
    ensures !Inside(spans, i)
  {
    forall k | 0 <= k < |spans| ensures !spans[k].Covers(i) {
      assert k > 0 ==> spans[0].close + spans[0].len <= spans[k].open;
      assert IsSpan(text, spans[0]);
    }
  }

  /** Two pairings of one text agree on the first span, if either has one. */
  lemma FirstSpanAgrees(text: string, from: int, x: seq<Span>, y: seq<Span>)
    requires Pairing(text, from, x) && Pairing(text, from, y) && x != []
    ensures y != [] && y[0].open <= x[0].open
  {
    var s := x[0];
    assert IsSpan(text, s);
    assert HasCloser(text, s.open, s.len);
    if y == [] || s.open < y[0].open {
      BeforeFirst(text, from, y, s.open);
    }
  }

  lemma SameFirstSpan(text: string, from: int, x: seq<Span>, y: seq<Span>)
    requires Pairing(text, from, x) && Pairing(text, from, y) && x != []
    ensures y != [] && x[0] == y[0]
  {
    FirstSpanAgrees(text, from, x, y);
    FirstSpanAgrees(text, from, y, x);
    assert IsSpan(text, x[0]) && IsSpan(text, y[0]);
    RunLengthUnique(text, x[0].open, x[0].len, y[0].len);
  }

  lemma PairingTail(text: string, from: int, spans: seq<Span>)
    requires Pairing(text, from, spans) && spans != []
    ensures Pairing(text, spans[0].close + spans[0].len, spans[1..])
  {
    var rest, end := spans[1..], spans[0].close + spans[0].len;
    assert forall k :: 0 <= k < |rest| ==> rest[k] == spans[k + 1];
    assert IsSpan(text, spans[0]);
    forall i | end <= i
      ensures Inside(spans, i) ==> Inside(rest, i)
    {
      InsideSplit(spans, i);
    }
  }

  lemma InsideSplit(spans: seq<Span>, i: int)
    requires spans != []
    ensures Inside(spans, i) <==> spans[0].Covers(i) || Inside(spans[1..], i)
  {
    assert forall k :: 0 < k < |spans| ==> spans[k] == spans[1..][k - 1];
    if Inside(spans[1..], i) {
      var k :| 0 <= k < |spans[1..]| && spans[1..][k].Covers(i);
      assert spans[k + 1].Covers(i);
    }
  }

  /** The pairing of a text is unique. */
  lemma {:induction false} PairingUnique(text: string, from: int, x: seq<Span>, y: seq<Span>)
    requires Pairing(text, from, x) && Pairing(text, from, y)
    ensures x == y
    decreases |x|
  {
    if x == [] {
      if y != [] {
        FirstSpanAgrees(text, from, y, x);
      }
    } else {
      SameFirstSpan(text, from, x, y);
      PairingTail(text, from, x);
      PairingTail(text, from, y);
      PairingUnique(text, x[0].close + x[0].len, x[1..], y[1..]);
      assert x == [x[0]] + x[1..] && y == [y[0]] + y[1..];
    }
  }

  lemma RunsDoNotNest(text: string, i: int, n: int, p: int, m: int)
    requires RunAt(text, i, n) && RunAt(text, p, m) && i <= p < i + n
    ensures p == i && m == n
  {
    assert p > 0 ==> text[p - 1] != TICK;
    RunLengthUnique(text, i, n, m);
  }

  // ----- blanking -----

  /** Every covered character except a line feed becomes a space; nothing else changes. */
  ghost function Blanked(text: string, spans: seq<Span>): (out: string)
    ensures |out| == |text|
    ensures forall i :: 0 <= i < |text| ==>
              out[i] == if Inside(spans, i) && text[i] != '\n' then ' ' else text[i]
  {
    seq(|text|, i requires 0 <= i < |text| => if Inside(spans, i) && text[i] != '\n' then ' ' else text[i])
  }

  /** `text.find("`" * run, probe)`. */
  method FindTicks(text: string, probe: nat, run: nat) returns (found: int)
    requires 1 <= run
    ensures found == -1 || (probe <= found && TicksAt(text, found, run))
    ensures forall j :: probe <= j && (found == -1 || j < found) ==> !TicksAt(text, j, run)
  {
    found := probe;
    while found + run <= |text|
      invariant probe <= found
      invariant forall j :: probe <= j < found ==> !TicksAt(text, j, run)
      decreases |text| - found
    {
      if TicksAt(text, found, run) {
        return;
      }
      found := found + 1;
    }
    found := -1;
  }

  /** `matching_run`: the nearest run of exactly `run` backticks, or -1. */
  method MatchingRun(text: string, start: nat, run: nat) returns (found: int)
    requires 1 <= run
    ensures found == -1 ==> forall j :: start <= j ==> !RunAt(text, j, run)
    ensures found != -1 ==> NearestRun(text, start, run, found)
  {
    var probe := start;
    while true
      invariant start <= probe
      invariant forall j :: start <= j < probe ==> !RunAt(text, j, run)
      decreases |text| - probe
    {
      found := FindTicks(text, probe, run);
      if found < 0 {
        return;
      }
      var after := found + run;
      var intactBefore := found == 0 || text[found - 1] != TICK;
      var intactAfter := after >= |text| || text[after] != TICK;
      if intactBefore && intactAfter {
        return;
      }
      probe := found + 1;
    }
  }

  /** The loop that measures the run at `index`. */
  method RunLength(text: string, index: nat) returns (run: nat)
    requires index < |text| && text[index] == TICK && (index == 0 || text[index - 1] != TICK)
    ensures RunAt(text, index, run)
  {
    run := 0;
    while index + run < |text| && text[index + run] == TICK
      invariant index + run <= |text|
      invariant run == 0 || TicksAt(text, index, run)
    {
      run := run + 1;
    }
  }

  /** The loop over one span's positions. */
  method BlankRange(text: string, blanked: array<char>, ghost done: seq<Span>, span: Span)
    requires span.open <= span.close && span.close + span.len <= |text|
    requires blanked[..] == Blanked(text, done)
    modifies blanked
    ensures blanked[..] == Blanked(text, done + [span])
  {
    assert |blanked[..]| == |text|;
    assert forall i :: 0 <= i < |text| ==> blanked[..][i] == blanked[i];
    for position := span.open to span.close + span.len
      invariant forall i :: 0 <= i < |text| ==>
                  blanked[i] == if (Inside(done, i) || span.open <= i < position) && text[i] != '\n' then ' ' else text[i]
    {
      if blanked[position] != '\n' {
        blanked[position] := ' ';
      }
    }
    forall i | 0 <= i < |text|
      ensures blanked[i] == Blanked(text, done + [span])[i]
    {
      InsideAppend(done, span, i);
    }
  }

  /** Every run below `index` lies in a span of `done` or has no partner. */
  ghost predicate SettledBelow(text: string, index: int, done: seq<Span>) {
    forall i, n {:trigger HasCloser(text, i, n)} ::
      0 <= i < index && RunAt(text, i, n) && HasCloser(text, i, n) ==> Inside(done, i)
  }

  ghost predicate AllEndBy(done: seq<Span>, index: int) {
    forall k :: 0 <= k < |done| ==> done[k].close + done[k].len <= index
  }

  /** The scan is at `index`, between two runs, and `done` are the spans below it. */
  ghost predicate ScannedTo(text: string, index: int, done: seq<Span>) {
    && 0 <= index <= |text| && (0 < index < |text| ==> text[index - 1] != TICK || text[index] != TICK)
    && AreSpans(text, 0, done) && AllEndBy(done, index) && SettledBelow(text, index, done)
  }

  lemma UnmatchedTurn(text: string, index: nat, run: nat, done: seq<Span>)
    requires ScannedTo(text, index, done) && RunAt(text, index, run) && !HasCloser(text, index, run)
    ensures ScannedTo(text, index + run, done)
  {
    forall i, n | index <= i < index + run && RunAt(text, i, n)
      ensures !HasCloser(text, i, n)
    {
      RunsDoNotNest(text, index, run, i, n);
    }
  }

  lemma MatchedTurn(text: string, done: seq<Span>, span: Span)
    requires ScannedTo(text, span.open, done) && IsSpan(text, span)
    ensures ScannedTo(text, span.close + span.len, done + [span])
  {
    forall i ensures Inside(done + [span], i) <==> Inside(done, i) || span.Covers(i) {
      InsideAppend(done, span, i);
    }
  }

  lemma PlainTurn(text: string, index: nat, done: seq<Span>)
    requires index < |text| && text[index] != TICK && ScannedTo(text, index, done)
    ensures ScannedTo(text, index + 1, done)
  {
    assert forall n :: !RunAt(text, index, n);
  }

  /** At the end of the text the scan has the pairing. */
  lemma ScanDone(text: string, done: seq<Span>)
    requires ScannedTo(text, |text|, done)
    ensures Pairing(text, 0, done)
  {
    assert forall i, n :: RunAt(text, i, n) ==> i < |text|;
  }

  /** What the loop body finds out at a run of backticks. */
  method NextSpan(text: string, index: nat, ghost done: seq<Span>) returns (span: Span, found: bool)
    requires index < |text| && text[index] == TICK && ScannedTo(text, index, done)
    ensures span.open == index && 1 <= span.len && index + span.len <= |text|
    ensures found ==> index < span.close && span.close + span.len <= |text| && ScannedTo(text, span.close + span.len, done + [span])
    ensures !found ==> ScannedTo(text, index + span.len, done)
  {
    var run := RunLength(text, index);
    var closer := MatchingRun(text, index + run, run);
    if closer < 0 {
      UnmatchedTurn(text, index, run, done);
      return Span(index, 0, run), false;
    }
    MatchedTurn(text, done, Span(index, closer, run));
    return Span(index, closer, run), true;
  }

  /** `blank_code_spans`, on a character buffer that is overwritten in place. */
  method BlankCodeSpans(text: string) returns (out: string)
    ensures exists spans :: Pairing(text, 0, spans) && out == Blanked(text, spans)
  {
    var blanked := new char[|text|](i requires 0 <= i < |text| => text[i]);
    ghost var spans: seq<Span> := [];
    var index := 0;
    assert ScannedTo(text, index, spans);
    assert blanked[..] == Blanked(text, spans);
    hide ScannedTo, Pairing, IsSpan, Blanked;
    while index < |text|
      invariant 0 <= index <= |text| && ScannedTo(text, index, spans)
      invariant blanked[..] == Blanked(text, spans)
    {
      if text[index] != TICK {
        PlainTurn(text, index, spans);
        index := index + 1;
      } else {
        var span, found := NextSpan(text, index, spans);
        if found {
          BlankRange(text, blanked, spans, span);
          index, spans := span.close + span.len, spans + [span];
        } else {
          index := index + span.len;
        }
      }
    }
    ScanDone(text, spans);
    out := blanked[..];
  }

  lemma InsideAppend(done: seq<Span>, span: Span, i: int)
    ensures Inside(done + [span], i) <==> Inside(done, i) || span.Covers(i)
  {
    var both := done + [span];
    assert both[|done|] == span;
    assert forall k :: 0 <= k < |done| ==> both[k] == done[k];
  }

  // ----- what the blanking preserves -----

  /** Spans begin and end at run boundaries, so blanking merges no runs and cuts none. */
  lemma SpanEdges(text: string, spans: seq<Span>, i: int)
    requires AreSpans(text, 0, spans) && 0 < i < |text|
    requires text[i - 1] == TICK && text[i] == TICK
    ensures Inside(spans, i - 1) <==> Inside(spans, i)
  {
    forall k | 0 <= k < |spans|
      ensures spans[k].Covers(i - 1) <==> spans[k].Covers(i)
    {
      assert IsSpan(text, spans[k]);
    }
  }

  /** The runs left after blanking are runs of the original text outside every span. */
  lemma SurvivingRun(text: string, spans: seq<Span>, i: int, n: int)
    requires AreSpans(text, 0, spans)
    requires RunAt(Blanked(text, spans), i, n)
    ensures RunAt(text, i, n) && !Inside(spans, i)
  {
    var out := Blanked(text, spans);
    assert out[i] == TICK && out[i + n - 1] == TICK;
    forall k | i <= k < i + n ensures text[k] == TICK {
      assert out[k] == TICK;
    }
    if i > 0 && text[i - 1] == TICK {
      SpanEdges(text, spans, i);
    }
    if i + n < |text| && text[i + n] == TICK {
      SpanEdges(text, spans, i + n);
    }
  }

  /** After blanking there is nothing left to pair. */
  lemma NothingLeftToPair(text: string, spans: seq<Span>)
    requires Pairing(text, 0, spans)
    ensures Pairing(Blanked(text, spans), 0, [])
  {
    var once := Blanked(text, spans);
    forall i, n | RunAt(once, i, n)
      ensures !HasCloser(once, i, n)
    {
      SurvivingRun(text, spans, i, n);
      assert !HasCloser(text, i, n);
      forall j | i + n <= j ensures !RunAt(once, j, n) {
        if RunAt(once, j, n) {
          SurvivingRun(text, spans, j, n);
        }
      }
    }
  }

  /** Blanking is idempotent, keeps the length, and keeps every line feed where it is. */
  lemma BlankingIdempotent(text: string, spans: seq<Span>, again: seq<Span>)
    requires Pairing(text, 0, spans) && Pairing(Blanked(text, spans), 0, again)
    ensures again == [] && Blanked(Blanked(text, spans), again) == Blanked(text, spans)
    ensures |Blanked(text, spans)| == |text|
    ensures forall i :: 0 <= i < |text| ==> (Blanked(text, spans)[i] == '\n' <==> text[i] == '\n')
  {
    NothingLeftToPair(text, spans);
    PairingUnique(Blanked(text, spans), 0, [], again);
  }

  lemma TwoRuns(text: string, i: int, n: int)
    requires text == "a `b` c"
    ensures RunAt(text, i, n) <==> (i == 2 || i == 4) && n == 1
  {
    assert text[1] == ' ' && text[2] == '`' && text[3] == 'b' && text[4] == '`' && text[5] == ' ';
    if RunAt(text, i, n) {
      assert text[i] == '`' && text[i + n - 1] == '`';
    }
  }

  /** One pair of backticks, and what it turns into. */
  lemma OneSpanBlanked()
    ensures Pairing("a `b` c", 0, [Span(2, 4, 1)]) && Blanked("a `b` c", [Span(2, 4, 1)]) == "a     c"
  {
    var text, spans := "a `b` c", [Span(2, 4, 1)];
    forall i, n ensures RunAt(text, i, n) <==> (i == 2 || i == 4) && n == 1 {
      TwoRuns(text, i, n);
    }
    forall i: int ensures Inside(spans, i) <==> 2 <= i < 5 {
      assert spans[0].Covers(i) <==> 2 <= i < 5;
    }
    hide RunAt, Inside, TicksAt;
    assert IsSpan(text, spans[0]);
    assert Pairing(text, 0, spans);
    BlankedText(text, spans);
  }

  lemma BlankedText(text: string, spans: seq<Span>)
    requires text == "a `b` c" && forall i: int :: Inside(spans, i) <==> 2 <= i < 5
    ensures Blanked(text, spans) == "a     c"
  {
    hide Inside;
    var out := Blanked(text, spans);
    assert out[0] == 'a' && out[1] == ' ' && out[2] == ' ' && out[3] == ' ' && out[4] == ' ' && out[5] == ' ' && out[6] == 'c';
  }
}
