/**
  The Markdown link scanner of scripts/validate-skills.py.

  The specification is the regular expression the scanner replaced: try every start
  position from the left, and after a match go on behind it. The scanner itself keeps
  two cursors and looks at each character a bounded number of times.
 */
module LinkScanner {
  import opened PyText

  /** A character that may stand in a link target. */
  predicate TargetChar(c: char) {
    c != ')' && !IsSpace(c)
  }

  /** The two characters `](` stand at `i`. */
  predicate CloserAt(body: string, i: int) {
    0 <= i && i + 1 < |body| && body[i] == ']' && body[i + 1] == '('
  }

  /**
    One match of the regular expression: `[` at `s`, a label without `]`, `](` at `c`,
    a non-empty target, and `)` at `e`.
   */
  ghost predicate LinkAt(body: string, s: int, c: int, e: int) {
    && 0 <= s < c && c + 2 < e < |body|
    && body[s] == '['
    && (forall i :: s < i < c ==> body[i] != ']')
    && CloserAt(body, c)
    && (forall i :: c + 2 <= i < e ==> TargetChar(body[i]))
    && body[e] == ')'
  }

  ghost predicate StartsLink(body: string, s: int) {
    exists c, e :: LinkAt(body, s, c, e)
  }

  /** The targets a leftmost, non-overlapping search from `from` collects. */
  ghost function FindAll(body: string, from: nat): (targets: seq<string>)
    decreases |body| - from
  {
    if from >= |body| then []
    else if StartsLink(body, from) then
      var c, e :| LinkAt(body, from, c, e);
      [body[c + 2..e]] + FindAll(body, e + 1)
    else FindAll(body, from + 1)
  }

  /** Lazy or greedy repetition makes no difference: a start has at most one match. */
  lemma MatchIsUnique(body: string, s: int, c: int, e: int, c': int, e': int)
    requires LinkAt(body, s, c, e) && LinkAt(body, s, c', e')
    ensures c == c' && e == e'
  {
    assert body[c] == ']' && body[c'] == ']' && body[e] == ')' && body[e'] == ')';
  }

  /** Positions that start no match can be skipped. */
  lemma {:induction false} SkipAhead(body: string, from: nat, to: nat)
    requires from <= to <= |body|
    requires forall s :: from <= s < to ==> !StartsLink(body, s)
    ensures FindAll(body, from) == FindAll(body, to)
    decreases |body| - from
  {
    if from < to {
      SkipAhead(body, from + 1, to);
    }
  }

  /** `close` is the first `](` at or behind `pos`. */
  ghost predicate FirstCloser(body: string, pos: int, close: int) {
    && pos <= close && CloserAt(body, close)
    && forall i :: pos <= i < close ==> !CloserAt(body, i)
  }

  /** A match that starts before the first closer uses that closer. */
  lemma MatchUsesFirstCloser(body: string, pos: int, close: int, s: int, c: int, e: int)
    requires FirstCloser(body, pos, close)
    requires pos <= s <= close
    requires LinkAt(body, s, c, e)
    ensures s < close && c == close
  {
    assert body[close] == ']' && body[s] == '[';
  }

  /** A match over the first closer, whatever its label start, is the one the search takes next. */
  lemma {:induction false} TakeMatch(body: string, pos: nat, open: int, close: int, e: int)
    requires FirstCloser(body, pos, close)
    requires pos <= open && LinkAt(body, open, close, e)
    ensures FindAll(body, pos) == [body[close + 2..e]] + FindAll(body, e + 1)
    decreases open - pos
  {
    hide TargetChar;
    if StartsLink(body, pos) {
      var c', e' :| LinkAt(body, pos, c', e');
      MatchUsesFirstCloser(body, pos, close, pos, c', e');
      assert LinkAt(body, pos, close, e);
      forall c2, e2 | LinkAt(body, pos, c2, e2)
        ensures c2 == close && e2 == e
      {
        MatchIsUnique(body, pos, c2, e2, close, e);
      }
    } else {
      assert pos != open;
      TakeMatch(body, pos + 1, open, close, e);
    }
  }

  /** When no target follows the first closer, or no label precedes it, nothing starts up to it. */
  lemma NoMatchUpTo(body: string, pos: nat, close: int)
    requires FirstCloser(body, pos, close)
    requires forall s, e :: pos <= s ==> !LinkAt(body, s, close, e)
    ensures FindAll(body, pos) == FindAll(body, close + 1)
  {
    forall s | pos <= s < close + 1
      ensures !StartsLink(body, s)
    {
      forall c, e ensures !LinkAt(body, s, c, e) {
        if LinkAt(body, s, c, e) {
          MatchUsesFirstCloser(body, pos, close, s, c, e);
        }
      }
    }
    SkipAhead(body, pos, close + 1);
  }

  /** How many `](` start below `n`. */
  ghost function ClosersBelow(body: string, n: nat): (k: nat)
    ensures k <= n
  {
    if n == 0 then 0
    else ClosersBelow(body, n - 1) + (if CloserAt(body, n - 1) then 1 else 0)
  }

  lemma {:induction false} ClosersBelowGrows(body: string, m: nat, n: nat)
    requires m <= n
    ensures ClosersBelow(body, m) <= ClosersBelow(body, n)
    ensures m < n && CloserAt(body, n - 1) ==> ClosersBelow(body, m) + 1 <= ClosersBelow(body, n)
  {
    if m < n {
      ClosersBelowGrows(body, m, n - 1);
    }
  }

  /** `body.find("](", pos)`; `steps` counts the positions looked at. */
  method FindCloser(body: string, pos: nat) returns (close: int, ghost steps: nat)
    requires pos <= |body|
    ensures close == -1 ==> forall i :: pos <= i ==> !CloserAt(body, i)
    ensures close != -1 ==> FirstCloser(body, pos, close)
    ensures steps <= (if close == -1 then |body| else close + 1) - pos
  {
    close, steps := pos, 0;
    while close < |body|
      invariant pos <= close <= |body|
      invariant forall i :: pos <= i < close ==> !CloserAt(body, i)
      invariant steps == close - pos
    {
      steps := steps + 1;
      if CloserAt(body, close) { return; }
      close := close + 1;
    }
    close := -1;
  }

  /**
    `body.rfind("[", pos, close)` followed by the search for `]` behind it: is there a
    label that ends at `close`?
   */
  method LabelEndsAt(body: string, pos: nat, close: nat) returns (found: bool, ghost steps: nat)
    requires pos <= close <= |body|
    ensures found <==> Labelled(body, pos, close)
    ensures steps <= 2 * (close - pos)
  {
    var open: int := close - 1;
    steps := 0;
    while open >= pos && body[open] != '['
      invariant pos - 1 <= open < close
      invariant forall i :: open < i < close ==> body[i] != '['
      invariant steps == close - 1 - open
    {
      steps := steps + 1;
      open := open - 1;
    }
    if open < pos {
      return false, steps;
    }
    steps := steps + 1;
    var i := open + 1;
    while i < close
      invariant open < i <= close
      invariant forall k :: open < k < i ==> body[k] != ']'
      invariant steps <= (close - open) + (i - open - 1)
    {
      steps := steps + 1;
      if body[i] == ']' {
        assert forall s :: pos <= s < close && body[s] == '[' ==> s < i < close;
        return false, steps;
      }
      i := i + 1;
    }
    return true, steps;
  }

  /** A label that ends at `close` and starts at or behind `pos`. */
  ghost predicate Labelled(body: string, pos: int, close: int) {
    0 <= pos && close <= |body| &&
    exists s :: pos <= s < close && body[s] == '[' && forall i :: s < i < close ==> body[i] != ']'
  }

  /** `[start, end)` holds target characters only, and `end` is where they stop. */
  ghost predicate TargetRun(body: string, start: int, end: int) {
    && 0 <= start <= end <= |body|
    && (forall i :: start <= i < end ==> TargetChar(body[i]))
    && (end < |body| ==> !TargetChar(body[end]))
  }

  /** The target scan; it resumes at `scannedTo` when that lies ahead. */
  method ScanTarget(body: string, start: nat, scannedTo: nat) returns (end: nat, ghost steps: nat)
    requires start <= |body| && scannedTo <= |body|
    requires forall i :: start <= i < scannedTo ==> TargetChar(body[i])
    ensures TargetRun(body, start, end) && scannedTo <= end
    ensures steps <= end - scannedTo + 1
  {
    end := if scannedTo > start then scannedTo else start;
    steps := 1;
    while end < |body| && TargetChar(body[end])
      invariant start <= end <= |body| && scannedTo <= end
      invariant forall i :: start <= i < end ==> TargetChar(body[i])
      invariant steps <= end - scannedTo + 1
    {
      end, steps := end + 1, steps + 1;
    }
  }

  /** A label, the first closer and a terminated run make the next match. */
  lemma LinkFound(body: string, pos: nat, close: int, end: int)
    requires FirstCloser(body, pos, close) && Labelled(body, pos, close)
    requires TargetRun(body, close + 2, end) && close + 2 < end < |body| && body[end] == ')'
    ensures FindAll(body, pos) == [body[close + 2..end]] + FindAll(body, end + 1)
  {
    var open :| pos <= open < close && body[open] == '[' && forall i :: open < i < close ==> body[i] != ']';
    assert LinkAt(body, open, close, end);
    TakeMatch(body, pos, open, close, end);
  }

  /** Without a label, or when the run stops on white space or at once, the closer is passed over. */
  lemma LinkRejected(body: string, pos: nat, close: int, end: int)
    requires FirstCloser(body, pos, close)
    requires Labelled(body, pos, close) ==>
               TargetRun(body, close + 2, end) && end < |body| && (body[end] != ')' || end == close + 2)
    ensures FindAll(body, pos) == FindAll(body, close + 1)
  {
    forall s, e | pos <= s ensures !LinkAt(body, s, close, e) {
      if LinkAt(body, s, close, e) {
        assert Labelled(body, pos, close);
      }
    }
    NoMatchUpTo(body, pos, close);
  }

  /**
    `_iter_link_targets`. `labelSteps` counts the characters the closer and label searches
    look at, `targetSteps` those the target scan looks at.
   */
  method IterLinkTargets(body: string) returns (targets: seq<string>, ghost labelSteps: nat, ghost targetSteps: nat)
    ensures targets == FindAll(body, 0)
    ensures labelSteps <= 3 * |body|
    ensures targetSteps <= |body| + ClosersBelow(body, |body|)
  {
    hide TargetChar, FindAll, Labelled, ClosersBelow;
    var pos, scannedTo := 0, 0;
    targets, labelSteps, targetSteps := [], 0, 0;
    while true
      invariant 0 <= pos <= |body| && 0 <= scannedTo <= |body|
      invariant targets + FindAll(body, pos) == FindAll(body, 0)
      invariant forall i :: pos < i < scannedTo ==> TargetChar(body[i])
      invariant labelSteps <= 3 * pos
      invariant targetSteps <= scannedTo + ClosersBelow(body, pos)
      decreases |body| - pos
    {
      var close, findSteps := FindCloser(body, pos);
      if close < 0 {
        NothingLeft(body, pos);
        ClosersBelowGrows(body, pos, |body|);
        labelSteps := labelSteps + findSteps;
        return;
      }
      var labelled, scanSteps := LabelEndsAt(body, pos, close);
      labelSteps := labelSteps + findSteps + scanSteps;
      ClosersBelowGrows(body, pos, close + 1);
      if !labelled {
        LinkRejected(body, pos, close, 0);
        pos := close + 1;
        continue;
      }
      var start := close + 2;
      var end, runSteps := ScanTarget(body, start, scannedTo);
      targetSteps := targetSteps + runSteps;
      if end > start && end < |body| && body[end] == ')' {
        LinkFound(body, pos, close, end);
        ClosersBelowGrows(body, close + 1, end + 1);
        targets := targets + [body[start..end]];
        pos := end + 1;
        scannedTo := end;
      } else if end >= |body| {
        Unterminated(body, pos, close);
        ClosersBelowGrows(body, close + 1, |body|);
        return;
      } else {
        LinkRejected(body, pos, close, end);
        pos := close + 1;
        scannedTo := end;
      }
    }
  }

  /** Without any closer there is no match. */
  lemma NothingLeft(body: string, pos: nat)
    requires pos <= |body|
    requires forall i :: pos <= i ==> !CloserAt(body, i)
    ensures FindAll(body, pos) == []
  {
    forall s | pos <= s < |body| ensures !StartsLink(body, s) {
      forall c, e ensures !LinkAt(body, s, c, e) {
        assert pos <= c ==> !CloserAt(body, c);
      }
    }
    SkipAhead(body, pos, |body|);
  }

  /** A target run that reaches the end of the body rules out every later match. */
  lemma Unterminated(body: string, pos: nat, close: int)
    requires FirstCloser(body, pos, close)
    requires forall i :: close + 2 <= i < |body| ==> TargetChar(body[i])
    ensures FindAll(body, pos) == []
  {
    forall s | pos <= s < |body| ensures !StartsLink(body, s) {
      forall c, e ensures !LinkAt(body, s, c, e) {
        assert pos <= c < close ==> !CloserAt(body, c);
        assert close + 2 <= e < |body| ==> TargetChar(body[e]);
      }
    }
    SkipAhead(body, pos, |body|);
  }

  // ----- which texts are targets -----

  lemma LinkTargetIsPlain(body: string, s: int, c: int, e: int)
    requires LinkAt(body, s, c, e)
    ensures var t := body[c + 2..e]; t != "" && ')' !in t && forall i :: 0 <= i < |t| ==> !IsSpace(t[i])
  {
    hide PyText.IsSpace;
    var t := body[c + 2..e];
    assert forall i :: 0 <= i < |t| ==> t[i] == body[c + 2 + i] && TargetChar(body[c + 2 + i]);
  }

  /** A target is never empty and holds neither white space nor a closing parenthesis. */
  lemma {:induction false} TargetsArePlain(body: string, from: nat, t: string)
    requires t in FindAll(body, from)
    ensures t != "" && ')' !in t && forall i :: 0 <= i < |t| ==> !IsSpace(t[i])
    decreases |body| - from
  {
    hide LinkAt, PyText.IsSpace;
    if StartsLink(body, from) {
      var c, e :| LinkAt(body, from, c, e);
      LinkTargetIsPlain(body, from, c, e);
      LinkEndsInside(body, from, c, e);
      forall c', e' | LinkAt(body, from, c', e') ensures c' == c && e' == e {
        MatchIsUnique(body, from, c', e', c, e);
      }
      if t != body[c + 2..e] {
        TargetsArePlain(body, e + 1, t);
      }
    } else {
      TargetsArePlain(body, from + 1, t);
    }
  }

  lemma LinkEndsInside(body: string, s: int, c: int, e: int)
    requires LinkAt(body, s, c, e)
    ensures 0 <= s < c && c + 2 < e < |body|
  {
  }

  /** And any such text, written as a link, is found. */
  lemma PlainTargetIsFound(words: string, t: string)
    requires '[' !in words && ']' !in words
    requires t != "" && ')' !in t && forall i :: 0 <= i < |t| ==> !IsSpace(t[i])
    ensures FindAll("[" + words + "](" + t + ")", 0) == [t]
  {
    hide PyText.IsSpace;
    var body := "[" + words + "](" + t + ")";
    var close, end := |words| + 1, |words| + 3 + |t|;
    assert forall i :: 0 < i < close ==> body[i] == words[i - 1];
    assert forall i :: close + 2 <= i < end ==> body[i] == t[i - close - 2];
    assert body[close + 2..end] == t;
    assert LinkAt(body, 0, close, end);
    forall c, e | LinkAt(body, 0, c, e) ensures c == close && e == end {
      MatchIsUnique(body, 0, c, e, close, end);
    }
    assert FindAll(body, end + 1) == [];
  }
}
