/**
  The Markdown links of one line, as scripts/ci/check-markdown-links.py finds them: `LINK` and its
  leftmost, non-overlapping matches, and which of them are found again when the line becomes part of
  a longer one.

  A line holds no line feed, so the pattern's exclusions of it play no part.
 */
module LinkMatches {
  import opened PyText

  /** `[`, a label without `]`, and `](` at `c`. */
  predicate LabelAt(text: string, s: nat, c: nat) {
    && s < c && c + 1 < |text| && text[s] == '[' && text[c] == ']' && text[c + 1] == '('
    && forall i :: s < i < c ==> text[i] != ']'
  }

  /** A destination in angle brackets from `d`, with white space around it and `)` before `e`. */
  ghost predicate AngleAt(text: string, d: nat, e: nat) {
    exists a: nat, b: nat :: AngleParts(text, d, a, b, e)
  }

  predicate AngleParts(text: string, d: nat, a: nat, b: nat, e: nat) {
    && d <= a < b && b + 1 < e <= |text|
    && (forall i :: d <= i < a ==> IsSpace(text[i]))
    && text[a] == '<' && text[b] == '>' && (forall i :: a < i < b ==> text[i] != '<' && text[i] != '>')
    && (forall i :: b < i < e - 1 ==> IsSpace(text[i]))
    && text[e - 1] == ')'
  }

  /** A destination without parentheses from `d`, with `)` before `e`. */
  predicate PlainAt(text: string, d: nat, e: nat) {
    && d < e <= |text| && text[e - 1] == ')'
    && forall i :: d <= i < e - 1 ==> text[i] != '(' && text[i] != ')'
  }

  /** The pattern takes angle brackets where it can. */
  ghost predicate DestinationAt(text: string, d: nat, e: nat) {
    AngleAt(text, d, e) || (PlainAt(text, d, e) && forall other: nat :: !AngleAt(text, d, other))
  }

  /** `LINK` matches `[s, e)`. */
  ghost predicate LinkAt(text: string, s: nat, e: nat) {
    exists c: nat :: LabelAt(text, s, c) && DestinationAt(text, c + 2, e)
  }

  ghost predicate StartsLink(text: string, s: nat) {
    exists e: nat :: LinkAt(text, s, e)
  }

  /** A match, as the half-open interval it occupies. */
  datatype Span = Span(start: nat, end: nat)

  /** `LINK.finditer(text)`, from a position on. */
  ghost function Links(text: string, from: nat): (spans: seq<Span>)
    decreases |text| - from
  {
    if from >= |text| then []
    else if StartsLink(text, from) then
      var e: nat :| LinkAt(text, from, e);
      LinkReaches(text, from, e);
      [Span(from, e)] + Links(text, e)
    else Links(text, from + 1)
  }

  lemma AngleUnique(text: string, d: nat, e: nat, e': nat)
    requires AngleAt(text, d, e) && AngleAt(text, d, e')
    ensures e == e'
  {
    assert !IsSpace('<') && !IsSpace(')');
    hide PyText.IsSpace;
    var a: nat, b: nat :| AngleParts(text, d, a, b, e);
    var a': nat, b': nat :| AngleParts(text, d, a', b', e');
    assert a == a';
    assert b == b';
  }

  lemma LinkReaches(text: string, s: nat, e: nat)
    requires LinkAt(text, s, e)
    ensures s < e <= |text|
  {
    hide PyText.IsSpace;
  }

  /** A start has at most one match. */
  lemma LinkUnique(text: string, s: nat, e: nat, e': nat)
    requires LinkAt(text, s, e) && LinkAt(text, s, e')
    ensures e == e'
  {
    hide AngleAt;
    var c: nat :| LabelAt(text, s, c) && DestinationAt(text, c + 2, e);
    var c': nat :| LabelAt(text, s, c') && DestinationAt(text, c' + 2, e');
    assert c == c';
    if AngleAt(text, c + 2, e) {
      AngleUnique(text, c + 2, e, e');
    }
  }

  // ----- a line inside a longer one -----

  lemma PartsInside(text: string, u: nat, v: nat, d: nat, a: nat, b: nat, e: nat)
    requires u <= v <= |text| && u + e <= v
    ensures AngleParts(text[u..v], d, a, b, e) <==> AngleParts(text, u + d, u + a, u + b, u + e)
  {
    hide PyText.IsSpace;
    var part := text[u..v];
    if AngleParts(part, d, a, b, e) {
      assert forall i :: u + d <= i < u + e ==> text[i] == part[i - u];
    }
    if AngleParts(text, u + d, u + a, u + b, u + e) {
      assert forall i :: d <= i < e ==> part[i] == text[i + u];
    }
  }

  lemma AngleInside(text: string, u: nat, v: nat, d: nat, e: nat)
    requires u <= v <= |text| && u + e <= v
    ensures AngleAt(text[u..v], d, e) <==> AngleAt(text, u + d, u + e)
  {
    hide AngleParts;
    var part, d', e' := text[u..v], u + d, u + e;
    if AngleAt(part, d, e) {
      var a: nat, b: nat :| AngleParts(part, d, a, b, e);
      PartsInside(text, u, v, d, a, b, e);
    }
    if AngleAt(text, d', e') {
      var a: nat, b: nat :| AngleParts(text, d', a, b, e');
      AngleOrder(text, d', a, b, e');
      PartsInside(text, u, v, d, a - u, b - u, e);
    }
  }

  lemma AngleOrder(text: string, d: nat, a: nat, b: nat, e: nat)
    requires AngleParts(text, d, a, b, e)
    ensures d <= a < b < e
  {
    hide PyText.IsSpace;
  }

  /** A link of the longer text that lies in the part is a link of the part. */
  lemma LinkOfPart(text: string, u: nat, v: nat, s: nat, e: nat)
    requires u <= v <= |text| && LinkAt(text, u + s, u + e) && u + e <= v
    ensures LinkAt(text[u..v], s, e)
  {
    hide AngleAt;
    var part := text[u..v];
    var c: nat :| LabelAt(text, u + s, c) && DestinationAt(text, c + 2, u + e);
    DestinationReaches(text, c + 2, u + e);
    var d := c + 2 - u;
    assert LabelAt(part, s, c - u);
    AngleInside(text, u, v, d, e);
    if !AngleAt(part, d, e) {
      assert PlainAt(part, d, e);
      forall other: nat ensures !AngleAt(part, d, other) {
        if AngleAt(part, d, other) {
          DestinationReaches(part, d, other);
          AngleInside(text, u, v, d, other);
        }
      }
    }
    assert DestinationAt(part, d, e);
  }

  lemma DestinationReaches(text: string, d: nat, e: nat)
    requires DestinationAt(text, d, e)
    ensures d < e <= |text|
  {
    hide PyText.IsSpace;
  }

  /** The link that starts at `s` ends behind `v`. */
  ghost predicate LinkBeyond(text: string, s: nat, v: nat) {
    exists e: nat :: e > v && LinkAt(text, s, e)
  }

  /** A link of the part is a link of the longer text, or one that starts there reaches beyond the part. */
  lemma LinkInText(text: string, u: nat, v: nat, s: nat, e: nat)
    requires u <= v <= |text| && LinkAt(text[u..v], s, e)
    ensures LinkAt(text, u + s, u + e) || LinkBeyond(text, u + s, v)
  {
    hide AngleAt;
    var part := text[u..v];
    var c: nat :| LabelAt(part, s, c) && DestinationAt(part, c + 2, e);
    DestinationReaches(part, c + 2, e);
    var d := c + 2;
    var at := u + d;
    assert LabelAt(text, u + s, u + c);
    AngleInside(text, u, v, d, e);
    if AngleAt(part, d, e) {
      assert DestinationAt(text, u + d, u + e);
    } else if other: nat :| AngleAt(text, at, other) {
      DestinationReaches(text, at, other);
      if other <= v {
        AngleInside(text, u, v, d, other - u);
      }
      assert DestinationAt(text, at, other) && LinkAt(text, u + s, other);
    } else {
      assert forall i :: d <= i < e ==> text[u + i] == part[i];
      assert PlainAt(text, u + d, u + e);
      assert DestinationAt(text, u + d, u + e);
    }
  }

  // ----- the search -----

  /** What is found is a link, lies behind the start of the search, and overlaps nothing else found. */
  lemma {:induction false} FoundAre(text: string, from: nat)
    ensures forall m :: m in Links(text, from) ==> from <= m.start && LinkAt(text, m.start, m.end) && m.start < m.end <= |text|
    ensures forall m, n :: m in Links(text, from) && n in Links(text, from) && m.start < n.start ==> m.end <= n.start
    ensures forall m, n :: m in Links(text, from) && n in Links(text, from) && m.start == n.start ==> m == n
    decreases |text| - from
  {
    hide LinkAt;
    if from < |text| {
      if StartsLink(text, from) {
        var e := Links(text, from)[0].end;
        LinkReaches(text, from, e);
        FoundAre(text, e);
      } else {
        FoundAre(text, from + 1);
      }
    }
  }

  /** A link whose start no found link covers is found. */
  lemma {:induction false} UncoveredIsFound(text: string, from: nat, s: nat, e: nat)
    requires from <= s && LinkAt(text, s, e)
    requires forall m :: m in Links(text, from) ==> !(m.start < s < m.end)
    ensures Span(s, e) in Links(text, from)
    decreases |text| - from
  {
    hide LinkAt;
    LinkReaches(text, s, e);
    if StartsLink(text, from) {
      var first := Links(text, from)[0];
      LinkReaches(text, from, first.end);
      assert first in Links(text, from);
      if s == from {
        LinkUnique(text, s, e, first.end);
      } else {
        UncoveredIsFound(text, first.end, s, e);
      }
    } else {
      assert s != from;
      UncoveredIsFound(text, from + 1, s, e);
    }
  }

  // ----- what survives -----

  /** The search over the whole text finds the link. */
  ghost predicate Found(text: string, m: Span) {
    m in Links(text, 0)
  }

  predicate Overlap(m: Span, n: Span) {
    m.start < n.end && n.start < m.end
  }

  /** The link crosses an edge of `[u, v)`. */
  predicate Crosses(m: Span, u: nat, v: nat) {
    m.start < u < m.end || m.start < v < m.end
  }

  function Shift(m: Span, u: nat): Span {
    Span(u + m.start, u + m.end)
  }

  /** Every link of `text[u..v]` on its own is found again, in its place, in the whole text. */
  ghost predicate AllSurvive(text: string, u: nat, v: nat)
    requires u <= v <= |text|
  {
    forall m :: Found(text[u..v], m) ==> Found(text, Shift(m, u))
  }

  /** No found link of the whole text that crosses an edge of the part overlaps one of the part's links. */
  ghost predicate EdgesClear(text: string, u: nat, v: nat)
    requires u <= v <= |text|
  {
    forall x, m :: Found(text, x) && Crosses(x, u, v) && Found(text[u..v], m) ==> !Overlap(x, Shift(m, u))
  }

  lemma FoundApart(text: string, m: Span, n: Span)
    requires Found(text, m) && Found(text, n)
    ensures LinkAt(text, m.start, m.end) && m.start < m.end <= |text|
    ensures m == n || m.end <= n.start || n.end <= m.start
  {
    FoundAre(text, 0);
  }

  lemma UncoveredFound(text: string, m: Span)
    requires LinkAt(text, m.start, m.end) && forall n :: Found(text, n) ==> !(n.start < m.start < n.end)
    ensures Found(text, m)
  {
    hide LinkAt, Links;
    forall n | n in Links(text, 0) ensures !(n.start < m.start < n.end) {
      assert Found(text, n);
    }
    UncoveredIsFound(text, 0, m.start, m.end);
  }

  /** A found link that lies in the part is no cover for one of the part's links, if the earlier ones survive. */
  lemma CoveredInside(text: string, u: nat, v: nat, m: Span, x: Span)
    requires u <= v <= |text| && Found(text[u..v], m) && Found(text, x) && u <= x.start && x.end <= v
    requires forall n :: Found(text[u..v], n) && n.start < m.start ==> Found(text, Shift(n, u))
    ensures !(x.start < u + m.start < x.end)
  {
    hide LinkAt, Found;
    var part := text[u..v];
    FoundApart(text, x, x);
    var inner := Span(x.start - u, x.end - u);
    LinkOfPart(text, u, v, inner.start, inner.end);
    if inner.start < m.start {
      forall n | Found(part, n) ensures !(n.start < inner.start < n.end) {
        if n.start < inner.start {
          FoundApart(text, Shift(n, u), x);
        }
      }
      UncoveredFound(part, inner);
      FoundApart(part, m, inner);
    }
  }

  lemma {:induction false} OneSurvives(text: string, u: nat, v: nat, m: Span)
    requires u <= v <= |text| && EdgesClear(text, u, v) && Found(text[u..v], m)
    ensures Found(text, Shift(m, u))
    decreases m.start
  {
    hide LinkAt, Found;
    var part := text[u..v];
    FoundApart(part, m, m);
    forall n | Found(part, n) && n.start < m.start ensures Found(text, Shift(n, u)) {
      OneSurvives(text, u, v, n);
    }
    forall x | Found(text, x) ensures !(x.start < u + m.start < x.end) {
      if u <= x.start && x.end <= v {
        CoveredInside(text, u, v, m, x);
      }
    }
    LinkInText(text, u, v, m.start, m.end);
    if LinkAt(text, u + m.start, u + m.end) {
      UncoveredFound(text, Shift(m, u));
    } else {
      var at := u + m.start;
      var beyond: nat :| beyond > v && LinkAt(text, at, beyond);
      UncoveredFound(text, Span(at, beyond));
      assert Crosses(Span(at, beyond), u, v);
    }
  }

  /**
    Exactly when no link of a part is lost: the found links that cross its edges keep clear of
    its own. No other interaction can hide one.
   */
  lemma SurvivalIff(text: string, u: nat, v: nat)
    requires u <= v <= |text|
    ensures AllSurvive(text, u, v) <==> EdgesClear(text, u, v)
  {
    hide LinkAt, Found;
    var part := text[u..v];
    if AllSurvive(text, u, v) {
      forall x, m | Found(text, x) && Crosses(x, u, v) && Found(text[u..v], m) ensures !Overlap(x, Shift(m, u)) {
        FoundApart(text, x, Shift(m, u));
        FoundApart(part, m, m);
      }
    }
    if EdgesClear(text, u, v) {
      forall m | Found(text[u..v], m) ensures Found(text, Shift(m, u)) {
        OneSurvives(text, u, v, m);
      }
    }
  }

  // ----- when nothing is lost -----

  predicate AngleLink(text: string, s: nat, c: nat, a: nat, b: nat, e: nat) {
    LabelAt(text, s, c) && AngleParts(text, c + 2, a, b, e)
  }

  /** A link that starts in `[u, v)` opens its angle bracket there and ends behind `v`. */
  ghost predicate AngleReachesOut(text: string, u: nat, v: nat) {
    exists s: nat, c: nat, a: nat, b: nat, e: nat :: u <= s && a < v < e && AngleLink(text, s, c, a, b, e)
  }

  lemma ClosesWithParenthesis(text: string, d: nat, e: nat)
    requires DestinationAt(text, d, e)
    ensures d < e <= |text| && text[e - 1] == ')'
  {
    hide PyText.IsSpace;
  }

  /**
    Nothing of a part is lost when no link reaches into it from before and no destination in
    angle brackets reaches out of it.
   */
  lemma {:induction false} KeptWithoutReach(text: string, u: nat, v: nat, m: Span)
    requires u <= v <= |text| && Found(text[u..v], m) && !AngleReachesOut(text, u, v)
    requires forall x :: Found(text, x) && x.start < u ==> x.end <= u
    ensures Found(text, Shift(m, u))
    decreases m.start
  {
    hide LinkAt, Found, AngleReachesOut;
    var part := text[u..v];
    FoundApart(part, m, m);
    forall n | Found(part, n) && n.start < m.start ensures Found(text, Shift(n, u)) {
      KeptWithoutReach(text, u, v, n);
    }
    forall x | Found(text, x) ensures !(x.start < u + m.start < x.end) {
      if x.end <= v {
        if u <= x.start {
          CoveredInside(text, u, v, m, x);
        }
      } else if u <= x.start <= u + m.start {
        FoundApart(text, x, x);
        OutReachHasAngle(text, u, v, m, x);
      }
    }
    LinkInText(text, u, v, m.start, m.end);
    if LinkAt(text, u + m.start, u + m.end) {
      UncoveredFound(text, Shift(m, u));
    } else {
      var at := u + m.start;
      var beyond: nat :| beyond > v && LinkAt(text, at, beyond);
      OutReachHasAngle(text, u, v, m, Span(at, beyond));
    }
  }

  /** A link that leaves the part and starts no later than one of the part's links has opened an angle bracket there. */
  lemma OutReachHasAngle(text: string, u: nat, v: nat, m: Span, x: Span)
    requires u <= v <= |text| && LinkAt(text[u..v], m.start, m.end)
    requires LinkAt(text, x.start, x.end) && x.end > v && u <= x.start <= u + m.start
    ensures AngleReachesOut(text, u, v)
  {
    hide AngleAt, DestinationAt, LinkAt;
    var c' := PartLabel(text, u, v, m.start, m.end);
    var c := LabelOf(text, x.start, x.end);
    assert c < u + m.start || c == c';
    if AngleAt(text, c + 2, x.end) {
      AngleOpensBefore(text, u, v, x.start, c, x.end, u + m.end - 1);
    } else {
      PlainStopsAt(text, c + 2, x.end, u + m.end - 1);
    }
  }

  lemma LabelOf(text: string, s: nat, e: nat) returns (c: nat)
    requires LinkAt(text, s, e)
    ensures LabelAt(text, s, c) && DestinationAt(text, c + 2, e)
  {
    c :| LabelAt(text, s, c) && DestinationAt(text, c + 2, e);
  }

  lemma PlainStopsAt(text: string, d: nat, e: nat, p: nat)
    requires DestinationAt(text, d, e) && !AngleAt(text, d, e) && d <= p < |text| && text[p] == ')'
    ensures e <= p + 1
  {
  }

  lemma AngleOpensBefore(text: string, u: nat, v: nat, s: nat, c: nat, e: nat, p: nat)
    requires LabelAt(text, s, c) && AngleAt(text, c + 2, e) && c + 2 <= p < v < e && u <= s && p < |text| && text[p] == ')'
    ensures AngleReachesOut(text, u, v)
  {
    assert !IsSpace(')');
    hide PyText.IsSpace;
    var d := c + 2;
    var a: nat, b: nat :| AngleParts(text, d, a, b, e);
    assert a <= p;
    assert AngleLink(text, s, c, a, b, e);
  }

  /** Where the label of a part's link ends in the whole text. */
  lemma PartLabel(text: string, u: nat, v: nat, s: nat, e: nat) returns (c: nat)
    requires u <= v <= |text| && LinkAt(text[u..v], s, e)
    ensures u + e <= v && LabelAt(text, u + s, c) && c + 2 < u + e && text[u + e - 1] == ')'
  {
    hide AngleAt, DestinationAt, LinkAt;
    var part := text[u..v];
    var inner := LabelOf(part, s, e);
    ClosesWithParenthesis(part, inner + 2, e);
    c := u + inner;
  }

  /** A first part without `<` keeps all its links, whatever follows. */
  lemma FirstPartKeepsLinks(text: string, v: nat)
    requires v <= |text| && '<' !in text[..v]
    ensures AllSurvive(text, 0, v)
  {
    hide LinkAt, Found, PyText.IsSpace;
    assert text[0..v] == text[..v];
    assert !AngleReachesOut(text, 0, v);
    forall m | Found(text[0..v], m) ensures Found(text, Shift(m, 0)) {
      KeptWithoutReach(text, 0, v, m);
    }
  }

  // ----- ordinary links -----

  lemma WholeLink(text: string)
    requires LinkAt(text, 0, |text|)
    ensures Links(text, 0) == [Span(0, |text|)]
  {
    hide LinkAt;
    LinkReaches(text, 0, |text|);
    forall e: nat | LinkAt(text, 0, e) ensures e == |text| {
      LinkUnique(text, 0, |text|, e);
    }
    assert Links(text, |text|) == [];
  }

  lemma LabelRead(words: string, rest: string)
    requires '[' !in words && ']' !in words
    ensures var text := "[" + words + "](" + rest;
            LabelAt(text, 0, |words| + 1) && text[|words| + 3..] == rest
  {
    var text := "[" + words + "](" + rest;
    assert forall i :: 0 < i < |words| + 1 ==> text[i] == words[i - 1];
    assert text[|words| + 1] == ']' && text[|words| + 2] == '(';
  }

  lemma DestinationOfRest(text: string, d: nat, e: nat)
    requires d <= |text| && d + e <= |text| && DestinationAt(text[d..], 0, e)
    ensures DestinationAt(text, d, d + e)
  {
    hide AngleAt;
    var n := |text|;
    assert text[d..n] == text[d..];
    AngleInside(text, d, n, 0, e);
    if !AngleAt(text, d, d + e) {
      assert forall i :: 0 <= i < n - d ==> text[d..][i] == text[d + i];
      assert PlainAt(text, d, d + e);
      forall other: nat ensures !AngleAt(text, d, other) {
        if AngleAt(text, d, other) {
          AngleReaches(text, d, other);
          AngleInside(text, d, n, 0, other - d);
        }
      }
    }
  }

  lemma AngleReaches(text: string, d: nat, e: nat)
    requires AngleAt(text, d, e)
    ensures d < e <= |text|
  {
    hide PyText.IsSpace;
  }

  /** A label without brackets. */
  predicate PlainLabel(words: string) {
    '[' !in words && ']' !in words
  }

  /** A destination without parentheses and angle brackets. */
  predicate PlainTarget(target: string) {
    '(' !in target && ')' !in target && '<' !in target && '>' !in target
  }

  lemma PlainRest(target: string, rest: string)
    requires PlainTarget(target) && rest == target + ")"
    ensures DestinationAt(rest, 0, |rest|)
  {
    assert forall i :: 0 <= i < |target| ==> rest[i] == target[i];
    hide PyText.IsSpace;
    forall other: nat ensures !AngleAt(rest, 0, other) {
    }
  }

  lemma AngleRest(target: string, rest: string)
    requires '<' !in target && '>' !in target && rest == "<" + target + ">)"
    ensures DestinationAt(rest, 0, |rest|)
  {
    hide PyText.IsSpace;
    assert forall i :: 0 < i < |target| + 1 ==> rest[i] == target[i - 1];
    assert AngleParts(rest, 0, 0, |target| + 1, |target| + 3);
  }

  lemma LinkOfRest(words: string, rest: string, text: string)
    requires PlainLabel(words) && DestinationAt(rest, 0, |rest|) && text == "[" + words + "](" + rest
    ensures Links(text, 0) == [Span(0, |text|)]
  {
    hide LabelAt, DestinationAt, Links;
    var c := |words| + 1;
    LabelRead(words, rest);
    hide PlainLabel;
    DestinationOfRest(text, c + 2, |rest|);
    assert |text| == c + 2 + |rest|;
    assert LinkAt(text, 0, |text|);
    WholeLink(text);
  }

  /** An ordinary link is the one match of its text. */
  lemma OrdinaryLink(words: string, target: string, text: string)
    requires PlainLabel(words) && PlainTarget(target) && text == "[" + words + "](" + (target + ")")
    ensures Links(text, 0) == [Span(0, |text|)]
  {
    hide DestinationAt, Links, PlainLabel, PlainTarget;
    PlainRest(target, target + ")");
    LinkOfRest(words, target + ")", text);
  }

  /** A destination in angle brackets may hold parentheses. */
  lemma AngleLinkFound(words: string, target: string, text: string)
    requires PlainLabel(words) && '<' !in target && '>' !in target && text == "[" + words + "](" + ("<" + target + ">)")
    ensures Links(text, 0) == [Span(0, |text|)]
  {
    hide DestinationAt, Links, PlainLabel;
    AngleRest(target, "<" + target + ">)");
    LinkOfRest(words, "<" + target + ">)", text);
  }
}
