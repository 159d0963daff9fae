/**
  Counting the source rows that a pull-request body's records name, from
  scripts/ci/check_pr_body_skills.py.

  `int(...)` is a parameter: a part is a number where it says so.
 */
module RowCoverage {
  import opened Options
  import opened PyText
  import NameOrder

  const MAX_RANGE_SPAN := 10000

  /** `set(range(lo, hi + 1))`. */
  function Span(lo: int, hi: int): (s: set<int>)
    ensures forall i :: i in s <==> lo <= i <= hi
    ensures |s| == if lo <= hi then hi - lo + 1 else 0
    decreases hi - lo + 1
  {
    if lo <= hi then Span(lo, hi - 1) + {hi} else {}
  }

  /** What one comma-separated part of a `row=` token names. */
  datatype Part = Single(ordinal: int) | Range(lo: int, hi: int) | Named(name: string)
  {
    /** The numeric source rows it names. */
    function Ordinals(): set<int> {
      match this
      case Single(n) => {n}
      case Range(lo, hi) => Span(lo, hi)
      case Named(_) => {}
    }

    /** Ordinals start at 1 and a range is neither empty nor too long. */
    predicate WellFormed() {
      match this
      case Single(n) => n >= 1
      case Range(lo, hi) => 1 <= lo <= hi && hi - lo + 1 <= MAX_RANGE_SPAN
      case Named(_) => true
    }

    /** How many source rows it names. */
    function Size(): int {
      match this
      case Single(_) => 1
      case Range(lo, hi) => hi - lo + 1
      case Named(_) => 1
    }
  }

  /** `part.split("..", 1)`, when `..` occurs. */
  function FirstDots(s: string): (i: int)
    ensures i == -1 || (0 <= i && i + 1 < |s| && s[i] == '.' && s[i + 1] == '.')
    ensures forall k :: 0 <= k < |s| - 1 && (i == -1 || k < i) ==> !(s[k] == '.' && s[k + 1] == '.')
  {
    if |s| < 2 then -1
    else if s[0] == '.' && s[1] == '.' then 0
    else
      var i := FirstDots(s[1..]);
      if i < 0 then -1 else i + 1
  }

  function Classify(parseInt: string -> Option<int>, part: string): Part {
    var dots := FirstDots(part);
    if dots >= 0 then
      var lo, hi := parseInt(part[..dots]), parseInt(part[dots + 2..]);
      if lo.Some? && hi.Some? then Range(lo.value, hi.value) else Named(part)
    else
      var single := parseInt(part);
      if single.Some? then Single(single.value) else Named(part)
  }

  /** The parts of one token: stripped, the empty ones dropped. */
  function PartsOf(parseInt: string -> Option<int>, pieces: seq<string>): seq<Part> {
    if pieces == [] then []
    else
      var part := Strip(pieces[0]);
      (if part == "" then [] else [Classify(parseInt, part)]) + PartsOf(parseInt, pieces[1..])
  }

  /** All parts of a block's tokens, in order. */
  function AllParts(parseInt: string -> Option<int>, tokens: seq<string>): seq<Part> {
    if tokens == [] then []
    else AllParts(parseInt, tokens[..|tokens| - 1]) + PartsOf(parseInt, SplitOn(tokens[|tokens| - 1], ','))
  }

  /** The two name a source row in common. */
  predicate Overlap(p: Part, q: Part) {
    (p.Named? && p == q) || p.Ordinals() * q.Ordinals() != {}
  }

  /** Every part is well formed and no two of them overlap. */
  ghost predicate Acceptable(parts: seq<Part>) {
    && (forall i :: 0 <= i < |parts| ==> parts[i].WellFormed())
    && (forall i, j :: 0 <= i < j < |parts| ==> !Overlap(parts[i], parts[j]))
  }

  /** The sizes added up. */
  ghost function TotalSize(parts: seq<Part>): int {
    if parts == [] then 0 else TotalSize(parts[..|parts| - 1]) + parts[|parts| - 1].Size()
  }

  datatype Error = Nonpositive(part: Part) | TooLong(part: Part) | Overlapping(part: Part) | NamedTwice(part: Part)

  /** What the loop has gathered after some parts. */
  datatype Coverage = Coverage(covered: set<int>, named: set<string>, errors: seq<Error>)

  /** One turn of the loop. */
  function Take(c: Coverage, part: Part): Coverage {
    match part
    case Named(name) =>
      if name in c.named then c.(errors := c.errors + [NamedTwice(part)]) else c.(named := c.named + {name})
    case Range(lo, hi) =>
      if lo < 1 || hi < 1 then c.(errors := c.errors + [Nonpositive(part)])
      else if hi < lo || hi - lo + 1 > MAX_RANGE_SPAN then c.(errors := c.errors + [TooLong(part)])
      else if part.Ordinals() * c.covered != {} then c.(errors := c.errors + [Overlapping(part)])
      else c.(covered := c.covered + part.Ordinals())
    case Single(n) =>
      if n < 1 then c.(errors := c.errors + [Nonpositive(part)])
      else if n in c.covered then c.(errors := c.errors + [Overlapping(part)])
      else c.(covered := c.covered + {n})
  }

  ghost function TakeAll(parts: seq<Part>): Coverage {
    if parts == [] then Coverage({}, {}, []) else Take(TakeAll(parts[..|parts| - 1]), parts[|parts| - 1])
  }

  /** `_block_row_coverage`. */
  method BlockRowCoverage(parseInt: string -> Option<int>, tokens: seq<string>) returns (total: nat, errors: seq<Error>)
    ensures errors == [] <==> Acceptable(AllParts(parseInt, tokens))
    ensures errors == [] ==> total == TotalSize(AllParts(parseInt, tokens))
    ensures total == |NamedOrdinals(Accepted(AllParts(parseInt, tokens)))| + |NamedLocators(Accepted(AllParts(parseInt, tokens)))|
    ensures errors == TakeAll(AllParts(parseInt, tokens)).errors
  {
    hide Classify, PyText.Strip, PyText.SplitOn, Take;
    var c := Coverage({}, {}, []);
    for t := 0 to |tokens|
      invariant c == TakeAll(AllParts(parseInt, tokens[..t]))
    {
      assert tokens[..t + 1][..t] == tokens[..t];
      ghost var before := AllParts(parseInt, tokens[..t]);
      var pieces := SplitOn(tokens[t], ',');
      assert before + [] == before;
      for p := 0 to |pieces|
        invariant c == TakeAll(before + PartsOf(parseInt, pieces[..p]))
      {
        PartsGrow(parseInt, pieces, p);
        var part := Strip(pieces[p]);
        ghost var now := PartsOf(parseInt, pieces[..p]);
        if part != "" {
          TakeOneMore(before + now, Classify(parseInt, part));
          assert before + (now + [Classify(parseInt, part)]) == (before + now) + [Classify(parseInt, part)];
          c := Take(c, Classify(parseInt, part));
        } else {
          assert now + [] == now;
        }
      }
      assert pieces[..|pieces|] == pieces;
    }
    assert tokens[..|tokens|] == tokens;
    NoErrorMeaning(AllParts(parseInt, tokens));
    Gathered(AllParts(parseInt, tokens));
    if c.errors == [] {
      CountMeaning(AllParts(parseInt, tokens));
    }
    total, errors := |c.covered| + |c.named|, c.errors;
  }

  lemma {:induction false} PartsGrow(parseInt: string -> Option<int>, pieces: seq<string>, p: nat)
    requires p < |pieces|
    ensures PartsOf(parseInt, pieces[..p + 1])
         == PartsOf(parseInt, pieces[..p]) + (if Strip(pieces[p]) == "" then [] else [Classify(parseInt, Strip(pieces[p]))])
  {
    hide Classify, PyText.Strip;
    if p == 0 {
      assert pieces[..1][1..] == [];
    } else {
      PartsGrow(parseInt, pieces[1..], p - 1);
      assert pieces[..p + 1][1..] == pieces[1..][..p] && pieces[..p][1..] == pieces[1..][..p - 1];
    }
  }

  lemma TakeOneMore(parts: seq<Part>, part: Part)
    ensures TakeAll(parts + [part]) == Take(TakeAll(parts), part)
  {
    assert (parts + [part])[..|parts|] == parts;
  }

  // ----- what the loop gathers -----

  /** The part adds to the coverage without an error. */
  predicate Fits(c: Coverage, part: Part) {
    part.WellFormed() && (part.Named? ==> part.name !in c.named) && part.Ordinals() * c.covered == {}
  }

  /** The parts that were taken without an error. */
  ghost function Accepted(parts: seq<Part>): seq<Part> {
    if parts == [] then []
    else
      var before := parts[..|parts| - 1];
      Accepted(before) + (if Fits(TakeAll(before), parts[|parts| - 1]) then [parts[|parts| - 1]] else [])
  }

  ghost function NamedOrdinals(parts: seq<Part>): set<int> {
    set p, i | p in parts && i in p.Ordinals() :: i
  }

  ghost function NamedLocators(parts: seq<Part>): set<string> {
    set p | p in parts && p.Named? :: p.name
  }

  lemma TakeFits(c: Coverage, part: Part)
    ensures var d := Take(c, part);
            if Fits(c, part) then
              && d.errors == c.errors && d.covered == c.covered + part.Ordinals()
              && d.named == c.named + (if part.Named? then {part.name} else {})
            else d.covered == c.covered && d.named == c.named && |d.errors| == |c.errors| + 1
  {
    assert c.covered + {} == c.covered && c.named + {} == c.named;
    if part.Single? {
      assert part.Ordinals() == {part.ordinal};
      assert part.Ordinals() * c.covered == if part.ordinal in c.covered then {part.ordinal} else {};
    }
  }

  /** The sets hold exactly what the accepted parts name. */
  lemma {:induction false} Gathered(parts: seq<Part>)
    ensures TakeAll(parts).covered == NamedOrdinals(Accepted(parts))
    ensures TakeAll(parts).named == NamedLocators(Accepted(parts))
    ensures TakeAll(parts).errors == [] <==> Accepted(parts) == parts
    ensures |Accepted(parts)| <= |parts|
  {
    hide Take, Fits;
    if parts != [] {
      var before, last := parts[..|parts| - 1], parts[|parts| - 1];
      Gathered(before);
      TakeFits(TakeAll(before), last);
      assert parts == before + [last];
      AddPart(Accepted(before), last);
      assert TakeAll(parts) == Take(TakeAll(before), last);
      if Fits(TakeAll(before), last) {
        assert Accepted(parts) == Accepted(before) + [last];
        assert TakeAll(parts).errors == TakeAll(before).errors;
        SameFrontSameLast(Accepted(before), before, last);
      } else {
        assert |Accepted(parts)| < |parts| && |TakeAll(parts).errors| > 0;
      }
    }
  }

  lemma SameFrontSameLast<T>(a: seq<T>, b: seq<T>, x: T)
    ensures a + [x] == b + [x] <==> a == b
  {
    if a + [x] == b + [x] {
      assert a == (a + [x])[..|a|] && b == (b + [x])[..|b|];
    }
  }

  lemma AddPart(parts: seq<Part>, part: Part)
    ensures NamedOrdinals(parts + [part]) == NamedOrdinals(parts) + part.Ordinals()
    ensures NamedLocators(parts + [part]) == NamedLocators(parts) + (if part.Named? then {part.name} else {})
    ensures parts + [] == parts
  {
    assert forall p :: p in parts + [part] <==> p in parts || p == part;
    assert forall i :: i in part.Ordinals() ==> part in parts + [part];
  }

  lemma PartSize(part: Part)
    requires part.WellFormed()
    ensures |part.Ordinals()| + (if part.Named? then 1 else 0) == part.Size()
  {
  }

  /** A part fits exactly when it is well formed and overlaps none of the accepted ones. */
  lemma FitsMeans(parts: seq<Part>, c: Coverage, part: Part)
    requires c.covered == NamedOrdinals(parts) && c.named == NamedLocators(parts)
    ensures Fits(c, part) <==> part.WellFormed() && forall i :: 0 <= i < |parts| ==> !Overlap(parts[i], part)
  {
    if part.WellFormed() {
      if !Fits(c, part) {
        if part.Named? && part.name in c.named {
          var p :| p in parts && p.Named? && p.name == part.name;
          assert Overlap(p, part);
        } else {
          var n :| n in part.Ordinals() && n in c.covered;
          var p :| p in parts && n in p.Ordinals();
          assert n in p.Ordinals() * part.Ordinals();
          assert Overlap(p, part);
        }
      } else {
        forall i | 0 <= i < |parts| ensures !Overlap(parts[i], part) {
          assert parts[i] in parts;
          assert forall n :: n in parts[i].Ordinals() ==> n in c.covered;
        }
      }
    }
  }

  /** The loop reports no error exactly when the parts are acceptable. */
  lemma {:induction false} NoErrorMeaning(parts: seq<Part>)
    ensures TakeAll(parts).errors == [] <==> Acceptable(parts)
  {
    hide Take, Overlap, Fits;
    if parts != [] {
      var before, last := parts[..|parts| - 1], parts[|parts| - 1];
      NoErrorMeaning(before);
      AcceptableSplit(parts);
      TakeFits(TakeAll(before), last);
      Gathered(before);
      if Acceptable(before) {
        FitsMeans(before, TakeAll(before), last);
      }
    }
  }

  /** Without an error the count is the sum of the sizes. */
  lemma {:induction false} CountMeaning(parts: seq<Part>)
    requires TakeAll(parts).errors == []
    ensures |TakeAll(parts).covered| + |TakeAll(parts).named| == TotalSize(parts)
  {
    hide Take;
    if parts != [] {
      var before, last := parts[..|parts| - 1], parts[|parts| - 1];
      TakeFits(TakeAll(before), last);
      CountMeaning(before);
      PartSize(last);
    }
  }

  lemma AcceptableSplit(parts: seq<Part>)
    requires parts != []
    ensures var before, last := parts[..|parts| - 1], parts[|parts| - 1];
            Acceptable(parts) <==> Acceptable(before) && last.WellFormed()
                                   && forall i :: 0 <= i < |before| ==> !Overlap(before[i], last)
  {
    hide Overlap;
  }

  // ----- order does not matter -----

  /** Acceptance and count depend only on which parts there are, not on their order or grouping. */
  lemma OrderDoesNotMatter(a: seq<Part>, b: seq<Part>)
    requires multiset(a) == multiset(b)
    ensures Acceptable(a) <==> Acceptable(b)
    ensures Acceptable(a) ==> TotalSize(a) == TotalSize(b)
  {
    hide Acceptable, TotalSize;
    if Acceptable(a) {
      AcceptablePermuted(a, b);
    }
    if Acceptable(b) {
      AcceptablePermuted(b, a);
    }
    if Acceptable(a) {
      CountFromSets(a);
      CountFromSets(b);
      assert forall p :: p in a <==> p in multiset(a);
      assert forall p :: p in b <==> p in multiset(b);
      assert NamedOrdinals(a) == NamedOrdinals(b) && NamedLocators(a) == NamedLocators(b);
    }
  }

  lemma CountFromSets(parts: seq<Part>)
    requires Acceptable(parts)
    ensures TotalSize(parts) == |NamedOrdinals(parts)| + |NamedLocators(parts)|
  {
    NoErrorMeaning(parts);
    Gathered(parts);
    CountMeaning(parts);
  }

  lemma AcceptablePermuted(a: seq<Part>, b: seq<Part>)
    requires multiset(a) == multiset(b) && Acceptable(a)
    ensures Acceptable(b)
  {
    forall i | 0 <= i < |b| ensures b[i].WellFormed() {
      assert b[i] in multiset(a);
    }
    forall i, j | 0 <= i < j < |b| ensures !Overlap(b[i], b[j]) {
      assert b[i] in multiset(a) && b[j] in multiset(a);
      var k :| 0 <= k < |a| && a[k] == b[i];
      var l :| 0 <= l < |a| && a[l] == b[j];
      if k == l {
        NameOrder.TwiceCounted(b, i, j);
        OnceIsOne(a, k);
      } else if l < k {
        assert Overlap(b[i], b[j]) <==> Overlap(a[l], a[k]) by {
          assert b[i].Ordinals() * b[j].Ordinals() == b[j].Ordinals() * b[i].Ordinals();
        }
      }
    }
  }

  lemma OnceIsOne(a: seq<Part>, k: nat)
    requires Acceptable(a) && k < |a|
    ensures multiset(a)[a[k]] == 1
  {
    assert a == a[..k] + [a[k]] + a[k + 1..];
    assert Overlap(a[k], a[k]) by {
      if a[k].Single? {
        assert a[k].ordinal in a[k].Ordinals() * a[k].Ordinals();
      } else if a[k].Range? {
        assert a[k].lo in a[k].Ordinals() * a[k].Ordinals();
      }
    }
    assert a[k] !in a[..k] && a[k] !in a[k + 1..];
  }

  // ----- how a text becomes parts -----

  lemma FirstDotsAt(a: string, b: string)
    requires '.' !in a
    ensures FirstDots(a + ".." + b) == |a|
  {
    var s := a + ".." + b;
    assert s[|a|] == '.' && s[|a| + 1] == '.';
    assert forall i :: 0 <= i < |a| ==> s[i] == a[i];
  }

  /** Two numbers with `..` between them are a range. */
  lemma RangeIsRead(parseInt: string -> Option<int>, a: string, b: string, lo: int, hi: int)
    requires '.' !in a && parseInt(a) == Some(lo) && parseInt(b) == Some(hi)
    ensures Classify(parseInt, a + ".." + b) == Range(lo, hi)
  {
    FirstDotsAt(a, b);
    var s := a + ".." + b;
    assert s[..|a|] == a && s[|a| + 2..] == b;
  }

  /** A number without dots is a single ordinal. */
  lemma SingleIsRead(parseInt: string -> Option<int>, part: string, n: int)
    requires '.' !in part && parseInt(part) == Some(n)
    ensures Classify(parseInt, part) == Single(n)
  {
  }

  /** Anything else is a name: no number where there are no dots, or not two of them around the first `..`. */
  lemma NameIsRead(parseInt: string -> Option<int>, a: string, b: string)
    requires '.' !in a
    ensures parseInt(a) == None ==> Classify(parseInt, a) == Named(a)
    ensures parseInt(a) == None || parseInt(b) == None ==> Classify(parseInt, a + ".." + b) == Named(a + ".." + b)
  {
    FirstDotsAt(a, b);
    var s := a + ".." + b;
    assert s[..|a|] == a && s[|a| + 2..] == b;
  }

  /** A token is the comma-separated list of its parts, trimmed, the empty ones dropped. */
  lemma CommaSplits(parseInt: string -> Option<int>, part: string, rest: string)
    requires ',' !in part
    ensures AllParts(parseInt, [part]) == if Strip(part) == "" then [] else [Classify(parseInt, Strip(part))]
    ensures AllParts(parseInt, [part + "," + rest]) == AllParts(parseInt, [part]) + AllParts(parseInt, [rest])
  {
    hide Classify, PyText.Strip;
    SplitOnFirst(part, ',', rest);
    OneToken(parseInt, part);
    OneToken(parseInt, rest);
    OneToken(parseInt, part + "," + rest);
    assert part + [','] + rest == part + "," + rest;
    assert ([part] + SplitOn(rest, ','))[1..] == SplitOn(rest, ',');
    assert [part][1..] == [];
  }

  lemma OneToken(parseInt: string -> Option<int>, token: string)
    ensures AllParts(parseInt, [token]) == PartsOf(parseInt, SplitOn(token, ','))
  {
    assert [token][..0] == [];
  }

  /** The tokens of a block contribute one after the other. */
  lemma TokensAppend(parseInt: string -> Option<int>, tokens: seq<string>, token: string)
    ensures AllParts(parseInt, tokens + [token]) == AllParts(parseInt, tokens) + AllParts(parseInt, [token])
  {
    assert (tokens + [token])[..|tokens|] == tokens;
    OneToken(parseInt, token);
  }

  lemma OneRange(lo: int, hi: int)
    ensures var parts := [Range(lo, hi)];
            && (Acceptable(parts) <==> 1 <= lo <= hi && hi - lo + 1 <= 10000)
            && TotalSize(parts) == hi - lo + 1
            && NamedOrdinals(parts) == Span(lo, hi)
  {
    var parts := [Range(lo, hi)];
    AddPart([], Range(lo, hi));
    assert NamedOrdinals([]) == {} && [] + [Range(lo, hi)] == parts;
    assert parts[..0] == [] && TotalSize(parts) == TotalSize(parts[..0]) + parts[0].Size();
    assert Acceptable(parts) <==> parts[0].WellFormed();
  }

  lemma RangeToken(parseInt: string -> Option<int>, a: string, b: string, lo: int, hi: int)
    requires '.' !in a && ',' !in a && ',' !in b && Strip(a + ".." + b) == a + ".." + b
    requires parseInt(a) == Some(lo) && parseInt(b) == Some(hi)
    ensures AllParts(parseInt, [a + ".." + b]) == [Range(lo, hi)]
  {
    hide Classify, PyText.Strip, PyText.SplitOn, AllParts;
    RangeIsRead(parseInt, a, b, lo, hi);
    CommaSplits(parseInt, a + ".." + b, "");
    assert |a + ".." + b| >= 2;
  }

  /** The one token `lo..hi` is accepted exactly within the bounds, and then names the `hi - lo + 1` rows from `lo` to `hi`. */
  lemma RangeCounts(parseInt: string -> Option<int>, a: string, b: string, lo: int, hi: int)
    requires '.' !in a && ',' !in a && ',' !in b && Strip(a + ".." + b) == a + ".." + b
    requires parseInt(a) == Some(lo) && parseInt(b) == Some(hi)
    ensures var parts := AllParts(parseInt, [a + ".." + b]);
            && (Acceptable(parts) <==> 1 <= lo <= hi && hi - lo + 1 <= 10000)
            && TotalSize(parts) == hi - lo + 1
            && forall n :: n in NamedOrdinals(parts) <==> lo <= n <= hi
  {
    hide AllParts, Acceptable, TotalSize, NamedOrdinals, PyText.Strip;
    RangeToken(parseInt, a, b, lo, hi);
    OneRange(lo, hi);
  }

  /** What an error claims about its part is so. */
  ghost predicate Justified(c: Coverage, e: Error) {
    match e
    case Nonpositive(p) => (p.Single? && p.ordinal < 1) || (p.Range? && (p.lo < 1 || p.hi < 1))
    case TooLong(p) => p.Range? && 1 <= p.lo && 1 <= p.hi && (p.hi < p.lo || p.hi - p.lo >= 10000)
    case Overlapping(p) => !p.Named? && exists n :: n in p.Ordinals() && n in c.covered
    case NamedTwice(p) => p.Named? && p.name in c.named
  }

  /** One turn of the loop adds at most one error, a justified one, and forgets nothing. */
  lemma TakeJustified(c: Coverage, part: Part)
    ensures var d := Take(c, part);
            && c.covered <= d.covered && c.named <= d.named
            && (d.errors == c.errors
                || exists e :: d.errors == c.errors + [e] && e.part == part && Justified(d, e))
  {
    if part.Range? && part.Ordinals() * c.covered != {} {
      var n :| n in part.Ordinals() * c.covered;
    }
    var d := Take(c, part);
    if d.errors != c.errors {
      var e := d.errors[|c.errors|];
      assert d.errors == c.errors + [e] && e.part == part && Justified(d, e);
    }
  }

  /** Each error names a part and says rightly what is wrong with it. */
  lemma {:induction false} ErrorsMean(parts: seq<Part>)
    ensures forall e :: e in TakeAll(parts).errors ==> e.part in parts && Justified(TakeAll(parts), e)
  {
    hide Take;
    if parts != [] {
      var before, last := parts[..|parts| - 1], parts[|parts| - 1];
      ErrorsMean(before);
      TakeJustified(TakeAll(before), last);
      var c, d := TakeAll(before), TakeAll(parts);
      forall e | e in c.errors ensures e.part in parts && Justified(d, e) {
        assert e.part in before;
      }
    }
  }
}
