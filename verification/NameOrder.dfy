/**
  Sorting by the UTF-8 bytes of a name, as scripts/verify_consumer_live.py sorts its rows.

  UTF-8 keeps the order of code points, so the byte order is a total order on names in which
  only equal names tie.
 */
module NameOrder {

  // ----- UTF-8 -----

  function EncodeChar(c: char): (bytes: seq<nat>)
    ensures 1 <= |bytes| <= 4
  {
    var n := c as nat;
    if n < 0x80 then [n]
    else if n < 0x800 then [0xc0 + n / 0x40, 0x80 + n % 0x40]
    else
      var m := n / 0x40;
      if n < 0x10000 then [0xe0 + m / 0x40, 0x80 + m % 0x40, 0x80 + n % 0x40]
      else
        var l := m / 0x40;
        [0xf0 + l / 0x40, 0x80 + l % 0x40, 0x80 + m % 0x40, 0x80 + n % 0x40]
  }

  /** `s.encode("utf-8")`. */
  function Utf8(s: string): seq<nat> {
    if s == [] then [] else EncodeChar(s[0]) + Utf8(s[1..])
  }

  /** The bytes are those of section 3 of RFC 3629: the lead byte tells the length, and the bits give the character back. */
  lemma EncodingIsUtf8(c: char)
    ensures var n, b := c as nat, EncodeChar(c);
            && (|b| == 1 <==> n <= 0x7f) && (|b| == 2 <==> 0x80 <= n <= 0x7ff) && (|b| == 3 <==> 0x800 <= n <= 0xffff)
            && (|b| == 1 ==> b[0] == n)
            && (|b| == 2 ==> 0xc0 <= b[0] <= 0xdf && (b[0] - 0xc0) * 64 + (b[1] - 0x80) == n)
            && (|b| == 3 ==> 0xe0 <= b[0] <= 0xef && (b[0] - 0xe0) * 4096 + (b[1] - 0x80) * 64 + (b[2] - 0x80) == n)
            && (|b| == 4 ==> 0xf0 <= b[0] <= 0xf7
                             && (b[0] - 0xf0) * 262144 + (b[1] - 0x80) * 4096 + (b[2] - 0x80) * 64 + (b[3] - 0x80) == n)
            && forall i :: 1 <= i < |b| ==> 0x80 <= b[i] <= 0xbf
  {
    Bounds(c as nat);
  }

  /** Lexicographic order, as Python compares byte strings. */
  predicate LexLe(a: seq<nat>, b: seq<nat>) {
    || a == []
    || (b != [] && (a[0] < b[0] || (a[0] == b[0] && LexLe(a[1..], b[1..]))))
  }

  function Codes(s: string): (codes: seq<nat>)
    ensures |codes| == |s|
    ensures forall i :: 0 <= i < |s| ==> codes[i] == s[i] as nat
  {
    seq(|s|, i requires 0 <= i < |s| => s[i] as nat)
  }

  /** The two first differ at `k`, where `a` is smaller. */
  ghost predicate SmallerAt(a: seq<nat>, b: seq<nat>, k: nat) {
    k < |a| && k < |b| && a[..k] == b[..k] && a[k] < b[k]
  }

  lemma {:induction false} SmallerDecides(a: seq<nat>, b: seq<nat>, k: nat)
    requires SmallerAt(a, b, k)
    ensures LexLe(a, b) && !LexLe(b, a)
    decreases k
  {
    if k > 0 {
      assert a[0] == a[..k][0] && b[0] == b[..k][0];
      assert a[1..][..k - 1] == a[..k][1..] && b[1..][..k - 1] == b[..k][1..];
      SmallerDecides(a[1..], b[1..], k - 1);
    }
  }

  lemma DigitOrder(n: nat, m: nat)
    requires n < m
    ensures n / 0x40 < m / 0x40 || (n / 0x40 == m / 0x40 && n % 0x40 < m % 0x40)
  {
  }

  lemma Bounds(n: nat)
    ensures n < 0x10000 ==> n / 0x40 / 0x40 < 0x10
    ensures 0x10000 <= n < 0x110000 ==> n / 0x40 / 0x40 / 0x40 < 8
    ensures n < 0x800 ==> n / 0x40 < 0x20
  {
  }

  /** More bytes mean a larger first byte. */
  lemma LongerIsLarger(c: char, d: char)
    requires |EncodeChar(c)| < |EncodeChar(d)|
    ensures SmallerAt(EncodeChar(c), EncodeChar(d), 0)
  {
    Bounds(c as nat);
  }

  lemma SameLength(c: char, d: char)
    requires c < d && |EncodeChar(c)| == |EncodeChar(d)|
    ensures exists k: nat :: SmallerAt(EncodeChar(c), EncodeChar(d), k)
  {
    match |EncodeChar(c)|
    case 1 => assert SmallerAt(EncodeChar(c), EncodeChar(d), 0);
    case 2 => TwoBytes(c, d);
    case 3 => ThreeBytes(c, d);
    case _ => FourBytes(c, d);
  }

  lemma TwoBytes(c: char, d: char)
    requires c < d && |EncodeChar(c)| == 2 && |EncodeChar(d)| == 2
    ensures exists k: nat :: SmallerAt(EncodeChar(c), EncodeChar(d), k)
  {
    var n, m := c as nat, d as nat;
    DigitOrder(n, m);
    assert SmallerAt(EncodeChar(c), EncodeChar(d), if n / 0x40 == m / 0x40 then 1 else 0);
  }

  lemma ThreeBytes(c: char, d: char)
    requires c < d && |EncodeChar(c)| == 3 && |EncodeChar(d)| == 3
    ensures exists k: nat :: SmallerAt(EncodeChar(c), EncodeChar(d), k)
  {
    var n, m := c as nat, d as nat;
    DigitOrder(n, m);
    if n / 0x40 == m / 0x40 {
      assert SmallerAt(EncodeChar(c), EncodeChar(d), 2);
    } else {
      DigitOrder(n / 0x40, m / 0x40);
      assert SmallerAt(EncodeChar(c), EncodeChar(d), if n / 0x40 / 0x40 == m / 0x40 / 0x40 then 1 else 0);
    }
  }

  lemma FourBytes(c: char, d: char)
    requires c < d && |EncodeChar(c)| == 4 && |EncodeChar(d)| == 4
    ensures exists k: nat :: SmallerAt(EncodeChar(c), EncodeChar(d), k)
  {
    var n, m := c as nat, d as nat;
    DigitOrder(n, m);
    if n / 0x40 == m / 0x40 {
      assert SmallerAt(EncodeChar(c), EncodeChar(d), 3);
    } else {
      DigitOrder(n / 0x40, m / 0x40);
      if n / 0x40 / 0x40 == m / 0x40 / 0x40 {
        assert SmallerAt(EncodeChar(c), EncodeChar(d), 2);
      } else {
        DigitOrder(n / 0x40 / 0x40, m / 0x40 / 0x40);
        assert SmallerAt(EncodeChar(c), EncodeChar(d),
            if n / 0x40 / 0x40 / 0x40 == m / 0x40 / 0x40 / 0x40 then 1 else 0);
      }
    }
  }

  /** A smaller code point is decided within the bytes of one character. */
  lemma CharOrder(c: char, d: char)
    requires c < d
    ensures exists k: nat :: SmallerAt(EncodeChar(c), EncodeChar(d), k)
  {
    hide SmallerAt;
    if |EncodeChar(c)| < |EncodeChar(d)| {
      LongerIsLarger(c, d);
    } else {
      SameLength(c, d);
    }
  }

  lemma {:induction false} CommonPrefix(p: seq<nat>, a: seq<nat>, b: seq<nat>)
    ensures LexLe(p + a, p + b) == LexLe(a, b)
  {
    if p == [] {
      assert p + a == a && p + b == b;
    } else {
      assert (p + a)[1..] == p[1..] + a && (p + b)[1..] == p[1..] + b;
      CommonPrefix(p[1..], a, b);
    }
  }

  /** Comparing the bytes is comparing the code points. */
  lemma {:induction false} ByteOrderIsCodeOrder(s: string, t: string)
    ensures LexLe(Utf8(s), Utf8(t)) == LexLe(Codes(s), Codes(t))
  {
    if s != [] && t != [] {
      assert Codes(s)[1..] == Codes(s[1..]) && Codes(t)[1..] == Codes(t[1..]);
      if s[0] == t[0] {
        ByteOrderIsCodeOrder(s[1..], t[1..]);
        CommonPrefix(EncodeChar(s[0]), Utf8(s[1..]), Utf8(t[1..]));
      } else if s[0] < t[0] {
        FirstCharDecides(s, t);
      } else {
        FirstCharDecides(t, s);
      }
    }
  }

  lemma FirstCharDecides(s: string, t: string)
    requires s != [] && t != [] && s[0] < t[0]
    ensures LexLe(Utf8(s), Utf8(t)) && !LexLe(Utf8(t), Utf8(s))
  {
    CharOrder(s[0], t[0]);
    var k: nat :| SmallerAt(EncodeChar(s[0]), EncodeChar(t[0]), k);
    assert Utf8(s)[..k] == EncodeChar(s[0])[..k] && Utf8(t)[..k] == EncodeChar(t[0])[..k];
    SmallerDecides(Utf8(s), Utf8(t), k);
  }

  // ----- a total order -----

  /** `name_key(a) <= name_key(b)`. */
  predicate NameLe(a: string, b: string) {
    LexLe(Utf8(a), Utf8(b))
  }

  lemma {:induction false} LexTotal(a: seq<nat>, b: seq<nat>)
    ensures LexLe(a, b) || LexLe(b, a)
    ensures LexLe(a, b) && LexLe(b, a) ==> a == b
  {
    if a != [] && b != [] && a[0] == b[0] {
      LexTotal(a[1..], b[1..]);
      assert a == [a[0]] + a[1..] && b == [b[0]] + b[1..];
    }
  }

  lemma {:induction false} LexTransitive(a: seq<nat>, b: seq<nat>, c: seq<nat>)
    requires LexLe(a, b) && LexLe(b, c)
    ensures LexLe(a, c)
  {
    if a != [] && a[0] == b[0] && b[0] == c[0] {
      LexTransitive(a[1..], b[1..], c[1..]);
    }
  }

  /** Names are totally ordered, and two names that tie are equal. */
  lemma NameOrderTotal(a: string, b: string)
    ensures NameLe(a, b) || NameLe(b, a)
    ensures NameLe(a, b) && NameLe(b, a) ==> a == b
  {
    LexTotal(Utf8(a), Utf8(b));
    if NameLe(a, b) && NameLe(b, a) {
      ByteOrderIsCodeOrder(a, b);
      ByteOrderIsCodeOrder(b, a);
      LexTotal(Codes(a), Codes(b));
      assert forall i :: 0 <= i < |a| ==> a[i] as nat == Codes(a)[i] && b[i] as nat == Codes(b)[i];
    }
  }

  // ----- sorting -----

  /** Put `x` behind everything that is not greater. */
  function Insert<T>(key: T -> string, x: T, s: seq<T>): (r: seq<T>)
    ensures |r| == |s| + 1
    ensures multiset(r) == multiset(s) + multiset{x}
  {
    if s != [] && NameLe(key(s[0]), key(x)) then
      assert s == [s[0]] + s[1..];
      [s[0]] + Insert(key, x, s[1..])
    else [x] + s
  }

  /** `sorted(s, key=name_key)`: stable, by the bytes of the name. */
  function Sort<T>(key: T -> string, s: seq<T>): (r: seq<T>)
    ensures |r| == |s| && multiset(r) == multiset(s)
  {
    if s == [] then []
    else
      assert s == s[..|s| - 1] + [s[|s| - 1]];
      Insert(key, s[|s| - 1], Sort(key, s[..|s| - 1]))
  }

  ghost predicate Ordered<T>(key: T -> string, s: seq<T>) {
    forall i, j :: 0 <= i < j < |s| ==> NameLe(key(s[i]), key(s[j]))
  }

  ghost predicate Distinct<T>(key: T -> string, s: seq<T>) {
    forall i, j :: 0 <= i < j < |s| ==> key(s[i]) != key(s[j])
  }

  lemma {:induction false} InsertOrdered<T>(key: T -> string, x: T, s: seq<T>)
    requires Ordered(key, s)
    ensures Ordered(key, Insert(key, x, s))
  {
    hide NameLe;
    var r := Insert(key, x, s);
    if s != [] && NameLe(key(s[0]), key(x)) {
      InsertOrdered(key, x, s[1..]);
      var rest := Insert(key, x, s[1..]);
      forall j | 0 <= j < |rest| ensures NameLe(key(s[0]), key(rest[j])) {
        assert rest[j] in multiset(rest);
        assert rest[j] == x || rest[j] in s[1..];
      }
    } else {
      forall j | 0 <= j < |s| ensures NameLe(key(x), key(s[j])) {
        NameOrderTotal(key(x), key(s[0]));
        if j > 0 {
          NameLeTransitive(key(x), key(s[0]), key(s[j]));
        }
      }
    }
  }

  lemma NameLeTransitive(a: string, b: string, c: string)
    requires NameLe(a, b) && NameLe(b, c)
    ensures NameLe(a, c)
  {
    LexTransitive(Utf8(a), Utf8(b), Utf8(c));
  }

  lemma {:induction false} SortOrdered<T>(key: T -> string, s: seq<T>)
    ensures Ordered(key, Sort(key, s))
  {
    if s != [] {
      SortOrdered(key, s[..|s| - 1]);
      InsertOrdered(key, s[|s| - 1], Sort(key, s[..|s| - 1]));
    }
  }

  lemma SameFirst<T>(key: T -> string, a: seq<T>, b: seq<T>)
    requires Ordered(key, a) && Ordered(key, b) && Distinct(key, a) && multiset(a) == multiset(b) && a != []
    ensures b != [] && a[0] == b[0]
  {
    hide NameLe;
    assert |a| == |multiset(a)| == |multiset(b)| == |b|;
    assert a[0] in multiset(b) && b[0] in multiset(a);
    var i :| 0 <= i < |b| && b[i] == a[0];
    var j :| 0 <= j < |a| && a[j] == b[0];
    NameOrderTotal(key(a[0]), key(b[0]));
  }

  /** Ordered sequences of distinct names with the same elements are equal. */
  lemma {:induction false} OrderedUnique<T>(key: T -> string, a: seq<T>, b: seq<T>)
    requires Ordered(key, a) && Ordered(key, b) && Distinct(key, a) && multiset(a) == multiset(b)
    ensures a == b
    decreases |a|
  {
    hide NameLe;
    if a == [] {
      assert |b| == |multiset(b)|;
    } else {
      SameFirst(key, a, b);
      TailMultiset(a);
      TailMultiset(b);
      OrderedUnique(key, a[1..], b[1..]);
    }
  }

  /** Sorting distinct names forgets the order they came in. */
  lemma SortForgetsOrder<T>(key: T -> string, a: seq<T>, b: seq<T>)
    requires Distinct(key, a) && multiset(a) == multiset(b)
    ensures Sort(key, a) == Sort(key, b)
  {
    SortOrdered(key, a);
    SortOrdered(key, b);
    DistinctKept(key, a, Sort(key, a));
    OrderedUnique(key, Sort(key, a), Sort(key, b));
  }

  lemma TailMultiset<T>(a: seq<T>)
    requires a != []
    ensures a == [a[0]] + a[1..] && multiset(a[1..]) == multiset(a) - multiset{a[0]}
  {
    assert a == [a[0]] + a[1..];
  }

  /** Twice the same name would be counted twice. */
  lemma {:induction false} DistinctKept<T>(key: T -> string, a: seq<T>, b: seq<T>)
    requires Distinct(key, a) && multiset(a) == multiset(b)
    ensures Distinct(key, b)
  {
    forall i, j | 0 <= i < j < |b| ensures key(b[i]) != key(b[j]) {
      assert b[i] in multiset(a) && b[j] in multiset(a);
      var k :| 0 <= k < |a| && a[k] == b[i];
      var l :| 0 <= l < |a| && a[l] == b[j];
      if b[i] == b[j] {
        TwiceCounted(b, i, j);
        OnceCounted(key, a, k);
      }
    }
  }

  lemma TwiceCounted<T>(b: seq<T>, i: nat, j: nat)
    requires i < j < |b| && b[i] == b[j]
    ensures multiset(b)[b[i]] >= 2
  {
    assert b == b[..j] + b[j..];
    assert b[i] == b[..j][i] && b[j] == b[j..][0];
  }

  lemma OnceCounted<T>(key: T -> string, a: seq<T>, k: nat)
    requires Distinct(key, a) && k < |a|
    ensures multiset(a)[a[k]] == 1
  {
    assert a == a[..k] + [a[k]] + a[k + 1..];
    assert a[k] !in a[..k] && a[k] !in a[k + 1..];
  }

  function SameName(name: string): string { name }

  /** `sorted(set(names))`: each name once, in order. */
  method SortedSet(names: seq<string>) returns (sorted: seq<string>)
    ensures forall name :: name in sorted <==> name in names
    ensures Distinct(SameName, sorted) && Ordered(SameName, sorted)
  {
    hide NameLe;
    var once: seq<string> := [];
    for i := 0 to |names|
      invariant forall name :: name in once <==> name in names[..i]
      invariant Distinct(SameName, once)
    {
      assert names[..i + 1] == names[..i] + [names[i]];
      if names[i] !in once {
        once := once + [names[i]];
      }
    }
    assert names[..|names|] == names;
    sorted := Sort(SameName, once);
    DistinctKept(SameName, once, sorted);
    SortOrdered(SameName, once);
    forall name ensures name in sorted <==> name in once {
      assert name in sorted <==> name in multiset(sorted);
      assert name in once <==> name in multiset(once);
    }
  }
}
