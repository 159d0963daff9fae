/**
  The explicit-stack walk over a composed YAML document in scripts/validate-skills.py that looks
  for keys repeated inside one mapping.
 */
module YamlWalk {
  import opened NameOrder

  datatype Pair = Pair(key: Node, value: Node)

  datatype Node =
    | Scalar(value: string)
    | Sequence(items: seq<Node>)
    | Mapping(pairs: seq<Pair>)

  /** What composing a text gives: nothing for an empty text. */
  datatype Document = Empty | Document(root: Node)

  // ----- the recursive definition -----

  /** The key is a scalar other than the merge key, with this text. */
  predicate HasKey(p: Pair, k: string) {
    p.key == Scalar(k) && k != "<<"
  }

  /** The mapping has the key twice. */
  ghost predicate Repeats(pairs: seq<Pair>, k: string) {
    exists i, j :: 0 <= i < j < |pairs| && HasKey(pairs[i], k) && HasKey(pairs[j], k)
  }

  ghost predicate Within(m: Node, n: Node)
    decreases n, 1
  {
    m == n || match n
      case Scalar(_) => false
      case Sequence(items) => WithinAny(m, items)
      case Mapping(pairs) => WithinPairs(m, pairs)
  }

  ghost predicate WithinAny(m: Node, nodes: seq<Node>)
    decreases nodes, 0
  {
    nodes != [] && (Within(m, nodes[0]) || WithinAny(m, nodes[1..]))
  }

  ghost predicate WithinPairs(m: Node, pairs: seq<Pair>)
    decreases pairs, 0
  {
    pairs != [] && (WithinPair(m, pairs[0]) || WithinPairs(m, pairs[1..]))
  }

  ghost predicate WithinPair(m: Node, p: Pair)
    decreases p, 2
  {
    Within(m, p.key) || Within(m, p.value)
  }

  /** Some mapping inside the node, however deep, repeats the key. */
  ghost predicate Duplicated(n: Node, k: string) {
    exists m :: Within(m, n) && m.Mapping? && Repeats(m.pairs, k)
  }

  // ----- stacks of nodes -----

  function Flat(pairs: seq<Pair>): seq<Node> {
    if pairs == [] then [] else [pairs[0].key, pairs[0].value] + Flat(pairs[1..])
  }

  function Children(n: Node): seq<Node> {
    match n
    case Scalar(_) => []
    case Sequence(items) => items
    case Mapping(pairs) => Flat(pairs)
  }

  /** The number of nodes in a subtree. */
  ghost function Size(n: Node): nat
    decreases n, 1
  {
    1 + match n
      case Scalar(_) => 0
      case Sequence(items) => SizeOfAll(items)
      case Mapping(pairs) => SizeOfPairs(pairs)
  }

  ghost function SizeOfAll(nodes: seq<Node>): nat
    decreases nodes, 0
  {
    if nodes == [] then 0 else Size(nodes[0]) + SizeOfAll(nodes[1..])
  }

  ghost function SizeOfPairs(pairs: seq<Pair>): nat
    decreases pairs, 0
  {
    if pairs == [] then 0 else SizeOfPair(pairs[0]) + SizeOfPairs(pairs[1..])
  }

  ghost function SizeOfPair(p: Pair): nat
    decreases p, 2
  {
    Size(p.key) + Size(p.value)
  }

  lemma {:induction false} SizeAppends(a: seq<Node>, b: seq<Node>)
    ensures SizeOfAll(a + b) == SizeOfAll(a) + SizeOfAll(b)
  {
    if a == [] {
      assert a + b == b;
    } else {
      assert (a + b)[1..] == a[1..] + b;
      SizeAppends(a[1..], b);
    }
  }

  lemma {:induction false} SizeOfFlat(pairs: seq<Pair>)
    ensures SizeOfAll(Flat(pairs)) == SizeOfPairs(pairs)
  {
    if pairs != [] {
      SizeOfFlat(pairs[1..]);
      var flat := Flat(pairs);
      assert flat[1..] == [pairs[0].value] + Flat(pairs[1..]) && flat[1..][1..] == Flat(pairs[1..]);
    }
  }

  /** A node's children are smaller, together, than the node. */
  lemma ChildrenAreSmaller(n: Node)
    ensures SizeOfAll(Children(n)) == Size(n) - 1
  {
    if n.Mapping? {
      SizeOfFlat(n.pairs);
    }
  }

  lemma {:induction false} WithinAppends(m: Node, a: seq<Node>, b: seq<Node>)
    ensures WithinAny(m, a + b) <==> WithinAny(m, a) || WithinAny(m, b)
  {
    if a == [] {
      assert a + b == b;
    } else {
      assert (a + b)[1..] == a[1..] + b;
      WithinAppends(m, a[1..], b);
    }
  }

  lemma {:induction false} WithinFlat(m: Node, pairs: seq<Pair>)
    ensures WithinAny(m, Flat(pairs)) <==> WithinPairs(m, pairs)
  {
    if pairs != [] {
      WithinFlat(m, pairs[1..]);
      var flat := Flat(pairs);
      assert flat[1..] == [pairs[0].value] + Flat(pairs[1..]) && flat[1..][1..] == Flat(pairs[1..]);
    }
  }

  /** Some mapping below some node of the stack repeats the key. */
  ghost predicate Pending(stack: seq<Node>, k: string) {
    exists m :: WithinAny(m, stack) && m.Mapping? && Repeats(m.pairs, k)
  }

  /** Popping a node settles its own keys and leaves its children's. */
  lemma PopSettles(rest: seq<Node>, node: Node, k: string)
    ensures Pending(rest + [node], k) <==>
              Pending(rest + Children(node), k) || (node.Mapping? && Repeats(node.pairs, k))
  {
    hide Repeats;
    forall m ensures WithinAny(m, rest + [node]) <==> WithinAny(m, rest + Children(node)) || m == node {
      WithinAppends(m, rest, [node]);
      WithinAppends(m, rest, Children(node));
      assert [node][1..] == [];
      if node.Mapping? {
        WithinFlat(m, node.pairs);
      }
    }
  }

  // ----- the walk -----

  /** The loop over one mapping: its repeated keys, and its keys and values for the stack. */
  method VisitMapping(pairs: seq<Pair>) returns (repeated: seq<string>, children: seq<Node>)
    ensures forall k :: k in repeated <==> Repeats(pairs, k)
    ensures children == Flat(pairs)
  {
    var seen: set<string> := {};
    repeated, children := [], [];
    for i := 0 to |pairs|
      invariant forall k :: k in seen <==> exists j :: 0 <= j < i && HasKey(pairs[j], k)
      invariant forall k :: k in repeated <==> Repeats(pairs[..i], k)
      invariant children + Flat(pairs[i..]) == Flat(pairs)
    {
      var key := pairs[i].key;
      forall k ensures Repeats(pairs[..i + 1], k) <==> Repeats(pairs[..i], k) || (k in seen && HasKey(pairs[i], k)) {
        RepeatsOneMore(pairs, i, k);
      }
      if key.Scalar? && key.value != "<<" {
        if key.value in seen {
          repeated := repeated + [key.value];
        }
        seen := seen + {key.value};
      }
      assert pairs[i..][1..] == pairs[i + 1..];
      children := children + [pairs[i].key, pairs[i].value];
    }
    assert pairs[..|pairs|] == pairs;
  }

  lemma RepeatsOneMore(pairs: seq<Pair>, i: nat, k: string)
    requires i < |pairs|
    ensures Repeats(pairs[..i + 1], k) <==>
              Repeats(pairs[..i], k) || (HasKey(pairs[i], k) && exists j :: 0 <= j < i && HasKey(pairs[j], k))
  {
    var more, less := pairs[..i + 1], pairs[..i];
    assert forall j :: 0 <= j < i ==> more[j] == less[j] == pairs[j];
    assert more[i] == pairs[i];
    if Repeats(less, k) {
      var a, b :| 0 <= a < b < |less| && HasKey(less[a], k) && HasKey(less[b], k);
      assert HasKey(more[a], k) && HasKey(more[b], k);
    }
    if HasKey(pairs[i], k) && exists j :: 0 <= j < i && HasKey(pairs[j], k) {
      var j :| 0 <= j < i && HasKey(pairs[j], k);
      assert HasKey(more[j], k) && HasKey(more[i], k);
    }
  }

  /** `duplicate_mapping_keys` on a composed document. */
  method DuplicateMappingKeys(doc: Document) returns (keys: seq<string>)
    ensures forall k :: k in keys <==> doc.Document? && Duplicated(doc.root, k)
    ensures Distinct(SameName, keys) && Ordered(SameName, keys)
  {
    hide Repeats, Within, NameOrder.Distinct, NameOrder.Ordered;
    var dupes: seq<string> := [];
    var stack: seq<Node> := if doc.Document? then [doc.root] else [];
    assert doc.Document? ==> forall m :: WithinAny(m, [doc.root]) <==> Within(m, doc.root) by {
      assert doc.Document? ==> [doc.root][1..] == [];
    }
    while stack != []
      invariant forall k :: (doc.Document? && Duplicated(doc.root, k)) <==> k in dupes || Pending(stack, k)
      decreases SizeOfAll(stack)
    {
      var rest, node := stack[..|stack| - 1], stack[|stack| - 1];
      assert stack == rest + [node];
      forall k ensures Pending(stack, k) <==> Pending(rest + Children(node), k) || (node.Mapping? && Repeats(node.pairs, k)) {
        PopSettles(rest, node, k);
      }
      SizeAppends(rest, [node]);
      SizeAppends(rest, Children(node));
      ChildrenAreSmaller(node);
      assert SizeOfAll([node]) == Size(node) + SizeOfAll([node][1..]);
      match node {
        case Scalar(_) =>
          assert rest + [] == rest;
          stack := rest;
        case Sequence(items) =>
          stack := rest + items;
        case Mapping(pairs) =>
          var repeated, children := VisitMapping(pairs);
          dupes := dupes + repeated;
          stack := rest + children;
      }
    }
    assert forall k :: !Pending([], k);
    keys := SortedSet(dupes);
  }
}
