/** An abstract view of the C# syntax tree the resolver queries. Only the node
    kinds the resolver asks for are distinguished; every other kind (usings,
    attribute lists, structs, records, interfaces, file-scoped namespaces,
    statements, ...) is `Other`, which still has children, because
    `DescendantNodes` walks into every kind of node. */
module SyntaxTree {

  /** The modifier tokens of a member declaration. */
  datatype Modifier =
    | StaticKeyword | PublicKeyword | PrivateKeyword | ProtectedKeyword
    | InternalKeyword | AbstractKeyword | VirtualKeyword | OverrideKeyword
    | SealedKeyword | AsyncKeyword | ExternKeyword | UnsafeKeyword
    | NewKeyword | PartialKeyword | ReadOnlyKeyword

  /** A syntax node with its children in document order.
      - Namespace: a block-bodied namespace declaration; `name` is its
        (possibly dotted) name as written.
      - Class: a class declaration; `identifier` is its identifier token text.
      - Method: a method declaration; `children` covers its parameters and
        body, which `DescendantNodes` also visits. */
  datatype Node =
    | Namespace(name: string, children: seq<Node>)
    | Class(identifier: string, children: seq<Node>)
    | Method(identifier: string, modifiers: seq<Modifier>, children: seq<Node>)
    | Other(children: seq<Node>)

  /** The root of a parsed file. */
  datatype CompilationUnit = CompilationUnit(members: seq<Node>)

  /** Every node of the forest `ns`, in depth-first pre-order (document order):
      each node is followed by its own subtree, then by its later siblings. */
  function PreOrder(ns: seq<Node>): seq<Node>
    decreases ns
  {
    if ns == [] then []
    else [ns[0]] + PreOrder(ns[0].children) + PreOrder(ns[1..])
  }

  /** `n.DescendantNodes()`: every node strictly below `n`, in document order. */
  function Descendants(n: Node): seq<Node> {
    PreOrder(n.children)
  }

  /** `root.DescendantNodes()` for the root of a file; the root itself is not
      among them. */
  function DescendantNodes(unit: CompilationUnit): seq<Node> {
    PreOrder(unit.members)
  }

  /** One step of the pre-order of a forest written as a list of nodes. */
  lemma PreOrderCons(n: Node, rest: seq<Node>)
    ensures PreOrder([n] + rest) == [n] + Descendants(n) + PreOrder(rest)
  {
    assert ([n] + rest)[0] == n;
    assert ([n] + rest)[1..] == rest;
  }

  /** The pre-order of a single tree. */
  lemma PreOrderSingle(n: Node)
    ensures PreOrder([n]) == [n] + Descendants(n)
  {
    PreOrderCons(n, []);
    assert [n] + [] == [n];
  }

  /** `i + 1 .. i + 1 + |Descendants(all[i])|` is in range and holds exactly
      the descendants of the node at `i`. */
  ghost predicate FollowedBySubtree(all: seq<Node>, i: nat)
    requires i < |all|
  {
    && i + 1 + |Descendants(all[i])| <= |all|
    && all[i + 1 .. i + 1 + |Descendants(all[i])|] == Descendants(all[i])
  }

  /** If `part` sits in `all` at offset `off`, a position of `part` followed
      by its subtree is, shifted by `off`, a position of `all` followed by its
      subtree. */
  lemma FollowedBySubtreeShift(all: seq<Node>, part: seq<Node>, off: nat, j: nat, at: nat)
    requires off + |part| <= |all| && all[off .. off + |part|] == part
    requires j < |part| && at == off + j
    requires FollowedBySubtree(part, j)
    ensures at < |all| && FollowedBySubtree(all, at)
  {
    assert forall p :: off <= p < off + |part| ==> all[p] == part[p - off];
    var n := part[j];
    assert all[at] == n;
    var d := |Descendants(n)|;
    assert all[at + 1 .. at + 1 + d] == part[j + 1 .. j + 1 + d];
  }

  /** The parts of the pre-order of a non-empty forest: its first node, that
      node's descendants, then the pre-order of the remaining trees. */
  lemma PreOrderParts(ns: seq<Node>)
    requires ns != []
    ensures |PreOrder(ns)| == 1 + |Descendants(ns[0])| + |PreOrder(ns[1..])|
    ensures PreOrder(ns)[0] == ns[0]
    ensures PreOrder(ns)[1 .. 1 + |Descendants(ns[0])|] == Descendants(ns[0])
    ensures PreOrder(ns)[1 + |Descendants(ns[0])| .. |PreOrder(ns)|] == PreOrder(ns[1..])
  {
    var inner := Descendants(ns[0]);
    var rest := PreOrder(ns[1..]);
    var all := [ns[0]] + inner + rest;
    assert PreOrder(ns) == all;
    assert all[1 .. 1 + |inner|] == inner;
    assert all[1 + |inner| .. |all|] == rest;
  }

  /** The defining property of pre-order: the node at position `i` is
      immediately followed by exactly its descendants. */
  lemma {:induction false} SubtreeFollows(ns: seq<Node>, i: nat)
    requires i < |PreOrder(ns)|
    ensures FollowedBySubtree(PreOrder(ns), i)
    decreases ns, 1
  {
    PreOrderParts(ns);
    if i == 0 {
    } else if i <= |Descendants(ns[0])| {
      SubtreeFollowsInFirstTree(ns, i);
    } else {
      SubtreeFollowsInLaterTrees(ns, i);
    }
  }

  /** SubtreeFollows for a position inside the first tree of the forest. */
  lemma {:induction false} SubtreeFollowsInFirstTree(ns: seq<Node>, i: nat)
    requires ns != [] && 1 <= i <= |Descendants(ns[0])|
    ensures i < |PreOrder(ns)| && FollowedBySubtree(PreOrder(ns), i)
    decreases ns, 0
  {
    var all, inner := PreOrder(ns), Descendants(ns[0]);
    PreOrderParts(ns);
    assert 1 + |inner| <= |all|;
    assert all[1 .. 1 + |inner|] == inner;
    SubtreeFollows(ns[0].children, i - 1);
    assert FollowedBySubtree(inner, i - 1);
    FollowedBySubtreeShift(all, inner, 1, i - 1, i);
  }

  /** SubtreeFollows for a position after the first tree of the forest. */
  lemma {:induction false} SubtreeFollowsInLaterTrees(ns: seq<Node>, i: nat)
    requires ns != [] && |Descendants(ns[0])| < i < |PreOrder(ns)|
    ensures FollowedBySubtree(PreOrder(ns), i)
    decreases ns, 0
  {
    var all, rest := PreOrder(ns), PreOrder(ns[1..]);
    var skip := 1 + |Descendants(ns[0])|;
    PreOrderParts(ns);
    assert |all| == skip + |rest|;
    assert all[skip .. skip + |rest|] == rest;
    SubtreeFollows(ns[1..], i - skip);
    assert FollowedBySubtree(rest, i - skip);
    FollowedBySubtreeShift(all, rest, skip, i - skip, i);
  }

  /** Every descendant of a node in a pre-order lies in that pre-order, at a
      later position. */
  lemma DescendantsFollow(ns: seq<Node>, i: nat, e: Node)
    requires i < |PreOrder(ns)|
    requires e in Descendants(PreOrder(ns)[i])
    ensures exists j :: i < j < |PreOrder(ns)| && PreOrder(ns)[j] == e
  {
    SubtreeFollows(ns, i);
    var ds := Descendants(PreOrder(ns)[i]);
    var k :| 0 <= k < |ds| && ds[k] == e;
    assert PreOrder(ns)[i + 1 + k] == e;
  }

  /** The descendant relation is transitive: a descendant of a descendant of
      `c` is a descendant of `c`. */
  lemma DescendantsTransitive(c: Node, d: Node, e: Node)
    requires d in Descendants(c)
    requires e in Descendants(d)
    ensures e in Descendants(c)
  {
    var ds := Descendants(c);
    var i :| 0 <= i < |ds| && ds[i] == d;
    DescendantsFollow(c.children, i, e);
  }
}
