/** A read-only snapshot of the DOM subtree under the highlight element.
    A node is either a text node, which has a character length, or an
    element, which has ordered child nodes. An element without children
    (an image, an iframe embed) is the "childless non-text node" of the
    component. Node identity (`===` on DOM objects) is the `id` field. */
module DomTree {

  type Id = nat

  datatype Node =
    | Text(id: Id, len: nat)
    | Element(id: Id, children: seq<Node>)

  /** What a node adds to the running total when the walk visits it:
      a text node its length, a childless element 1, an element with
      children nothing (its children add their own weight). */
  function Weight(n: Node): nat {
    match n
    case Text(_, len) => len
    case Element(_, children) => if children == [] then 1 else 0
  }

  /** The nodes of the subtree rooted at `n` in document (pre-order) order. */
  function PreOrder(n: Node): (p: seq<Node>)
    ensures |p| > 0 && p[0] == n
    decreases n
  {
    match n
    case Text(_, _) => [n]
    case Element(_, children) => [n] + Flat(children)
  }

  /** The pre-order of a forest: the subtrees one after another. */
  function Flat(cs: seq<Node>): (p: seq<Node>)
    ensures |p| >= |cs|
    decreases cs
  {
    if cs == [] then [] else PreOrder(cs[0]) + Flat(cs[1..])
  }

  /** The sum of the weights of a sequence of nodes. */
  function SumWeights(s: seq<Node>): nat {
    if s == [] then 0 else Weight(s[0]) + SumWeights(s[1..])
  }

  /** The length of the content under `n`, defined on the tree itself: a
      text node its length, a childless element 1, an element with
      children exactly the sum of its children's lengths. */
  function TotalWeight(n: Node): nat
    decreases n
  {
    match n
    case Text(_, len) => len
    case Element(_, children) =>
      if children == [] then 1 else ForestWeight(children)
  }

  function ForestWeight(cs: seq<Node>): nat
    decreases cs
  {
    if cs == [] then 0 else TotalWeight(cs[0]) + ForestWeight(cs[1..])
  }

  /** No DOM node occurs twice: the ids along a pre-order are distinct. */
  ghost predicate Distinct(s: seq<Node>) {
    forall a, b :: 0 <= a < b < |s| ==> s[a].id != s[b].id
  }

  /** The id occurs somewhere in the sequence. */
  predicate Occurs(s: seq<Node>, t: Id) {
    exists k :: 0 <= k < |s| && s[k].id == t
  }

  lemma {:induction false} SumWeightsAppend(a: seq<Node>, b: seq<Node>)
    ensures SumWeights(a + b) == SumWeights(a) + SumWeights(b)
  {
    if a == [] {
      assert a + b == b;
    } else {
      assert (a + b)[1..] == a[1..] + b;
      SumWeightsAppend(a[1..], b);
    }
  }

  /** A prefix never outweighs the sequence it is a prefix of. */
  lemma SumWeightsPrefix(s: seq<Node>, i: nat, j: nat)
    requires i <= j <= |s|
    ensures SumWeights(s[..i]) <= SumWeights(s[..j])
  {
    assert s[..j] == s[..i] + s[i..j];
    SumWeightsAppend(s[..i], s[i..j]);
  }

  /** Adding up the weights along the pre-order gives the tree's length:
      the flattened character stream has neither gaps nor overlaps. */
  lemma {:induction false} PreOrderWeight(n: Node)
    ensures SumWeights(PreOrder(n)) == TotalWeight(n)
    decreases n
  {
    match n
    case Text(_, _) =>
    case Element(_, children) =>
      SumWeightsAppend([n], Flat(children));
      FlatWeight(children);
  }

  lemma {:induction false} FlatWeight(cs: seq<Node>)
    ensures SumWeights(Flat(cs)) == ForestWeight(cs)
    decreases cs
  {
    if cs != [] {
      SumWeightsAppend(PreOrder(cs[0]), Flat(cs[1..]));
      PreOrderWeight(cs[0]);
      FlatWeight(cs[1..]);
    }
  }

  /** Every node's subtree is a contiguous block of the pre-order, starting
      at the node's own position. */
  lemma {:induction false} SubtreeContiguous(n: Node, i: nat)
    requires i < |PreOrder(n)|
    ensures i + |PreOrder(PreOrder(n)[i])| <= |PreOrder(n)|
    ensures PreOrder(n)[i..i + |PreOrder(PreOrder(n)[i])|] == PreOrder(PreOrder(n)[i])
    decreases n
  {
    var p := PreOrder(n);
    if i == 0 {
      assert p[0..|p|] == p;
    } else {
      match n
      case Element(_, children) =>
        var f := Flat(children);
        assert p == [n] + f;
        assert p[i] == f[i - 1];
        FlatContiguous(children, i - 1);
        assert p[i..i + |PreOrder(p[i])|] == f[i - 1..i - 1 + |PreOrder(p[i])|];
    }
  }

  lemma {:induction false} FlatContiguous(cs: seq<Node>, i: nat)
    requires i < |Flat(cs)|
    ensures i + |PreOrder(Flat(cs)[i])| <= |Flat(cs)|
    ensures Flat(cs)[i..i + |PreOrder(Flat(cs)[i])|] == PreOrder(Flat(cs)[i])
    decreases cs
  {
    var f := Flat(cs);
    var h := PreOrder(cs[0]);
    var r := Flat(cs[1..]);
    assert f == h + r;
    if i < |h| {
      SubtreeContiguous(cs[0], i);
      assert f[i] == h[i];
      assert f[i..i + |PreOrder(f[i])|] == h[i..i + |PreOrder(f[i])|];
    } else {
      var k := i - |h|;
      assert f[i] == r[k];
      FlatContiguous(cs[1..], k);
      assert f[i..i + |PreOrder(f[i])|] == r[k..k + |PreOrder(f[i])|];
    }
  }

  /** An element with children is followed in document order by its first
      child. */
  lemma FirstChildFollows(n: Node, i: nat)
    requires i < |PreOrder(n)|
    requires PreOrder(n)[i].Element? && PreOrder(n)[i].children != []
    ensures i + 1 < |PreOrder(n)|
    ensures PreOrder(n)[i + 1] == PreOrder(n)[i].children[0]
  {
    var p := PreOrder(n);
    var q := PreOrder(p[i]);
    SubtreeContiguous(n, i);
    assert q == [p[i]] + PreOrder(p[i].children[0]) + Flat(p[i].children[1..]);
    assert q[1] == p[i].children[0];
    assert p[i + 1] == p[i..i + |q|][1];
  }
}
