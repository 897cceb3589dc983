/** `offsetUntil`: the linear character offset of a node within the
    highlight element's subtree, computed by an explicit-stack pre-order
    walk that stops when it pops the target. */
module OffsetIndex {
  import opened DomTree

  /** The running total of a walk over `s` that stops at the first node
      whose identity is `t`, that node's own weight not included. */
  function SumUntil(s: seq<Node>, t: Id): nat {
    if s == [] then 0
    else if s[0].id == t then 0
    else Weight(s[0]) + SumUntil(s[1..], t)
  }

  /** What `offsetUntil(target)` returns for the subtree `root`. */
  function Offset(root: Node, target: Id): nat {
    SumUntil(PreOrder(root), target)
  }

  /** The nodes the walk will still visit, given its stack: the top of the
      stack (the end of the sequence) and its subtree first, then the
      node below it, and so on. */
  function Pending(stack: seq<Node>): seq<Node> {
    if stack == [] then []
    else PreOrder(stack[|stack| - 1]) + Pending(stack[..|stack| - 1])
  }

  /** A walk over `a` that does not meet `t` adds all of `a`'s weight and
      then continues with `b`. */
  lemma {:induction false} SumUntilAppend(a: seq<Node>, b: seq<Node>, t: Id)
    requires !Occurs(a, t)
    ensures SumUntil(a + b, t) == SumWeights(a) + SumUntil(b, t)
  {
    if a == [] {
      assert a + b == b;
    } else {
      assert (a + b)[0] == a[0];
      assert (a + b)[1..] == a[1..] + b;
      assert !Occurs(a[1..], t) by {
        forall k | 0 <= k < |a[1..]| ensures a[1..][k].id != t {
          assert a[1..][k] == a[k + 1];
        }
      }
      SumUntilAppend(a[1..], b, t);
    }
  }

  /** One step of the walk: visiting `n` either stops it or adds `n`'s
      weight. */
  lemma SumUntilCons(n: Node, x: seq<Node>, t: Id)
    ensures SumUntil([n] + x, t) == if n.id == t then 0 else Weight(n) + SumUntil(x, t)
  {
  }

  /** Pushing `c` puts its subtree in front of what was pending. */
  lemma PendingPush(stack: seq<Node>, c: Node)
    ensures Pending(stack + [c]) == PreOrder(c) + Pending(stack)
  {
  }

  /** The model of the stack loop in `offsetUntil`. */
  method OffsetUntil(root: Node, endingAt: Id) returns (total: nat)
    ensures total == Offset(root, endingAt)
  {
    var stack: seq<Node> := [root];
    total := 0;
    assert Pending(stack) == PreOrder(root) by {
      PendingPush([], root);
      assert PreOrder(root) + [] == PreOrder(root);
    }
    while stack != []
      invariant total + SumUntil(Pending(stack), endingAt) == Offset(root, endingAt)
      decreases |Pending(stack)|
    {
      var current := stack[|stack| - 1];
      var rest := stack[..|stack| - 1];
      assert Pending(stack) == PreOrder(current) + Pending(rest);
      stack := rest;
      ghost var pendingRest := Pending(rest);
      if current.id == endingAt {
        assert PreOrder(current) + pendingRest == [current] + (PreOrder(current)[1..] + pendingRest);
        SumUntilCons(current, PreOrder(current)[1..] + pendingRest, endingAt);
        break;
      } else if current.Text? {
        SumUntilCons(current, pendingRest, endingAt);
        total := total + current.len;
      } else if current.children == [] {
        assert PreOrder(current) == [current] + [];
        SumUntilCons(current, pendingRest, endingAt);
        total := total + 1;
      } else {
        var cs := current.children;
        assert PreOrder(current) + pendingRest == [current] + (Flat(cs) + pendingRest);
        SumUntilCons(current, Flat(cs) + pendingRest, endingAt);
        for i := |cs| downto 0
          invariant Pending(stack) == Flat(cs[i..]) + pendingRest
        {
          PendingPush(stack, cs[i]);
          assert cs[i..][1..] == cs[i + 1..];
          stack := stack + [cs[i]];
        }
        assert cs[0..] == cs;
      }
    }
  }

  /** `offsetUntil(this)` is 0: the element itself is popped first. */
  lemma OffsetOfContainer(root: Node)
    ensures Offset(root, root.id) == 0
  {
  }

  /** The walk stopped at position `i` has added exactly the weights of
      the nodes before it, provided the target does not occur earlier. */
  lemma {:induction false} SumUntilAt(s: seq<Node>, i: nat)
    requires i < |s|
    requires forall k :: 0 <= k < i ==> s[k].id != s[i].id
    ensures SumUntil(s, s[i].id) == SumWeights(s[..i])
  {
    if i > 0 {
      assert s[1..][i - 1] == s[i];
      assert s[1..][..i - 1] == s[..i][1..];
      SumUntilAt(s[1..], i - 1);
    }
  }

  /** A walk that never meets `t` adds the weight of every node. */
  lemma {:induction false} SumUntilAbsent(s: seq<Node>, t: Id)
    requires !Occurs(s, t)
    ensures SumUntil(s, t) == SumWeights(s)
  {
    SumUntilAppend(s, [], t);
    assert s + [] == s;
  }

  /** The running total never exceeds the weight of what is walked. */
  lemma {:induction false} SumUntilBound(s: seq<Node>, t: Id)
    ensures SumUntil(s, t) <= SumWeights(s)
  {
    if s != [] {
      SumUntilBound(s[1..], t);
    }
  }

  /** For a node of the subtree, the offset is the sum of the weights of
      all nodes before it in document order. */
  lemma OffsetIsPrefixSum(root: Node, i: nat)
    requires Distinct(PreOrder(root))
    requires i < |PreOrder(root)|
    ensures Offset(root, PreOrder(root)[i].id) == SumWeights(PreOrder(root)[..i])
  {
    SumUntilAt(PreOrder(root), i);
  }

  /** A target outside the subtree gives the whole subtree's length. */
  lemma OffsetNotFound(root: Node, target: Id)
    requires !Occurs(PreOrder(root), target)
    ensures Offset(root, target) == TotalWeight(root)
  {
    SumUntilAbsent(PreOrder(root), target);
    PreOrderWeight(root);
  }

  /** Every result lies between 0 and the subtree's length. */
  lemma OffsetBounds(root: Node, target: Id)
    ensures 0 <= Offset(root, target) <= TotalWeight(root)
  {
    SumUntilBound(PreOrder(root), target);
    PreOrderWeight(root);
  }

  /** Offsets grow along document order. */
  lemma OffsetMonotone(root: Node, i: nat, j: nat)
    requires Distinct(PreOrder(root))
    requires i <= j < |PreOrder(root)|
    ensures Offset(root, PreOrder(root)[i].id) <= Offset(root, PreOrder(root)[j].id)
  {
    OffsetIsPrefixSum(root, i);
    OffsetIsPrefixSum(root, j);
    SumWeightsPrefix(PreOrder(root), i, j);
  }

  /** An element with children stands at the position just before its
      first child: its own content is not counted. */
  lemma OffsetOfElementIsFirstChild(root: Node, i: nat)
    requires Distinct(PreOrder(root))
    requires i < |PreOrder(root)|
    requires PreOrder(root)[i].Element? && PreOrder(root)[i].children != []
    ensures Offset(root, PreOrder(root)[i].id) == Offset(root, PreOrder(root)[i].children[0].id)
  {
    var p := PreOrder(root);
    FirstChildFollows(root, i);
    OffsetIsPrefixSum(root, i);
    OffsetIsPrefixSum(root, i + 1);
    assert p[..i + 1] == p[..i] + [p[i]];
    SumWeightsAppend(p[..i], [p[i]]);
  }

  /** The subtree of the node at position `i` spans its length: every node
      inside it has an offset between the node's offset and that plus the
      node's length, and the node right after the subtree is exactly that
      length further on. */
  lemma OffsetSubtreeSpan(root: Node, i: nat, k: nat)
    requires Distinct(PreOrder(root))
    requires i < |PreOrder(root)|
    requires i <= k < i + |PreOrder(PreOrder(root)[i])|
    ensures k < |PreOrder(root)|
    ensures Offset(root, PreOrder(root)[i].id) <= Offset(root, PreOrder(root)[k].id)
    ensures Offset(root, PreOrder(root)[k].id)
         <= Offset(root, PreOrder(root)[i].id) + TotalWeight(PreOrder(root)[i])
    ensures var j := i + |PreOrder(PreOrder(root)[i])|;
      j < |PreOrder(root)| ==>
        Offset(root, PreOrder(root)[j].id)
        == Offset(root, PreOrder(root)[i].id) + TotalWeight(PreOrder(root)[i])
  {
    var p := PreOrder(root);
    var j := i + |PreOrder(p[i])|;
    SubtreeContiguous(root, i);
    OffsetMonotone(root, i, k);
    OffsetIsPrefixSum(root, i);
    OffsetIsPrefixSum(root, k);
    SumWeightsPrefix(p, k, j);
    assert p[..j] == p[..i] + p[i..j];
    SumWeightsAppend(p[..i], p[i..j]);
    PreOrderWeight(p[i]);
    if j < |p| {
      OffsetIsPrefixSum(root, j);
    }
  }

  /** The example of three children: "ab", an image, "cde". */
  lemma ExampleOffsets()
    ensures var root := Element(0, [Text(1, 2), Element(2, []), Text(3, 3)]);
      && Offset(root, 2) == 2
      && Offset(root, 3) == 3
      && Offset(root, 0) == 0
      && Offset(root, 1) == 0
      && Offset(root, 9) == 6
      && TotalWeight(root) == 6
  {
  }
}
