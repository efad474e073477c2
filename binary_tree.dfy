/** `binary_tree.py`: traversals and searches over a binary tree of integer
    values. A missing child (`None`) is `Nil`; a `TreeNode` is `Node`. */
module BinaryTree {

  datatype Tree = Nil | Node(value: int, left: Tree, right: Tree)

  /** The number of nodes. */
  function Size(t: Tree): (r: nat)
  {
    if t.Nil? then 0 else 1 + Size(t.left) + Size(t.right)
  }

  /** The values held by the nodes, with repetitions. */
  function Elements(t: Tree): (r: multiset<int>)
  {
    if t.Nil? then multiset{} else multiset{t.value} + Elements(t.left) + Elements(t.right)
  }

  /** `s` is `t` itself or a subtree below one of its nodes. */
  predicate IsSubtree(s: Tree, t: Tree)
  {
    s == t || (t.Node? && (IsSubtree(s, t.left) || IsSubtree(s, t.right)))
  }

  /** The values `in_order_traversal` prints: left subtree, node, right subtree. */
  function InOrder(t: Tree): (r: seq<int>)
    ensures |r| == Size(t)
    ensures t.Node? ==> r[Size(t.left)] == t.value
  {
    if t.Nil? then [] else InOrder(t.left) + [t.value] + InOrder(t.right)
  }

  /** The values `pre_order_traversal` prints: node, left subtree, right subtree. */
  function PreOrder(t: Tree): (r: seq<int>)
    ensures |r| == Size(t)
    ensures t.Node? ==> r[0] == t.value
  {
    if t.Nil? then [] else [t.value] + PreOrder(t.left) + PreOrder(t.right)
  }

  /** The values `post_order_traversal` prints: left subtree, right subtree, node. */
  function PostOrder(t: Tree): (r: seq<int>)
    ensures |r| == Size(t)
    ensures t.Node? ==> r[|r| - 1] == t.value
  {
    if t.Nil? then [] else PostOrder(t.left) + PostOrder(t.right) + [t.value]
  }

  /** `dfs_search`: the node itself, then the left subtree, then the right. */
  function DfsSearch(t: Tree, target: int): (r: bool)
    ensures r <==> target in Elements(t)
    ensures t.Nil? ==> !r
  {
    if t.Nil? then false
    else if t.value == target then true
    else DfsSearch(t.left, target) || DfsSearch(t.right, target)
  }

  /** The total number of nodes of a queue of subtrees. */
  function ForestSize(q: seq<Tree>): (r: nat)
  {
    if |q| == 0 then 0 else Size(q[0]) + ForestSize(q[1..])
  }

  /** The values of a queue of subtrees. */
  function ForestElements(q: seq<Tree>): (r: multiset<int>)
  {
    if |q| == 0 then multiset{} else Elements(q[0]) + ForestElements(q[1..])
  }

  lemma {:induction false} ForestAppend(q: seq<Tree>, t: Tree)
    ensures ForestSize(q + [t]) == ForestSize(q) + Size(t)
    ensures ForestElements(q + [t]) == ForestElements(q) + Elements(t)
  {
    if |q| > 0 {
      assert (q + [t])[1..] == q[1..] + [t];
      ForestAppend(q[1..], t);
    }
  }

  /** The children of a node below `t` are below `t` too. */
  lemma {:induction false} SubtreeChildren(s: Tree, t: Tree)
    requires s.Node? && IsSubtree(s, t)
    ensures IsSubtree(s.left, t) && IsSubtree(s.right, t)
  {
    if s != t {
      if IsSubtree(s, t.left) {
        SubtreeChildren(s, t.left);
      } else {
        SubtreeChildren(s, t.right);
      }
    }
  }

  /** A queue holding one subtree has that subtree's size and values. */
  lemma ForestOne(t: Tree)
    ensures ForestSize([t]) == Size(t) && ForestElements([t]) == Elements(t)
  {
    assert [t][1..] == [];
  }

  /** The non-empty children of a node, left first: what one step of
      `bfs_search` appends to the queue. */
  function Children(t: Tree): (r: seq<Tree>)
    requires t.Node?
    ensures forall i :: 0 <= i < |r| ==> r[i].Node? && (r[i] == t.left || r[i] == t.right)
    ensures |r| == (if t.left.Node? then 1 else 0) + (if t.right.Node? then 1 else 0)
    ensures t.left.Node? ==> r[0] == t.left
    ensures t.right.Node? ==> r[|r| - 1] == t.right
  {
    if t.left.Node? && t.right.Node? then [t.left, t.right]
    else if t.left.Node? then [t.left]
    else if t.right.Node? then [t.right]
    else []
  }

  /** The children queued after a node hold one node fewer than it, and all
      its values but its own. */
  lemma ChildrenForest(t: Tree)
    requires t.Node?
    ensures ForestSize(Children(t)) + 1 == Size(t)
    ensures ForestElements(Children(t)) + multiset{t.value} == Elements(t)
  {
    ForestOne(t.left);
    ForestOne(t.right);
    ForestConcat([t.left], [t.right]);
    assert [t.left, t.right] == [t.left] + [t.right];
  }

  /** What holds each time `bfs_search` tests its queue: every queued entry
      is a node of `root`, no dequeued value is `target`, and the dequeued
      values together with those still queued are the tree's values. */
  ghost predicate Searching(queue: seq<Tree>, seen: multiset<int>, root: Tree, target: int)
  {
    AllSubtrees(queue, root)
    && target !in seen
    && seen + ForestElements(queue) == Elements(root)
  }

  lemma {:induction false} ForestConcat(p: seq<Tree>, q: seq<Tree>)
    ensures ForestSize(p + q) == ForestSize(p) + ForestSize(q)
    ensures ForestElements(p + q) == ForestElements(p) + ForestElements(q)
  {
    if |p| == 0 {
      assert p + q == q;
    } else {
      assert (p + q)[1..] == p[1..] + q;
      ForestConcat(p[1..], q);
    }
  }

  /** Every entry of a queue is a non-empty subtree of `root`. */
  ghost predicate AllSubtrees(q: seq<Tree>, root: Tree)
  {
    forall i :: 0 <= i < |q| ==> q[i].Node? && IsSubtree(q[i], root)
  }

  /** Replacing the head of such a queue by its children keeps every entry a
      non-empty subtree of `root`. */
  lemma QueueSubtrees(q: seq<Tree>, root: Tree)
    requires |q| > 0 && AllSubtrees(q, root)
    ensures AllSubtrees(q[1..] + Children(q[0]), root)
  {
    var c := q[0];
    var r := q[1..] + Children(c);
    SubtreeChildren(c, root);
    forall i | 0 <= i < |r| ensures r[i].Node? && IsSubtree(r[i], root) {
      if i >= |q| - 1 {
        assert r[i] == Children(c)[i - (|q| - 1)];
      } else {
        assert r[i] == q[i + 1];
      }
    }
  }

  /** Dequeuing a node that does not hold `target` and queuing its children
      keeps `Searching` and shrinks the queue by one node. */
  lemma DequeueStep(q: seq<Tree>, seen: multiset<int>, root: Tree, target: int)
    requires |q| > 0 && Searching(q, seen, root, target) && q[0].value != target
    ensures Searching(q[1..] + Children(q[0]), seen + multiset{q[0].value}, root, target)
    ensures ForestSize(q[1..] + Children(q[0])) + 1 == ForestSize(q)
  {
    var c := q[0];
    assert ForestSize(q) == Size(c) + ForestSize(q[1..]);
    assert ForestElements(q) == Elements(c) + ForestElements(q[1..]);
    ForestConcat(q[1..], Children(c));
    ChildrenForest(c);
    QueueSubtrees(q, root);
  }

  /** The two conditional appends of `bfs_search` queue exactly `Children(t)`. */
  lemma AppendChildren(q: seq<Tree>, t: Tree)
    requires t.Node?
    ensures var q1 := if t.left.Node? then q + [t.left] else q;
      (if t.right.Node? then q1 + [t.right] else q1) == q + Children(t)
  {
    if t.left.Node? && t.right.Node? {
      assert q + [t.left] + [t.right] == q + [t.left, t.right];
    }
  }

  /** `bfs_search`: visits the nodes level by level from a queue, keeping
      `Searching`; each step shrinks the queued subtrees by one node. */
  method BfsSearch(root: Tree, target: int) returns (found: bool)
    ensures found == DfsSearch(root, target)
    ensures found <==> target in Elements(root)
    ensures root.Nil? ==> !found
  {
    if root.Nil? {
      return false;
    }
    var queue := [root];
    ghost var seen: multiset<int> := multiset{};
    assert queue[1..] == [];
    while |queue| > 0
      invariant Searching(queue, seen, root, target)
      decreases ForestSize(queue)
    {
      var current := queue[0];
      ghost var before := queue;
      queue := queue[1..];
      if current.value == target {
        assert ForestElements(before) == Elements(current) + ForestElements(queue);
        return true;
      }
      ghost var rest := queue;
      if current.left.Node? {
        queue := queue + [current.left];
      }
      if current.right.Node? {
        queue := queue + [current.right];
      }
      AppendChildren(rest, current);
      DequeueStep(before, seen, root, target);
      seen := seen + multiset{current.value};
    }
    return false;
  }

  /** Each traversal lists every node's value once: its values are the
      tree's values. */
  lemma {:induction false} InOrderElements(t: Tree)
    ensures multiset(InOrder(t)) == Elements(t)
  {
    if t.Node? {
      InOrderElements(t.left);
      InOrderElements(t.right);
      var l, r := InOrder(t.left), InOrder(t.right);
      assert multiset(l + [t.value] + r) == multiset(l) + multiset{t.value} + multiset(r);
    }
  }

  lemma {:induction false} PreOrderElements(t: Tree)
    ensures multiset(PreOrder(t)) == Elements(t)
  {
    if t.Node? {
      PreOrderElements(t.left);
      PreOrderElements(t.right);
      var l, r := PreOrder(t.left), PreOrder(t.right);
      assert multiset([t.value] + l + r) == multiset{t.value} + multiset(l) + multiset(r);
    }
  }

  lemma {:induction false} PostOrderElements(t: Tree)
    ensures multiset(PostOrder(t)) == Elements(t)
  {
    if t.Node? {
      PostOrderElements(t.left);
      PostOrderElements(t.right);
      var l, r := PostOrder(t.left), PostOrder(t.right);
      assert multiset(l + r + [t.value]) == multiset(l) + multiset(r) + multiset{t.value};
    }
  }

  /** The traversals are permutations of each other, and a value is listed
      exactly when the depth-first search finds it. */
  lemma TraversalsAgree(t: Tree, x: int)
    ensures multiset(InOrder(t)) == multiset(PreOrder(t)) == multiset(PostOrder(t))
    ensures x in InOrder(t) <==> DfsSearch(t, x)
  {
    InOrderElements(t);
    PreOrderElements(t);
    PostOrderElements(t);
    assert x in InOrder(t) <==> x in multiset(InOrder(t));
  }

  /** The sample tree: 1 at the root, 2 and 3 below it, then 4, 5, 7 and 0. */
  function Sample(): (r: Tree)
  {
    Node(1, Node(2, Node(4, Nil, Nil), Node(5, Nil, Nil)), Node(3, Node(7, Nil, Nil), Node(0, Nil, Nil)))
  }

  lemma SampleInOrder()
    ensures InOrder(Sample()) == [4, 2, 5, 1, 7, 3, 0]
  {
    assert InOrder(Sample().left) == [4, 2, 5];
    assert InOrder(Sample().right) == [7, 3, 0];
  }

  lemma SamplePreOrder()
    ensures PreOrder(Sample()) == [1, 2, 4, 5, 3, 7, 0]
  {
    assert PreOrder(Sample().left) == [2, 4, 5];
    assert PreOrder(Sample().right) == [3, 7, 0];
  }

  lemma SamplePostOrder()
    ensures PostOrder(Sample()) == [4, 5, 2, 7, 0, 3, 1]
  {
    assert PostOrder(Sample().left) == [4, 5, 2];
    assert PostOrder(Sample().right) == [7, 0, 3];
  }

  lemma SampleSearches()
    ensures DfsSearch(Sample(), 3) && !DfsSearch(Sample(), 9)
  {
  }
}
