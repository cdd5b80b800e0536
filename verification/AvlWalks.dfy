/** Recursive walks over a tree: avl_traverse with a callback, and avl_intersection. */
module AvlWalks {
  import opened Keys
  import opened AvlModel
  import opened AvlSearch
  import opened Avl

  /** What a traversal returns: the sum of the callback's results, or the first negative one, which stops it. */
  function WalkResult(s: seq<Node>, f: Node -> int): int {
    if s == [] then 0
    else if f(s[0]) < 0 then f(s[0])
    else
      var rest := WalkResult(s[1..], f);
      if rest < 0 then rest else f(s[0]) + rest
  }

  lemma {:induction false} WalkConcat(a: seq<Node>, b: seq<Node>, f: Node -> int)
    ensures WalkResult(a + b, f) ==
            if WalkResult(a, f) < 0 then WalkResult(a, f)
            else if WalkResult(b, f) < 0 then WalkResult(b, f)
            else WalkResult(a, f) + WalkResult(b, f)
  {
    if a == [] {
      assert a + b == b;
    } else {
      assert (a + b)[1..] == a[1..] + b;
      WalkConcat(a[1..], b, f);
    }
  }

  /** avl_walker */
  method Walk(node: Node, f: Node -> int, ghost t: Tree) returns (total: int)
    requires Rep(t) && t.Bin? && t.n == node
    ensures total == WalkResult(InOrder(t), f)
    decreases t
  {
    WalkConcat(InOrder(t.l), [node], f);
    WalkConcat(InOrder(t.l) + [node], InOrder(t.r), f);
    NodesAllocated(t.r);
    total := 0;
    if node.left != null {
      var ret := Walk(node.left, f, t.l);
      if ret < 0 {
        return ret;
      }
      total := total + ret;
    }
    var ret := f(node);
    if ret < 0 {
      return ret;
    }
    total := total + ret;
    if node.right != null {
      assert Rep(t.r) == old(Rep(t.r));
      ret := Walk(node.right, f, t.r);
      if ret < 0 {
        return ret;
      }
      total := total + ret;
    }
  }

  /** avl_traverse: the callback sees the nodes in key order. */
  method Traverse(tree: AvlTree, f: Node -> int) returns (total: int)
    requires tree.Valid()
    ensures total == WalkResult(InOrder(tree.t), f)
  {
    if tree.anchor.left != null {
      total := Walk(tree.anchor.left, f, tree.t);
    } else {
      total := 0;
    }
  }

  /** avl_walker2: some node of `t` has its key in the haystack. */
  method WalkSearch(node: Node, haystack: AvlTree, ghost t: Tree) returns (met: bool)
    requires Rep(t) && t.Bin? && t.n == node && haystack.Valid()
    ensures met <==> exists n, m :: n in Nodes(t) && m in Nodes(haystack.t) && n.key == m.key
    decreases t
  {
    NodesAllocated(t.r);
    NodesAllocated(haystack.Whole());
    if node.left != null {
      met := WalkSearch(node.left, haystack, t.l);
      if met {
        return;
      }
    }
    assert haystack.Valid() == old(haystack.Valid());
    var res := haystack.Search(node.key);
    if res != null {
      return true;
    }
    if node.right != null {
      assert Rep(t.r) == old(Rep(t.r)) && haystack.Valid() == old(haystack.Valid());
      met := WalkSearch(node.right, haystack, t.r);
      if met {
        return;
      }
    }
    met := false;
  }

  /** avl_intersection: true exactly when the two sets share a key. */
  method Intersection(needle: AvlTree, haystack: AvlTree) returns (met: bool)
    requires needle.Valid() && haystack.Valid()
    ensures met <==> exists n, m :: n in Nodes(needle.t) && m in Nodes(haystack.t) && n.key == m.key
  {
    if needle.anchor.left != null && haystack.anchor.left != null {
      met := WalkSearch(needle.anchor.left, haystack, needle.t);
    } else {
      met := false;
    }
  }
}
