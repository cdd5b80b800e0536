/** The stack iterator: avl_first and avl_next walk the tree in key order. */
module AvlIterator {
  import opened AvlModel
  import opened AvlRemoval
  import opened Avl

  /** The position of node number `i` of the in-order sequence. */
  ghost predicate Numbered(c: seq<Frame>, s: Tree, w: Tree, i: nat) {
    && w.Bin? && |c| >= 1 && c[0] == Enter(w, false) && Plug(c, s) == w
    && s.Bin? && |Before(c)| + |InOrder(s.l)| == i
  }

  lemma {:induction false} PlugHeight(c: seq<Frame>, s: Tree)
    ensures |c| + Height(s) <= Height(Plug(c, s))
    decreases |c|
  {
    if c != [] {
      PlugHeight(c[..|c| - 1], Join(c[|c| - 1], s));
    }
  }

  lemma NumberedNode(c: seq<Frame>, s: Tree, w: Tree, i: nat)
    requires Numbered(c, s, w, i)
    ensures i < |InOrder(w.l)| && InOrder(w.l)[i] == s.n
  {
    PlugSpan(c, s);
  }

  lemma NumberedTop(w: Tree)
    requires w.Bin? && w.l.Bin?
    ensures Numbered([Enter(w, false)], w.l, w, |InOrder(w.l.l)|)
  {
    assert Plug([Enter(w, false)][..0], w) == w;
  }

  /** The smallest node of a subtree comes right after everything before the subtree. */
  lemma {:induction false} NumberedLeft(c: seq<Frame>, s: Tree, w: Tree)
    requires s.Bin? && Numbered(c, s, w, |Before(c)| + |InOrder(s.l)|)
    ensures Numbered(c + MinWay(s), MinTree(s), w, |Before(c)|)
    decreases s
  {
    if s.l.Nil? {
      assert c + MinWay(s) == c;
    } else {
      DownSides(c, s, false);
      assert (c + [Enter(s, false)])[..|c|] == c;
      NumberedLeft(c + [Enter(s, false)], s.l, w);
      assert c + MinWay(s) == c + [Enter(s, false)] + MinWay(s.l);
    }
  }

  lemma NumberedRight(c: seq<Frame>, s: Tree, w: Tree, i: nat)
    requires Numbered(c, s, w, i) && s.r.Bin?
    ensures Numbered(c + [Enter(s, true)] + MinWay(s.r), MinTree(s.r), w, i + 1)
  {
    DownSides(c, s, true);
    assert (c + [Enter(s, true)])[..|c|] == c;
    NumberedLeft(c + [Enter(s, true)], s.r, w);
  }

  /** The whole subtree at this position has been visited: `i` nodes in all. */
  ghost predicate Exhausted(c: seq<Frame>, s: Tree, w: Tree, i: nat) {
    && w.Bin? && |c| >= 1 && c[0] == Enter(w, false) && Plug(c, s) == w
    && s.Bin? && |Before(c)| + |InOrder(s)| == i
  }

  lemma LastOfSubtree(c: seq<Frame>, s: Tree, w: Tree, i: nat)
    requires Numbered(c, s, w, i) && s.r.Nil?
    ensures Exhausted(c, s, w, i + 1)
  {
  }

  lemma ExhaustedUp(c: seq<Frame>, s: Tree, w: Tree, i: nat)
    requires Exhausted(c, s, w, i) && |c| > 1
    ensures c[|c| - 1].right ==> Exhausted(c[..|c| - 1], Join(c[|c| - 1], s), w, i)
    ensures !c[|c| - 1].right ==> Numbered(c[..|c| - 1], Join(c[|c| - 1], s), w, i)
  {
  }

  lemma ExhaustedTop(c: seq<Frame>, s: Tree, w: Tree, i: nat)
    requires Exhausted(c, s, w, i) && |c| == 1
    ensures i == |InOrder(w.l)|
  {
    PlugSpan(c, s);
  }

  /** The stack holds the ancestors of the current node, without the anchor. */
  ghost predicate StackHolds(c: seq<Frame>, stack: seq<Node?>, height: nat) {
    height + 1 == |c| && height <= |stack| && forall k :: 0 <= k < height ==> stack[k] == c[k + 1].n
  }

  lemma StackHoldsMore(c: seq<Frame>, stack: seq<Node?>, height: nat, f: Frame)
    requires StackHolds(c, stack, height) && height < |stack|
    ensures StackHolds(c + [f], stack[height := f.n], height + 1)
  {
  }

  class Iterator {
    var tree: AvlTree?
    var current: Node?
    const stack: array<Node?>
    var height: nat
    ghost var c: seq<Frame>
    ghost var s: Tree

    constructor ()
      ensures stack.Length == MAX_HEIGHT && fresh(stack) && tree == null && current == null
    {
      stack := new Node?[MAX_HEIGHT];
      tree, current, height := null, null, 0;
    }

    /** The iterator stands on node number `i` of tree `t`. */
    ghost predicate On(t: AvlTree, i: nat)
      reads this, stack, t, Nodes(t.Whole())
    {
      && t.Valid() && |InOrder(t.t)| < TOO_MANY && tree == t && stack.Length == MAX_HEIGHT
      && Numbered(c, s, t.Whole(), i) && current == s.n && StackHolds(c, stack[..], height)
    }

    /** Follow left links to the bottom, stacking every node passed. */
    method PushLeft(node0: Node, ghost c0: seq<Frame>, ghost s0: Tree) returns (node: Node)
      requires s0.Bin? && s0.n == node0 && Rep(s0) && StackHolds(c0, stack[..], height)
      requires |c0| + |MinWay(s0)| <= stack.Length
      modifies this`height, stack
      ensures node == MinTree(s0).n && StackHolds(c0 + MinWay(s0), stack[..], height)
    {
      node := node0;
      ghost var d, x := c0, s0;
      while node.left != null
        invariant x.Bin? && x.n == node && Rep(x)
        invariant d + MinWay(x) == c0 + MinWay(s0) && MinTree(x) == MinTree(s0)
        invariant StackHolds(d, stack[..], height)
        decreases x
      {
        ghost var below: set<object> := Nodes(x.l);
        assert Rep(x.l) && stack !in below && this !in below;
        StackHoldsMore(d, stack[..], height, Enter(x, false));
        MinStep(d, x);
        var next := node.left;
        label before:
        stack[height] := node;
        height := height + 1;
        assert Rep(x.l) == old@before(Rep(x.l));
        node, d, x := next, d + [Enter(x, false)], x.l;
      }
      assert d + MinWay(x) == d;
    }

    /** Pop ancestors until one is reached from its left side. */
    method PopUp(node0: Node, ghost c0: seq<Frame>, ghost s0: Tree, ghost w: Tree, ghost i: nat)
      returns (node: Node?, ghost d: seq<Frame>, ghost x: Tree)
      requires Rep(w) && Distinct(w) && Exhausted(c0, s0, w, i) && s0.n == node0 && StackHolds(c0, stack[..], height)
      modifies this`height
      ensures node == null ==> i == |InOrder(w.l)|
      ensures node != null ==> Numbered(d, x, w, i) && node == x.n && StackHolds(d, stack[..], height)
    {
      node, d, x := node0, c0, s0;
      ghost var all: set<object> := Nodes(w);
      assert this !in all;
      while true
        invariant Rep(w) && Exhausted(d, x, w, i) && node == x.n && StackHolds(d, stack[..], height)
        decreases height
      {
        if height == 0 {
          ExhaustedTop(d, x, w, i);
          node := null;
          return;
        }
        Unplug(d, x);
        ghost var n := |d| - 1;
        assert RepFrame(d[n], Below(d, n, x.n));
        assert FrameNodes(d[n]) !! Nodes(x);
        Sideways(d[n], x);
        ExhaustedUp(d, x, w, i);
        var tmp := node;
        label before:
        height := height - 1;
        assert Rep(w) == old@before(Rep(w));
        node := stack[height];
        d, x := d[..n], Join(d[n], x);
        if tmp != node.right {
          return;
        }
      }
    }

    /** avl_first: the smallest node; an empty tree leaves the iterator as it was. */
    method First(t: AvlTree) returns (r: Node?)
      requires t.Valid() && |InOrder(t.t)| < TOO_MANY && stack.Length == MAX_HEIGHT
      modifies this, stack
      ensures t.Valid() && t.t == old(t.t)
      ensures t.t.Nil? ==> r == null && current == old(current) && tree == old(tree)
      ensures t.t.Bin? ==> On(t, 0) && r == InOrder(t.t)[0]
    {
      if t.anchor.left == null {
        return null;
      }
      ghost var w := t.Whole();
      NodesAllocated(w);
      tree, height := t, 0;
      assert Rep(w) == old(Rep(w));
      NumberedTop(w);
      NumberedLeft([Enter(w, false)], w.l, w);
      MinWayFits(w.l);
      HeightFits(w.l);
      var node := PushLeft(t.anchor.left, [Enter(w, false)], w.l);
      assert Rep(w) == old(Rep(w));
      c, s := [Enter(w, false)] + MinWay(w.l), MinTree(w.l);
      NumberedNode(c, s, w, 0);
      current := node;
      assert Rep(w) == old(Rep(w));
      return node;
    }

    /** The two ways on from a node: the smallest node on its right, or an ancestor it lies to the left of. */
    method Advance(node0: Node, t: AvlTree, ghost i: nat) returns (node: Node?, ghost d: seq<Frame>, ghost x: Tree)
      requires On(t, i) && node0 == s.n
      modifies this`height, stack
      ensures t.Valid()
      ensures node == null ==> i + 1 == |InOrder(t.t)|
      ensures node != null ==> Numbered(d, x, t.Whole(), i + 1) && node == x.n && StackHolds(d, stack[..], height)
    {
      ghost var w := t.Whole();
      NodesAllocated(w);
      PlugParts(c, s);
      if node0.right != null {
        ghost var f := Enter(s, true);
        PlugHeight(c, s);
        HeightFits(t.t);
        MinWayFits(s.r);
        NumberedRight(c, s, w, i);
        StackHoldsMore(c, stack[..], height, f);
        NodesAllocated(s.r);
        stack[height] := node0;
        height := height + 1;
        assert Rep(s.r) == old(Rep(s.r));
        node := PushLeft(node0.right, c + [f], s.r);
        d, x := c + [f] + MinWay(s.r), MinTree(s.r);
      } else {
        LastOfSubtree(c, s, w, i);
        node, d, x := PopUp(node0, c, s, w, i + 1);
      }
      assert Rep(w) == old(Rep(w));
    }

    /** avl_next: the node that follows in key order, or none after the last. */
    method Next(ghost i: nat) returns (r: Node?)
      requires tree != null ==> tree.Valid() && |InOrder(tree.t)| < TOO_MANY && stack.Length == MAX_HEIGHT
      requires tree != null && current != null ==> On(tree, i)
      modifies this, stack
      ensures tree == old(tree) && (tree == null ==> r == null)
      ensures tree != null ==> tree.Valid() && tree.t == old(tree.t)
      ensures tree != null && old(current) != null ==>
                && r == (if i + 1 < |InOrder(tree.t)| then InOrder(tree.t)[i + 1] else null)
                && current == r && (r != null ==> On(tree, i + 1))
      ensures tree != null && old(current) == null ==>
                && r == (if tree.t.Bin? then InOrder(tree.t)[0] else null)
                && (r != null ==> On(tree, 0))
    {
      if tree == null {
        return null;
      }
      if current == null {
        r := First(tree);
        return;
      }
      ghost var w := tree.Whole();
      NodesAllocated(w);
      var node;
      ghost var d, x;
      node, d, x := Advance(current, tree, i);
      current := node;
      c, s := d, x;
      assert Rep(w) == old(Rep(w));
      if node != null {
        NumberedNode(d, x, w, i + 1);
      }
      return node;
    }

    /** The for loop every user of the iterator writes: it visits exactly the in-order sequence. */
    method VisitAll(t: AvlTree) returns (visited: seq<Node>)
      requires t.Valid() && |InOrder(t.t)| < TOO_MANY && stack.Length == MAX_HEIGHT
      modifies this, stack
      ensures t.t == old(t.t) && visited == InOrder(t.t) && Ordered(visited)
    {
      visited := [];
      var entry := First(t);
      ghost var all := InOrder(t.t);
      while entry != null
        invariant t.Valid() && t.t == old(t.t) && all == InOrder(t.t) && visited <= all
        invariant if entry == null then |visited| == |all|
                  else On(t, |visited|) && |visited| < |all| && entry == all[|visited|]
        decreases |all| - |visited|
      {
        ghost var i := |visited|;
        visited := visited + [entry];
        entry := Next(i);
      }
    }
  }

  /** A frame's other link never points into the subtree that was entered. */
  lemma Sideways(f: Frame, x: Tree)
    requires x.Bin? && FrameNodes(f) !! Nodes(x)
    ensures Root(f.sib) != x.n
  {
    assert x.n in Nodes(x) && (f.sib.Bin? ==> f.sib.n in FrameNodes(f));
  }
}
