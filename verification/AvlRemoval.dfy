/** avl_remove after its search: splice the node out, then walk back up restoring balance. */
module AvlRemoval {
  import opened Keys
  import opened AvlModel
  import opened AvlRotations
  import opened AvlSearch

  // ---------------------------------------------------------------------------------------------
  // Splicing the node out

  /** The frames from `t` down to its smallest node, and the subtree rooted there. */
  ghost function MinWay(t: Tree): seq<Frame> {
    if t.Nil? || t.l.Nil? then [] else [Enter(t, false)] + MinWay(t.l)
  }

  ghost function MinTree(t: Tree): (r: Tree)
    ensures t.Bin? ==> r.Bin? && r.l == Nil
  {
    if t.Nil? || t.l.Nil? then t else MinTree(t.l)
  }

  lemma MinStep(c: seq<Frame>, t: Tree)
    requires t.Bin? && t.l.Bin?
    ensures c + MinWay(t) == c + [Enter(t, false)] + MinWay(t.l) && MinTree(t) == MinTree(t.l)
  {
  }

  /** Going down to the smallest node. */
  lemma {:induction false} MinDown(c: seq<Frame>, t: Tree)
    requires At(c, t)
    ensures At(c + MinWay(t), MinTree(t))
    decreases t
  {
    if t.Nil? || t.l.Nil? {
      assert c + MinWay(t) == c;
    } else {
      Down(c, t, false);
      MinDown(c + [Enter(t, false)], t.l);
      assert c + MinWay(t) == c + [Enter(t, false)] + MinWay(t.l);
    }
  }

  lemma {:induction false} MinBalanced(c: seq<Frame>, t: Tree)
    requires |c| >= 1 && Balanced(t) && PathBalanced(c, Height(t))
    ensures Balanced(MinTree(t)) && PathBalanced(c + MinWay(t), Height(MinTree(t)))
    decreases t
  {
    if t.Nil? || t.l.Nil? {
      assert c + MinWay(t) == c;
    } else {
      DownBalanced(c, t, false);
      MinStep(c, t);
      MinBalanced(c + [Enter(t, false)], t.l);
    }
  }

  /** A zipper over a path in two parts is a zipper over the first part. */
  lemma {:induction false} FoldTail(c: seq<Frame>, d: seq<Frame>, s: Tree)
    requires At(c + d, s)
    ensures At(c, Plug(d, s))
    decreases |d|
  {
    if d == [] {
      assert c + d == c;
    } else {
      var n := |d| - 1;
      Up(c + d, s);
      assert (c + d)[..|c + d| - 1] == c + d[..n];
      FoldTail(c, d[..n], Join(d[n], s));
    }
  }

  lemma {:induction false} UnfoldTail(c: seq<Frame>, d: seq<Frame>, s: Tree)
    requires At(c, Plug(d, s))
    ensures At(c + d, s)
    decreases |d|
  {
    if d == [] {
      assert c + d == c;
    } else {
      var n := |d| - 1;
      UnfoldTail(c, d[..n], Join(d[n], s));
      Down(c + d[..n], Join(d[n], s), d[n].right);
      assert c + d[..n] + [d[n]] == c + d;
    }
  }

  lemma SubDistinct(c: seq<Frame>, g: Tree, s: Tree)
    requires DistinctPath(c, g) && Distinct(s) && Nodes(s) <= Nodes(g)
    ensures DistinctPath(c, s)
  {
    forall i | 0 <= i < |c| ensures FrameNodes(c[i]) !! Nodes(s) && Distinct(c[i].sib) {
      assert FrameNodes(c[i]) !! Nodes(g);
    }
  }

  /** No right subtree: the left one takes the node's place. */
  method SpliceLow(p: Node, parent: Node, dir: bool, ghost c: seq<Frame>, ghost g: Tree)
    requires c != [] && parent == c[|c| - 1].n && dir == c[|c| - 1].right
    requires At(c, g) && g.Bin? && g.n == p
    modifies parent
    ensures At(c, g.l)
  {
    SubDistinct(c, g, g.l);
    SetLink(parent, dir, p.left, c, p, g.l);
  }

  /** The right child has no left subtree: it takes the node's place and balance factor. */
  method SpliceNext(p: Node, r: Node, parent: Node, dir: bool, ghost c: seq<Frame>, ghost g: Tree)
    requires c != [] && parent == c[|c| - 1].n && dir == c[|c| - 1].right
    requires At(c, g) && g.Bin? && g.n == p && g.r.Bin? && g.r.n == r && g.r.l == Nil
    modifies parent, r
    ensures At(c, Bin(g.l, r, g.b, g.r.r))
  {
    ghost var t := Bin(g.l, r, g.b, g.r.r);
    assert Distinct(g.r) && Rep(g.r);
    SubDistinct(c, g, t);
    PathApart(c, g);
    r.left := p.left;
    r.bal := p.bal;
    assert RepPath(c, p) == old(RepPath(c, p));
    SetLink(parent, dir, r, c, p, t);
  }

  /** An unlinked node takes over another node's links and its place under the parent. */
  method Substitute(p: Node, s: Node, parent: Node, dir: bool, ghost c: seq<Frame>, ghost g: Tree)
    requires c != [] && parent == c[|c| - 1].n && dir == c[|c| - 1].right
    requires At(c, g) && g.Bin? && g.n == p && s !in PathNodes(c) && s !in Nodes(g)
    modifies parent, s
    ensures At(c, Bin(g.l, s, g.b, g.r))
  {
    ghost var t := Bin(g.l, s, g.b, g.r);
    forall i | 0 <= i < |c| ensures FrameNodes(c[i]) !! Nodes(t) && Distinct(c[i].sib) {
      assert FrameNodes(c[i]) !! Nodes(g) && FrameNodes(c[i]) <= PathNodes(c);
    }
    s.left := p.left;
    s.right := p.right;
    s.bal := p.bal;
    assert RepPath(c, p) == old(RepPath(c, p));
    SetLink(parent, dir, s, c, p, t);
  }

  /** The whole way from the node down to its in-order successor. */
  ghost function FarWay(c: seq<Frame>, g: Tree): seq<Frame>
    requires g.Bin?
  {
    c + [Enter(g, true)] + MinWay(g.r)
  }

  lemma FarDown(c: seq<Frame>, g: Tree)
    requires At(c, g) && g.Bin? && g.r.Bin?
    ensures At(FarWay(c, g), MinTree(g.r))
  {
    Down(c, g, true);
    MinDown(c + [Enter(g, true)], g.r);
  }

  /** Fold the spine back: the node again, over a right subtree that lost its smallest node. */
  lemma FarUp(c: seq<Frame>, g: Tree, x: Tree)
    requires g.Bin? && At(FarWay(c, g), x)
    ensures At(c, Bin(g.l, g.n, g.b, Plug(MinWay(g.r), x)))
  {
    FoldTail(c + [Enter(g, true)], MinWay(g.r), x);
    Up(c + [Enter(g, true)], Plug(MinWay(g.r), x));
    assert (c + [Enter(g, true)])[..|c|] == c;
  }

  lemma OffTree(c: seq<Frame>, g: Tree, x: Tree, s: Node)
    requires g.Bin? && s !in PathNodes(FarWay(c, g)) && s !in Nodes(x)
    ensures s !in PathNodes(c) && s !in Nodes(Bin(g.l, g.n, g.b, Plug(MinWay(g.r), x)))
  {
    var d := MinWay(g.r);
    PlugNodes(d, x);
    forall i | 0 <= i < |d| ensures s !in FrameNodes(d[i]) {
      assert FarWay(c, g)[|c| + 1 + i] == d[i];
    }
    forall i | 0 <= i < |c| ensures s !in FrameNodes(c[i]) {
      assert FarWay(c, g)[i] == c[i];
    }
    assert s !in PathNodes(d);
    assert FarWay(c, g)[|c|] == Enter(g, true);
    assert s !in FrameNodes(Enter(g, true));
  }

  /** The successor lies deeper: unlink it, then let it take the node's place. */
  method SpliceFar(p: Node, s: Node, r: Node, parent: Node, dir: bool, ghost c: seq<Frame>, ghost g: Tree)
    requires c != [] && parent == c[|c| - 1].n && dir == c[|c| - 1].right
    requires At(c, g) && g.Bin? && g.n == p && g.r.Bin? && g.r.l.Bin? && s == MinTree(g.r).n
    requires r == MinWay(g.r)[|MinWay(g.r)| - 1].n
    modifies parent, s, r
    ensures At(c, Bin(g.l, s, g.b, Plug(MinWay(g.r), MinTree(g.r).r)))
  {
    ghost var way, min := FarWay(c, g), MinTree(g.r);
    FarDown(c, g);
    MinWayIsLeft(g.r, |MinWay(g.r)| - 1);
    SubDistinct(way, min, min.r);
    PathApart(way, min);
    SetLink(r, false, s.right, way, s, min.r);
    FarUp(c, g, min.r);
    OffTree(c, g, min.r, s);
    Substitute(p, s, parent, dir, c, Bin(g.l, g.n, g.b, Plug(MinWay(g.r), min.r)));
  }

  lemma {:induction false} MinWayIsLeft(t: Tree, i: nat)
    requires i < |MinWay(t)|
    ensures !MinWay(t)[i].right
  {
    if i > 0 {
      MinWayIsLeft(t.l, i - 1);
    }
  }

  // ---------------------------------------------------------------------------------------------
  // The path arrays

  /** `pa` and `da` hold the nodes and directions of a path. */
  ghost predicate Stacked(c: seq<Frame>, pa: seq<Node?>, da: seq<bool>) {
    |c| <= |pa| && |pa| == |da| && forall i :: 0 <= i < |c| ==> pa[i] == c[i].n && da[i] == c[i].right
  }

  lemma StackPush(c: seq<Frame>, pa: seq<Node?>, da: seq<bool>, f: Frame)
    requires Stacked(c, pa, da) && |c| < |pa|
    ensures Stacked(c + [f], pa[|c| := f.n], da[|c| := f.right])
  {
  }

  /** The search loop of avl_remove: every passed node and direction is stacked, starting at the anchor. */
  method StackWay(
    anchor: Node, key: Key, pa: array<Node?>, da: array<bool>, ghost w: Tree, ghost way: seq<Frame>, ghost goal: Tree)
    returns (p: Node?, k: nat)
    requires w.Bin? && w.n == anchor && Rep(w) && pa.Length == da.Length == MAX_HEIGHT
    requires way == [Enter(w, false)] + Way(w.l, key) && goal == Goal(w.l, key) && |way| <= MAX_HEIGHT
    modifies pa, da
    ensures p == Root(goal) && k == |way|
    ensures Stacked(way, pa[..], da[..])
  {
    ghost var all: set<object> := Nodes(w);
    assert Rep(w.l) && pa !in all && da !in all;
    ghost var c, s := [Enter(w, false)], w.l;
    p := anchor.left;
    pa[0], da[0] := anchor, false;
    assert Rep(w.l) == old(Rep(w.l));
    k := 1;
    while p != null && Compare(key, p.key) != 0
      invariant Rep(s) && p == Root(s) && k == |c|
      invariant c + Way(s, key) == way && Goal(s, key) == goal
      invariant Stacked(c, pa[..], da[..])
      decreases s
    {
      var dir := Compare(key, p.key) > 0;
      ghost var child := Child(s, dir);
      ghost var below: set<object> := Nodes(child);
      assert Rep(child) && pa !in below && da !in below;
      WayStep(c, s, key, dir);
      StackPush(c, pa[..], da[..], Enter(s, dir));
      var next := if dir then p.right else p.left;
      label before:
      pa[k] := p;
      da[k] := dir;
      assert Rep(child) == old@before(Rep(child));
      k := k + 1;
      c, s, p := c + [Enter(s, dir)], child, next;
    }
    assert c + Way(s, key) == c;
  }

  /** Like Stacked, except that entry `j` is not filled in yet. */
  ghost predicate StackedBut(c: seq<Frame>, j: nat, pa: seq<Node?>, da: seq<bool>) {
    && |c| <= |pa| && |pa| == |da|
    && forall i :: 0 <= i < |c| && i != j ==> pa[i] == c[i].n && da[i] == c[i].right
  }

  lemma StackPushBut(c: seq<Frame>, j: nat, pa: seq<Node?>, da: seq<bool>, f: Frame)
    requires StackedBut(c, j, pa, da) && j < |c| < |pa|
    ensures StackedBut(c + [f], j, pa[|c| := f.n], da[|c| := f.right])
  {
  }

  lemma {:induction false} MinWayFits(t: Tree)
    ensures |MinWay(t)| + 1 <= Height(t) || t.Nil?
  {
    if t.Bin? && t.l.Bin? {
      MinWayFits(t.l);
    }
  }

  /** The spine loop of avl_remove: stack every node from `r0` down to the parent of the smallest node. */
  method StackSpine(
    r0: Node, pa: array<Node?>, da: array<bool>, k0: nat, ghost c: seq<Frame>, ghost j: nat, ghost t: Tree)
    returns (r: Node, s: Node, k: nat)
    requires t.Bin? && t.n == r0 && t.l.Bin? && Rep(t)
    requires StackedBut(c, j, pa[..], da[..]) && j < |c| == k0 && k0 + |MinWay(t)| <= pa.Length
    modifies pa, da
    ensures k == k0 + |MinWay(t)| && s == MinTree(t).n && r == MinWay(t)[|MinWay(t)| - 1].n
    ensures StackedBut(c + MinWay(t), j, pa[..], da[..])
  {
    r, k := r0, k0;
    ghost var d, x := c, t;
    while true
      invariant x.Bin? && x.n == r && x.l.Bin? && Rep(x) && k == |d|
      invariant d + MinWay(x) == c + MinWay(t) && MinTree(x) == MinTree(t)
      invariant StackedBut(d, j, pa[..], da[..]) && j < |d|
      decreases x
    {
      ghost var below: set<object> := Nodes(x.l);
      assert Rep(x.l) && pa !in below && da !in below;
      StackPushBut(d, j, pa[..], da[..], Enter(x, false));
      assert d + MinWay(x) == d + [Enter(x, false)] + MinWay(x.l);
      s := r.left;
      label before:
      da[k] := false;
      pa[k] := r;
      assert Rep(x.l) == old@before(Rep(x.l));
      k := k + 1;
      d := d + [Enter(x, false)];
      if s.left == null {
        break;
      }
      r := s;
      x := x.l;
    }
    assert d + MinWay(x.l) == d;
    assert (c + MinWay(t))[|c + MinWay(t)| - 1] == MinWay(t)[|MinWay(t)| - 1];
  }

  /** The path to the hole once the successor has replaced the node. */
  ghost function NewWay(c: seq<Frame>, g: Tree): seq<Frame>
    requires g.Bin?
  {
    if g.r.Nil? then c else c + [Frame(MinTree(g.r).n, true, g.b, g.l)] + MinWay(g.r)
  }

  lemma FillSlot(c: seq<Frame>, f: Frame, f': Frame, d: seq<Frame>, pa: seq<Node?>, da: seq<bool>)
    requires StackedBut(c + [f] + d, |c|, pa, da)
    ensures Stacked(c + [f'] + d, pa[|c| := f'.n], da[|c| := f'.right])
  {
    var a, b := c + [f] + d, c + [f'] + d;
    assert forall i :: 0 <= i < |a| && i != |c| ==> a[i] == b[i];
  }

  /** All that the search phase of avl_remove hands to the rest: the path arrays, the successor and its parent. */
  ghost predicate Planned(
    way: seq<Frame>, g: Tree, pa: seq<Node?>, da: seq<bool>, k: nat, r: Node?, s: Node?, parent: Node, dir: bool)
  {
    && g.Bin? && way != [] && parent == way[|way| - 1].n && dir == way[|way| - 1].right
    && Stacked(NewWay(way, g), pa, da) && k == |NewWay(way, g)|
    && s == (if g.r.Nil? then null else MinTree(g.r).n)
    && (g.r.Bin? && g.r.l.Bin? ==> r == MinWay(g.r)[|MinWay(g.r)| - 1].n)
    && (g.r.Bin? && g.r.l.Nil? ==> r == g.r.n)
  }

  /** The path arrays for the walk back: they end at the parent of the node that is unlinked. */
  method StackSuccessor(p: Node, pa: array<Node?>, da: array<bool>, k0: nat, ghost c: seq<Frame>, ghost g: Tree)
    returns (r: Node?, s: Node?, k: nat)
    requires g.Bin? && g.n == p && Rep(g) && Stacked(c, pa[..], da[..]) && k0 == |c| && k0 + Height(g) <= pa.Length
    modifies pa, da
    ensures Stacked(NewWay(c, g), pa[..], da[..]) && k == |NewWay(c, g)|
    ensures s == (if g.r.Nil? then null else MinTree(g.r).n)
    ensures g.r.Bin? && g.r.l.Bin? ==> r == MinWay(g.r)[|MinWay(g.r)| - 1].n
    ensures g.r.Bin? && g.r.l.Nil? ==> r == g.r.n
  {
    r, s, k := p.right, null, k0;
    if r == null {
      return;
    }
    assert Rep(g.r);
    MinWayFits(g.r);
    ghost var f := Frame(MinTree(g.r).n, true, g.b, g.l);
    if r.left == null {
      StackPush(c, pa[..], da[..], f);
      assert NewWay(c, g) == c + [f];
      da[k] := true;
      pa[k] := r;
      s, k := r, k + 1;
    } else {
      var j := k;
      r, s, k := StackSpine(r, pa, da, k + 1, c + [Enter(g, true)], j, g.r);
      FillSlot(c, Enter(g, true), f, MinWay(g.r), pa[..], da[..]);
      da[j] := true;
      pa[j] := s;
    }
  }

  // ---------------------------------------------------------------------------------------------
  // The sequence and the heights after splicing

  /** `all'` is `all` without one occurrence of `p`. */
  ghost predicate TakenOut(all: seq<Node>, p: Node, all': seq<Node>) {
    exists i :: 0 <= i < |all| && all[i] == p && all' == all[..i] + all[i + 1..]
  }

  lemma {:induction false} PlugCons(f: Frame, d: seq<Frame>, x: Tree)
    ensures Plug([f] + d, x) == Join(f, Plug(d, x))
    decreases |d|
  {
    if d == [] {
      assert ([f] + d)[..0] == [];
      assert Plug([f], x) == Plug([f][..0], Join(f, x)) == Join(f, x);
    } else {
      var n := |d| - 1;
      PlugCons(f, d[..n], Join(d[n], x));
      assert ([f] + d)[..n + 1] == [f] + d[..n];
    }
  }

  lemma {:induction false} MinComesFirst(t: Tree)
    requires t.Bin?
    ensures InOrder(t) == [MinTree(t).n] + InOrder(Plug(MinWay(t), MinTree(t).r))
  {
    if t.l.Bin? {
      MinComesFirst(t.l);
      PlugCons(Enter(t, false), MinWay(t.l), MinTree(t.l).r);
    }
  }

  /** The subtree that takes the place of the removed node. */
  ghost function Spliced(g: Tree): Tree
    requires g.Bin?
  {
    if g.r.Nil? then g.l else Bin(g.l, MinTree(g.r).n, g.b, Plug(MinWay(g.r), MinTree(g.r).r))
  }

  lemma SplicedSpan(c: seq<Frame>, g: Tree)
    requires g.Bin?
    ensures TakenOut(Span(c, g), g.n, Span(c, Spliced(g)))
  {
    var all, i := Span(c, g), |Before(c)| + |InOrder(g.l)|;
    assert all[i] == g.n;
    assert all[..i] == Before(c) + InOrder(g.l);
    assert all[i + 1..] == InOrder(g.r) + After(c);
    if g.r.Bin? {
      MinComesFirst(g.r);
    }
    assert InOrder(Spliced(g)) == InOrder(g.l) + InOrder(g.r);
    assert Span(c, Spliced(g)) == all[..i] + all[i + 1..];
  }

  /** The subtree at the end of the new path. */
  ghost function NewHole(g: Tree): Tree
    requires g.Bin?
  {
    if g.r.Nil? then g.l else MinTree(g.r).r
  }

  lemma {:induction false} UnfoldSpan(c: seq<Frame>, d: seq<Frame>, s: Tree)
    requires |c| >= 1
    ensures Span(c + d, s) == Span(c, Plug(d, s))
    decreases |d|
  {
    if d == [] {
      assert c + d == c;
    } else {
      var n := |d| - 1;
      UpSpan(c + d, s);
      assert (c + d)[..|c + d| - 1] == c + d[..n];
      UnfoldSpan(c, d[..n], Join(d[n], s));
    }
  }

  lemma SplicedDown(c: seq<Frame>, g: Tree)
    requires |c| >= 1 && g.Bin? && At(c, Spliced(g))
    ensures At(NewWay(c, g), NewHole(g))
    ensures Span(NewWay(c, g), NewHole(g)) == Span(c, Spliced(g))
  {
    if g.r.Bin? {
      var t := Spliced(g);
      Down(c, t, true);
      DownSpan(c, t, true);
      UnfoldTail(c + [Enter(t, true)], MinWay(g.r), NewHole(g));
      UnfoldSpan(c + [Enter(t, true)], MinWay(g.r), NewHole(g));
    }
  }

  lemma SpineShort(c: seq<Frame>, f: Frame, t: Tree, h: nat)
    requires |c| >= 1 && t.Bin? && Balanced(t) && FrameBalanced(f, Height(t)) && FrameHeight(f, Height(t)) == h
    requires PathBalanced(c, h)
    ensures Climbing(c + [f] + MinWay(t), MinTree(t).r, false)
  {
    var path, m := c + [f], MinTree(t);
    PushBalanced(c, f, Height(t));
    MinBalanced(path, t);
    OneChildHeight(m);
    assert PathBalanced(path + MinWay(t), Height(m));
  }

  lemma LowShort(c: seq<Frame>, g: Tree)
    requires |c| >= 1 && g.Bin? && g.r.Nil? && Balanced(g) && PathBalanced(c, Height(g))
    ensures Climbing(c, g.l, false)
  {
    OneChildHeight(g);
  }

  lemma FarShort(c: seq<Frame>, g: Tree, n: Node)
    requires |c| >= 1 && g.Bin? && g.r.Bin? && Balanced(g) && PathBalanced(c, Height(g))
    ensures Climbing(c + [Frame(n, true, g.b, g.l)] + MinWay(g.r), MinTree(g.r).r, false)
  {
    RenamedFrame(g, n);
    SpineShort(c, Frame(n, true, g.b, g.l), g.r, Height(g));
  }

  lemma NewWayShort(c: seq<Frame>, g: Tree)
    requires |c| >= 1 && g.Bin? && Balanced(g) && PathBalanced(c, Height(g))
    ensures Climbing(NewWay(c, g), NewHole(g), false)
  {
    if g.r.Nil? {
      LowShort(c, g);
    } else {
      FarShort(c, g, MinTree(g.r).n);
    }
  }

  lemma RenamedFrame(g: Tree, n: Node)
    requires g.Bin? && Balanced(g)
    ensures FrameBalanced(Frame(n, true, g.b, g.l), Height(g.r))
    ensures FrameHeight(Frame(n, true, g.b, g.l), Height(g.r)) == Height(g) && Balanced(g.r)
  {
  }

  lemma OneChildHeight(t: Tree)
    requires t.Bin? && Balanced(t)
    ensures t.l.Nil? ==> Height(t) == Height(t.r) + 1 && Balanced(t.r)
    ensures t.r.Nil? ==> Height(t) == Height(t.l) + 1 && Balanced(t.l)
  {
  }

  // ---------------------------------------------------------------------------------------------
  // Walking back up

  /** The balance factor moves away from the side that lost a level. */
  ghost function Lighten(f: Frame): Frame {
    f.(b := f.b + if f.right then -1 else 1)
  }

  lemma LightenShape(f: Frame, s: Tree)
    requires Balanced(s) && FrameBalanced(f, Height(s) + 1)
    ensures var t, h := Join(Lighten(f), s), FrameHeight(f, Height(s) + 1);
            && t.b in {0, if f.right then -1 else 1, if f.right then -2 else 2}
            && (t.b == 0 ==> Balanced(t) && Height(t) + 1 == h)
            && (t.b == (if f.right then -1 else 1) ==> Balanced(t) && Height(t) == h)
            && (t.b == (if f.right then -2 else 2) ==> Leaning(t, f.right) && Height(t) == h)
  {
  }

  /** The rebalancing of avl_remove; `done` when the subtree kept its height. */
  method FixRemoveLeft(y: Node, ghost t: Tree) returns (w: Node, done: bool, ghost t': Tree)
    requires Leaning(t, true) && t.n == y && Rep(t) && Distinct(t)
    modifies Nodes(t)
    ensures t'.Bin? && Rep(t') && SameContent(t, t') && Balanced(t') && w == t'.n
    ensures Height(t') == if done then Height(t) else Height(t) - 1
  {
    LeaningShape(t, true);
    done := false;
    if y.left.bal == 1 {
      DoubleRebuilds(t, true);
      t' := Doubled(t, true);
      w := FixDoubleLeft(y, t);
    } else if y.left.bal == 0 {
      SingleBalances(t, true);
      SingleKeepsContent(t, true, 1, -1);
      t' := Single(t, true, 1, -1);
      w := FixSingleLeft(y, t, 1, -1);
      done := true;
    } else {
      SingleRebuilds(t, true);
      t' := Single(t, true, 0, 0);
      w := FixSingleLeft(y, t, 0, 0);
    }
  }

  method FixRemoveRight(y: Node, ghost t: Tree) returns (w: Node, done: bool, ghost t': Tree)
    requires Leaning(t, false) && t.n == y && Rep(t) && Distinct(t)
    modifies Nodes(t)
    ensures t'.Bin? && Rep(t') && SameContent(t, t') && Balanced(t') && w == t'.n
    ensures Height(t') == if done then Height(t) else Height(t) - 1
  {
    LeaningShape(t, false);
    done := false;
    if y.right.bal == -1 {
      DoubleRebuilds(t, false);
      t' := Doubled(t, false);
      w := FixDoubleRight(y, t);
    } else if y.right.bal == 0 {
      SingleBalances(t, false);
      SingleKeepsContent(t, false, -1, 1);
      t' := Single(t, false, -1, 1);
      w := FixSingleRight(y, t, -1, 1);
      done := true;
    } else {
      SingleRebuilds(t, false);
      t' := Single(t, false, 0, 0);
      w := FixSingleRight(y, t, 0, 0);
    }
  }

  /** What is left to do above a rebuilt subtree: nothing when `done`, one more level otherwise. */
  ghost predicate Climbing(c: seq<Frame>, t: Tree, done: bool) {
    |c| >= 1 && Balanced(t) && PathBalanced(c, if done then Height(t) else Height(t) + 1)
  }

  lemma LightenedAt(c: seq<Frame>, s: Tree)
    requires |c| > 1 && At(c[|c| - 1 := Lighten(c[|c| - 1])], s)
    ensures At(c[..|c| - 1], Join(Lighten(c[|c| - 1]), s))
  {
    var n := |c| - 1;
    var c' := c[n := Lighten(c[n])];
    Up(c', s);
    assert c'[..n] == c[..n];
  }

  lemma LightenedSpan(c: seq<Frame>, s: Tree)
    requires |c| > 1
    ensures Span(c[..|c| - 1], Join(Lighten(c[|c| - 1]), s)) == Span(c, s)
  {
    var n := |c| - 1;
    UpSpan(c, s);
    assert InOrder(Join(Lighten(c[n]), s)) == InOrder(Join(c[n], s));
  }

  /** The three ways a subtree can look once its root's balance factor has moved: settled, leaning by two, or lower. */
  ghost predicate Lightened(c: seq<Frame>, ty: Tree, right: bool) {
    ty.Bin? &&
    if ty.b == (if right then -1 else 1) then Climbing(c, ty, true)
    else if ty.b == (if right then -2 else 2) then |c| >= 1 && Leaning(ty, right) && PathBalanced(c, Height(ty))
    else Climbing(c, ty, false)
  }

  lemma LastFrame(c: seq<Frame>, h: nat)
    requires |c| > 1 && PathBalanced(c, h)
    ensures FrameBalanced(c[|c| - 1], h) && PathBalanced(c[..|c| - 1], FrameHeight(c[|c| - 1], h))
  {
  }

  /** The subtree was `h` high before it lost a level on the side of `right`. */
  lemma LightenedCases(c: seq<Frame>, ty: Tree, right: bool, h: nat)
    requires |c| >= 1 && PathBalanced(c, h) && ty.Bin? && (ty.b == 0 ==> Balanced(ty) && Height(ty) + 1 == h)
    requires ty.b == (if right then -1 else 1) ==> Balanced(ty) && Height(ty) == h
    requires ty.b == (if right then -2 else 2) ==> Leaning(ty, right) && Height(ty) == h
    requires ty.b in {0, if right then -1 else 1, if right then -2 else 2}
    ensures Lightened(c, ty, right)
  {
  }

  lemma LightenedClimb(c: seq<Frame>, s: Tree)
    requires |c| > 1 && Climbing(c, s, false)
    ensures Lightened(c[..|c| - 1], Join(Lighten(c[|c| - 1]), s), c[|c| - 1].right)
  {
    var f := c[|c| - 1];
    LastFrame(c, Height(s) + 1);
    LightenShape(f, s);
    LightenedCases(c[..|c| - 1], Join(Lighten(f), s), f.right, FrameHeight(f, Height(s) + 1));
  }

  /** Rotate a subtree that leans by two and hang it back under its parent. */
  method Rebalance(y: Node, left: bool, parent: Node, dir: bool, ghost c: seq<Frame>, ghost ty: Tree)
    returns (done: bool, ghost t: Tree)
    requires c != [] && parent == c[|c| - 1].n && dir == c[|c| - 1].right
    requires At(c, ty) && Leaning(ty, left) && ty.n == y
    modifies parent, Nodes(ty)
    ensures At(c, t) && SameContent(ty, t) && Balanced(t)
    ensures Height(t) == if done then Height(ty) else Height(ty) - 1
  {
    PathApart(c, ty);
    PathAllocated(c);
    var w;
    if left {
      w, done, t := FixRemoveLeft(y, ty);
    } else {
      w, done, t := FixRemoveRight(y, ty);
    }
    assert RepPath(c, y) == old(RepPath(c, y));
    SwapContent(c, ty, t);
    SetLink(parent, dir, w, c, y, t);
  }

  /** Move the last frame's balance factor and fold the frame into its subtree. */
  method LightenFrame(y: Node, right: bool, ghost c: seq<Frame>, ghost s: Tree)
    requires |c| > 1 && y == c[|c| - 1].n && right == c[|c| - 1].right && At(c, s)
    modifies y`bal
    ensures At(c[..|c| - 1], Join(Lighten(c[|c| - 1]), s))
    ensures y.bal == Lighten(c[|c| - 1]).b
  {
    ghost var n := |c| - 1;
    assert RepFrame(c[n], Below(c, n, Root(s)));
    SetBalance(y, if right then y.bal - 1 else y.bal + 1, c, n, s);
    LightenedAt(c, s);
  }

  method Resolve(y: Node, right: bool, parent: Node, dir: bool, ghost c: seq<Frame>, ghost ty: Tree)
    returns (done: bool, ghost t: Tree)
    requires c != [] && parent == c[|c| - 1].n && dir == c[|c| - 1].right
    requires At(c, ty) && Lightened(c, ty, right) && ty.n == y
    modifies parent, Nodes(ty)
    ensures At(c, t) && Climbing(c, t, done) && Nodes(t) == Nodes(ty) && InOrder(t) == InOrder(ty)
  {
    if y.bal == (if right then -1 else 1) {
      return true, ty;
    }
    if y.bal != (if right then -2 else 2) {
      return false, ty;
    }
    done, t := Rebalance(y, right, parent, dir, c, ty);
  }

  /** One iteration of the last loop of avl_remove. */
  method ShrinkStep(
    y: Node, right: bool, parent: Node, dir: bool, ghost c: seq<Frame>, ghost s: Tree,
    ghost nodes: set<Node>)
    returns (done: bool, ghost t: Tree)
    requires |c| > 1 && y == c[|c| - 1].n && right == c[|c| - 1].right
    requires parent == c[|c| - 2].n && dir == c[|c| - 2].right
    requires At(c, s) && Climbing(c, s, false)
    requires parent in nodes && FrameNodes(c[|c| - 1]) <= nodes && Nodes(s) <= nodes
    modifies nodes
    ensures At(c[..|c| - 1], t) && Climbing(c[..|c| - 1], t, done) && Span(c[..|c| - 1], t) == Span(c, s)
    ensures Nodes(t) == FrameNodes(c[|c| - 1]) + Nodes(s)
  {
    ghost var n := |c| - 1;
    LightenFrame(y, right, c, s);
    LightenedClimb(c, s);
    JoinNodes(Lighten(c[n]), s);
    done, t := Resolve(y, right, parent, dir, c[..n], Join(Lighten(c[n]), s));
    LightenedSpan(c, s);
    SameSpan(c[..n], t, Join(Lighten(c[n]), s));
  }

  /** The last loop of avl_remove. */
  method Shrink(
    pa: array<Node?>, da: array<bool>, k0: nat, ghost c: seq<Frame>, ghost s: Tree,
    ghost nodes: set<Node>)
    returns (ghost m: nat, ghost t: Tree)
    requires Stacked(c, pa[..], da[..]) && k0 == |c| && At(c, s) && Climbing(c, s, false)
    requires PathNodes(c) <= nodes && Nodes(s) <= nodes
    modifies nodes
    ensures 1 <= m <= |c| && At(c[..m], t) && Climbing(c[..m], t, true) && Span(c[..m], t) == Span(c, s)
  {
    var k, done := k0, false;
    t := s;
    ghost var path := c;
    assert c[..k] == c;
    while k > 1 && !done
      invariant 1 <= k <= |c| && path == c[..k]
      invariant At(path, t) && Climbing(path, t, done) && Span(path, t) == Span(c, s)
      invariant PathNodes(path) <= nodes && Nodes(t) <= nodes
      decreases k
    {
      k := k - 1;
      var y: Node, parent: Node := pa[k], pa[k - 1];
      PathSplit(path);
      PathHeads(path, nodes);
      done, t := ShrinkStep(y, da[k], parent, da[k - 1], path, t, nodes);
      path := path[..k];
      assert path == c[..k];
    }
    m := k;
  }

  /** avl_remove's three ways to take the node out, by the shape of its right subtree. */
  method Splice(
    p: Node, r: Node?, s: Node?, parent: Node, dir: bool, ghost c: seq<Frame>, ghost g: Tree, ghost nodes: set<Node>)
    requires c != [] && parent == c[|c| - 1].n && dir == c[|c| - 1].right
    requires At(c, g) && g.Bin? && g.n == p && PathNodes(c) <= nodes && Nodes(g) <= nodes
    requires s == (if g.r.Nil? then null else MinTree(g.r).n)
    requires g.r.Bin? && g.r.l.Bin? ==> r == MinWay(g.r)[|MinWay(g.r)| - 1].n
    requires g.r.Bin? && g.r.l.Nil? ==> r == g.r.n
    modifies nodes
    ensures At(c, Spliced(g))
  {
    PathHeads(c, nodes);
    assert g.r.Bin? ==> Rep(g.r) && g.r.n in Nodes(g.r);
    if p.right == null {
      SpliceLow(p, parent, dir, c, g);
    } else if p.right.left == null {
      SpliceNext(p, r, parent, dir, c, g);
    } else {
      MinInside(g.r);
      SpliceFar(p, s, r, parent, dir, c, g);
    }
  }

  lemma {:induction false} MinInside(t: Tree)
    requires t.Bin?
    ensures MinTree(t).n in Nodes(t)
    ensures MinWay(t) != [] ==> MinWay(t)[|MinWay(t)| - 1].n in Nodes(t)
  {
    if t.l.Bin? {
      MinInside(t.l);
    }
  }

  /** The tree after splicing, as the walk back finds it. */
  lemma SplicedClimb(c: seq<Frame>, g: Tree)
    requires |c| >= 1 && g.Bin? && Balanced(g) && PathBalanced(c, Height(g)) && At(c, Spliced(g))
    ensures At(NewWay(c, g), NewHole(g)) && Climbing(NewWay(c, g), NewHole(g), false)
    ensures TakenOut(Span(c, g), g.n, Span(NewWay(c, g), NewHole(g)))
  {
    SplicedDown(c, g);
    NewWayShort(c, g);
    SplicedSpan(c, g);
  }

  lemma TakenOutOrdered(all: seq<Node>, p: Node, all': seq<Node>)
    requires TakenOut(all, p, all') && Ordered(all)
    ensures Ordered(all')
  {
    var i :| 0 <= i < |all| && all[i] == p && all' == all[..i] + all[i + 1..];
    forall a, b | 0 <= a < b < |all'| ensures Less(all'[a].key, all'[b].key) {
      assert all'[a] == all[if a < i then a else a + 1] && all'[b] == all[if b < i then b else b + 1];
    }
  }

  lemma {:induction false} MinWayNodes(t: Tree, i: nat)
    requires i < |MinWay(t)|
    ensures FrameNodes(MinWay(t)[i]) <= Nodes(t)
  {
    if i > 0 {
      MinWayNodes(t.l, i - 1);
    }
  }

  lemma {:induction false} MinTreeNodes(t: Tree)
    ensures Nodes(MinTree(t)) <= Nodes(t)
  {
    if t.Bin? && t.l.Bin? {
      MinTreeNodes(t.l);
    }
  }

  lemma NewWayNodes(c: seq<Frame>, g: Tree, nodes: set<Node>)
    requires g.Bin? && PathNodes(c) <= nodes && Nodes(g) <= nodes
    ensures PathNodes(NewWay(c, g)) <= nodes && Nodes(NewHole(g)) <= nodes
  {
    if g.r.Bin? {
      var way := NewWay(c, g);
      MinTreeNodes(g.r);
      MinInside(g.r);
      forall i | 0 <= i < |way| ensures FrameNodes(way[i]) <= nodes {
        if i < |c| {
          assert way[i] == c[i] && FrameNodes(c[i]) <= PathNodes(c);
        } else if i > |c| {
          MinWayNodes(g.r, i - |c| - 1);
        }
      }
    }
  }

  /** avl_remove from taking the node out on. */
  method SpliceAndShrink(
    p: Node, r: Node?, s: Node?, parent: Node, dir: bool, pa: array<Node?>, da: array<bool>, k: nat,
    ghost way: seq<Frame>, ghost g: Tree, ghost nodes: set<Node>)
    returns (ghost path: seq<Frame>, ghost x: Tree)
    requires Planned(way, g, pa[..], da[..], k, r, s, parent, dir) && g.n == p
    requires At(way, g) && Balanced(g) && PathBalanced(way, Height(g))
    requires PathNodes(way) <= nodes && Nodes(g) <= nodes
    modifies nodes
    ensures path != [] && path[0] == way[0] && At(path, x) && Climbing(path, x, true)
    ensures TakenOut(Span(way, g), p, Span(path, x))
  {
    Splice(p, r, s, parent, dir, way, g, nodes);
    assert pa[..] == old(pa[..]) && da[..] == old(da[..]);
    SplicedClimb(way, g);
    NewWayNodes(way, g, nodes);
    ghost var m;
    m, x := Shrink(pa, da, k, NewWay(way, g), NewHole(g), nodes);
    path := NewWay(way, g)[..m];
  }

  lemma FinishRemove(path: seq<Frame>, x: Tree, p: Node, w: Tree)
    requires path != [] && w.Bin? && path[0] == Enter(w, false) && w.b == 0 && w.r == Nil
    requires At(path, x) && Climbing(path, x, true)
    requires Ordered(InOrder(w.l)) && TakenOut(InOrder(w.l), p, Span(path, x))
    ensures var w' := Plug(path, x);
            && w'.Bin? && w' == Bin(w'.l, w.n, 0, Nil) && Rep(w') && Distinct(w') && Balanced(w'.l)
            && Ordered(InOrder(w'.l)) && InOrder(w'.l) == Span(path, x)
  {
    TakenOutOrdered(InOrder(w.l), p, Span(path, x));
    Reassemble(path, x, w.n);
  }

  /** The whole removal on an anchored tree, given the search result and the path arrays. */
  method TakeOut(
    p: Node, r: Node?, s: Node?, parent: Node, dir: bool, pa: array<Node?>, da: array<bool>, k: nat,
    ghost way: seq<Frame>, ghost g: Tree, ghost w: Tree)
    returns (ghost w': Tree)
    requires Planned(way, g, pa[..], da[..], k, r, s, parent, dir) && g.n == p
    requires At(way, g) && Position(way, g, w, p.key) && w.b == 0 && w.r == Nil && Ordered(InOrder(w.l))
    modifies Nodes(w)
    ensures w'.Bin? && w' == Bin(w'.l, w.n, 0, Nil) && Rep(w') && Distinct(w') && Balanced(w'.l)
    ensures Ordered(InOrder(w'.l)) && TakenOut(InOrder(w.l), p, InOrder(w'.l))
  {
    PlugNodes(way, g);
    ghost var path, x := SpliceAndShrink(p, r, s, parent, dir, pa, da, k, way, g, Nodes(w));
    FinishRemove(path, x, p, w);
    w' := Plug(path, x);
  }
}
