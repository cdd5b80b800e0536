/** avl_insert after its search: link the new node, move balance factors on the path, rotate once if needed. */
module AvlInsertion {
  import opened Keys
  import opened AvlModel
  import opened AvlRotations
  import opened AvlSearch

  // ---------------------------------------------------------------------------------------------
  // Linking the node and moving balance factors

  function Leaf(n: Node): Tree {
    Bin(Nil, n, 0, Nil)
  }

  lemma LeafDistinct(c: seq<Frame>, item: Node)
    requires DistinctPath(c, Nil) && item !in PathNodes(c)
    ensures DistinctPath(c, Leaf(item))
    ensures forall i :: 0 <= i < |c| ==> item !in FrameNodes(c[i])
  {
    forall i | 0 <= i < |c| ensures item !in FrameNodes(c[i]) {
      assert item in FrameNodes(c[i]) ==> item in PathNodes(c);
    }
  }

  method LinkLeaf(q: Node, right: bool, item: Node, ghost c: seq<Frame>)
    requires c != [] && q == c[|c| - 1].n && right == c[|c| - 1].right
    requires At(c, Nil) && item !in PathNodes(c)
    modifies q`left, q`right, item
    ensures At(c, Leaf(item))
  {
    LeafDistinct(c, item);
    item.left, item.right, item.bal := null, null, 0;
    forall i | 0 <= i < |c| ensures RepFrame(c[i], Below(c, i, null)) {
      assert old(RepFrame(c[i], Below(c, i, null)));
    }
    assert Rep(Nil);
    SetLink(q, right, item, c, null, Leaf(item));
  }

  ghost function Bump(f: Frame): Frame {
    f.(b := f.b + if f.right then 1 else -1)
  }

  /** The path with the balance factors of frames `lo..hi` moved towards the side taken. */
  ghost function Bumped(c: seq<Frame>, lo: nat, hi: nat): (r: seq<Frame>)
    ensures |r| == |c|
  {
    seq(|c|, i requires 0 <= i < |c| =>
      if lo <= i < hi then c[i].(b := c[i].b + if c[i].right then 1 else -1) else c[i])
  }

  lemma BumpedNext(c: seq<Frame>, lo: nat, hi: nat)
    requires lo <= hi < |c|
    ensures Bumped(c, lo, hi)[hi := Bump(c[hi])] == Bumped(c, lo, hi + 1)
    ensures Bumped(c, lo, hi)[hi] == c[hi]
    ensures hi + 1 < |c| ==> Bumped(c, lo, hi)[hi + 1] == c[hi + 1]
  {
  }

  method BumpFrame(p: Node, right: bool, ghost c: seq<Frame>, ghost i: nat, ghost s: Tree)
    requires i < |c| && p == c[i].n && right == c[i].right && At(c, s)
    modifies p`bal
    ensures At(c[i := Bump(c[i])], s)
  {
    assert RepFrame(c[i], Below(c, i, Root(s)));
    if right {
      SetBalance(p, p.bal + 1, c, i, s);
    } else {
      SetBalance(p, p.bal - 1, c, i, s);
    }
  }

  lemma LeafIsOffPath(c: seq<Frame>, i: nat, item: Node)
    requires DistinctPath(c, Leaf(item)) && i < |c|
    ensures c[i].n != item
  {
    assert c[i].n in FrameNodes(c[i]) && item in Nodes(Leaf(item));
  }

  /** One iteration of avl_insert's second loop. */
  method BumpStep(p: Node, right: bool, ghost c: seq<Frame>, ghost i: nat, ghost s: Tree) returns (next: Node)
    requires i < |c| && p == c[i].n && right == c[i].right && At(c, s) && s.Bin?
    modifies p`bal
    ensures At(c[i := Bump(c[i])], s)
    ensures next == Below(c, i, s.n)
  {
    assert RepFrame(c[i], Below(c, i, s.n));
    BumpFrame(p, right, c, i, s);
    next := if right then p.right else p.left;
  }

  /** avl_insert's first loop stops here: below frame `m` every passed node has balance factor 0. */
  ghost predicate LastUneven(c: seq<Frame>, m: nat) {
    && 1 <= m <= |c|
    && (forall i :: m < i < |c| ==> c[i].b == 0)
    && (1 < m ==> m < |c| && c[m].b != 0)
  }

  /** `dirs` caches the directions taken from frame `m` on. */
  ghost predicate Trail(c: seq<Frame>, m: nat, dirs: seq<bool>) {
    LastUneven(c, m) && |c| - m <= |dirs| && forall i :: 0 <= i < |c| - m ==> dirs[i] == c[m + i].right
  }

  lemma TrailStep(c: seq<Frame>, m: nat, dirs: seq<bool>, f: Frame, m': nat)
    requires Trail(c, m, dirs) && m' == (if f.b != 0 then |c| else m) && |c| - m' < |dirs|
    ensures Trail(c + [f], m', dirs[|c| - m' := f.right])
  {
  }

  /** avl_insert's second loop: move the balance factors from `y` down to the new node. */
  method BumpPath(y: Node, item: Node, da: array<bool>, ghost c: seq<Frame>, ghost m: nat, ghost nodes: set<Node>)
    requires forall i :: 0 <= i < |c| ==> c[i].n in nodes
    requires At(c, Leaf(item)) && m < |c| && y == c[m].n && Trail(c, m, da[..])
    modifies nodes`bal
    ensures At(Bumped(c, m, |c|), Leaf(item))
  {
    var p, k := y, 0;
    ghost var now := c;
    assert Bumped(c, m, m) == c;
    LeafIsOffPath(c, m, item);
    while p != item
      invariant m + k <= |c| && now == Bumped(c, m, m + k) && At(now, Leaf(item))
      invariant p == if m + k < |c| then c[m + k].n else item
      invariant p == item ==> m + k == |c|
      decreases |c| - m - k
    {
      BumpedNext(c, m, m + k);
      p := BumpStep(p, da[k], now, m + k, Leaf(item));
      now := now[m + k := Bump(c[m + k])];
      k := k + 1;
      if m + k < |c| {
        LeafIsOffPath(now, m + k, item);
      }
    }
  }

  // ---------------------------------------------------------------------------------------------
  // Below the last uneven node, every subtree on the path grows by one level

  /** A balanced frame with factor 0 leans to the side that grew by one level and stays balanced. */
  lemma BumpEven(f: Frame, s: Tree, h: nat)
    requires FrameBalanced(f, h) && f.b == 0 && Balanced(s) && Height(s) == h + 1
    ensures Balanced(Join(Bump(f), s)) && Height(Join(Bump(f), s)) == FrameHeight(f, h) + 1
    ensures Join(Bump(f), s).b != 0
  {
  }

  /** A subtree on the path below `y`: it has grown by exactly one level to `h + 1` and is balanced. */
  ghost predicate Grown(s: Tree, h: nat) {
    s.Bin? && Balanced(s) && Height(s) == h + 1 && (h == 0 || s.b != 0)
  }

  lemma FoldOne(c: seq<Frame>, m: nat, s: Tree)
    requires m < |c| - 1 && At(Bumped(c, m, |c|), s)
    ensures At(Bumped(c[..|c| - 1], m, |c| - 1), Join(Bump(c[|c| - 1]), s))
  {
    var n := |c| - 1;
    var up := Bumped(c, m, |c|);
    Up(up, s);
    assert up[..n] == Bumped(c[..n], m, n) && up[n] == Bump(c[n]);
  }

  lemma JoinSpan(c: seq<Frame>, s: Tree)
    requires |c| > 1
    ensures Span(c[..|c| - 1], Join(Bump(c[|c| - 1]), s)) == Span(c, s)
  {
    UpSpan(c, s);
    assert InOrder(Join(Bump(c[|c| - 1]), s)) == InOrder(Join(c[|c| - 1], s));
  }

  /** The path below frame `m` folded into one subtree, bumping every frame. */
  ghost function Folded(c: seq<Frame>, m: nat, s: Tree): Tree {
    if |c| <= m + 1 then s else Folded(c[..|c| - 1], m, Join(Bump(c[|c| - 1]), s))
  }

  lemma {:induction false} FoldAt(c: seq<Frame>, m: nat, s: Tree)
    requires m < |c| && At(Bumped(c, m, |c|), s)
    ensures At(Bumped(c[..m + 1], m, m + 1), Folded(c, m, s))
    decreases |c|
  {
    var n := |c| - 1;
    if n == m {
      assert c[..m + 1] == c;
    } else {
      FoldOne(c, m, s);
      FoldAt(c[..n], m, Join(Bump(c[n]), s));
      assert c[..n][..m + 1] == c[..m + 1];
    }
  }

  lemma {:induction false} FoldSpan(c: seq<Frame>, m: nat, s: Tree)
    requires 1 <= m < |c|
    ensures Span(c[..m + 1], Folded(c, m, s)) == Span(c, s)
    decreases |c|
  {
    var n := |c| - 1;
    if n == m {
      assert c[..m + 1] == c;
    } else {
      JoinSpan(c, s);
      FoldSpan(c[..n], m, Join(Bump(c[n]), s));
      assert c[..n][..m + 1] == c[..m + 1];
    }
  }

  lemma {:induction false} FoldNodes(c: seq<Frame>, m: nat, s: Tree, nodes: set<Node>)
    requires PathNodes(c) <= nodes && Nodes(s) <= nodes
    ensures Nodes(Folded(c, m, s)) <= nodes
    decreases |c|
  {
    if |c| > m + 1 {
      var n := |c| - 1;
      PathSplit(c);
      JoinNodes(Bump(c[n]), s);
      FoldNodes(c[..n], m, Join(Bump(c[n]), s), nodes);
    }
  }

  /** Below `y`, every subtree on the path grows by one level. */
  lemma {:induction false} FoldEven(c: seq<Frame>, m: nat, s: Tree, h: nat) returns (h': nat)
    requires 1 <= m < |c| && (forall i :: m < i < |c| ==> c[i].b == 0) && PathBalanced(c, h) && Grown(s, h)
    ensures PathBalanced(c[..m + 1], h') && Grown(Folded(c, m, s), h')
    decreases |c|
  {
    var n := |c| - 1;
    if n == m {
      assert c[..m + 1] == c;
      return h;
    }
    BumpEven(c[n], s, h);
    h' := FoldEven(c[..n], m, Join(Bump(c[n]), s), FrameHeight(c[n], h));
    assert c[..n][..m + 1] == c[..m + 1];
  }

  // ---------------------------------------------------------------------------------------------
  // The last uneven node absorbs the growth

  /** The left-heavy rebalancing of avl_insert: the tall child never has factor 0 there. */
  method FixInsertLeft(y: Node, ghost t: Tree) returns (w: Node, ghost t': Tree)
    requires Leaning(t, true) && t.n == y && Rep(t) && Distinct(t) && t.l.Bin? && t.l.b != 0
    modifies Nodes(t)
    ensures Rep(t') && Rebuilt(t, t') && w == t'.n
  {
    LeaningShape(t, true);
    if y.left.bal == -1 {
      SingleRebuilds(t, true);
      t' := Single(t, true, 0, 0);
      w := FixSingleLeft(y, t, 0, 0);
    } else {
      DoubleRebuilds(t, true);
      t' := Doubled(t, true);
      w := FixDoubleLeft(y, t);
    }
  }

  method FixInsertRight(y: Node, ghost t: Tree) returns (w: Node, ghost t': Tree)
    requires Leaning(t, false) && t.n == y && Rep(t) && Distinct(t) && t.r.Bin? && t.r.b != 0
    modifies Nodes(t)
    ensures Rep(t') && Rebuilt(t, t') && w == t'.n
  {
    LeaningShape(t, false);
    if y.right.bal == 1 {
      SingleRebuilds(t, false);
      t' := Single(t, false, 0, 0);
      w := FixSingleRight(y, t, 0, 0);
    } else {
      DoubleRebuilds(t, false);
      t' := Doubled(t, false);
      w := FixDoubleRight(y, t);
    }
  }

  /** What bumping `y` makes of it: leaning by one, level, or two levels out of balance. */
  lemma BumpShape(f: Frame, s: Tree, h: nat)
    requires FrameBalanced(f, h) && Grown(s, h)
    ensures -2 <= Join(Bump(f), s).b <= 2
    ensures -1 <= Join(Bump(f), s).b <= 1 ==> Balanced(Join(Bump(f), s))
    ensures Join(Bump(f), s).b == 0 ==> Height(Join(Bump(f), s)) == FrameHeight(f, h)
    ensures Join(Bump(f), s).b == -2 ==> Leaning(Join(Bump(f), s), true) && !f.right && s.b != 0
    ensures Join(Bump(f), s).b == 2 ==> Leaning(Join(Bump(f), s), false) && f.right && s.b != 0
    ensures Join(Bump(f), s).b == -2 || Join(Bump(f), s).b == 2 ==> Height(Join(Bump(f), s)) == FrameHeight(f, h) + 1
    ensures Join(Bump(f), s).b == -1 || Join(Bump(f), s).b == 1 ==> f.b == 0
  {
  }

  /** The subtree of `y` once it is bumped: balanced at a height its ancestors expect, or two levels out. */
  ghost predicate Settling(c: seq<Frame>, ty: Tree) {
    && ty.Bin? && -2 <= ty.b <= 2
    && (ty.b == -2 ==> Leaning(ty, true) && ty.l.Bin? && ty.l.b != 0)
    && (ty.b == 2 ==> Leaning(ty, false) && ty.r.Bin? && ty.r.b != 0)
    && (if ty.b == -2 || ty.b == 2 then Height(ty) > 0 && PathBalanced(c, Height(ty) - 1)
        else Balanced(ty) && PathBalanced(c, Height(ty)))
  }

  /** The rotations of avl_insert, if `y` needs one, and relinking under `z`. */
  method Settle(y: Node, z: Node, ghost c: seq<Frame>, ghost ty: Tree) returns (ghost t: Tree)
    requires c != [] && z == c[|c| - 1].n && At(c, ty) && Settling(c, ty) && ty.n == y
    modifies z, Nodes(ty)
    ensures At(c, t) && InOrder(t) == InOrder(ty) && Balanced(t) && PathBalanced(c, Height(t))
  {
    PathApart(c, ty);
    PathAllocated(c);
    var w;
    if y.bal == -2 {
      w, t := FixInsertLeft(y, ty);
    } else if y.bal == 2 {
      w, t := FixInsertRight(y, ty);
    } else {
      return ty;
    }
    assert RepPath(c, y) == old(RepPath(c, y));
    assert Height(t) == Height(ty) - 1;
    Hang(z, y, w, c, ty, t);
  }

  lemma BumpedSettles(c: seq<Frame>, m: nat, s: Tree, h: nat)
    requires LastUneven(c, m) && |c| == m + 1 && PathBalanced(c, h) && Grown(s, h)
    ensures Settling(c[..m], Join(Bump(c[m]), s))
  {
    assert PathBalanced(c[..m], FrameHeight(c[m], h));
    assert m == 1 ==> forall h' :: PathBalanced(c[..m], h');
    BumpShape(c[m], s, h);
  }

  lemma JoinBumped(c: seq<Frame>, m: nat, s: Tree)
    requires 1 <= m && |c| == m + 1 && At(Bumped(c, m, m + 1), s)
    ensures At(c[..m], Join(Bump(c[m]), s)) && Span(c[..m], Join(Bump(c[m]), s)) == Span(c, s)
  {
    var up := Bumped(c, m, m + 1);
    assert up[..m] == c[..m] && up[m] == Bump(c[m]);
    Up(up, s);
    JoinSpan(c, s);
  }

  /** The subtree of `y` after the second loop of avl_insert. */
  lemma BumpedSubtree(c: seq<Frame>, m: nat, item: Node, nodes: set<Node>) returns (ty: Tree)
    requires At(Bumped(c, m, |c|), Leaf(item)) && PathBalanced(c, 0) && LastUneven(c, m) && m < |c|
    requires PathNodes(c) <= nodes && item in nodes
    ensures ty.Bin? && ty.n == c[m].n && Nodes(ty) <= nodes
    ensures At(c[..m], ty) && Settling(c[..m], ty) && Span(c[..m], ty) == Span(c, Leaf(item))
  {
    var c1, s := c[..m + 1], Folded(c, m, Leaf(item));
    ty := Join(Bump(c1[m]), s);
    assert c1[..m] == c[..m];
    FoldAt(c, m, Leaf(item));
    JoinBumped(c1, m, s);
    FoldSpan(c, m, Leaf(item));
    var h := FoldEven(c, m, Leaf(item), 0);
    BumpedSettles(c1, m, s, h);
    FoldNodes(c, m, Leaf(item), nodes);
    JoinNodes(Bump(c1[m]), s);
    assert FrameNodes(c[m]) <= PathNodes(c);
  }

  method SettleBumped(y: Node, z: Node, item: Node, ghost c: seq<Frame>, ghost m: nat, ghost nodes: set<Node>)
    returns (ghost t: Tree)
    requires At(Bumped(c, m, |c|), Leaf(item)) && PathBalanced(c, 0) && LastUneven(c, m) && m < |c|
    requires PathNodes(c) <= nodes && item in nodes && y == c[m].n && z == c[m - 1].n
    modifies nodes
    ensures At(c[..m], t) && Balanced(t) && PathBalanced(c[..m], Height(t))
    ensures Span(c[..m], t) == Span(c, Leaf(item))
  {
    PathHeads(c, nodes);
    ghost var up := c[..m];
    ghost var ty := BumpedSubtree(c, m, item, nodes);
    t := Settle(y, z, up, ty);
    SameSpan(up, t, ty);
  }

  /** The part of avl_insert after the new node is linked. */
  method Grow(y: Node, z: Node, item: Node, da: array<bool>, ghost c: seq<Frame>, ghost m: nat, ghost nodes: set<Node>)
    returns (ghost t: Tree)
    requires At(c, Leaf(item)) && PathBalanced(c, 0) && Trail(c, m, da[..]) && m < |c|
    requires y == c[m].n && z == c[m - 1].n
    requires PathNodes(c) <= nodes && item in nodes
    modifies nodes
    ensures At(c[..m], t) && Balanced(t) && PathBalanced(c[..m], Height(t))
    ensures Span(c[..m], t) == Span(c, Leaf(item))
  {
    PathHeads(c, nodes);
    BumpPath(y, item, da, c, m, nodes);
    t := SettleBumped(y, z, item, c, m, nodes);
  }

  /** avl_insert from linking the new node on. */
  method LinkAndGrow(
    item: Node, q: Node, z: Node, y: Node?, dir: bool, da: array<bool>,
    ghost way: seq<Frame>, ghost m: nat, ghost nodes: set<Node>)
    returns (ghost t: Tree)
    requires At(way, Nil) && PathBalanced(way, 0) && PathNodes(way) <= nodes && item in nodes - PathNodes(way)
    requires Trail(way, m, da[..]) && z == way[m - 1].n && y == (if m < |way| then way[m].n else null)
    requires q == way[|way| - 1].n && dir == way[|way| - 1].right
    modifies nodes
    ensures At(way[..m], t) && Balanced(t) && PathBalanced(way[..m], Height(t))
    ensures Span(way[..m], t) == Span(way, Leaf(item))
  {
    assert q in FrameNodes(way[|way| - 1]);
    LinkLeaf(q, dir, item, way);
    if y != null {
      t := Grow(y, z, item, da, way, m, nodes);
    } else {
      t := Leaf(item);
      assert way[..m] == way;
    }
  }

  // ---------------------------------------------------------------------------------------------
  // The new in-order sequence

  lemma InsertOrdered(a: seq<Node>, item: Node, z: seq<Node>)
    requires Ordered(a + z)
    requires forall n :: n in a ==> Less(n.key, item.key)
    requires forall n :: n in z ==> Less(item.key, n.key)
    ensures Ordered(a + [item] + z)
  {
    var s, r := a + z, a + [item] + z;
    forall i, j | 0 <= i < j < |r| ensures Less(r[i].key, r[j].key) {
      var i0 := if i < |a| then i else i - 1;
      var j0 := if j < |a| then j else j - 1;
      if i != |a| && j != |a| {
        assert r[i] == s[i0] && r[j] == s[j0];
      }
    }
  }

  /** `all'` is `all` with `item` put in at one place. */
  ghost predicate PutIn(all: seq<Node>, item: Node, all': seq<Node>) {
    exists i :: 0 <= i <= |all| && all' == all[..i] + [item] + all[i..]
  }

  lemma PutInNodes(t: Tree, item: Node, t': Tree)
    requires PutIn(InOrder(t), item, InOrder(t'))
    ensures Nodes(t') == Nodes(t) + {item}
  {
    var all, all' := InOrder(t), InOrder(t');
    var i :| 0 <= i <= |all| && all' == all[..i] + [item] + all[i..];
    forall n | n in Nodes(t') ensures n in Nodes(t) + {item} {
      InOrderNodes(t', n);
      InOrderNodes(t, n);
    }
    forall n | n in Nodes(t) + {item} ensures n in Nodes(t') {
      InOrderNodes(t', n);
      InOrderNodes(t, n);
      assert n in all ==> n in all[..i] || n in all[i..];
    }
  }

  lemma LeafSpan(way: seq<Frame>, item: Node)
    ensures Span(way, Nil) == Before(way) + After(way)
    ensures Span(way, Leaf(item)) == Before(way) + [item] + After(way)
  {
    assert InOrder(Leaf(item)) == [item];
  }

  lemma PutBetween(a: seq<Node>, item: Node, z: seq<Node>)
    ensures PutIn(a + z, item, a + [item] + z)
  {
    assert (a + z)[..|a|] == a && (a + z)[|a|..] == z;
  }

  lemma LeafPutIn(way: seq<Frame>, item: Node, all: seq<Node>)
    requires Seeking(way, Nil, item.key, all) && Ordered(all)
    ensures PutIn(all, item, Span(way, Leaf(item))) && Ordered(Span(way, Leaf(item)))
  {
    LeafSpan(way, item);
    PutBetween(Before(way), item, After(way));
    InsertOrdered(Before(way), item, After(way));
  }

  lemma FinishInsert(way: seq<Frame>, m: nat, s: Tree, item: Node, w: Tree)
    requires Position(way, Nil, w, item.key) && Ordered(InOrder(w.l)) && w.b == 0 && w.r == Nil
    requires 1 <= m <= |way| && At(way[..m], s) && Balanced(s) && PathBalanced(way[..m], Height(s))
    requires Span(way[..m], s) == Span(way, Leaf(item))
    ensures var w' := Plug(way[..m], s);
            && w'.Bin? && w' == Bin(w'.l, w.n, 0, Nil) && Rep(w') && Distinct(w') && Balanced(w'.l)
            && Ordered(InOrder(w'.l)) && PutIn(InOrder(w.l), item, InOrder(w'.l))
  {
    LeafPutIn(way, item, InOrder(w.l));
    Reassemble(way[..m], s, w.n);
  }
}
