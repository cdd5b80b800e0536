/** The way a key comparison takes through an ordered tree, and what it tells about the key. */
module AvlSearch {
  import opened Keys
  import opened AvlModel
  import opened AvlRotations

  /** The position separates the smaller nodes from the larger ones. */
  ghost predicate Separates(c: seq<Frame>, key: Key) {
    && (forall n :: n in Before(c) ==> Less(n.key, key))
    && (forall n :: n in After(c) ==> Less(key, n.key))
  }

  lemma OrderedParts(a: seq<Node>, l: seq<Node>, n: Node, r: seq<Node>, z: seq<Node>)
    requires Ordered(a + (l + [n] + r) + z)
    ensures forall x :: x in l ==> Less(x.key, n.key)
    ensures forall x :: x in r ==> Less(n.key, x.key)
  {
    var s := a + (l + [n] + r) + z;
    var k := |a| + |l|;
    assert s[k] == n;
    forall x | x in l ensures Less(x.key, n.key) {
      var i :| 0 <= i < |l| && l[i] == x;
      assert s[|a| + i] == x;
    }
    forall x | x in r ensures Less(n.key, x.key) {
      var i :| 0 <= i < |r| && r[i] == x;
      assert s[k + 1 + i] == x;
    }
  }

  lemma DownSeparates(c: seq<Frame>, s: Tree, key: Key, right: bool)
    requires |c| >= 1 && s.Bin? && Separates(c, key) && Ordered(Span(c, s))
    requires if right then Less(s.n.key, key) else Less(key, s.n.key)
    ensures Separates(c + [Enter(s, right)], key)
  {
    DownSides(c, s, right);
    OrderedParts(Before(c), InOrder(s.l), s.n, InOrder(s.r), After(c));
    if right {
      forall x | x in InOrder(s.l) ensures Less(x.key, key) { LessIsTransitive(x.key, s.n.key, key); }
    } else {
      forall x | x in InOrder(s.r) ensures Less(key, x.key) { LessIsTransitive(key, s.n.key, x.key); }
    }
  }

  /** Where the search for `key` stands in the tree whose in-order sequence is `all`. */
  ghost predicate Seeking(c: seq<Frame>, s: Tree, key: Key, all: seq<Node>) {
    |c| >= 1 && Span(c, s) == all && Separates(c, key)
  }

  lemma SeekTop(f: Frame, s: Tree, key: Key)
    ensures Seeking([f], s, key, InOrder(s))
  {
  }

  lemma SeekDown(c: seq<Frame>, s: Tree, key: Key, right: bool, all: seq<Node>)
    requires Seeking(c, s, key, all) && Ordered(all) && s.Bin?
    requires if right then Less(s.n.key, key) else Less(key, s.n.key)
    ensures Seeking(c + [Enter(s, right)], Child(s, right), key, all)
  {
    DownSpan(c, s, right);
    DownSeparates(c, s, key, right);
  }

  lemma SeekFound(c: seq<Frame>, s: Tree, key: Key, all: seq<Node>)
    requires Seeking(c, s, key, all) && s.Bin?
    ensures s.n in all
  {
    assert all[|Before(c)| + |InOrder(s.l)|] == s.n;
  }

  lemma NotThere(c: seq<Frame>, key: Key)
    requires Separates(c, key)
    ensures forall n :: n in Span(c, Nil) ==> n.key != key
  {
    forall n | n in Span(c, Nil) ensures n.key != key {
      assert n in Before(c) || n in After(c);
      CompareIsTotal(n.key, key);
    }
  }

  lemma {:induction false} InOrderNodes(t: Tree, n: Node)
    ensures n in InOrder(t) <==> n in Nodes(t)
  {
    if t.Bin? {
      InOrderNodes(t.l, n);
      InOrderNodes(t.r, n);
    }
  }

  lemma Absent(c: seq<Frame>, t: Tree, key: Key)
    requires Seeking(c, Nil, key, InOrder(t))
    ensures forall n :: n in Nodes(t) ==> n.key != key
  {
    NotThere(c, key);
    forall n | n in Nodes(t) ensures n.key != key {
      InOrderNodes(t, n);
    }
  }

  /** The search for `key` in the anchored tree `w` has reached subtree `s`. */
  ghost predicate Position(c: seq<Frame>, s: Tree, w: Tree, key: Key) {
    && w.Bin? && |c| >= 1 && c[0] == Enter(w, false) && Plug(c, s) == w
    && Seeking(c, s, key, InOrder(w.l))
    && PathBalanced(c, Height(s)) && Balanced(s)
    && |c| + Height(s) <= MAX_HEIGHT
  }

  lemma PositionTop(w: Tree, key: Key)
    requires w.Bin? && Balanced(w.l) && |InOrder(w.l)| < TOO_MANY
    ensures Position([Enter(w, false)], w.l, w, key)
  {
    assert Plug([Enter(w, false)][..0], w) == w;
    SeekTop(Enter(w, false), w.l, key);
    HeightFits(w.l);
  }

  lemma PositionDown(c: seq<Frame>, s: Tree, w: Tree, key: Key, right: bool)
    requires Position(c, s, w, key) && Ordered(InOrder(w.l)) && s.Bin?
    requires if right then Less(s.n.key, key) else Less(key, s.n.key)
    ensures Position(c + [Enter(s, right)], Child(s, right), w, key)
  {
    assert (c + [Enter(s, right)])[..|c|] == c;
    DownBalanced(c, s, right);
    SeekDown(c, s, key, right, InOrder(w.l));
  }

  /** The way down that comparing with `key` takes. */
  ghost function Way(t: Tree, key: Key): seq<Frame> {
    if t.Nil? || Compare(key, t.n.key) == 0 then []
    else [Enter(t, Compare(key, t.n.key) > 0)] + Way(Child(t, Compare(key, t.n.key) > 0), key)
  }

  /** The subtree it ends at: empty, or rooted at the wanted node. */
  ghost function Goal(t: Tree, key: Key): Tree {
    if t.Nil? || Compare(key, t.n.key) == 0 then t
    else Goal(Child(t, Compare(key, t.n.key) > 0), key)
  }

  lemma {:induction false} GoalKey(t: Tree, key: Key)
    ensures Goal(t, key).Bin? ==> Goal(t, key).n.key == key
  {
    if t.Bin? {
      CompareIsTotal(key, t.n.key);
      if Compare(key, t.n.key) != 0 {
        GoalKey(Child(t, Compare(key, t.n.key) > 0), key);
      }
    }
  }

  lemma WayStep(c: seq<Frame>, s: Tree, key: Key, right: bool)
    requires s.Bin? && Compare(key, s.n.key) != 0 && right == (Compare(key, s.n.key) > 0)
    ensures c + Way(s, key) == c + [Enter(s, right)] + Way(Child(s, right), key)
    ensures Goal(s, key) == Goal(Child(s, right), key)
  {
  }

  lemma {:induction false} WayIsPosition(c: seq<Frame>, s: Tree, w: Tree, key: Key)
    requires Position(c, s, w, key) && Ordered(InOrder(w.l))
    ensures Position(c + Way(s, key), Goal(s, key), w, key)
    decreases s
  {
    if s.Nil? || Compare(key, s.n.key) == 0 {
      assert c + Way(s, key) == c;
    } else {
      var right := Compare(key, s.n.key) > 0;
      CompareIsTotal(key, s.n.key);
      PositionDown(c, s, w, key, right);
      WayStep(c, s, key, right);
      WayIsPosition(c + [Enter(s, right)], Child(s, right), w, key);
    }
  }

  // ---------------------------------------------------------------------------------------------
  // Relinking

  /** Point the last frame's taken link at another subtree. */
  method SetLink(p: Node, right: bool, q: Node?, ghost c: seq<Frame>, ghost hole: Node?, ghost s: Tree)
    requires c != [] && p == c[|c| - 1].n && right == c[|c| - 1].right && q == Root(s)
    requires RepPath(c, hole) && DistinctPath(c, s) && Rep(s)
    modifies p`left, p`right
    ensures At(c, s)
  {
    ghost var n := |c| - 1;
    assert RepFrame(c[n], Below(c, n, hole));
    assert p in FrameNodes(c[n]) && p !in Nodes(s);
    if right {
      p.right := q;
    } else {
      p.left := q;
    }
    forall i | 0 <= i < |c| ensures RepFrame(c[i], Below(c, i, q)) {
      assert old(RepFrame(c[i], Below(c, i, hole)));
      assert i < n ==> FrameNodes(c[i]) !! FrameNodes(c[n]);
    }
    assert Rep(s);
  }

  lemma BalanceDistinct(c: seq<Frame>, i: nat, b: int, s: Tree)
    requires i < |c| && DistinctPath(c, s)
    ensures DistinctPath(c[i := c[i].(b := b)], s)
  {
    var c' := c[i := c[i].(b := b)];
    forall j | 0 <= j < |c| ensures FrameNodes(c'[j]) == FrameNodes(c[j]) && Distinct(c'[j].sib) {
      assert FrameNodes(c[j]) !! Nodes(s);
    }
  }

  /** Change one balance factor on the path. */
  method SetBalance(p: Node, b: int, ghost c: seq<Frame>, ghost i: nat, ghost s: Tree)
    requires i < |c| && p == c[i].n && At(c, s)
    modifies p`bal
    ensures At(c[i := c[i].(b := b)], s)
  {
    ghost var c', hole := c[i := c[i].(b := b)], Root(s);
    BalanceDistinct(c, i, b, s);
    assert RepFrame(c[i], Below(c, i, hole)) && p in FrameNodes(c[i]);
    assert p !in Nodes(s) && p !in Nodes(c[i].sib);
    p.bal := b;
    assert Rep(s) == old(Rep(s)) && Rep(c[i].sib) == old(Rep(c[i].sib));
    forall j | 0 <= j < |c'| ensures RepFrame(c'[j], Below(c', j, hole)) {
      if j != i {
        assert FrameNodes(c[i]) !! FrameNodes(c[j]);
        assert RepFrame(c[j], Below(c, j, hole)) == old(RepFrame(c[j], Below(c, j, hole)));
      }
    }
  }

  lemma SwapContent(c: seq<Frame>, t: Tree, t': Tree)
    requires DistinctPath(c, t) && SameContent(t, t')
    ensures DistinctPath(c, t')
  {
    forall i | 0 <= i < |c| ensures FrameNodes(c[i]) !! Nodes(t') && Distinct(c[i].sib) {
      assert FrameNodes(c[i]) !! Nodes(t);
    }
  }

  /** Relink a rebuilt subtree under its parent, whichever side `y` hung on. */
  method Hang(z: Node, y: Node, w: Node, ghost c: seq<Frame>, ghost t: Tree, ghost t': Tree)
    requires c != [] && z == c[|c| - 1].n && t.Bin? && t.n == y && t'.Bin? && t'.n == w
    requires RepPath(c, y) && DistinctPath(c, t) && Rep(t') && SameContent(t, t')
    modifies z`left, z`right
    ensures At(c, t')
  {
    ghost var n := |c| - 1;
    SwapContent(c, t, t');
    assert RepFrame(c[n], Below(c, n, y)) && FrameNodes(c[n]) !! Nodes(t);
    assert y in Nodes(t) && (c[n].sib.Bin? ==> c[n].sib.n in FrameNodes(c[n])) && z in FrameNodes(c[n]);
    SetLink(z, y != z.left, w, c, y, t');
  }

  /** A tree taken apart along a path and put together again. */
  lemma Reassemble(c: seq<Frame>, t: Tree, anchor: Node)
    requires At(c, t) && |c| >= 1 && c[0] == Frame(anchor, false, 0, Nil)
    requires Balanced(t) && PathBalanced(c, Height(t)) && Ordered(Span(c, t))
    ensures Plug(c, t).Bin? && Plug(c, t) == Bin(Plug(c, t).l, anchor, 0, Nil)
    ensures Rep(Plug(c, t)) && Distinct(Plug(c, t)) && Balanced(Plug(c, t).l)
    ensures InOrder(Plug(c, t).l) == Span(c, t)
  {
    PlugWhole(c, t);
    PlugSpan(c, t);
    PlugBalanced(c, t);
  }
}
