/**
 AVL trees as values, and how linked nodes represent them. A position in a tree is a zipper: the frames
 passed on the way down, each with its untouched sibling subtree.
 */
module AvlModel {
  import opened Keys

  class Node {
    const key: Key
    var left: Node?
    var right: Node?
    var bal: int

    constructor (key: Key)
      ensures this.key == key && left == null && right == null && bal == 0
    {
      this.key := key;
      left, right, bal := null, null, 0;
    }
  }

  datatype Tree = Nil | Bin(l: Tree, n: Node, b: int, r: Tree)

  function Root(t: Tree): Node? {
    if t.Nil? then null else t.n
  }

  ghost function Nodes(t: Tree): set<Node> {
    if t.Nil? then {} else Nodes(t.l) + {t.n} + Nodes(t.r)
  }

  ghost function InOrder(t: Tree): seq<Node> {
    if t.Nil? then [] else InOrder(t.l) + [t.n] + InOrder(t.r)
  }

  ghost function Height(t: Tree): nat {
    if t.Nil? then 0 else 1 + Max(Height(t.l), Height(t.r))
  }

  function Max(a: nat, b: nat): nat {
    if a > b then a else b
  }

  /** No node occurs twice. */
  ghost predicate Distinct(t: Tree) {
    t.Bin? ==>
      && Distinct(t.l) && Distinct(t.r)
      && t.n !in Nodes(t.l) && t.n !in Nodes(t.r)
      && Nodes(t.l) !! Nodes(t.r)
  }

  /** Every balance factor is the exact height difference and lies in -1..1. */
  ghost predicate Balanced(t: Tree) {
    t.Bin? ==> Balanced(t.l) && Balanced(t.r) && t.b == Height(t.r) - Height(t.l) && -1 <= t.b <= 1
  }

  ghost predicate Ordered(s: seq<Node>) {
    forall i, j :: 0 <= i < j < |s| ==> Less(s[i].key, s[j].key)
  }

  /** The nodes reachable from Root(t) are linked as `t` says. */
  ghost predicate Rep(t: Tree)
    reads Nodes(t)
  {
    t.Bin? ==>
      && t.n.left == Root(t.l) && t.n.right == Root(t.r) && t.n.bal == t.b
      && Rep(t.l) && Rep(t.r)
  }

  // ---------------------------------------------------------------------------------------------
  // Zippers

  /** A passed node: the direction taken, its balance factor and the subtree not entered. */
  datatype Frame = Frame(n: Node, right: bool, b: int, sib: Tree)

  ghost function FrameNodes(f: Frame): set<Node> {
    {f.n} + Nodes(f.sib)
  }

  ghost function PathNodes(c: seq<Frame>): set<Node> {
    set i, x | 0 <= i < |c| && x in FrameNodes(c[i]) :: x
  }

  function Join(f: Frame, s: Tree): Tree {
    if f.right then Bin(f.sib, f.n, f.b, s) else Bin(s, f.n, f.b, f.sib)
  }

  function Plug(c: seq<Frame>, s: Tree): Tree {
    if c == [] then s else Plug(c[..|c| - 1], Join(c[|c| - 1], s))
  }

  /** The node a frame's taken link points to. */
  function Below(c: seq<Frame>, i: int, hole: Node?): Node?
    requires 0 <= i < |c|
  {
    if i + 1 < |c| then c[i + 1].n else hole
  }

  ghost predicate RepFrame(f: Frame, below: Node?)
    reads FrameNodes(f)
  {
    && f.n.bal == f.b && Rep(f.sib)
    && (if f.right then f.n.left == Root(f.sib) && f.n.right == below
        else f.n.left == below && f.n.right == Root(f.sib))
  }

  ghost predicate RepPath(c: seq<Frame>, hole: Node?)
    reads PathNodes(c)
  {
    forall i {:trigger Below(c, i, hole)} :: 0 <= i < |c| ==> RepFrame(c[i], Below(c, i, hole))
  }

  ghost predicate DistinctPath(c: seq<Frame>, s: Tree) {
    && Distinct(s)
    && (forall i {:trigger FrameNodes(c[i])} :: 0 <= i < |c| ==>
          Distinct(c[i].sib) && c[i].n !in Nodes(c[i].sib) && FrameNodes(c[i]) !! Nodes(s))
    && (forall i, j {:trigger FrameNodes(c[i]), FrameNodes(c[j])} :: 0 <= i < j < |c| ==>
          FrameNodes(c[i]) !! FrameNodes(c[j]))
  }

  /** A zipper over linked nodes. */
  ghost predicate At(c: seq<Frame>, s: Tree)
    reads PathNodes(c), Nodes(s)
  {
    RepPath(c, Root(s)) && Rep(s) && DistinctPath(c, s)
  }

  lemma {:induction false} NodesAllocated(t: Tree)
    ensures forall x :: x in Nodes(t) ==> allocated(x)
  {
    if t.Bin? {
      NodesAllocated(t.l);
      NodesAllocated(t.r);
    }
  }

  lemma PathAllocated(c: seq<Frame>)
    ensures forall x :: x in PathNodes(c) ==> allocated(x)
  {
    forall i | 0 <= i < |c| ensures forall x :: x in FrameNodes(c[i]) ==> allocated(x) {
      NodesAllocated(c[i].sib);
    }
  }

  lemma PathApart(c: seq<Frame>, s: Tree)
    requires DistinctPath(c, s)
    ensures PathNodes(c) !! Nodes(s)
  {
    forall x | x in PathNodes(c) ensures x !in Nodes(s) {
      var i :| 0 <= i < |c| && x in FrameNodes(c[i]);
    }
  }

  lemma PathHeads(c: seq<Frame>, nodes: set<Node>)
    requires PathNodes(c) <= nodes
    ensures forall i :: 0 <= i < |c| ==> c[i].n in nodes
  {
    forall i | 0 <= i < |c| ensures c[i].n in nodes {
      assert c[i].n in FrameNodes(c[i]);
    }
  }

  /** Entering a child. */
  function Enter(t: Tree, right: bool): Frame
    requires t.Bin?
  {
    Frame(t.n, right, t.b, if right then t.l else t.r)
  }

  function Child(t: Tree, right: bool): Tree
    requires t.Bin?
  {
    if right then t.r else t.l
  }

  lemma DownDistinct(c: seq<Frame>, s: Tree, right: bool)
    requires s.Bin? && DistinctPath(c, s)
    ensures DistinctPath(c + [Enter(s, right)], Child(s, right))
  {
    var c' := c + [Enter(s, right)];
    assert FrameNodes(c'[|c|]) <= Nodes(s) && FrameNodes(c'[|c|]) !! Nodes(Child(s, right));
    forall i | 0 <= i < |c| ensures c'[i] == c[i] && FrameNodes(c[i]) !! Nodes(s) {}
  }

  lemma Down(c: seq<Frame>, s: Tree, right: bool)
    requires s.Bin? && At(c, s)
    ensures At(c + [Enter(s, right)], Child(s, right))
    ensures Plug(c + [Enter(s, right)], Child(s, right)) == Plug(c, s)
  {
    var c' := c + [Enter(s, right)];
    assert c'[..|c|] == c;
    DownDistinct(c, s, right);
    assert forall i :: 0 <= i < |c| ==> c'[i] == c[i] && Below(c', i, Root(Child(s, right))) == Below(c, i, Root(s));
  }

  lemma JoinDistinct(f: Frame, s: Tree)
    requires Distinct(s) && Distinct(f.sib) && f.n !in Nodes(f.sib) && FrameNodes(f) !! Nodes(s)
    ensures Distinct(Join(f, s)) && Nodes(Join(f, s)) == FrameNodes(f) + Nodes(s)
  {
    assert f.n in FrameNodes(f);
  }

  lemma UpDistinct(c: seq<Frame>, s: Tree)
    requires c != [] && DistinctPath(c, s)
    ensures DistinctPath(c[..|c| - 1], Join(c[|c| - 1], s))
  {
    var n := |c| - 1;
    assert FrameNodes(c[n]) !! Nodes(s);
    JoinDistinct(c[n], s);
    forall i | 0 <= i < n ensures c[..n][i] == c[i] && FrameNodes(c[i]) !! Nodes(Join(c[n], s)) {}
  }

  lemma UpRep(c: seq<Frame>, s: Tree)
    requires c != [] && RepPath(c, Root(s)) && Rep(s)
    ensures RepPath(c[..|c| - 1], c[|c| - 1].n) && Rep(Join(c[|c| - 1], s))
  {
    var n := |c| - 1;
    assert RepFrame(c[n], Below(c, n, Root(s)));
    forall i | 0 <= i < n ensures RepFrame(c[..n][i], Below(c[..n], i, c[n].n)) {
      assert RepFrame(c[i], Below(c, i, Root(s)));
    }
  }

  lemma Up(c: seq<Frame>, s: Tree)
    requires c != [] && At(c, s)
    ensures At(c[..|c| - 1], Join(c[|c| - 1], s))
    ensures Plug(c, s) == Plug(c[..|c| - 1], Join(c[|c| - 1], s))
  {
    UpDistinct(c, s);
    UpRep(c, s);
  }

  lemma {:induction false} PlugWhole(c: seq<Frame>, s: Tree)
    requires At(c, s)
    ensures Rep(Plug(c, s)) && Distinct(Plug(c, s))
    decreases |c|
  {
    if c != [] {
      Up(c, s);
      PlugWhole(c[..|c| - 1], Join(c[|c| - 1], s));
    }
  }

  lemma {:induction false} PlugParts(c: seq<Frame>, s: Tree)
    requires Rep(Plug(c, s))
    ensures Rep(s)
    decreases |c|
  {
    if c != [] {
      PlugParts(c[..|c| - 1], Join(c[|c| - 1], s));
    }
  }

  /** Every position in a linked tree is a zipper over its nodes. */
  lemma {:induction false} Unplug(c: seq<Frame>, s: Tree)
    requires Rep(Plug(c, s)) && Distinct(Plug(c, s))
    ensures At(c, s)
    decreases |c|
  {
    if c != [] {
      var n := |c| - 1;
      Unplug(c[..n], Join(c[n], s));
      Down(c[..n], Join(c[n], s), c[n].right);
      assert c == c[..n] + [c[n]];
    }
  }

  lemma PathSplit(c: seq<Frame>)
    requires c != []
    ensures PathNodes(c) == PathNodes(c[..|c| - 1]) + FrameNodes(c[|c| - 1])
  {
  }

  lemma JoinNodes(f: Frame, s: Tree)
    ensures Nodes(Join(f, s)) == FrameNodes(f) + Nodes(s)
  {
  }

  lemma {:induction false} PlugNodes(c: seq<Frame>, s: Tree)
    ensures Nodes(Plug(c, s)) == PathNodes(c) + Nodes(s)
    decreases |c|
  {
    if c != [] {
      var n := |c| - 1;
      PlugNodes(c[..n], Join(c[n], s));
      JoinNodes(c[n], s);
      PathSplit(c);
    }
  }

  // ---------------------------------------------------------------------------------------------
  // Order. The first frame is the tree's anchor, whose left link is the root pointer.

  ghost function Before(c: seq<Frame>): seq<Node> {
    if |c| <= 1 then []
    else
      var f := c[|c| - 1];
      Before(c[..|c| - 1]) + if f.right then InOrder(f.sib) + [f.n] else []
  }

  ghost function After(c: seq<Frame>): seq<Node> {
    if |c| <= 1 then []
    else
      var f := c[|c| - 1];
      (if f.right then [] else [f.n] + InOrder(f.sib)) + After(c[..|c| - 1])
  }

  /** The in-order sequence of the whole tree, seen from a position in it. */
  ghost function Span(c: seq<Frame>, s: Tree): seq<Node> {
    Before(c) + InOrder(s) + After(c)
  }

  /** A path does not see which tree fills its hole, only the nodes it holds in order. */
  lemma SameSpan(c: seq<Frame>, t: Tree, t': Tree)
    requires InOrder(t) == InOrder(t')
    ensures Span(c, t) == Span(c, t')
  {
  }

  lemma UpSpan(c: seq<Frame>, s: Tree)
    requires |c| > 1
    ensures Span(c[..|c| - 1], Join(c[|c| - 1], s)) == Span(c, s)
  {
  }

  lemma DownSides(c: seq<Frame>, s: Tree, right: bool)
    requires |c| >= 1 && s.Bin?
    ensures Before(c + [Enter(s, right)]) == Before(c) + if right then InOrder(s.l) + [s.n] else []
    ensures After(c + [Enter(s, right)]) == (if right then [] else [s.n] + InOrder(s.r)) + After(c)
  {
    assert (c + [Enter(s, right)])[..|c|] == c;
  }

  lemma DownSpan(c: seq<Frame>, s: Tree, right: bool)
    requires |c| >= 1 && s.Bin?
    ensures Span(c + [Enter(s, right)], Child(s, right)) == Span(c, s)
  {
    UpSpan(c + [Enter(s, right)], Child(s, right));
    assert (c + [Enter(s, right)])[..|c|] == c;
  }

  lemma {:induction false} PlugSpan(c: seq<Frame>, s: Tree)
    requires |c| >= 1 && !c[0].right
    ensures Plug(c, s).Bin? && Plug(c, s).n == c[0].n && Plug(c, s).r == c[0].sib && Plug(c, s).b == c[0].b
    ensures InOrder(Plug(c, s).l) == Span(c, s)
    decreases |c|
  {
    var n := |c| - 1;
    if n == 0 {
      assert c[..0] == [];
      assert Plug(c[..0], Join(c[0], s)) == Join(c[0], s);
    } else {
      PlugSpan(c[..n], Join(c[n], s));
      UpSpan(c, s);
    }
  }

  // ---------------------------------------------------------------------------------------------
  // Balance

  /** Every frame is balanced when the subtree below it has height `h`. */
  ghost predicate PathBalanced(c: seq<Frame>, h: nat) {
    |c| <= 1 || (FrameBalanced(c[|c| - 1], h) && PathBalanced(c[..|c| - 1], FrameHeight(c[|c| - 1], h)))
  }

  ghost predicate FrameBalanced(f: Frame, h: nat) {
    && Balanced(f.sib) && -1 <= f.b <= 1
    && f.b == (if f.right then h - Height(f.sib) else Height(f.sib) - h)
  }

  ghost function FrameHeight(f: Frame, h: nat): nat {
    1 + Max(h, Height(f.sib))
  }

  lemma PushBalanced(c: seq<Frame>, f: Frame, h: nat)
    requires |c| >= 1 && FrameBalanced(f, h) && PathBalanced(c, FrameHeight(f, h))
    ensures PathBalanced(c + [f], h)
  {
    assert (c + [f])[..|c|] == c;
  }

  lemma EnterBalanced(s: Tree, right: bool)
    requires s.Bin? && Balanced(s)
    ensures Balanced(Child(s, right)) && FrameBalanced(Enter(s, right), Height(Child(s, right)))
    ensures FrameHeight(Enter(s, right), Height(Child(s, right))) == Height(s)
  {
  }

  lemma JoinBalanced(f: Frame, s: Tree)
    requires Balanced(s) && FrameBalanced(f, Height(s))
    ensures Balanced(Join(f, s)) && Height(Join(f, s)) == FrameHeight(f, Height(s))
  {
  }

  lemma DownBalanced(c: seq<Frame>, s: Tree, right: bool)
    requires |c| >= 1 && s.Bin? && Balanced(s) && PathBalanced(c, Height(s))
    ensures Balanced(Child(s, right)) && PathBalanced(c + [Enter(s, right)], Height(Child(s, right)))
  {
    EnterBalanced(s, right);
    PushBalanced(c, Enter(s, right), Height(Child(s, right)));
  }

  lemma {:induction false} PlugBalanced(c: seq<Frame>, s: Tree)
    requires |c| >= 1 && !c[0].right && Balanced(s) && PathBalanced(c, Height(s))
    ensures Plug(c, s).Bin? && Balanced(Plug(c, s).l)
    decreases |c|
  {
    var n := |c| - 1;
    if n == 0 {
      assert c[..0] == [];
      assert Plug(c[..0], Join(c[0], s)) == Join(c[0], s);
    } else {
      JoinBalanced(c[n], s);
      PlugBalanced(c[..n], Join(c[n], s));
    }
  }

  // ---------------------------------------------------------------------------------------------
  // Height

  /** Entries of the path arrays: AVL_MAX_HEIGHT. */
  const MAX_HEIGHT: nat := 92

  /** More nodes than a 64-bit address space can hold. */
  const TOO_MANY: nat := 0x1_0000_0000_0000_0000

  /** The fewest nodes in balanced trees of heights `h` and `h + 1`: one less than Fibonacci numbers. */
  function Fewest(h: nat): (nat, nat) {
    if h == 0 then (0, 1) else (Fewest(h - 1).1, Fewest(h - 1).0 + Fewest(h - 1).1 + 1)
  }

  lemma {:induction false} FewestGrows(h: nat, g: nat)
    requires h <= g
    ensures Fewest(h).0 <= Fewest(g).0 <= Fewest(g).1
  {
    if h < g {
      FewestGrows(h, g - 1);
    } else if h > 0 {
      FewestGrows(h - 1, h - 1);
    }
  }

  /** Two subtrees whose heights differ by at most one hold enough for the next height. */
  lemma FullStep(l: nat, r: nat)
    requires l <= r + 1 && r <= l + 1
    ensures Fewest(1 + Max(l, r)).0 <= Fewest(l).0 + Fewest(r).0 + 1
  {
    var h := Max(l, r);
    if h > 0 {
      FewestGrows(h - 1, l);
      FewestGrows(h - 1, r);
    }
  }

  lemma {:induction false} BalancedIsFull(t: Tree)
    requires Balanced(t)
    ensures |InOrder(t)| >= Fewest(Height(t)).0
  {
    if t.Bin? {
      BalancedIsFull(t.l);
      BalancedIsFull(t.r);
      FullStep(Height(t.l), Height(t.r));
    }
  }

  lemma TenLevels(h: nat)
    ensures Fewest(h + 10).0 == 34 * Fewest(h).0 + 55 * Fewest(h).1 + 88
    ensures Fewest(h + 10).1 == 55 * Fewest(h).0 + 89 * Fewest(h).1 + 143
  {
    assert Fewest(h + 2).0 == Fewest(h).0 + Fewest(h).1 + 1 && Fewest(h + 2).1 == Fewest(h).0 + 2 * Fewest(h).1 + 2;
    assert Fewest(h + 4).0 == Fewest(h + 2).0 + Fewest(h + 2).1 + 1;
    assert Fewest(h + 4).1 == Fewest(h + 2).0 + 2 * Fewest(h + 2).1 + 2;
    assert Fewest(h + 6).0 == Fewest(h + 4).0 + Fewest(h + 4).1 + 1;
    assert Fewest(h + 6).1 == Fewest(h + 4).0 + 2 * Fewest(h + 4).1 + 2;
    assert Fewest(h + 8).0 == Fewest(h + 6).0 + Fewest(h + 6).1 + 1;
    assert Fewest(h + 8).1 == Fewest(h + 6).0 + 2 * Fewest(h + 6).1 + 2;
  }

  lemma NinetyTwoLevels(h: nat)
    requires Fewest(h) == (0, 1)
    ensures Fewest(h + 92).0 == 19740274219868223166
  {
    TenLevels(h);
    TenLevels(h + 10);
    TenLevels(h + 20);
    TenLevels(h + 30);
    TenLevels(h + 40);
    TenLevels(h + 50);
    TenLevels(h + 60);
    TenLevels(h + 70);
    TenLevels(h + 80);
  }

  lemma TallIsHuge(t: Tree, h: nat)
    requires Fewest(h) == (0, 1) && Balanced(t) && Height(t) >= h + 92
    ensures |InOrder(t)| >= TOO_MANY
  {
    BalancedIsFull(t);
    FewestGrows(h + 92, Height(t));
    NinetyTwoLevels(h);
  }

  /** A balanced tree that fits in memory leaves one spare entry in the path arrays. */
  lemma HeightFits(t: Tree)
    requires Balanced(t) && |InOrder(t)| < TOO_MANY
    ensures Height(t) < MAX_HEIGHT
  {
    if Height(t) >= MAX_HEIGHT {
      TallIsHuge(t, 0);
    }
  }
}
