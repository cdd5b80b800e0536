/** Rotations: the four link patterns of avl_insert and avl_remove, and what they do to a tree as a value. */
module AvlRotations {
  import opened AvlModel

  // ---------------------------------------------------------------------------------------------
  // As values

  ghost function Single(t: Tree, left: bool, xb: int, yb: int): Tree
    requires t.Bin? && Child(t, !left).Bin?
  {
    if left then Bin(t.l.l, t.l.n, xb, Bin(t.l.r, t.n, yb, t.r))
    else Bin(Bin(t.l, t.n, yb, t.r.l), t.r.n, xb, t.r.r)
  }

  ghost function Double(t: Tree, left: bool, xb: int, wb: int, yb: int): Tree
    requires t.Bin? && Child(t, !left).Bin? && Child(Child(t, !left), left).Bin?
  {
    if left then
      var x, w := t.l, t.l.r;
      Bin(Bin(x.l, x.n, xb, w.l), w.n, wb, Bin(w.r, t.n, yb, t.r))
    else
      var x, w := t.r, t.r.l;
      Bin(Bin(t.l, t.n, yb, w.l), w.n, wb, Bin(w.r, x.n, xb, x.r))
  }

  /** Same nodes, each once, in the same order. */
  ghost predicate SameContent(t: Tree, t': Tree) {
    Distinct(t') && Nodes(t') == Nodes(t) && InOrder(t') == InOrder(t)
  }

  lemma SingleKeepsContent(t: Tree, left: bool, xb: int, yb: int)
    requires t.Bin? && Child(t, !left).Bin? && Distinct(t)
    ensures SameContent(t, Single(t, left, xb, yb))
  {
  }

  lemma DoubleKeepsContent(t: Tree, left: bool, xb: int, wb: int, yb: int)
    requires t.Bin? && Child(t, !left).Bin? && Child(Child(t, !left), left).Bin? && Distinct(t)
    ensures SameContent(t, Double(t, left, xb, wb, yb))
  {
    if left {
      var l := Single(t.l, false, wb, xb);
      SingleKeepsContent(t.l, false, wb, xb);
      SingleKeepsContent(Bin(l, t.n, t.b, t.r), true, wb, yb);
    } else {
      var r := Single(t.r, true, wb, xb);
      SingleKeepsContent(t.r, true, wb, xb);
      SingleKeepsContent(Bin(t.l, t.n, t.b, r), false, wb, yb);
    }
  }

  /** A node whose left (or right) subtree is two levels taller, both subtrees being balanced. */
  ghost predicate Leaning(t: Tree, left: bool) {
    && t.Bin? && Balanced(t.l) && Balanced(t.r)
    && Height(Child(t, !left)) == Height(Child(t, left)) + 2
  }

  /** The tall child leans inwards: its inner subtree has to become the new root. */
  function Inward(left: bool): int {
    if left then 1 else -1
  }

  lemma LeaningShape(t: Tree, left: bool)
    requires Leaning(t, left)
    ensures Child(t, !left).Bin?
    ensures -1 <= Child(t, !left).b <= 1
    ensures Child(t, !left).b == Inward(left) ==>
              Child(Child(t, !left), left).Bin? && -1 <= Child(Child(t, !left), left).b <= 1
  {
    assert Child(t, !left).Bin? && Balanced(Child(Child(t, !left), left));
  }

  /** The single rotation restores balance unless the tall child leans inwards. */
  lemma SingleBalances(t: Tree, left: bool)
    requires Leaning(t, left) && Child(t, !left).Bin? && Child(t, !left).b != Inward(left)
    ensures Child(t, !left).b != 0 ==>
              && Balanced(Single(t, left, 0, 0)) && Height(Single(t, left, 0, 0)) == Height(t) - 1
    ensures Child(t, !left).b == 0 ==>
              && Balanced(Single(t, left, Inward(left), -Inward(left)))
              && Height(Single(t, left, Inward(left), -Inward(left))) == Height(t)
  {
  }

  ghost function Doubled(t: Tree, left: bool): Tree
    requires t.Bin? && Child(t, !left).Bin? && Child(Child(t, !left), left).Bin?
  {
    var b := Child(Child(t, !left), left).b;
    Double(t, left, if b == Inward(left) then -b else 0, 0, if b == -Inward(left) then -b else 0)
  }

  lemma DoubleBalances(t: Tree, left: bool)
    requires Leaning(t, left) && Child(t, !left).Bin? && Child(Child(t, !left), left).Bin?
    requires Child(t, !left).b == Inward(left)
    ensures Balanced(Doubled(t, left)) && Height(Doubled(t, left)) == Height(t) - 1
  {
    var x := Child(t, !left);
    var w := Child(x, left);
    assert Balanced(w) && Height(w) == Height(Child(t, left)) + 1 && Height(Child(x, !left)) == Height(Child(t, left));
    assert Balanced(w.l) && Balanced(w.r);
    assert Balanced(Doubled(t, left).l) && Balanced(Doubled(t, left).r);
  }

  /** A subtree rebuilt from the same nodes, balanced and one level lower. */
  ghost predicate Rebuilt(t: Tree, t': Tree) {
    t'.Bin? && SameContent(t, t') && Balanced(t') && Height(t') == Height(t) - 1
  }

  lemma SingleRebuilds(t: Tree, left: bool)
    requires Leaning(t, left) && Distinct(t) && Child(t, !left).Bin? && Child(t, !left).b == -Inward(left)
    ensures Rebuilt(t, Single(t, left, 0, 0))
  {
    SingleBalances(t, left);
    SingleKeepsContent(t, left, 0, 0);
  }

  lemma DoubleRebuilds(t: Tree, left: bool)
    requires Leaning(t, left) && Distinct(t) && Child(t, !left).Bin? && Child(t, !left).b == Inward(left)
    ensures Child(Child(t, !left), left).Bin? && Rebuilt(t, Doubled(t, left))
  {
    LeaningShape(t, left);
    DoubleBalances(t, left);
    var b := Child(Child(t, !left), left).b;
    DoubleKeepsContent(t, left, if b == Inward(left) then -b else 0, 0, if b == -Inward(left) then -b else 0);
  }

  // ---------------------------------------------------------------------------------------------
  // As links

  method SingleLeft(y: Node, ghost t: Tree) returns (x: Node)
    requires t.Bin? && t.n == y && t.l.Bin? && Rep(t) && Distinct(t)
    modifies y`left, t.l.n`right
    ensures x == t.l.n && Rep(Single(t, true, t.l.b, t.b))
  {
    x := y.left;
    y.left := x.right;
    x.right := y;
  }

  method SingleRight(y: Node, ghost t: Tree) returns (x: Node)
    requires t.Bin? && t.n == y && t.r.Bin? && Rep(t) && Distinct(t)
    modifies y`right, t.r.n`left
    ensures x == t.r.n && Rep(Single(t, false, t.r.b, t.b))
  {
    x := y.right;
    y.right := x.left;
    x.left := y;
  }

  method DoubleLeft(y: Node, ghost t: Tree) returns (x: Node, w: Node)
    requires t.Bin? && t.n == y && t.l.Bin? && t.l.r.Bin? && Rep(t) && Distinct(t)
    modifies y`left, t.l.n`right, t.l.r.n`left, t.l.r.n`right
    ensures x == t.l.n && w == t.l.r.n && Rep(Double(t, true, t.l.b, t.l.r.b, t.b))
  {
    assert Rep(t.l.r) && Distinct(t.l.r);
    x := y.left;
    w := x.right;
    assert Nodes(t.l.r) == Nodes(t.l.r.l) + {w} + Nodes(t.l.r.r);
    x.right := w.left;
    w.left := x;
    y.left := w.right;
    w.right := y;
    assert Rep(Double(t, true, t.l.b, t.l.r.b, t.b).l) && Rep(Double(t, true, t.l.b, t.l.r.b, t.b).r);
  }

  method DoubleRight(y: Node, ghost t: Tree) returns (x: Node, w: Node)
    requires t.Bin? && t.n == y && t.r.Bin? && t.r.l.Bin? && Rep(t) && Distinct(t)
    modifies y`right, t.r.n`left, t.r.l.n`left, t.r.l.n`right
    ensures x == t.r.n && w == t.r.l.n && Rep(Double(t, false, t.r.b, t.r.l.b, t.b))
  {
    assert Rep(t.r.l) && Distinct(t.r.l);
    x := y.right;
    w := x.left;
    assert Nodes(t.r.l) == Nodes(t.r.l.l) + {w} + Nodes(t.r.l.r);
    x.left := w.right;
    w.right := x;
    y.right := w.left;
    w.left := y;
    assert Rep(Double(t, false, t.r.b, t.r.l.b, t.b).l) && Rep(Double(t, false, t.r.b, t.r.l.b, t.b).r);
  }

  method FixSingleLeft(y: Node, ghost t: Tree, xb: int, yb: int) returns (x: Node)
    requires t.Bin? && t.n == y && t.l.Bin? && Rep(t) && Distinct(t)
    modifies y, t.l.n
    ensures x == t.l.n && Rep(Single(t, true, xb, yb))
  {
    SingleKeepsContent(t, true, t.l.b, t.b);
    x := SingleLeft(y, t);
    x.bal, y.bal := xb, yb;
    assert Rep(Single(t, true, xb, yb).r);
  }

  method FixSingleRight(y: Node, ghost t: Tree, xb: int, yb: int) returns (x: Node)
    requires t.Bin? && t.n == y && t.r.Bin? && Rep(t) && Distinct(t)
    modifies y, t.r.n
    ensures x == t.r.n && Rep(Single(t, false, xb, yb))
  {
    SingleKeepsContent(t, false, t.r.b, t.b);
    x := SingleRight(y, t);
    x.bal, y.bal := xb, yb;
    assert Rep(Single(t, false, xb, yb).l);
  }

  /** The double rotation together with its balance updates, as avl_insert and avl_remove both do it. */
  method FixDoubleLeft(y: Node, ghost t: Tree) returns (w: Node)
    requires t.Bin? && t.n == y && t.l.Bin? && t.l.r.Bin? && Rep(t) && Distinct(t)
    requires -1 <= t.l.r.b <= 1
    modifies y, t.l.n, t.l.r.n
    ensures w == t.l.r.n && Rep(Doubled(t, true))
  {
    var x;
    DoubleKeepsContent(t, true, t.l.b, t.l.r.b, t.b);
    x, w := DoubleLeft(y, t);
    if w.bal == -1 {
      x.bal, y.bal := 0, 1;
    } else if w.bal == 0 {
      x.bal, y.bal := 0, 0;
    } else {
      x.bal, y.bal := -1, 0;
    }
    w.bal := 0;
    assert Rep(Doubled(t, true).l) && Rep(Doubled(t, true).r);
  }

  method FixDoubleRight(y: Node, ghost t: Tree) returns (w: Node)
    requires t.Bin? && t.n == y && t.r.Bin? && t.r.l.Bin? && Rep(t) && Distinct(t)
    requires -1 <= t.r.l.b <= 1
    modifies y, t.r.n, t.r.l.n
    ensures w == t.r.l.n && Rep(Doubled(t, false))
  {
    var x;
    DoubleKeepsContent(t, false, t.r.b, t.r.l.b, t.b);
    x, w := DoubleRight(y, t);
    if w.bal == 1 {
      x.bal, y.bal := 0, -1;
    } else if w.bal == 0 {
      x.bal, y.bal := 0, 0;
    } else {
      x.bal, y.bal := 1, 0;
    }
    w.bal := 0;
    assert Rep(Doubled(t, false).l) && Rep(Doubled(t, false).r);
  }
}
