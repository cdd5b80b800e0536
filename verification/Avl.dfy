/** The iterative AVL tree: search, insertion, removal, traversal and intersection on linked nodes. */
module Avl {
  import opened Keys
  import opened AvlModel
  import opened AvlSearch
  import opened AvlInsertion
  import opened AvlRemoval

  class AvlTree {
    /** Stands for the address of the root field seen as a node: its left link is the root pointer. */
    const anchor: Node
    ghost var t: Tree

    ghost function Whole(): Tree
      reads this
    {
      Bin(t, anchor, 0, Nil)
    }

    ghost predicate Valid()
      reads this, Nodes(Whole())
    {
      Rep(Whole()) && Distinct(Whole()) && Balanced(t) && Ordered(InOrder(t))
    }

    /** avl_init */
    constructor ()
      ensures Valid() && fresh(anchor) && t == Nil
    {
      anchor := new Node(Num(0));
      t := Nil;
      new;
      assert Rep(Nil);
    }

    /** avl_search: the node with the wanted key, exactly when there is one. */
    method Search(key: Key) returns (p: Node?)
      requires Valid()
      ensures p != null ==> p in Nodes(t) && p.key == key
      ensures p == null ==> forall n :: n in Nodes(t) ==> n.key != key
    {
      ghost var c, s := [Enter(Whole(), false)], t;
      SeekTop(Enter(Whole(), false), t, key);
      p := anchor.left;
      while p != null
        invariant p == Root(s) && Rep(s)
        invariant Seeking(c, s, key, InOrder(t))
        decreases s
      {
        var cmp := Compare(key, p.key);
        CompareIsTotal(key, p.key);
        if cmp == 0 {
          SeekFound(c, s, key, InOrder(t));
          InOrderNodes(t, p);
          return;
        }
        SeekDown(c, s, key, cmp > 0, InOrder(t));
        c, s := c + [Enter(s, cmp > 0)], Child(s, cmp > 0);
        p := if cmp < 0 then p.left else p.right;
      }
      Absent(c, t, key);
    }

    /**
     The first loop of avl_insert. `y` is the last passed node with a nonzero balance factor, `z` its
     parent, and `da` caches the directions taken from `y` on.
     */
    method Descend(item: Node, da: array<bool>, ghost way: seq<Frame>, ghost goal: Tree)
      returns (p: Node?, q: Node, z: Node, y: Node?, dir: bool, k: nat, ghost m: nat)
      requires Rep(t) && anchor.left == Root(t) && goal == Goal(t, item.key)
      requires way == [Enter(Whole(), false)] + Way(t, item.key) && |way| <= MAX_HEIGHT == da.Length
      modifies da
      ensures p == Root(goal)
      ensures Trail(way, m, da[..]) && z == way[m - 1].n && y == (if m < |way| then way[m].n else p)
      ensures q == way[|way| - 1].n && dir == way[|way| - 1].right
    {
      ghost var c, s := [Enter(Whole(), false)], t;
      m := 1;
      z, y, dir, k := anchor, anchor.left, false, 0;
      q, p := z, y;
      while p != null
        invariant Rep(s) && p == Root(s)
        invariant |c| >= 1 && c + Way(s, item.key) == way && Goal(s, item.key) == goal
        invariant Trail(c, m, da[..]) && z == c[m - 1].n && y == (if m < |c| then c[m].n else p)
        invariant q == c[|c| - 1].n && dir == c[|c| - 1].right && k == |c| - m
        decreases s
      {
        var cmp := Compare(item.key, p.key);
        if cmp == 0 {
          break;
        }
        dir := cmp > 0;
        TrailStep(c, m, da[..], Enter(s, dir), if p.bal != 0 then |c| else m);
        if p.bal != 0 {
          z, y, k := q, p, 0;
          m := |c|;
        }
        WayStep(c, s, item.key, dir);
        ghost var below: set<object> := Nodes(Child(s, dir));
        assert Rep(Child(s, dir)) && da !in below;
        da[k] := dir;
        k := k + 1;
        c, s := c + [Enter(s, dir)], Child(s, dir);
        q, p := p, if dir then p.right else p.left;
      }
    }

    lemma WayInTree(key: Key)
      requires Valid() && |InOrder(t)| < TOO_MANY
      ensures Position([Enter(Whole(), false)] + Way(t, key), Goal(t, key), Whole(), key)
      ensures At([Enter(Whole(), false)] + Way(t, key), Goal(t, key))
    {
      PositionTop(Whole(), key);
      WayIsPosition([Enter(Whole(), false)], t, Whole(), key);
      Unplug([Enter(Whole(), false)] + Way(t, key), Goal(t, key));
    }

    /** Descending changes nothing but the fresh direction cache. */
    method Locate(item: Node)
      returns (p: Node?, q: Node, z: Node, y: Node?, dir: bool, da: array<bool>, ghost way: seq<Frame>, ghost m: nat)
      requires Valid() && |InOrder(t)| < TOO_MANY
      ensures Valid() && fresh(da) && p == Root(Goal(t, item.key))
      ensures Position(way, Goal(t, item.key), Whole(), item.key) && At(way, Goal(t, item.key))
      ensures Trail(way, m, da[..]) && z == way[m - 1].n && y == (if m < |way| then way[m].n else p)
      ensures q == way[|way| - 1].n && dir == way[|way| - 1].right
    {
      var k;
      NodesAllocated(Whole());
      da := new bool[MAX_HEIGHT];
      assert Rep(Whole()) == old(Rep(Whole()));
      way := [Enter(Whole(), false)] + Way(t, item.key);
      WayInTree(item.key);
      p, q, z, y, dir, k, m := Descend(item, da, way, Goal(t, item.key));
      assert Rep(Whole()) == old(Rep(Whole()));
      WayInTree(item.key);
    }

    /** The insertion proper, at the empty place the search ended at. */
    method InsertAt(
      item: Node, q: Node, z: Node, y: Node?, dir: bool, da: array<bool>, ghost way: seq<Frame>, ghost m: nat)
      requires Ordered(InOrder(t)) && Position(way, Nil, Whole(), item.key) && At(way, Nil)
      requires item !in Nodes(Whole())
      requires Trail(way, m, da[..]) && z == way[m - 1].n && y == (if m < |way| then way[m].n else null)
      requires q == way[|way| - 1].n && dir == way[|way| - 1].right
      modifies this`t, Nodes(Whole()), item
      ensures Valid() && PutIn(old(InOrder(t)), item, InOrder(t))
    {
      ghost var w, nodes := Whole(), Nodes(Whole()) + {item};
      PlugNodes(way, Nil);
      ghost var s := LinkAndGrow(item, q, z, y, dir, da, way, m, nodes);
      FinishInsert(way, m, s, item, w);
      t := Plug(way[..m], s).l;
    }

    /**
     avl_insert: links exactly the new node, or finds the node that already has its key and changes
     nothing.
     */
    method Insert(item: Node) returns (r: Node)
      requires Valid() && |InOrder(t)| < TOO_MANY && item !in Nodes(Whole())
      modifies this`t, Nodes(Whole()), item
      ensures Valid() && r.key == item.key
      ensures r == item ==> (forall n :: n in old(Nodes(t)) ==> n.key != item.key)
      ensures r == item ==> PutIn(old(InOrder(t)), item, InOrder(t)) && Nodes(t) == old(Nodes(t)) + {item}
      ensures r != item ==> r in old(Nodes(t)) && t == old(t) && unchanged(item)
    {
      var p, q, z, y, dir, da, way, m := Locate(item);
      if p != null {
        SeekFound(way, Goal(t, item.key), item.key, InOrder(t));
        InOrderNodes(t, p);
        GoalKey(t, item.key);
        return p;
      }
      Absent(way, t, item.key);
      InsertAt(item, q, z, y, dir, da, way, m);
      PutInNodes(old(t), item, t);
      return item;
    }

    /** The search of avl_remove, and the path arrays for the walk back. */
    method StackPath(key: Key, pa: array<Node?>, da: array<bool>, ghost way: seq<Frame>, ghost g: Tree)
      returns (p: Node?, r: Node?, s: Node?, parent: Node, dir: bool, k: nat)
      requires Rep(Whole()) && Rep(g) && pa.Length == da.Length == MAX_HEIGHT
      requires way == [Enter(Whole(), false)] + Way(t, key) && g == Goal(t, key) && |way| + Height(g) <= MAX_HEIGHT
      modifies pa, da
      ensures p == Root(g)
      ensures g.Bin? ==> Planned(way, g, pa[..], da[..], k, r, s, parent, dir)
    {
      NodesAllocated(g);
      p, k := StackWay(anchor, key, pa, da, Whole(), way, g);
      assert Rep(g) == old(Rep(g));
      parent, dir := pa[k - 1], da[k - 1];
      r, s := null, null;
      if p != null {
        r, s, k := StackSuccessor(p, pa, da, k, way, g);
      }
    }

    /** The search phase changes nothing but the fresh path arrays. */
    method LocateForRemoval(key: Key)
      returns (p: Node?, r: Node?, s: Node?, parent: Node, dir: bool, pa: array<Node?>, da: array<bool>, k: nat,
               ghost way: seq<Frame>)
      requires Valid() && |InOrder(t)| < TOO_MANY
      ensures Valid() && fresh(pa) && fresh(da) && p == Root(Goal(t, key))
      ensures Position(way, Goal(t, key), Whole(), key) && At(way, Goal(t, key))
      ensures p != null ==> Planned(way, Goal(t, key), pa[..], da[..], k, r, s, parent, dir)
    {
      way := [Enter(Whole(), false)] + Way(t, key);
      NodesAllocated(Whole());
      pa := new Node?[MAX_HEIGHT];
      da := new bool[MAX_HEIGHT];
      assert Rep(Whole()) == old(Rep(Whole()));
      WayInTree(key);
      p, r, s, parent, dir, k := StackPath(key, pa, da, way, Goal(t, key));
      assert Rep(Whole()) == old(Rep(Whole()));
      WayInTree(key);
    }

    /** avl_remove: unlinks exactly the node with the wanted key, or finds none and changes nothing. */
    method Remove(key: Key) returns (p: Node?)
      requires Valid() && |InOrder(t)| < TOO_MANY
      modifies this`t, Nodes(Whole())
      ensures Valid()
      ensures p == null ==> t == old(t) && forall n :: n in Nodes(t) ==> n.key != key
      ensures p != null ==> p in old(Nodes(t)) && p.key == key && TakenOut(old(InOrder(t)), p, InOrder(t))
    {
      var r, s, parent, dir, pa, da, k;
      ghost var way;
      p, r, s, parent, dir, pa, da, k, way := LocateForRemoval(key);
      ghost var g := Goal(t, key);
      if p == null {
        Absent(way, t, key);
        return;
      }
      SeekFound(way, g, key, InOrder(t));
      InOrderNodes(t, p);
      GoalKey(t, key);
      RemoveFound(p, r, s, parent, dir, pa, da, k, way, g);
    }

    method RemoveFound(
      p: Node, r: Node?, s: Node?, parent: Node, dir: bool, pa: array<Node?>, da: array<bool>, k: nat,
      ghost way: seq<Frame>, ghost g: Tree)
      requires Planned(way, g, pa[..], da[..], k, r, s, parent, dir) && g.n == p
      requires At(way, g) && Position(way, g, Whole(), p.key) && Ordered(InOrder(t))
      modifies this`t, Nodes(Whole())
      ensures Valid() && TakenOut(old(InOrder(t)), p, InOrder(t))
    {
      ghost var w := TakeOut(p, r, s, parent, dir, pa, da, k, way, g, Whole());
      t := w.l;
    }
  }
}
