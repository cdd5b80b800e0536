/** The linked mount list: mlist_* and the list surgery of fanotify_update, on nodes changed in place. */
module MountList {
  import opened Mounts

  class MountNode {
    const path: string
    var status: Status
    var next: MountNode?

    constructor (path: string)
      ensures this.path == path && status == Add && next == null
    {
      this.path := path;
      status, next := Add, null;
    }
  }

  /** What nodes hold, in order. */
  ghost function Contents(nodes: seq<MountNode>): (s: seq<Mount>)
    reads nodes
    ensures |s| == |nodes|
  {
    seq(|nodes|, i requires 0 <= i < |nodes| reads nodes => Mount(nodes[i].path, nodes[i].status))
  }

  /** The nodes from `nodes[0]` on are linked in this order, the last one to `tail`. */
  ghost predicate Linked(nodes: seq<MountNode>, tail: MountNode?)
    reads nodes
  {
    forall i {:trigger nodes[i].next} :: 0 <= i < |nodes| ==> nodes[i].next == Follower(nodes, i, tail)
  }

  ghost function Follower(nodes: seq<MountNode>, i: int, tail: MountNode?): MountNode?
    requires 0 <= i < |nodes|
  {
    if i + 1 < |nodes| then nodes[i + 1] else tail
  }

  ghost predicate Distinct(nodes: seq<MountNode>) {
    nodes == [] || (nodes[|nodes| - 1] !in nodes[..|nodes| - 1] && Distinct(nodes[..|nodes| - 1]))
  }

  lemma {:induction false} DistinctFrom(nodes: seq<MountNode>, i: nat)
    requires Distinct(nodes) && i < |nodes|
    ensures forall j :: 0 <= j < |nodes| && j != i ==> nodes[j] != nodes[i]
  {
    var n := |nodes| - 1;
    assert forall j :: 0 <= j < n ==> nodes[..n][j] == nodes[j] && nodes[j] != nodes[n];
    if i < n {
      DistinctFrom(nodes[..n], i);
    }
  }

  lemma {:induction false} DistinctWithout(nodes: seq<MountNode>, j: nat)
    requires Distinct(nodes) && j < |nodes|
    ensures Distinct(nodes[..j] + nodes[j + 1..])
  {
    var n := |nodes| - 1;
    if j == n {
      assert nodes[..j] + nodes[j + 1..] == nodes[..n];
    } else {
      var r := nodes[..j] + nodes[j + 1..];
      DistinctWithout(nodes[..n], j);
      assert r[..n - 1] == nodes[..n][..j] + nodes[..n][j + 1..] && r[n - 1] == nodes[n];
      forall i | 0 <= i < n - 1 ensures r[i] != nodes[n] {
        assert r[i] == nodes[..n][if i < j then i else i + 1];
      }
    }
  }

  lemma DistinctMore(nodes: seq<MountNode>, n: MountNode)
    requires Distinct(nodes) && n !in nodes
    ensures Distinct(nodes + [n])
  {
    assert (nodes + [n])[..|nodes|] == nodes;
  }

  ghost function First(nodes: seq<MountNode>): MountNode? {
    if nodes == [] then null else nodes[0]
  }

  class MountList {
    var head: MountNode?
    var cur: MountNode?
    ghost var nodes: seq<MountNode>

    ghost predicate Valid()
      reads this, nodes
    {
      head == First(nodes) && Linked(nodes, null) && Distinct(nodes)
    }

    /** mlist_create */
    constructor ()
      ensures Valid() && nodes == []
    {
      head, cur, nodes := null, null, [];
    }

    /** mlist_last: `cur` moves to the last node, if there is one. */
    method Last()
      requires Valid()
      modifies this`cur
      ensures Valid()
      ensures cur == if nodes == [] then old(cur) else nodes[|nodes| - 1]
    {
      if head == null {
        return;
      }
      var window := head;
      ghost var i := 0;
      while window.next != null
        invariant Linked(nodes, null) && 0 <= i < |nodes| && window == nodes[i]
        decreases |nodes| - i
      {
        assert nodes[i].next == Follower(nodes, i, null);
        window := window.next;
        i := i + 1;
      }
      assert nodes[i].next == Follower(nodes, i, null);
      cur := window;
    }

    /** Link a node behind the last one. */
    method Attach(node: MountNode)
      requires Valid() && node !in nodes && node.next == null
      modifies this, nodes
      ensures Valid() && nodes == old(nodes) + [node] && cur == node
      ensures Contents(nodes) == old(Contents(nodes)) + [old(Mount(node.path, node.status))]
    {
      Last();
      DistinctMore(nodes, node);
      if nodes != [] {
        DistinctFrom(nodes, |nodes| - 1);
      }
      if head == null {
        head := node;
      } else {
        cur.next := node;
      }
      cur := node;
      nodes := nodes + [node];
    }

    /** mlist_append: a new node, to be added. */
    method Append(p: string)
      requires Valid()
      modifies this, nodes
      ensures Valid() && Contents(nodes) == old(Contents(nodes)) + [Mount(p, Add)]
      ensures |nodes| == |old(nodes)| + 1 && nodes[..|old(nodes)|] == old(nodes) && fresh(nodes[|old(nodes)|])
    {
      var node := new MountNode(p);
      Attach(node);
    }

    /** mlist_mark_all_deleted */
    method MarkAllDeleted()
      requires Valid()
      modifies nodes`status
      ensures Valid() && Contents(nodes) == AllDeleted(old(Contents(nodes)))
    {
      var n := head;
      ghost var i := 0;
      while n != null
        invariant 0 <= i <= |nodes| && n == (if i < |nodes| then nodes[i] else null)
        invariant Valid() && forall k :: 0 <= k < i ==> nodes[k].status == Delete
        decreases |nodes| - i
      {
        assert nodes[i].next == Follower(nodes, i, null);
        n.status := Delete;
        n := n.next;
        i := i + 1;
      }
    }

    /** mlist_find: `cur` moves to the first node with this path, exactly when there is one. */
    method Find(p: string) returns (found: bool)
      requires Valid()
      modifies this`cur
      ensures Valid() && (found <==> Has(Contents(nodes), p))
      ensures found ==> cur == nodes[IndexOf(Contents(nodes), p)]
      ensures !found ==> cur == old(cur) && IndexOf(Contents(nodes), p) == |nodes|
    {
      var n := head;
      ghost var i := 0;
      while n != null
        invariant 0 <= i <= |nodes| && n == (if i < |nodes| then nodes[i] else null)
        invariant forall k :: 0 <= k < i ==> nodes[k].path != p
        decreases |nodes| - i
      {
        if p == n.path {
          cur := n;
          assert Contents(nodes)[i].path == p;
          return true;
        }
        n := n.next;
        i := i + 1;
      }
      return false;
    }

    /** A path that is still mounted needs no new mark. */
    method KeepCurrent(ghost i: nat)
      requires Valid() && i < |nodes| && cur == nodes[i]
      modifies cur`status
      ensures Valid() && Contents(nodes) == old(Contents(nodes))[i := Mount(cur.path, NoChange)]
    {
      DistinctFrom(nodes, i);
      cur.status := NoChange;
    }

    /** One step of mlist_reconcile: a known path frees the incoming node, a new one takes it over. */
    method MergeNode(node: MountNode) returns (freed: bool)
      requires Valid() && node !in nodes
      modifies this, nodes, node
      ensures Valid() && (freed <==> Has(old(Contents(nodes)), node.path))
      ensures nodes == if freed then old(nodes) else old(nodes) + [node]
      ensures Contents(nodes) == MergeOne(old(Contents(nodes)), old(Mount(node.path, node.status)))
    {
      node.next := null;
      ghost var c0 := Contents(nodes);
      assert c0 == old(Contents(nodes));
      freed := Find(node.path);
      if freed {
        KeepCurrent(IndexOf(c0, node.path));
      } else {
        Attach(node);
      }
    }

    /** The body of mlist_reconcile's loop, for incoming node number `k`. */
    method TakeOver(node: MountNode, ghost mine: seq<MountNode>, ghost theirs: seq<MountNode>, ghost parsed: seq<Mount>,
                    ghost base: seq<Mount>, ghost k: nat, ghost freed0: set<MountNode>, ghost all: set<MountNode>)
      returns (following: MountNode?, ghost freed: set<MountNode>)
      requires Valid() && Distinct(theirs) && k < |theirs| && node == theirs[k]
      requires Owned(mine, theirs, k, nodes, freed0) && Pending(theirs, parsed, k)
      requires Contents(nodes) == Merge(base, parsed[..k])
      requires (forall n :: n in mine ==> n in all) && (forall n :: n in theirs ==> n in all)
      modifies this, all
      ensures Valid() && Owned(mine, theirs, k + 1, nodes, freed) && Pending(theirs, parsed, k + 1)
      ensures Contents(nodes) == Merge(base, parsed[..k + 1])
      ensures following == Follower(theirs, k, null)
    {
      following := node.next;
      MergeNext(base, parsed, k);
      OwnStep(mine, theirs, k, nodes, freed0);
      freed := freed0;
      var known := MergeNode(node);
      if known {
        freed := freed + {node};
      }
    }

    /** mlist_reconcile's loop over the incoming nodes. */
    method TakeOverAll(
      first: MountNode?, ghost theirs: seq<MountNode>, ghost parsed: seq<Mount>, ghost all: set<MountNode>)
      returns (ghost freed: set<MountNode>)
      requires Valid() && Distinct(theirs) && first == First(theirs)
      requires Owned(nodes, theirs, 0, nodes, {}) && Pending(theirs, parsed, 0)
      requires (forall n :: n in nodes ==> n in all) && (forall n :: n in theirs ==> n in all)
      modifies this, all
      ensures Valid() && Contents(nodes) == Merge(old(Contents(nodes)), parsed)
      ensures Owned(old(nodes), theirs, |theirs|, nodes, freed)
    {
      ghost var mine, base, k := nodes, Contents(nodes), 0;
      freed := {};
      assert parsed[..0] == [];
      var node := first;
      while node != null
        invariant 0 <= k <= |theirs| && node == (if k < |theirs| then theirs[k] else null)
        invariant Valid() && Owned(mine, theirs, k, nodes, freed) && Pending(theirs, parsed, k)
        invariant Contents(nodes) == Merge(base, parsed[..k])
        decreases |theirs| - k
      {
        node, freed := TakeOver(node, mine, theirs, parsed, base, k, freed, all);
        k := k + 1;
      }
      assert parsed[..k] == parsed;
    }

    /**
     mlist_reconcile: merges a complete replacement list. Every incoming node ends up in this list or
     is freed, never both.
     */
    method Reconcile(incoming: MountList, ghost all: set<MountNode>) returns (ghost freed: set<MountNode>)
      requires Valid() && incoming.Valid() && incoming != this
      requires forall n :: n in incoming.nodes ==> n !in nodes
      requires (forall n :: n in nodes ==> n in all) && (forall n :: n in incoming.nodes ==> n in all)
      modifies this, incoming, all
      ensures Valid() && incoming.Valid() && incoming.nodes == [] && cur == head
      ensures Contents(nodes) == Reconciled(old(Contents(nodes)), old(Contents(incoming.nodes)))
      ensures Owned(old(nodes), old(incoming.nodes), |old(incoming.nodes)|, nodes, freed)
    {
      ghost var theirs, parsed := incoming.nodes, Contents(incoming.nodes);
      MarkAllDeleted();
      freed := TakeOverAll(incoming.head, theirs, parsed, all);
      incoming.head, incoming.cur, incoming.nodes := null, null, [];
      cur := head;
    }

    /** Unlink node number `j`, whose predecessor is `prev`. */
    method Unlink(prev: MountNode?, node: MountNode, ghost j: nat)
      requires Valid() && j < |nodes| && node == nodes[j] && prev == (if j == 0 then null else nodes[j - 1])
      modifies this`head, this`nodes, if prev == null then {} else {prev}
      ensures Valid() && nodes == old(nodes)[..j] + old(nodes)[j + 1..]
      ensures prev != null ==> prev.status == old(prev.status)
    {
      assert node.next == Follower(nodes, j, null);
      DistinctFrom(nodes, j);
      DistinctWithout(nodes, j);
      if j > 0 {
        DistinctFrom(nodes, j - 1);
      }
      var temp := node.next;
      if node == head {
        head := temp;
      } else {
        assert j > 0;
        prev.next := temp;
      }
      nodes := nodes[..j] + nodes[j + 1..];
      forall i | 0 <= i < |nodes| ensures nodes[i].next == Follower(nodes, i, null) {
        ghost var i0 := if i < j then i else i + 1;
        assert nodes[i] == old(nodes)[i0] && old(nodes[i0].next == Follower(nodes, i0, null));
      }
    }

    /**
     fanotify_update: issue an add mark for every node to be added and unlink the deleted ones. Nothing
     happens before the fanotify group is open.
     */
    method Update(open: bool) returns (marks: seq<string>, ghost freed: seq<MountNode>)
      requires Valid()
      modifies this, nodes
      ensures Valid()
      ensures !open ==> marks == [] && freed == [] && nodes == old(nodes) && Contents(nodes) == old(Contents(nodes))
      ensures open ==> marks == AddMarks(old(Contents(nodes))) && Contents(nodes) == Kept(old(Contents(nodes)))
      ensures cur == if open && old(nodes) != [] then head else old(cur)
      ensures open ==> nodes == KeptNodes(old(nodes), old(Contents(nodes)), |old(nodes)|)
      ensures open ==> freed == DroppedNodes(old(nodes), old(Contents(nodes)), |old(nodes)|)
    {
      marks, freed := [], [];
      if !open || head == null {
        return;
      }
      ghost var all, c0 := nodes, Contents(nodes);
      ghost var kept;
      marks, freed, kept := Sweep(all, c0, set n | n in all);
      NothingLeft(nodes, kept, all, |all|);
      assert c0[..|c0|] == c0;
      MarksToIsAddMarks(c0, |c0|);
      KeptContents(all, c0, |c0|);
      cur := head;
    }

    /** The loop of fanotify_update stands before node number `k` of the original list. */
    ghost predicate Sweeping(
      node: MountNode?, prev: MountNode?, kept: seq<MountNode>, all: seq<MountNode>, c0: seq<Mount>, k: nat)
      reads this, nodes, all
    {
      && k <= |all| && (node == null <==> k == |all|) && (k < |all| ==> node == all[k])
      && Valid() && nodes == kept + all[k..] && SameStatus(all, c0)
      && prev == (if kept == [] then null else kept[|kept| - 1])
    }

    /** One iteration of the loop of fanotify_update. */
    method SweepOne(
      node: MountNode, prev: MountNode?, marks: seq<string>, ghost kept: seq<MountNode>, ghost freed: seq<MountNode>,
      ghost all: seq<MountNode>, ghost c0: seq<Mount>, ghost k: nat, ghost region: set<MountNode>)
      returns (node': MountNode?, prev': MountNode?, marks': seq<string>,
               ghost kept': seq<MountNode>, ghost freed': seq<MountNode>)
      requires Sweeping(node, prev, kept, all, c0, k) && k < |all| && Sorted(all, c0, k, kept, freed, marks)
      requires (prev != null ==> prev in region) && forall n :: n in all ==> n in region
      modifies this`head, this`nodes, region
      ensures Sweeping(node', prev', kept', all, c0, k + 1) && Sorted(all, c0, k + 1, kept', freed', marks')
      ensures prev' != null ==> prev' in region
    {
      assert Mount(all[k].path, all[k].status) == c0[k];
      prev', marks', kept', freed' := prev, marks, kept, freed;
      if node.status == Add {
        marks' := marks + [node.path];
      }
      if node.status == Delete {
        freed' := freed + [node];
        node' := Drop(prev, node, kept, all, c0, k);
      } else {
        StepOver(nodes, kept, all, k);
        prev', kept', node' := node, kept + [node], node.next;
      }
    }

    /** The loop of fanotify_update. */
    method Sweep(ghost all: seq<MountNode>, ghost c0: seq<Mount>, ghost region: set<MountNode>)
      returns (marks: seq<string>, ghost freed: seq<MountNode>, ghost kept: seq<MountNode>)
      requires Valid() && all == nodes && SameStatus(all, c0) && forall n :: n in all ==> n in region
      modifies this`head, this`nodes, region
      ensures Valid() && SameStatus(all, c0) && nodes == kept + all[|all|..]
      ensures Sorted(all, c0, |all|, kept, freed, marks)
    {
      marks, freed, kept := [], [], [];
      ghost var k := 0;
      NothingDone(all);
      var node, prev: MountNode? := head, null;
      while node != null
        invariant Sweeping(node, prev, kept, all, c0, k) && (prev != null ==> prev in region)
        invariant Sorted(all, c0, k, kept, freed, marks)
        decreases |all| - k
      {
        node, prev, marks, kept, freed := SweepOne(node, prev, marks, kept, freed, all, c0, k, region);
        k := k + 1;
      }
    }

    /** The deleting branch of fanotify_update; `node` is number `k` of the original list. */
    method Drop(
      prev: MountNode?, node: MountNode, ghost kept: seq<MountNode>, ghost all: seq<MountNode>, ghost c0: seq<Mount>,
      ghost k: nat)
      returns (temp: MountNode?)
      requires Valid() && k < |all| && node == all[k] && nodes == kept + all[k..] && SameStatus(all, c0)
      requires prev == (if kept == [] then null else kept[|kept| - 1])
      modifies this`head, this`nodes, if prev == null then {} else {prev}
      ensures Valid() && nodes == kept + all[k + 1..] && SameStatus(all, c0)
      ensures temp == if k + 1 < |all| then all[k + 1] else null
    {
      assert nodes[|kept|] == node && node.next == Follower(nodes, |kept|, null);
      temp := node.next;
      Unlink(prev, node, |kept|);
      assert (kept + all[k..])[..|kept|] + (kept + all[k..])[|kept| + 1..] == kept + all[k + 1..];
    }
  }

  lemma NothingDone(all: seq<MountNode>)
    ensures all == [] + all[0..]
  {
  }

  lemma NothingLeft(nodes: seq<MountNode>, kept: seq<MountNode>, all: seq<MountNode>, k: nat)
    requires k == |all| && nodes == kept + all[k..]
    ensures nodes == kept
  {
  }

  lemma StepOver(nodes: seq<MountNode>, kept: seq<MountNode>, all: seq<MountNode>, k: nat)
    requires Linked(nodes, null) && k < |all| && nodes == kept + all[k..]
    ensures nodes == (kept + [all[k]]) + all[k + 1..]
    ensures all[k].next == if k + 1 < |all| then all[k + 1] else null
  {
    assert nodes[|kept|] == all[k];
    assert nodes[|kept|].next == Follower(nodes, |kept|, null);
  }

  ghost predicate SameStatus(all: seq<MountNode>, c: seq<Mount>)
    reads all
  {
    |all| == |c| && forall i :: 0 <= i < |all| ==> Mount(all[i].path, all[i].status) == c[i]
  }

  /** After `k` nodes: which were kept, freed and marked. */
  ghost predicate Sorted(
    all: seq<MountNode>, c: seq<Mount>, k: nat, kept: seq<MountNode>, freed: seq<MountNode>, marks: seq<string>)
  {
    && k <= |all| == |c| && marks == MarksTo(c, k)
    && kept == KeptNodes(all, c, k) && freed == DroppedNodes(all, c, k)
  }

  /** The nodes the update pass keeps and the ones it frees, and its marks, after the first `k` nodes. */
  ghost function KeptNodes(nodes: seq<MountNode>, s: seq<Mount>, k: nat): seq<MountNode>
    requires k <= |nodes| == |s|
  {
    if k == 0 then [] else KeptNodes(nodes, s, k - 1) + if s[k - 1].status == Delete then [] else [nodes[k - 1]]
  }

  ghost function DroppedNodes(nodes: seq<MountNode>, s: seq<Mount>, k: nat): seq<MountNode>
    requires k <= |nodes| == |s|
  {
    if k == 0 then [] else DroppedNodes(nodes, s, k - 1) + if s[k - 1].status == Delete then [nodes[k - 1]] else []
  }

  ghost function MarksTo(s: seq<Mount>, k: nat): seq<string>
    requires k <= |s|
  {
    if k == 0 then [] else MarksTo(s, k - 1) + if s[k - 1].status == Add then [s[k - 1].path] else []
  }

  lemma {:induction false} MarksToIsAddMarks(s: seq<Mount>, k: nat)
    requires k <= |s|
    ensures MarksTo(s, k) == AddMarks(s[..k])
  {
    if k > 0 {
      MarksToIsAddMarks(s, k - 1);
      assert s[..k][..k - 1] == s[..k - 1];
    }
  }

  lemma {:induction false} KeptContents(nodes: seq<MountNode>, s: seq<Mount>, k: nat)
    requires SameStatus(nodes, s) && k <= |s|
    ensures Contents(KeptNodes(nodes, s, k)) == Kept(s[..k])
  {
    if k > 0 {
      KeptContents(nodes, s, k - 1);
      assert s[..k][..k - 1] == s[..k - 1];
      assert Mount(nodes[k - 1].path, nodes[k - 1].status) == s[k - 1];
    }
  }

  /** The incoming nodes from number `k` on are as the parser left them. */
  ghost predicate Pending(theirs: seq<MountNode>, parsed: seq<Mount>, k: nat)
    reads theirs
  {
    && |parsed| == |theirs|
    && (forall i {:trigger theirs[i].next} :: k <= i < |theirs| ==> theirs[i].next == Follower(theirs, i, null))
    && (forall i {:trigger theirs[i].status} ::
          k <= i < |theirs| ==> Mount(theirs[i].path, theirs[i].status) == parsed[i])
  }

  /** After `k` incoming nodes: each is linked or freed, the others are neither. */
  ghost predicate Owned(
    mine: seq<MountNode>, theirs: seq<MountNode>, k: nat, nodes: seq<MountNode>, freed: set<MountNode>)
  {
    && |mine| <= |nodes| && nodes[..|mine|] == mine && k <= |theirs|
    && (forall i :: k <= i < |theirs| ==> theirs[i] !in nodes && theirs[i] !in freed)
    && (forall i :: 0 <= i < k ==> (theirs[i] in nodes) != (theirs[i] in freed))
    && (forall n :: n in freed ==> n in theirs)
    && (forall n :: n in nodes ==> n in mine || n in theirs)
  }

  lemma OwnStep(mine: seq<MountNode>, theirs: seq<MountNode>, k: nat, nodes: seq<MountNode>, freed: set<MountNode>)
    requires k < |theirs| && Distinct(theirs) && Owned(mine, theirs, k, nodes, freed)
    ensures Owned(mine, theirs, k + 1, nodes, freed + {theirs[k]})
    ensures Owned(mine, theirs, k + 1, nodes + [theirs[k]], freed)
  {
    DistinctFrom(theirs, k);
  }

  lemma MergeNext(s: seq<Mount>, next: seq<Mount>, k: nat)
    requires k < |next|
    ensures Merge(s, next[..k + 1]) == MergeOne(Merge(s, next[..k]), next[k])
  {
    assert next[..k + 1][..k] == next[..k];
  }
}
