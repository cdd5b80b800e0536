/** Attribute sets: typed sets of numbers or strings on top of the AVL tree. */
module AttrSets {
  import opened Keys
  import opened AvlModel
  import opened AvlSearch
  import opened AvlInsertion
  import opened Avl
  import opened AvlWalks

  datatype Kind = Signed | Unsigned | Strings

  const GLOB_PREFIX := "glob:"

  /** strncmp on NUL-free strings. */
  function StrNCompare(a: string, b: string, n: nat): int {
    if n == 0 || (a == [] && b == []) then 0
    else if a == [] then -1
    else if b == [] then 1
    else if a[0] < b[0] then -1
    else if a[0] > b[0] then 1
    else StrNCompare(a[1..], b[1..], n - 1)
  }

  /** Comparing over the length of the first string tests whether it is a prefix of the second. */
  lemma {:induction false} StrNCompareIsPrefix(a: string, b: string)
    ensures StrNCompare(a, b, |a|) == 0 <==> a <= b
  {
    if a != [] && b != [] && a[0] == b[0] {
      StrNCompareIsPrefix(a[1..], b[1..]);
      assert a == [a[0]] + a[1..] && b == [b[0]] + b[1..];
    }
  }

  /** strncmp_cb: stop the traversal at a member that is a prefix of the wanted string. */
  function PrefixCallback(str: string): Node -> int {
    (n: Node) => if n.key.Text? && StrNCompare(n.key.s, str, |n.key.s|) == 0 then -1 else 0
  }

  lemma {:induction false} WalkFindsPrefix(s: seq<Node>, str: string)
    ensures WalkResult(s, PrefixCallback(str)) in {-1, 0}
    ensures WalkResult(s, PrefixCallback(str)) == -1 <==>
            exists i :: 0 <= i < |s| && s[i].key.Text? && s[i].key.s <= str
  {
    if s != [] {
      WalkFindsPrefix(s[1..], str);
      if s[0].key.Text? {
        StrNCompareIsPrefix(s[0].key.s, str);
      }
      assert forall i :: 0 <= i < |s| - 1 ==> s[1..][i] == s[i + 1];
      if i :| 0 <= i < |s| && s[i].key.Text? && s[i].key.s <= str {
        assert i > 0 ==> s[1..][i - 1] == s[i];
      }
    }
  }

  ghost function KeysOf(s: seq<Node>): set<Key> {
    set i | 0 <= i < |s| :: s[i].key
  }

  lemma PutInKeys(all: seq<Node>, item: Node, all': seq<Node>)
    requires PutIn(all, item, all')
    ensures KeysOf(all') == KeysOf(all) + {item.key}
  {
    var i :| 0 <= i <= |all| && all' == all[..i] + [item] + all[i..];
    assert all'[i] == item;
    forall k | 0 <= k < |all| ensures all[k].key in KeysOf(all') {
      assert all'[if k < i then k else k + 1] == all[k];
    }
  }

  lemma KeyOfNode(t: Tree, n: Node)
    requires n in Nodes(t)
    ensures n.key in KeysOf(InOrder(t))
  {
    InOrderNodes(t, n);
    var i :| 0 <= i < |InOrder(t)| && InOrder(t)[i] == n;
  }

  lemma KeyIsNode(t: Tree, key: Key)
    requires key in KeysOf(InOrder(t))
    ensures exists n :: n in Nodes(t) && n.key == key
  {
    var i :| 0 <= i < |InOrder(t)| && InOrder(t)[i].key == key;
    assert InOrder(t)[i] in InOrder(t);
    InOrderNodes(t, InOrder(t)[i]);
  }

  /** What a set of this kind can hold. */
  predicate Fits(kind: Kind, key: Key) {
    match kind
    case Signed => key.Num?
    case Unsigned => key.Num? && key.i >= 0
    case Strings => key.Text?
  }

  class AttrSet {
    const kind: Kind
    const tree: AvlTree
    var hasGlob: bool

    /** The members. */
    ghost function Members(): set<Key>
      reads tree
    {
      KeysOf(InOrder(tree.t))
    }

    ghost predicate Valid()
      reads this, tree, Nodes(tree.Whole())
    {
      && tree.Valid() && (forall k :: k in Members() ==> Fits(kind, k))
      && (hasGlob <==> exists k :: k in Members() && k.Text? && GLOB_PREFIX <= k.s)
    }

    constructor (kind: Kind)
      ensures Valid() && this.kind == kind && Members() == {} && fresh(tree) && fresh(tree.anchor)
    {
      this.kind := kind;
      tree := new AvlTree();
      hasGlob := false;
    }

    /** Insert a fresh node for `key`; a duplicate leaves the set as it was. */
    method Add(key: Key) returns (added: bool)
      requires Valid() && Fits(kind, key) && |InOrder(tree.t)| < TOO_MANY
      modifies tree, Nodes(tree.Whole())
      ensures fresh(Nodes(tree.Whole()) - old(Nodes(tree.Whole())))
      ensures tree.Valid() && (added <==> key !in old(Members()))
      ensures Members() == old(Members()) + {key}
    {
      NodesAllocated(tree.Whole());
      var data := new Node(key);
      assert tree.Valid() == old(tree.Valid());
      var ret := tree.Insert(data);
      added := ret == data;
      if added {
        PutInKeys(old(InOrder(tree.t)), data, InOrder(tree.t));
        if key in old(Members()) {
          KeyIsNode(old(tree.t), key);
        }
      } else {
        KeyOfNode(tree.t, ret);
      }
    }

    /** attr_set_append_int: 0 exactly when the number fits the set and was not in it. */
    method AppendInt(num: int) returns (rc: int)
      requires Valid() && |InOrder(tree.t)| < TOO_MANY
      modifies tree, Nodes(tree.Whole())
      ensures Valid() && rc in {0, 1} && fresh(Nodes(tree.Whole()) - old(Nodes(tree.Whole())))
      ensures rc == 0 <==> Fits(kind, Num(num)) && Num(num) !in old(Members())
      ensures Members() == old(Members()) + if rc == 0 then {Num(num)} else {}
    {
      if kind != Signed && kind != Unsigned {
        return 1;
      }
      if kind == Unsigned && num < 0 {
        return 1;
      }
      var added := Add(Num(num));
      return if added then 0 else 1;
    }

    /** attr_set_append_str */
    method AppendStr(str: string) returns (rc: int)
      requires Valid() && |InOrder(tree.t)| < TOO_MANY
      modifies this`hasGlob, tree, Nodes(tree.Whole())
      ensures Valid() && rc in {0, 1} && fresh(Nodes(tree.Whole()) - old(Nodes(tree.Whole())))
      ensures rc == 0 <==> Fits(kind, Text(str)) && Text(str) !in old(Members())
      ensures Members() == old(Members()) + if rc == 0 then {Text(str)} else {}
    {
      if kind != Strings {
        return 1;
      }
      var added := Add(Text(str));
      if !added {
        return 1;
      }
      StrNCompareIsPrefix(GLOB_PREFIX, str);
      if StrNCompare(GLOB_PREFIX, str, |GLOB_PREFIX|) == 0 {
        hasGlob := true;
      }
      return 0;
    }

    /** attr_set_check_int: membership, for numbers. */
    method CheckInt(num: int) returns (found: bool)
      requires Valid()
      ensures found <==> Num(num) in Members()
    {
      if (kind != Signed && kind != Unsigned) || (kind == Unsigned && num < 0) {
        return false;
      }
      found := Contains(Num(num));
    }

    /** attr_set_check_str: membership, for strings. */
    method CheckStr(str: string) returns (found: bool)
      requires Valid()
      ensures found <==> Text(str) in Members()
    {
      if kind != Strings {
        return false;
      }
      found := Contains(Text(str));
    }

    method Contains(key: Key) returns (found: bool)
      requires Valid()
      ensures found <==> key in Members()
    {
      var p := tree.Search(key);
      found := p != null;
      if found {
        KeyOfNode(tree.t, p);
      } else if key in Members() {
        KeyIsNode(tree.t, key);
      }
    }

    /** attr_set_check_pstr: true exactly when some member is a prefix of the string. */
    method CheckPrefix(str: string) returns (found: bool)
      requires Valid()
      ensures found <==> kind == Strings && exists k :: k in Members() && k.Text? && k.s <= str
    {
      if kind != Strings {
        return false;
      }
      ghost var all := InOrder(tree.t);
      WalkFindsPrefix(all, str);
      var ret := Traverse(tree, PrefixCallback(str));
      found := ret == -1;
      if found {
        ghost var i :| 0 <= i < |all| && all[i].key.Text? && all[i].key.s <= str;
        assert all[i].key in KeysOf(all);
      }
    }
  }
}
