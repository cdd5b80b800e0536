/**
 The watched mount list: a freshly parsed list is merged into the active one in place, and the update
 pass issues add marks and drops vanished mounts.
 */
module Mounts {
  datatype Status = NoChange | Add | Delete

  datatype Mount = Mount(path: string, status: Status)

  // ---------------------------------------------------------------------------------------------
  // As values

  /** Index of the first mount with this path, or the length of the list. */
  function IndexOf(s: seq<Mount>, p: string): (i: nat)
    ensures i <= |s|
    ensures i < |s| ==> s[i].path == p
    ensures forall j :: 0 <= j < i ==> s[j].path != p
  {
    if s == [] then 0 else if s[0].path == p then 0 else 1 + IndexOf(s[1..], p)
  }

  predicate Has(s: seq<Mount>, p: string) {
    exists i :: 0 <= i < |s| && s[i].path == p
  }

  function CountOf(s: seq<Mount>, p: string): nat {
    if s == [] then 0 else CountOf(s[..|s| - 1], p) + if s[|s| - 1].path == p then 1 else 0
  }

  function AllDeleted(s: seq<Mount>): (r: seq<Mount>)
    ensures |r| == |s|
  {
    seq(|s|, i requires 0 <= i < |s| => s[i].(status := Delete))
  }

  /** One parsed mount: a known path keeps its mark, a new one is appended as it is. */
  function MergeOne(s: seq<Mount>, m: Mount): seq<Mount> {
    var i := IndexOf(s, m.path);
    if i < |s| then s[i := s[i].(status := NoChange)] else s + [m]
  }

  function Merge(s: seq<Mount>, next: seq<Mount>): seq<Mount> {
    if next == [] then s else MergeOne(Merge(s, next[..|next| - 1]), next[|next| - 1])
  }

  function Reconciled(s: seq<Mount>, next: seq<Mount>): seq<Mount> {
    Merge(AllDeleted(s), next)
  }

  /** What the update pass keeps. */
  function Kept(s: seq<Mount>): seq<Mount> {
    if s == [] then []
    else Kept(s[..|s| - 1]) + if s[|s| - 1].status == Delete then [] else [s[|s| - 1]]
  }

  /** The paths it issues an add mark for, in order. */
  function AddMarks(s: seq<Mount>): seq<string> {
    if s == [] then []
    else AddMarks(s[..|s| - 1]) + if s[|s| - 1].status == Add then [s[|s| - 1].path] else []
  }

  predicate AllAdd(s: seq<Mount>) {
    forall i :: 0 <= i < |s| ==> s[i].status == Add
  }

  // ---------------------------------------------------------------------------------------------
  // What merging achieves

  /** Entry `i` of the old list survives when it is the first with its path and the path is still mounted. */
  ghost predicate OldPart(old': seq<Mount>, next: seq<Mount>, r: seq<Mount>) {
    && |old'| <= |r|
    && forall i :: 0 <= i < |old'| ==>
         && r[i].path == old'[i].path
         && r[i].status == if IndexOf(old', old'[i].path) == i && Has(next, old'[i].path) then NoChange else Delete
  }

  /** Behind it come the new paths, each once, still to be marked when the new list names them once. */
  ghost predicate NewPart(old': seq<Mount>, next: seq<Mount>, r: seq<Mount>) {
    && |old'| <= |r|
    && (forall i :: |old'| <= i < |r| ==>
          && Has(next, r[i].path) && !Has(old', r[i].path)
          && r[i].status == if CountOf(next, r[i].path) == 1 then Add else NoChange)
    && (forall i, j :: |old'| <= i < j < |r| ==> r[i].path != r[j].path)
  }

  ghost predicate Complete(next: seq<Mount>, r: seq<Mount>) {
    forall k :: 0 <= k < |next| ==> Has(r, next[k].path)
  }

  lemma {:induction false} CountHas(s: seq<Mount>, p: string)
    ensures CountOf(s, p) > 0 <==> Has(s, p)
  {
    if s != [] {
      var n := |s| - 1;
      CountHas(s[..n], p);
      if i :| 0 <= i < |s| && s[i].path == p {
        assert i < n ==> s[..n][i] == s[i];
      }
      if Has(s[..n], p) {
        var i :| 0 <= i < n && s[..n][i].path == p;
        assert s[i].path == p;
      }
      assert s[n].path == p ==> Has(s, p);
    }
  }

  lemma HasSnoc(s: seq<Mount>, m: Mount, p: string)
    ensures Has(s + [m], p) <==> Has(s, p) || m.path == p
    ensures CountOf(s + [m], p) == CountOf(s, p) + if m.path == p then 1 else 0
  {
    var t := s + [m];
    assert t[..|s|] == s && t[|s|] == m;
    if i :| 0 <= i < |s| && s[i].path == p {
      assert t[i].path == p;
    }
  }

  /** A path that was mounted before. */
  lemma MergeKnown(old': seq<Mount>, next: seq<Mount>, r: seq<Mount>, m: Mount)
    requires OldPart(old', next, r) && NewPart(old', next, r) && Has(old', m.path)
    ensures OldPart(old', next + [m], MergeOne(r, m)) && NewPart(old', next + [m], MergeOne(r, m))
    ensures |MergeOne(r, m)| == |r|
  {
    var i := IndexOf(old', m.path);
    assert r[i].path == m.path && IndexOf(r, m.path) == i;
    forall j | 0 <= j < |r| ensures Has(next + [m], r[j].path) <==> Has(next, r[j].path) || m.path == r[j].path {
      HasSnoc(next, m, r[j].path);
    }
    forall j | |old'| <= j < |r| ensures CountOf(next + [m], r[j].path) == CountOf(next, r[j].path) {
      HasSnoc(next, m, r[j].path);
    }
  }

  /** A new path named a second time: it stays listed once but is no longer marked for adding. */
  lemma MergeRepeated(old': seq<Mount>, next: seq<Mount>, r: seq<Mount>, m: Mount)
    requires OldPart(old', next, r) && NewPart(old', next, r) && !Has(old', m.path) && Has(r, m.path)
    ensures OldPart(old', next + [m], MergeOne(r, m)) && NewPart(old', next + [m], MergeOne(r, m))
    ensures |MergeOne(r, m)| == |r|
  {
    var i := IndexOf(r, m.path);
    assert i < |r|;
    assert forall j :: 0 <= j < |old'| ==> r[j].path == old'[j].path && old'[j].path != m.path;
    CountHas(next, m.path);
    forall j | 0 <= j < |r|
      ensures Has(next + [m], r[j].path) <==> Has(next, r[j].path) || m.path == r[j].path
      ensures CountOf(next + [m], r[j].path) == CountOf(next, r[j].path) + if m.path == r[j].path then 1 else 0
    {
      HasSnoc(next, m, r[j].path);
    }
  }

  /** A path seen for the first time. */
  lemma MergeNew(old': seq<Mount>, next: seq<Mount>, r: seq<Mount>, m: Mount)
    requires OldPart(old', next, r) && NewPart(old', next, r) && m.status == Add
    requires !Has(old', m.path) && !Has(r, m.path) && !Has(next, m.path)
    ensures OldPart(old', next + [m], MergeOne(r, m)) && NewPart(old', next + [m], MergeOne(r, m))
    ensures MergeOne(r, m) == r + [m]
  {
    var r' := r + [m];
    assert IndexOf(r, m.path) == |r|;
    CountHas(next, m.path);
    forall j | 0 <= j < |r'|
      ensures Has(next + [m], r'[j].path) <==> Has(next, r'[j].path) || m.path == r'[j].path
      ensures CountOf(next + [m], r'[j].path) == CountOf(next, r'[j].path) + if m.path == r'[j].path then 1 else 0
    {
      HasSnoc(next, m, r'[j].path);
    }
    forall j | 0 <= j < |old'| ensures old'[j].path != m.path {}
  }

  lemma MergeKeepsPaths(r: seq<Mount>, m: Mount, p: string)
    ensures Has(MergeOne(r, m), p) <==> Has(r, p) || m.path == p
  {
    var r' := MergeOne(r, m);
    var i := IndexOf(r, m.path);
    if i == |r| {
      HasSnoc(r, m, p);
    } else {
      assert forall j :: 0 <= j < |r| ==> r'[j].path == r[j].path;
    }
  }

  /** The whole merge, for every old list and every freshly parsed list, repeated paths included. */
  lemma {:induction false} MergeShape(old': seq<Mount>, next: seq<Mount>)
    requires AllAdd(next)
    ensures OldPart(old', next, Reconciled(old', next)) && NewPart(old', next, Reconciled(old', next))
    ensures Complete(next, Reconciled(old', next))
    decreases |next|
  {
    if next != [] {
      var n := |next| - 1;
      var nx, m := next[..n], next[n];
      assert next == nx + [m];
      MergeShape(old', nx);
      var r := Reconciled(old', nx);
      if Has(old', m.path) {
        MergeKnown(old', nx, r, m);
      } else if Has(r, m.path) {
        MergeRepeated(old', nx, r, m);
      } else {
        forall k | 0 <= k < |nx| ensures nx[k].path != m.path {
          assert Has(r, nx[k].path);
        }
        MergeNew(old', nx, r, m);
      }
      forall k | 0 <= k < |next| ensures Has(MergeOne(r, m), next[k].path) {
        MergeKeepsPaths(r, m, next[k].path);
        assert k < n ==> next[k] == nx[k];
      }
    }
  }

  // ---------------------------------------------------------------------------------------------
  // What the update pass leaves and marks

  /** Some entry with this path has not been deleted. */
  predicate Live(s: seq<Mount>, p: string) {
    exists i :: 0 <= i < |s| && s[i].path == p && s[i].status != Delete
  }

  /** Some entry with this path is to be added. */
  predicate Adding(s: seq<Mount>, p: string) {
    exists i :: 0 <= i < |s| && s[i].path == p && s[i].status == Add
  }

  lemma LiveSnoc(s: seq<Mount>, m: Mount, p: string)
    ensures Live(s + [m], p) <==> Live(s, p) || (m.path == p && m.status != Delete)
    ensures Adding(s + [m], p) <==> Adding(s, p) || (m.path == p && m.status == Add)
  {
    var t := s + [m];
    assert t[|s|] == m;
    if i :| 0 <= i < |s| && s[i].path == p && s[i].status != Delete {
      assert t[i] == s[i];
    }
    if i :| 0 <= i < |s| && s[i].path == p && s[i].status == Add {
      assert t[i] == s[i];
    }
  }

  lemma {:induction false} KeptHas(s: seq<Mount>, p: string)
    ensures Has(Kept(s), p) <==> Live(s, p)
  {
    if s != [] {
      var m, rest := s[|s| - 1], s[..|s| - 1];
      KeptHas(rest, p);
      assert s == rest + [m];
      LiveSnoc(rest, m, p);
      assert Kept(s) == if m.status == Delete then Kept(rest) else Kept(rest) + [m];
      HasSnoc(Kept(rest), m, p);
    }
  }

  lemma {:induction false} MarksHas(s: seq<Mount>, p: string)
    ensures p in AddMarks(s) <==> Adding(s, p)
  {
    if s != [] {
      var m, rest := s[|s| - 1], s[..|s| - 1];
      MarksHas(rest, p);
      assert s == rest + [m];
      LiveSnoc(rest, m, p);
    }
  }

  /** Kept paths are pairwise different when the kept entries of the list are. */
  lemma {:induction false} KeptDistinct(s: seq<Mount>)
    requires forall i, j ::
               0 <= i < j < |s| && s[i].status != Delete && s[j].status != Delete ==> s[i].path != s[j].path
    ensures forall i, j :: 0 <= i < j < |Kept(s)| ==> Kept(s)[i].path != Kept(s)[j].path
  {
    if s != [] {
      var n := |s| - 1;
      var m := s[..n];
      assert forall i :: 0 <= i < n ==> m[i] == s[i];
      KeptDistinct(m);
      if s[n].status != Delete {
        KeptHas(m, s[n].path);
        assert forall i :: 0 <= i < |Kept(m)| ==> Kept(m)[i].path != s[n].path;
      }
    }
  }

  lemma ReconciledDistinct(old': seq<Mount>, next: seq<Mount>)
    requires AllAdd(next)
    ensures var r := Reconciled(old', next);
            forall i, j :: 0 <= i < j < |r| && r[i].status != Delete && r[j].status != Delete ==> r[i].path != r[j].path
  {
    MergeShape(old', next);
    var r := Reconciled(old', next);
    forall i, j | 0 <= i < j < |r| && r[i].status != Delete && r[j].status != Delete ensures r[i].path != r[j].path {
      if i < |old'| {
        assert IndexOf(old', old'[i].path) == i && Has(old', r[i].path);
      }
    }
  }

  /** After reconcile and update the list holds exactly the newly parsed paths, each once. */
  lemma UpdatedPaths(old': seq<Mount>, next: seq<Mount>, p: string)
    requires AllAdd(next)
    ensures Has(Kept(Reconciled(old', next)), p) <==> Has(next, p)
    ensures forall i, j :: 0 <= i < j < |Kept(Reconciled(old', next))| ==>
              Kept(Reconciled(old', next))[i].path != Kept(Reconciled(old', next))[j].path
  {
    var r := Reconciled(old', next);
    MergeShape(old', next);
    ReconciledDistinct(old', next);
    KeptDistinct(r);
    KeptHas(r, p);
    if k :| 0 <= k < |next| && next[k].path == p {
      StaysKept(old', next, r, p);
    }
  }

  lemma StaysKept(old': seq<Mount>, next: seq<Mount>, r: seq<Mount>, p: string)
    requires OldPart(old', next, r) && NewPart(old', next, r) && Complete(next, r) && Has(next, p)
    ensures Live(r, p)
  {
    var k :| 0 <= k < |next| && next[k].path == p;
    assert Has(r, next[k].path);
    var i :| 0 <= i < |r| && r[i].path == p;
    if i < |old'| {
      var f := IndexOf(old', p);
      assert old'[i].path == p && f <= i;
      assert r[f].path == p && r[f].status == NoChange;
    }
  }

  /** A mark is added for exactly the paths that were not mounted before and are named once. */
  lemma MarkedPaths(old': seq<Mount>, next: seq<Mount>, p: string)
    requires AllAdd(next)
    ensures p in AddMarks(Reconciled(old', next)) <==> !Has(old', p) && CountOf(next, p) == 1
  {
    var r := Reconciled(old', next);
    MergeShape(old', next);
    MarksHas(r, p);
    CountHas(next, p);
    if !Has(old', p) && CountOf(next, p) == 1 {
      var k :| 0 <= k < |next| && next[k].path == p;
      assert Has(r, next[k].path);
      var i :| 0 <= i < |r| && r[i].path == p;
      assert i < |old'| ==> Has(old', p);
    }
  }

  /** So the promised marks are issued if and only if no new path is named twice. */
  lemma MarksAreExact(old': seq<Mount>, next: seq<Mount>)
    requires AllAdd(next)
    ensures (forall p :: p in AddMarks(Reconciled(old', next)) <==> Has(next, p) && !Has(old', p)) <==>
            (forall p :: !Has(old', p) ==> CountOf(next, p) <= 1)
  {
    forall p ensures p in AddMarks(Reconciled(old', next)) <==> !Has(old', p) && CountOf(next, p) == 1 {
      MarkedPaths(old', next, p);
    }
    forall p ensures CountOf(next, p) > 0 <==> Has(next, p) {
      CountHas(next, p);
    }
  }

  /** A path repeated in the new list is kept but never marked. */
  lemma RepeatedPathIsNotMarked()
    ensures var next := [Mount("/a", Add), Mount("/a", Add)];
            && Has(Kept(Reconciled([], next)), "/a") && "/a" !in AddMarks(Reconciled([], next))
  {
    var next := [Mount("/a", Add), Mount("/a", Add)];
    UpdatedPaths([], next, "/a");
    MarkedPaths([], next, "/a");
    assert next[..1] == [Mount("/a", Add)] && next[..1][..0] == [];
    assert next[0].path == "/a";
    assert CountOf(next[..1], "/a") == 1;
  }
}
