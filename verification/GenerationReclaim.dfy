/** No retired generation is forgotten: under every interleaving somebody still owes it a reclaim pass. */
module GenerationReclaim {
  import opened Prelude
  import opened TrustGenerations
  import opened GenerationInvariant
  import opened GenerationSafety

  /** A retired generation without readers waits for a thread that still has to make, or finish, a reclaim pass. */
  ghost predicate Owed(s: State) {
    forall g :: g in s.retired && g in s.gens && s.gens[g].readers == 0 ==> s.draining != {}
  }

  lemma ThreadStepOwes(s: State, s': State)
    requires Owed(s) && ListsOk(EnvOpen(s), s.active, s.retired, s.gens, s.nextId) && ThreadStep(s, s')
    ensures Owed(s')
  {
    if t :| ReadLock(s, t, s') { }
    else if t :| ReadUnlock(s, t, s') { }
    else if t :| Acquire(s, t, s') { }
    else if t :| Release(s, t, s') { assert t in s'.draining; }
  }

  /** A pass ends only when it has found nothing left to reclaim, or because a drop failed. */
  lemma ReclaimStepOwes(s: State, s': State)
    requires Owed(s) && Inv(s) && ReclaimStep(s, s') && !ReclaimDrop(s, false, s')
    ensures Owed(s')
  {
    if t :| ReclaimBegin(s, t, s') { }
    else if ReclaimPick(s, s') { }
    else if ok :| ReclaimDrop(s, ok, s') { assert ok; }
    else if ReclaimUnlink(s, s') { assert s.reclaim.who in s'.draining; }
  }

  lemma PublishedStepOwes(s: State, s': State)
    requires Owed(s) && PublishedStep(s, s')
    ensures Owed(s')
  {
    if SwapActive(s, s') { assert UPDATER in s'.draining; }
    else if r :| StoreRecord(s, r, s') { }
  }

  lemma SomeElement(s: seq<GenId>)
    ensures s == [] || Elems(s) != {}
  {
    if s != [] {
      assert s[0] in Elems(s);
    }
  }

  /** Without an unread retired generation, an environment without readers has no retired one at all. */
  lemma CloseForgetsNone(s: State, s': State)
    requires Inv(s) && Owed(s) && CloseEnvironment(s, s')
    ensures s.retired == []
  {
    CloseNeedsNoReaders(s, s');
    assert forall g :: g in s.retired ==> g in Elems(s.retired) && Holders(s.pins, g) == {};
    SomeElement(s.retired);
  }

  lemma MaintenanceStepOwes(s: State, s': State)
    requires Owed(s) && Inv(s) && MaintenanceStep(s, s')
    ensures Owed(s')
  {
    if goal :| LockForMaintenance(s, goal, s') { }
    else if Postpone(s, s') || WriteUnlock(s, s') { }
    else {
      MaintenanceStepFrame(s, s');
    }
  }

  lemma StepOwes(s: State, s': State)
    requires Owed(s) && Inv(s) && Step(s, s') && !ReclaimDrop(s, false, s')
    ensures Owed(s')
  {
    if ThreadStep(s, s') { ThreadStepOwes(s, s'); }
    else if ReclaimStep(s, s') { ReclaimStepOwes(s, s'); }
    else if CandidateStep(s, s') { CandidateDraining(s, s'); }
    else if PublishedStep(s, s') { PublishedStepOwes(s, s'); }
    else { MaintenanceStepOwes(s, s'); }
  }

  lemma CandidateDraining(s: State, s': State)
    requires CandidateStep(s, s')
    ensures s'.draining == s.draining && s'.gens == s.gens && s'.retired == s.retired
  {
    CandidateStepFrame(s, s');
  }

  /** No database of a retired generation has failed to drop, at startup or up to state `i`. */
  ghost predicate DropsSucceed(run: seq<State>, i: nat)
    requires 0 < |run| && i < |run|
  {
    run[0].retired == [] && forall k :: 0 <= k < i ==> !ReclaimDrop(run[k], false, run[k + 1])
  }

  lemma {:induction false} RunOwes(run: seq<State>, i: nat)
    requires Run(run) && i < |run| && DropsSucceed(run, i)
    ensures Owed(run[i])
  {
    if i > 0 {
      RunOwes(run, i - 1);
      RunHasInv(run, i - 1);
      assert StepAt(run, i - 1);
      StepOwes(run[i - 1], run[i]);
    }
  }

  /** In every state of every run without a failed drop, an unread retired generation is owed a reclaim pass. */
  lemma UnreadIsOwed(run: seq<State>, i: nat, g: GenId)
    requires Run(run) && i < |run| && DropsSucceed(run, i)
    requires g in run[i].retired
    ensures g in run[i].gens
    ensures run[i].gens[g].readers == 0 ==> run[i].draining != {}
    ensures run[i].gens[g].readers > 0 ==> run[i].pins != map[]
  {
    RunOwes(run, i);
    RunHasInv(run, i);
    assert g in Elems(run[i].retired);
    if run[i].pins == map[] {
      assert Holders(run[i].pins, g) == {};
    }
  }

  /** So an environment that is closed leaves no retired generation's database behind. */
  lemma CloseLeavesNone(run: seq<State>, i: nat)
    requires Run(run) && i + 1 < |run| && DropsSucceed(run, i) && CloseEnvironment(run[i], run[i + 1])
    ensures run[i].retired == [] && |run[i].gens| == 1
  {
    RunOwes(run, i);
    RunHasInv(run, i);
    CloseForgetsNone(run[i], run[i + 1]);
    assert run[i].gens.Keys == {run[i].active.value};
  }
}
