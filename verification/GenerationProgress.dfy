/** What threads achieve when nobody interferes: slots are found, rebuilds publish, reclaim passes end. */
module GenerationProgress {
  import opened Prelude
  import opened TrustGenerations
  import opened GenerationInvariant

  // ---------------------------------------------------------------------------------------------
  // Choosing a slot

  /** trust_db_generation_name_in_use */
  method NameInUse(s: State, name: DbName) returns (used: bool)
    requires Inv(s) && EnvOpen(s)
    ensures used <==> name in HeldNames(s)
  {
    if s.gens[s.active.value].name == name {
      return true;
    }
    var i := 0;
    while i < |s.retired|
      invariant 0 <= i <= |s.retired|
      invariant forall j :: 0 <= j < i ==> s.gens[s.retired[j]].name != name
    {
      assert s.retired[i] in s.gens;
      if s.gens[s.retired[i]].name == name {
        return true;
      }
      i := i + 1;
    }
    forall g | g in s.gens ensures s.gens[g].name != name {
      assert g == s.active.value || g in s.retired;
    }
    return false;
  }

  /** trust_db_candidate_name: the lowest free slot; busy exactly when every slot is held. */
  method CandidateName(s: State) returns (slot: Option<nat>)
    requires Inv(s) && EnvOpen(s)
    ensures slot.Some? ==>
              && slot.value < GENERATION_SLOTS && SlotFree(s, slot.value)
              && forall j: nat :: j < slot.value ==> !SlotFree(s, j)
    ensures slot.None? <==> forall k: nat :: k < GENERATION_SLOTS ==> !SlotFree(s, k)
  {
    var k: nat := 0;
    while k < GENERATION_SLOTS
      invariant k <= GENERATION_SLOTS
      invariant forall j: nat :: j < k ==> !SlotFree(s, j)
    {
      var used := NameInUse(s, Slot(k));
      if !used {
        return Some(k);
      }
      k := k + 1;
    }
    return None;
  }

  // ---------------------------------------------------------------------------------------------
  // A rebuild that nothing disturbs

  lemma Extend(run: seq<State>, s': State)
    requires Run(run) && Step(run[|run| - 1], s')
    ensures Run(run + [s'])
  {
    var run' := run + [s'];
    forall i: nat | i + 1 < |run'| ensures StepAt(run', i) {
      if i + 1 < |run| {
        assert StepAt(run, i);
      }
    }
  }

  ghost predicate LowestFree(s: State, k: nat) {
    k < GENERATION_SLOTS && SlotFree(s, k) && forall j: nat {:trigger SlotFree(s, j)} :: j < k ==> !SlotFree(s, j)
  }

  /** The run continues by one step of the update thread's candidate program. */
  lemma ExtendCandidate(run: seq<State>, s': State)
    requires Run(run) && CandidateStep(run[|run| - 1], s')
    ensures Run(run + [s'])
  {
    Extend(run, s');
  }

  /** Only the update thread has moved, and it has published nothing. */
  ghost predicate OnlyBuilds(s: State, s': State) {
    && s'.active == s.active && s'.gens == s.gens && s'.nextNumber == s.nextNumber && s'.nextId == s.nextId
    && s'.inLock == s.inLock && s'.pins == s.pins && s'.draining == s.draining && s'.reclaim == s.reclaim
  }

  lemma StartRebuild(run: seq<State>, k: nat, lines: seq<Record>) returns (run': seq<State>)
    requires Run(run) && run[|run| - 1].pc.Idle? && UpdaterFree(run[|run| - 1]) && LowestFree(run[|run| - 1], k)
    ensures Run(run') && run <= run' && UpdaterFree(run'[|run'| - 1])
    ensures var s := run'[|run'| - 1];
            && OnlyBuilds(run[|run| - 1], s)
            && s.pc == Importing(Candidate(run[|run| - 1].nextNumber, Slot(k), lines), 0, false)
            && Slot(k) in s.file.dbs && s.file.dbs[Slot(k)] == {}
  {
    var s0 := run[|run| - 1];
    var c := Candidate(s0.nextNumber, Slot(k), lines);
    var s1 := s0.(pc := SlotChosen(c));
    assert ChooseSlot(s0, k, lines, s1);
    ExtendCandidate(run, s1);
    var s2 := s1.(file := if Slot(k) in s1.file.dbs then s1.file else WithDb(s1.file, Slot(k), {}), pc := Opened(c));
    assert OpenCandidate(s1, true, s2);
    ExtendCandidate(run + [s1], s2);
    var s3 := s2.(file := WithDb(s2.file, Slot(k), {}), pc := Importing(c, 0, false));
    assert ClearCandidate(s2, true, s3);
    ExtendCandidate(run + [s1] + [s2], s3);
    run' := run + [s1] + [s2] + [s3];
  }

  lemma ImportAndCommit(run: seq<State>) returns (run': seq<State>)
    requires Run(run) && UpdaterFree(run[|run| - 1]) && run[|run| - 1].pc.Importing? && run[|run| - 1].pc.done == 0
    requires var s := run[|run| - 1]; s.pc.c.name in s.file.dbs && s.file.dbs[s.pc.c.name] == {}
    ensures Run(run') && run <= run' && UpdaterFree(run'[|run'| - 1])
    ensures run'[|run'| - 1].pc == Committed(run[|run| - 1].pc.c) && OnlyBuilds(run[|run| - 1], run'[|run'| - 1])
  {
    var s3 := run[|run| - 1];
    var c := s3.pc.c;
    assert c.lines[0..|c.lines|] == c.lines && {} + Elems(c.lines) == Elems(c.lines);
    var s4 := s3.(file := WithDb(s3.file, c.name, Elems(c.lines)), pc := Importing(c, |c.lines|, s3.pc.retried));
    assert ImportChunk(s3, |c.lines|, s4);
    ExtendCandidate(run, s4);
    var s5 := s4.(file := s4.file.(meta := Meta(c.number, c.name), published := Elems(c.lines)), pc := Committed(c));
    assert CommitMetadata(s4, true, s5);
    ExtendCandidate(run + [s4], s5);
    run' := run + [s4] + [s5];
  }

  /** The update thread now owes a reclaim pass; no other thread has moved. */
  ghost predicate AfterSwap(s: State, s': State) {
    s'.inLock == s.inLock && s'.pins == s.pins && s'.draining == s.draining + {UPDATER} && s'.reclaim == s.reclaim
  }

  lemma Publish(run: seq<State>) returns (run': seq<State>)
    requires Run(run) && UpdaterFree(run[|run| - 1]) && run[|run| - 1].pc.Committed?
    ensures Run(run') && run <= run'
    ensures var s, c := run'[|run'| - 1], run[|run| - 1].pc.c;
            && s.pc.Idle? && s.active.Some? && s.active.value in s.gens
            && s.gens[s.active.value] == Gen(c.number, c.name, 0, Elems(c.lines)) && AfterSwap(run[|run| - 1], s)
  {
    var s5 := run[|run| - 1];
    var c := s5.pc.c;
    var s6 := s5.(active := Some(s5.nextId),
                  retired := (if s5.active.Some? then [s5.active.value] else []) + s5.retired,
                  gens := s5.gens[s5.nextId := Gen(c.number, c.name, 0, Elems(c.lines))], nextId := s5.nextId + 1,
                  nextNumber := if s5.nextNumber <= c.number then c.number + 1 else s5.nextNumber,
                  draining := s5.draining + {UPDATER}, pc := Idle);
    assert SwapActive(s5, s6);
    Extend(run, s6);
    run' := run + [s6];
  }

  /** From every reachable idle state with a free slot, the update thread can publish any snapshot in that slot. */
  lemma RebuildCanPublish(run: seq<State>, k: nat, lines: seq<Record>) returns (run': seq<State>)
    requires Run(run) && run[|run| - 1].pc.Idle? && UpdaterFree(run[|run| - 1]) && LowestFree(run[|run| - 1], k)
    ensures Run(run') && run <= run'
    ensures var s := run'[|run'| - 1];
            && s.pc.Idle? && s.active.Some? && s.active.value in s.gens
            && s.gens[s.active.value] == Gen(run[|run| - 1].nextNumber, Slot(k), 0, Elems(lines))
            && AfterSwap(run[|run| - 1], s)
  {
    var r := StartRebuild(run, k, lines);
    r := ImportAndCommit(r);
    run' := Publish(r);
  }

  // ---------------------------------------------------------------------------------------------
  // A reclaim pass that nothing disturbs

  /** Every retired generation still has readers. */
  ghost predicate AllRead(s: State) {
    forall g :: g in s.retired && g in s.gens ==> s.gens[g].readers > 0
  }

  lemma {:induction false} WithoutShrinks(s: seq<GenId>, g: GenId)
    requires g in s
    ensures |Without(s, g)| < |s|
  {
    if s[0] != g {
      WithoutShrinks(s[1..], g);
    } else {
      WithoutAtMost(s[1..], g);
    }
  }

  lemma {:induction false} WithoutAtMost(s: seq<GenId>, g: GenId)
    ensures |Without(s, g)| <= |s|
  {
    if s != [] {
      WithoutAtMost(s[1..], g);
    }
  }

  /** The generation is found, its database dropped, and it is unlinked. */
  function Reclaimed(s: State, g: GenId): State
    requires g in s.gens
  {
    s.(file := WithoutDb(s.file, s.gens[g].name), retired := Without(s.retired, g), gens := s.gens - {g})
  }

  /** The pass ends: nothing was found, or a drop failed. */
  function PassEnded(s: State): State
    requires s.reclaim.Scanning?
  {
    s.(reclaim := NotReclaiming, draining := s.draining - {s.reclaim.who})
  }

  lemma PassEnds(run: seq<State>)
    requires Run(run) && var s := run[|run| - 1]; s.reclaim.Scanning? && FirstUnread(s.retired, s.gens) == |s.retired|
    ensures Run(run + [PassEnded(run[|run| - 1])])
  {
    var s := run[|run| - 1];
    assert ReclaimPick(s, PassEnded(s));
    Extend(run, PassEnded(s));
  }

  lemma PassPicks(run: seq<State>, s1: State)
    requires Run(run) && var s := run[|run| - 1];
             && s.reclaim.Scanning? && FirstUnread(s.retired, s.gens) < |s.retired|
             && s1 == s.(reclaim := Picked(s.reclaim.who, s.retired[FirstUnread(s.retired, s.gens)]))
    ensures Run(run + [s1])
  {
    assert ReclaimPick(run[|run| - 1], s1);
    Extend(run, s1);
  }

  lemma PassFails(run: seq<State>, s1: State)
    requires Run(run) && var s := run[|run| - 1];
             s.reclaim.Scanning? && s1.reclaim.Picked? && s1.reclaim.g in s1.gens &&
             s1 == s.(reclaim := Picked(s.reclaim.who, s1.reclaim.g)) && Run(run + [s1])
    ensures Run(run + [s1] + [PassEnded(run[|run| - 1])])
  {
    assert ReclaimDrop(s1, false, PassEnded(run[|run| - 1]));
    Extend(run + [s1], PassEnded(run[|run| - 1]));
  }

  lemma PassReclaims(run: seq<State>, s1: State) returns (run': seq<State>)
    requires Run(run) && var s := run[|run| - 1];
             s.reclaim.Scanning? && s1.reclaim.Picked? && s1.reclaim.g in s.gens &&
             s1 == s.(reclaim := Picked(s.reclaim.who, s1.reclaim.g)) && Run(run + [s1])
    ensures Run(run') && run <= run' && run'[|run'| - 1] == Reclaimed(run[|run| - 1], s1.reclaim.g)
  {
    var g, who := s1.reclaim.g, s1.reclaim.who;
    var s2 := s1.(file := WithoutDb(s1.file, s1.gens[g].name), reclaim := Dropped(who, g));
    assert ReclaimDrop(s1, true, s2);
    Extend(run + [s1], s2);
    var s3 := s2.(retired := Without(s2.retired, g), gens := s2.gens - {g}, reclaim := Scanning(who));
    assert ReclaimUnlink(s2, s3);
    Extend(run + [s1] + [s2], s3);
    run' := run + [s1] + [s2] + [s3];
  }

  /**
   trust_db_reclaim_retired run by one thread while the others stand still. It ends, and unless a drop
   failed, no retired generation without readers is left.
   */
  method ReclaimPass(s0: State, drops: nat -> bool, ghost run: seq<State>)
    returns (s: State, failed: bool, ghost run': seq<State>)
    requires Run(run) && run[|run| - 1] == s0 && s0.reclaim.Scanning?
    ensures Run(run') && run <= run' && run'[|run'| - 1] == s
    ensures s.reclaim.NotReclaiming? && s.draining == s0.draining - {s0.reclaim.who}
    ensures failed || AllRead(s)
    ensures s.active == s0.active && s.pins == s0.pins && s.pc == s0.pc
  {
    s, failed, run' := s0, false, run;
    var clock := 0;
    while true
      invariant Run(run') && run <= run' && run'[|run'| - 1] == s
      invariant s.reclaim == s0.reclaim && s.draining == s0.draining && !failed
      invariant s.active == s0.active && s.pins == s0.pins && s.pc == s0.pc
      decreases |s.retired|
    {
      var i := FirstUnread(s.retired, s.gens);
      if i == |s.retired| {
        PassEnds(run');
        s, run' := PassEnded(s), run' + [PassEnded(s)];
        return;
      }
      var g := s.retired[i];
      PickedIsListed(run', g);
      ghost var s1 := s.(reclaim := Picked(s.reclaim.who, g));
      PassPicks(run', s1);
      if !drops(clock) {
        PassFails(run', s1);
        s, failed, run' := PassEnded(s), true, run' + [s1] + [PassEnded(s)];
        return;
      }
      clock := clock + 1;
      WithoutShrinks(s.retired, g);
      run' := PassReclaims(run', s1);
      s := Reclaimed(s, g);
    }
  }

  lemma PickedIsListed(run: seq<State>, g: GenId)
    requires Run(run) && g in run[|run| - 1].retired
    ensures g in run[|run| - 1].gens
  {
    RunHasInv(run, |run| - 1);
  }
}
