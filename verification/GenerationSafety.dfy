/** What the generation protocol guarantees over every run. */
module GenerationSafety {
  import opened Prelude
  import opened TrustGenerations
  import opened GenerationInvariant

  // ---------------------------------------------------------------------------------------------
  // What one step may do to the generations

  /** Generations keep their identity; a retired one is frozen and only drains; a pinned one stays. */
  ghost predicate GensEvolve(s: State, s': State) {
    && s.nextId <= s'.nextId
    && (forall g :: g in s'.gens && g !in s.gens ==> g >= s.nextId)
    && (forall g :: g in s.gens && g in s'.gens ==>
          s'.gens[g].name == s.gens[g].name && s.gens[g].complete <= s'.gens[g].complete)
    && (forall g :: g in s.retired && g in s.gens && g in s'.gens ==>
          g in s'.retired && s'.gens[g].complete == s.gens[g].complete && s'.gens[g].readers <= s.gens[g].readers)
    && (forall t :: t in s.pins ==> s.pins[t] in s'.gens)
  }

  lemma AcquireEvolves(s: State, t: Thread, s': State)
    requires ListsOk(EnvOpen(s), s.active, s.retired, s.gens, s.nextId) && PinsOk(s.pins, s.gens) && Acquire(s, t, s')
    ensures GensEvolve(s, s')
  {
  }

  lemma ReleaseEvolves(s: State, t: Thread, s': State)
    requires PinsOk(s.pins, s.gens) && Release(s, t, s')
    ensures GensEvolve(s, s')
  {
  }

  lemma ReclaimStepEvolves(s: State, s': State)
    requires Inv(s) && ReclaimStep(s, s')
    ensures GensEvolve(s, s')
  {
    if ReclaimUnlink(s, s') { FreeKeepsCounts(s.pins, s.gens, s.reclaim.g); }
    else if t :| ReclaimBegin(s, t, s') { }
    else if ReclaimPick(s, s') { }
    else if ok :| ReclaimDrop(s, ok, s') { }
  }

  /** Building a candidate touches neither the generations nor anything a reader holds. */
  lemma CandidateStepFrame(s: State, s': State)
    requires CandidateStep(s, s')
    ensures s'.gens == s.gens && s'.retired == s.retired && s'.active == s.active && s'.pins == s.pins
    ensures s'.nextId == s.nextId && s'.nextNumber == s.nextNumber && s'.env == s.env
    ensures EnvOpen(s) && EnvOpen(s')
  {
    if k, lines :| ChooseSlot(s, k, lines, s') { }
    else if ok :| OpenCandidate(s, ok, s') { }
    else if ok :| ClearCandidate(s, ok, s') { }
    else if n :| ImportChunk(s, n, s') { }
    else if ImportFails(s, s') || HitMapFull(s, s') || LockToGrow(s, s') { }
    else if ok :| GrowMap(s, ok, s') { }
    else if ok :| ClearForRetry(s, ok, s') { }
    else if ok :| CommitMetadata(s, ok, s') { }
    else if ok :| DropCandidate(s, ok, s') { }
  }

  lemma SwapEvolves(s: State, s': State)
    requires ListsOk(true, s.active, s.retired, s.gens, s.nextId) && PinsOk(s.pins, s.gens) && SwapActive(s, s')
    ensures GensEvolve(s, s')
  {
    assert s.nextId !in s.gens;
    forall g | g in s.retired ensures g in s'.retired {
      var i :| 0 <= i < |s.retired| && s.retired[i] == g;
      assert s'.retired[i + 1] == g;
    }
  }

  lemma StoreEvolves(s: State, r: Record, s': State)
    requires Inv(s) && StoreRecord(s, r, s')
    ensures GensEvolve(s, s')
  {
  }

  /** close_env() runs with no thread inside a lookup, pinned, or in the middle of a reclaim. */
  lemma CloseNeedsNoReaders(s: State, s': State)
    requires Inv(s) && CloseEnvironment(s, s')
    ensures s.inLock == {} && s.pins == map[] && s.reclaim.NotReclaiming?
  {
    assert s.pins.Keys == {};
  }

  /** Nothing but the update thread's own program and the file has moved. */
  ghost predicate SameService(s: State, s': State) {
    && s'.gens == s.gens && s'.retired == s.retired && s'.active == s.active && s'.pins == s.pins
    && s'.nextId == s.nextId && s'.env == s.env && Number(s') == Number(s) && !Reopens(s, s')
  }

  /** Apart from closing and reopening, maintenance leaves the generations alone. */
  lemma MaintenanceStepFrame(s: State, s': State)
    requires MaintenanceStep(s, s')
    ensures CloseEnvironment(s, s') || OpenNew(s, true, s') || OpenOld(s, true, s') || SameService(s, s')
  {
    if goal :| LockForMaintenance(s, goal, s') { }
    else if Postpone(s, s') || WriteUnlock(s, s') { }
    else if CloseEnvironment(s, s') { }
    else if goal :| RecoverFromDown(s, goal, s') { }
    else if ok :| LinkBackup(s, ok, s') { }
    else if ok :| RenameNew(s, ok, s') { }
    else if ok :| OpenNew(s, ok, s') { if ok { assert OpenNew(s, true, s'); } }
    else if renamed, ok :| Restore(s, renamed, ok, s') { }
    else if ok :| OpenOld(s, ok, s') { if ok { assert OpenOld(s, true, s'); } }
  }

  lemma MaintenanceStepEvolves(s: State, s': State)
    requires Inv(s) && MaintenanceStep(s, s')
    ensures GensEvolve(s, s')
  {
    MaintenanceStepFrame(s, s');
    if CloseEnvironment(s, s') {
      CloseNeedsNoReaders(s, s');
    }
  }

  lemma StepEvolves(s: State, s': State)
    requires Inv(s) && Step(s, s')
    ensures GensEvolve(s, s')
  {
    if ThreadStep(s, s') {
      if t :| ReadLock(s, t, s') { }
      else if t :| ReadUnlock(s, t, s') { }
      else if t :| Acquire(s, t, s') { AcquireEvolves(s, t, s'); }
      else if t :| Release(s, t, s') { ReleaseEvolves(s, t, s'); }
    } else if ReclaimStep(s, s') {
      ReclaimStepEvolves(s, s');
    } else if CandidateStep(s, s') {
      CandidateStepFrame(s, s');
    } else if PublishedStep(s, s') {
      if SwapActive(s, s') { SwapEvolves(s, s'); }
      else if r :| StoreRecord(s, r, s') { StoreEvolves(s, r, s'); }
    } else {
      MaintenanceStepEvolves(s, s');
    }
  }

  lemma RunEvolves(run: seq<State>, i: nat)
    requires Run(run) && i + 1 < |run|
    ensures GensEvolve(run[i], run[i + 1])
  {
    RunHasInv(run, i);
    assert StepAt(run, i);
    StepEvolves(run[i], run[i + 1]);
  }

  // ---------------------------------------------------------------------------------------------
  // Pinned readers

  /** A pinned generation is listed, in an open environment, with its complete database in place. */
  lemma PinnedGenerationIsComplete(run: seq<State>, i: nat, t: Thread)
    requires Run(run) && i < |run| && t in run[i].pins
    ensures var s := run[i]; var g := s.pins[t];
            && EnvOpen(s)
            && (Some(g) == s.active || g in s.retired)
            && g in s.gens && s.gens[g].readers > 0
            && s.gens[g].name in s.file.dbs && s.file.dbs[s.gens[g].name] == s.gens[g].complete
  {
    RunHasInv(run, i);
    var s := run[i];
    var g := s.pins[t];
    assert t in Holders(s.pins, g);
    assert g in s.gens.Keys;
  }

  /**
   While a thread keeps one pin, the named database it reads is never dropped or cleared: its name
   is fixed, records are only added, and once the generation is retired it does not change at all.
   */
  lemma {:induction false} PinnedReaderIsSafe(run: seq<State>, i: nat, j: nat, t: Thread, g: GenId)
    requires Run(run) && i <= j < |run|
    requires forall k :: i <= k <= j ==> t in run[k].pins && run[k].pins[t] == g
    ensures g in run[i].gens && g in run[j].gens
    ensures var name := run[i].gens[g].name;
            && run[j].gens[g].name == name
            && name in run[i].file.dbs && name in run[j].file.dbs
            && run[i].file.dbs[name] <= run[j].file.dbs[name]
            && (g in run[i].retired ==> g in run[j].retired && run[j].file.dbs[name] == run[i].file.dbs[name])
  {
    PinnedGenerationIsComplete(run, j, t);
    if i < j {
      PinnedReaderIsSafe(run, i, j - 1, t, g);
      PinnedGenerationIsComplete(run, j - 1, t);
      RunEvolves(run, j - 1);
    }
  }

  lemma ListedIsAllocated(run: seq<State>, i: nat, g: GenId)
    requires Run(run) && i < |run|
    ensures g in run[i].retired ==> g in run[i].gens
    ensures g in run[i].gens ==> g < run[i].nextId
  {
    RunHasInv(run, i);
    assert g in run[i].retired ==> g in Elems(run[i].retired);
  }

  lemma {:induction false} IdsAreNotReused(run: seq<State>, i: nat, j: nat, g: GenId)
    requires Run(run) && i <= j < |run| && g in run[i].gens
    ensures g < run[j].nextId
  {
    if i == j {
      ListedIsAllocated(run, i, g);
    } else {
      IdsAreNotReused(run, i, j - 1, g);
      RunEvolves(run, j - 1);
    }
  }

  /** After retirement a generation's reader count never grows, for as long as it exists. */
  lemma {:induction false} RetiredOnlyDrains(run: seq<State>, i: nat, j: nat, g: GenId)
    requires Run(run) && i <= j < |run|
    requires g in run[i].retired && g in run[j].gens
    ensures g in run[i].gens && g in run[j].retired
    ensures run[j].gens[g].readers <= run[i].gens[g].readers
    ensures run[j].gens[g].complete == run[i].gens[g].complete
  {
    ListedIsAllocated(run, i, g);
    if i < j {
      RunEvolves(run, j - 1);
      IdsAreNotReused(run, i, j - 1, g);
      RetiredOnlyDrains(run, i, j - 1, g);
    }
  }

  // ---------------------------------------------------------------------------------------------
  // Slots and names

  /** Active, retired and candidate names never collide, also between a drop and its unlink. */
  lemma NamesAreDistinct(run: seq<State>, i: nat, g: GenId, h: GenId)
    requires Run(run) && i < |run| && g in run[i].gens
    ensures h in run[i].gens && h != g ==> run[i].gens[h].name != run[i].gens[g].name
    ensures HoldsCandidate(run[i].pc) ==> run[i].pc.c.name != run[i].gens[g].name
    ensures HoldsCandidate(run[i].pc) && !run[i].pc.Committed? ==> run[i].pc.c.name != run[i].file.meta.name
  {
    RunHasInv(run, i);
  }

  function SlotNames(n: nat): (names: set<DbName>)
    ensures |names| == n
    ensures forall d :: d in names <==> d.Slot? && d.k < n
  {
    if n == 0 then {} else SlotNames(n - 1) + {Slot(n - 1)}
  }

  /** A set of generations has at most as many names as generations. */
  lemma {:induction false} NamesAtMost(gens: map<GenId, Gen>, ids: set<GenId>)
    requires ids <= gens.Keys
    ensures |set g | g in ids :: gens[g].name| <= |ids|
  {
    var names := set g | g in ids :: gens[g].name;
    if ids == {} {
      assert names == {};
    } else {
      var g :| g in ids;
      var rest := ids - {g};
      NamesAtMost(gens, rest);
      var restNames := set h | h in rest :: gens[h].name;
      assert names == restNames + {gens[g].name};
    }
  }

  lemma {:induction false} ElemsAtMost(s: seq<GenId>)
    ensures |Elems(s)| <= |s|
  {
    if s != [] {
      ElemsAtMost(s[1..]);
      assert Elems(s) == {s[0]} + Elems(s[1..]);
    }
  }

  lemma HeldSlotsNeedGenerations(s: State, n: nat)
    requires forall k: nat :: k < n ==> !SlotFree(s, k)
    ensures n <= |s.gens|
  {
    assert SlotNames(n) <= HeldNames(s) by {
      forall d | d in SlotNames(n) ensures d in HeldNames(s) {
        assert !SlotFree(s, d.k);
      }
    }
    SubsetCardinality(SlotNames(n), HeldNames(s));
    NamesAtMost(s.gens, s.gens.Keys);
    assert HeldNames(s) == set g | g in s.gens.Keys :: s.gens[g].name;
  }

  /** The pigeonhole behind EBUSY: with at most 30 retired generations a candidate slot is free. */
  lemma BusyNeedsManyRetired(run: seq<State>, i: nat)
    requires Run(run) && i < |run| && EnvOpen(run[i])
    requires forall k: nat :: k < GENERATION_SLOTS ==> !SlotFree(run[i], k)
    ensures |run[i].retired| >= GENERATION_SLOTS - 1
  {
    RunHasInv(run, i);
    HeldSlotsNeedGenerations(run[i], GENERATION_SLOTS);
    ElemsAtMost(run[i].retired);
  }

  lemma {:induction false} SubsetCardinality<T>(a: set<T>, b: set<T>)
    requires a <= b
    ensures |a| <= |b|
  {
    if a != {} {
      var x :| x in a;
      SubsetCardinality(a - {x}, b - {x});
    }
  }

  lemma ValidNamesFit(names: set<DbName>)
    requires forall n :: n in names ==> ValidName(n)
    ensures |names| <= GENERATION_SLOTS + 1
  {
    var all := SlotNames(GENERATION_SLOTS) + {Legacy};
    assert names <= all;
    SubsetCardinality(names, all);
  }

  /** The named databases in the file, with the metadata database, always fit the configured table. */
  lemma NamedDatabasesFit(run: seq<State>, i: nat)
    requires Run(run) && i < |run|
    ensures |run[i].file.dbs| + 1 <= GENERATION_SLOTS + 2 <= MAX_NAMED_DBS
  {
    RunHasInv(run, i);
    ValidNamesFit(run[i].file.dbs.Keys);
  }

  // ---------------------------------------------------------------------------------------------
  // Publication

  /** In every state the persisted metadata names an existing database that is complete. */
  lemma PersistedPublicationIsComplete(run: seq<State>, i: nat)
    requires Run(run) && i < |run|
    ensures var f := run[i].file; f.meta.name in f.dbs && f.dbs[f.meta.name] == f.published
  {
    RunHasInv(run, i);
  }

  /** The observable publication: what a restart would load and what a lookup reads now. */
  datatype View = View(meta: Meta, persisted: set<Record>, active: Option<GenId>, served: set<Record>)

  function ViewOf(s: State): View {
    View(s.file.meta,
         if s.file.meta.name in s.file.dbs then s.file.dbs[s.file.meta.name] else {},
         s.active,
         if s.active.Some? && s.active.value in s.gens then s.gens[s.active.value].complete else {})
  }

  /** The metadata commit is the only step of a rebuild that changes the publication. */
  lemma RebuildStepHidden(s: State, s': State)
    requires Inv(s) && Inv(s') && CandidateStep(s, s') && !s'.pc.Committed?
    ensures ViewOf(s') == ViewOf(s)
  {
    CandidateStepFrame(s, s');
    if k, lines :| ChooseSlot(s, k, lines, s') { }
    else if ok :| OpenCandidate(s, ok, s') { }
    else if ok :| ClearCandidate(s, ok, s') { }
    else if n :| ImportChunk(s, n, s') { }
    else if ImportFails(s, s') || HitMapFull(s, s') || LockToGrow(s, s') { }
    else if ok :| GrowMap(s, ok, s') { }
    else if ok :| ClearForRetry(s, ok, s') { }
    else if ok :| CommitMetadata(s, ok, s') { }
    else if ok :| DropCandidate(s, ok, s') { }
  }

  lemma ThreadStepHidden(s: State, s': State)
    requires ThreadStep(s, s')
    ensures ViewOf(s') == ViewOf(s) && Number(s') == Number(s) && s'.env == s.env
  {
    if t :| ReadLock(s, t, s') { }
    else if t :| ReadUnlock(s, t, s') { }
    else if t :| Acquire(s, t, s') { }
    else if t :| Release(s, t, s') { }
  }

  /** A reclaimed database is that of a retired generation, so neither the active nor the published one. */
  lemma DropHidden(s: State, ok: bool, s': State)
    requires Inv(s) && ReclaimDrop(s, ok, s')
    ensures ViewOf(s') == ViewOf(s)
  {
    assert s.reclaim.g in s.retired && s.active.Some? && s.active.value in s.gens.Keys;
  }

  lemma ReclaimStepHidden(s: State, s': State)
    requires Inv(s) && ReclaimStep(s, s')
    ensures ViewOf(s') == ViewOf(s) && Number(s') == Number(s) && s'.env == s.env
  {
    if t :| ReclaimBegin(s, t, s') { }
    else if ReclaimPick(s, s') { }
    else if ok :| ReclaimDrop(s, ok, s') { DropHidden(s, ok, s'); }
    else if ReclaimUnlink(s, s') { }
  }

  /** Other updater steps are impossible while a candidate is under construction. */
  lemma RebuildExcludesOtherUpdates(s: State, s': State)
    requires HoldsCandidate(s.pc) && !s.pc.Committed?
    ensures !PublishedStep(s, s') && !MaintenanceStep(s, s')
  {
  }

  lemma RunStepHidden(run: seq<State>, i: nat)
    requires Run(run) && i + 1 < |run|
    requires HoldsCandidate(run[i].pc) && !run[i].pc.Committed? && !run[i + 1].pc.Committed?
    ensures ViewOf(run[i + 1]) == ViewOf(run[i])
  {
    RunHasInv(run, i);
    RunHasInv(run, i + 1);
    assert StepAt(run, i);
    var s, s' := run[i], run[i + 1];
    RebuildExcludesOtherUpdates(s, s');
    if CandidateStep(s, s') { RebuildStepHidden(s, s'); }
    else if ThreadStep(s, s') { ThreadStepHidden(s, s'); }
    else { ReclaimStepHidden(s, s'); }
  }

  /**
   A rebuild is invisible until its metadata commit: whatever other threads do meanwhile, and
   however the rebuild ends without committing (failure, stop, full map), the persisted metadata,
   its database, the active generation and the records it serves are as they were.
   */
  lemma {:induction false} RebuildIsAllOrNothing(run: seq<State>, i: nat, j: nat)
    requires Run(run) && i <= j < |run|
    requires forall k :: i <= k < j ==> HoldsCandidate(run[k].pc) && !run[k].pc.Committed?
    requires !run[j].pc.Committed?
    ensures ViewOf(run[j]) == ViewOf(run[i])
  {
    if i < j {
      RebuildIsAllOrNothing(run, i, j - 1);
      RunStepHidden(run, j - 1);
    }
  }

  /** A committed candidate holds exactly the records of its snapshot, chunked or retried. */
  lemma CommittedCandidateIsTheSnapshot(run: seq<State>, i: nat)
    requires Run(run) && i < |run| && run[i].pc.Committed?
    ensures var s := run[i]; var c := s.pc.c;
            && s.file.meta == Meta(c.number, c.name)
            && c.name in s.file.dbs && s.file.dbs[c.name] == Elems(c.lines)
  {
    RunHasInv(run, i);
  }

  // ---------------------------------------------------------------------------------------------
  // Environment replacement and generation numbers

  /** With the environment closed nothing is pinned, and nobody is inside a lookup. */
  lemma ClosedEnvironmentIsUnpinned(run: seq<State>, i: nat)
    requires Run(run) && i < |run| && run[i].pc.Closed?
    ensures run[i].pins == map[] && run[i].inLock == {} && run[i].reclaim.NotReclaiming?
  {
    RunHasInv(run, i);
  }

  /**
   When the environment is back in service after a close, it is either the complete rebuilt file or the
   very file that was closed, complete. The rebuilt file advances both numbers by one and the old one
   keeps them; only a recovery from a failed reopen starts the trust number again at one.
   */
  lemma ReplacementIsAllOrNothing(run: seq<State>, i: nat)
    requires Run(run) && i < |run| && run[i].pc.Reopened?
    ensures var s := run[i]; var was := s.pc.was;
            && s.active.Some? && s.active.value in s.gens
            && s.file.meta.name in s.file.dbs && s.file.dbs[s.file.meta.name] == s.file.published
            && (|| (s.env == was.env + 1 && s.pc.goal.Replace? && s.file == Rebuilt(s.pc.goal)
                    && s.file.published == Elems(s.pc.goal.lines)
                    && Number(s) == if was.recovery then 1 else was.last + 1)
                || (s.env == was.env && s.file == Renumbered(was.file, Number(s))
                    && (was.recovery || s.file == was.file)
                    && Number(s) == if was.recovery then 1 else was.last))
  {
    RunHasInv(run, i);
  }

  /** The trust number in service or, while there is none, the last one that was. */
  function Number(s: State): nat {
    if s.active.Some? && s.active.value in s.gens then s.gens[s.active.value].number
    else if s.pc.Closed? || s.pc.Down? then s.pc.was.last
    else 0
  }

  /** The environment comes back into service. */
  predicate Reopens(s: State, s': State) {
    s.pc.Closed? && s'.pc.Reopened?
  }

  /** It comes back after an earlier reopen had failed. */
  predicate Recovers(s: State, s': State) {
    Reopens(s, s') && s.pc.was.recovery
  }

  lemma CandidateStepKeepsNumbers(s: State, s': State)
    requires CandidateStep(s, s')
    ensures Number(s') == Number(s) && s'.env == s.env && EnvOpen(s)
  {
    CandidateStepFrame(s, s');
  }

  lemma PublishedStepKeepsNumbers(s: State, s': State)
    requires Inv(s) && PublishedStep(s, s')
    ensures Number(s) <= Number(s') && s'.env == s.env && EnvOpen(s)
  {
    if SwapActive(s, s') { }
    else if r :| StoreRecord(s, r, s') { }
  }

  /** What coming back into service does to the two numbers. */
  lemma ReopenNumbers(s: State, s': State)
    requires ReplacementOk(s) && s.active.None? && (OpenNew(s, true, s') || OpenOld(s, true, s'))
    ensures Reopens(s, s') && s.env <= s'.env
    ensures if s.pc.was.recovery then Number(s') == 1 else Number(s) <= Number(s')
  {
  }

  lemma MaintenanceStepNumbers(s: State, s': State)
    requires Inv(s) && MaintenanceStep(s, s')
    ensures s.env <= s'.env
    ensures if Recovers(s, s') then Number(s') == 1 else Number(s) <= Number(s')
  {
    MaintenanceStepFrame(s, s');
    if OpenNew(s, true, s') || OpenOld(s, true, s') {
      ReopenNumbers(s, s');
    }
  }

  lemma StepNumbers(s: State, s': State)
    requires Inv(s) && Step(s, s')
    ensures s.env <= s'.env
    ensures if Recovers(s, s') then Number(s') == 1 else Number(s) <= Number(s')
  {
    if ThreadStep(s, s') { ThreadStepHidden(s, s'); }
    else if ReclaimStep(s, s') { ReclaimStepHidden(s, s'); }
    else if CandidateStep(s, s') { CandidateStepKeepsNumbers(s, s'); }
    else if PublishedStep(s, s') { PublishedStepKeepsNumbers(s, s'); }
    else { MaintenanceStepNumbers(s, s'); }
  }

  lemma RunNumbers(run: seq<State>, i: nat)
    requires Run(run) && i + 1 < |run|
    ensures run[i].env <= run[i + 1].env
    ensures if Recovers(run[i], run[i + 1]) then Number(run[i + 1]) == 1 else Number(run[i]) <= Number(run[i + 1])
  {
    RunHasInv(run, i);
    assert StepAt(run, i);
    StepNumbers(run[i], run[i + 1]);
  }

  /** The trust number falls in exactly one kind of step: a recovery from a failed reopen, when it was above one. */
  lemma NumberFallsIff(run: seq<State>, i: nat)
    requires Run(run) && i + 1 < |run|
    ensures Number(run[i + 1]) < Number(run[i]) <==> Recovers(run[i], run[i + 1]) && Number(run[i]) > 1
  {
    RunNumbers(run, i);
  }

  /** The environment generation number never decreases, across reopens, rollbacks and recoveries. */
  lemma {:induction false} EnvironmentNumberNeverDecreases(run: seq<State>, i: nat, j: nat)
    requires Run(run) && i <= j < |run|
    ensures run[i].env <= run[j].env
  {
    if i < j {
      EnvironmentNumberNeverDecreases(run, i, j - 1);
      RunNumbers(run, j - 1);
    }
  }

  /** The update thread is between a failed reopen and the next success. */
  predicate Recovering(s: State) {
    s.pc.Down? || (s.pc.Closed? && s.pc.was.recovery)
  }

  /** A recovery begins with the environment down. */
  lemma RecoveryStartsDown(s: State, s': State)
    requires MaintenanceStep(s, s') && s'.pc.Closed? && s'.pc.was.recovery
    ensures Recovering(s)
  {
    if CloseEnvironment(s, s') { }
    else if goal :| RecoverFromDown(s, goal, s') { }
    else if ok :| LinkBackup(s, ok, s') { }
    else if ok :| RenameNew(s, ok, s') { }
    else if ok :| OpenNew(s, ok, s') { }
    else if renamed, ok :| Restore(s, renamed, ok, s') { }
    else if ok :| OpenOld(s, ok, s') { }
  }

  lemma StaysUp(run: seq<State>, i: nat)
    requires Run(run) && i + 1 < |run| && !Recovering(run[i]) && !run[i + 1].pc.Down?
    ensures !Recovering(run[i + 1])
  {
    assert StepAt(run, i);
    var s, s' := run[i], run[i + 1];
    if MaintenanceStep(s, s') && Recovering(s') {
      RecoveryStartsDown(s, s');
    } else if CandidateStep(s, s') {
      CandidateStepFrame(s, s');
    }
  }

  /**
   The trust number never decreases either, across publications, reopens and rollbacks, as long as the
   environment does not go down; that is, as long as no reopen and its rollback both fail.
   */
  lemma {:induction false} NumbersNeverDecrease(run: seq<State>, i: nat, j: nat)
    requires Run(run) && i <= j < |run| && !Recovering(run[i])
    requires forall k :: i <= k <= j ==> !run[k].pc.Down?
    ensures Number(run[i]) <= Number(run[j]) && !Recovering(run[j])
  {
    if i < j {
      NumbersNeverDecrease(run, i, j - 1);
      RunNumbers(run, j - 1);
      StaysUp(run, j - 1);
    }
  }

  /** While the environment is open the counter is one past the active generation. */
  lemma CounterFollowsActive(run: seq<State>, i: nat)
    requires Run(run) && i < |run| && EnvOpen(run[i])
    ensures run[i].nextNumber == Number(run[i]) + 1
  {
    RunHasInv(run, i);
  }
}
