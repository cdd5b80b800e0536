/**
 The invariant of the generation protocol, and its preservation by every step.
 Each part of the invariant names only the components it constrains.
 */
module GenerationInvariant {
  import opened Prelude
  import opened TrustGenerations

  ghost predicate ValidName(n: DbName) {
    n.Slot? ==> n.k < GENERATION_SLOTS
  }

  /** A file whose metadata names an existing database holding everything it was published with. */
  ghost predicate CompleteFile(f: File) {
    && (forall n :: n in f.dbs ==> ValidName(n))
    && f.meta.name in f.dbs
    && f.dbs[f.meta.name] == f.published
  }

  ghost predicate LocksOk(inLock: set<Thread>, writer: bool, pc: Updater) {
    && UPDATER !in inLock
    && (writer ==> inLock == {})
    && (writer <==> pc.Growing? || pc.Maintenance? || pc.Closed? || pc.Reopened?)
  }

  ghost predicate ThreadsOk(inLock: set<Thread>, pins: map<Thread, GenId>, draining: set<Thread>) {
    && (forall t :: t in pins ==> t in inLock || t == UPDATER)
    && (forall t :: t in draining ==> t in inLock || t == UPDATER)
    && pins.Keys !! draining
  }

  ghost predicate ListsOk(
    open: bool, active: Option<GenId>, retired: seq<GenId>, gens: map<GenId, Gen>, nextId: GenId)
  {
    if open then
      && active.Some?
      && active.value !in retired
      && NoDuplicates(retired)
      && gens.Keys == {active.value} + Elems(retired)
      && (forall g :: g in gens ==> g < nextId)
    else
      active.None? && retired == [] && gens == map[]
  }

  ghost predicate PinsOk(pins: map<Thread, GenId>, gens: map<GenId, Gen>) {
    && (forall t :: t in pins ==> pins[t] in gens)
    && (forall g :: g in gens ==> gens[g].readers == |Holders(pins, g)|)
  }

  /** Generation names are valid and pairwise distinct. */
  ghost predicate NamesOk(gens: map<GenId, Gen>) {
    && (forall g :: g in gens ==> ValidName(gens[g].name))
    && (forall g, h :: g in gens && h in gens && g != h ==> gens[g].name != gens[h].name)
  }

  /** The candidate's slot belongs to no active or retired generation. */
  ghost predicate CandidateNameOk(pc: Updater, gens: map<GenId, Gen>) {
    HoldsCandidate(pc) ==>
      pc.c.name.Slot? && ValidName(pc.c.name) && forall g :: g in gens ==> gens[g].name != pc.c.name
  }

  ghost predicate ReclaimOk(reclaim: Reclaim, draining: set<Thread>, retired: seq<GenId>, gens: map<GenId, Gen>) {
    && (!reclaim.NotReclaiming? ==> reclaim.who in draining)
    && (reclaim.Picked? || reclaim.Dropped? ==>
          reclaim.g in retired && reclaim.g in gens && gens[reclaim.g].readers == 0)
  }

  /** Every generation that is not past its committed drop has its complete named database. */
  ghost predicate StoredOk(gens: map<GenId, Gen>, dbs: map<DbName, set<Record>>, reclaim: Reclaim) {
    forall g :: g in gens && !(reclaim.Dropped? && reclaim.g == g) ==>
      gens[g].name in dbs && dbs[gens[g].name] == gens[g].complete
  }

  /** What a candidate holds at each stage: exactly the prefix of the snapshot imported so far. */
  ghost predicate CandidateOk(pc: Updater, nextNumber: nat, file: File) {
    && (HoldsCandidate(pc) ==> pc.c.number == nextNumber)
    && (pc.Opened? ==> pc.c.name in file.dbs)
    && (pc.Importing? ==>
          && pc.done <= |pc.c.lines|
          && pc.c.name in file.dbs
          && file.dbs[pc.c.name] == Elems(pc.c.lines[..pc.done]))
    && (pc.Committed? ==>
          && file.meta == Meta(pc.c.number, pc.c.name)
          && file.published == Elems(pc.c.lines))
  }

  /** Memory, the persisted publication record and the generation counter agree. */
  ghost predicate NumbersOk(
    active: Option<GenId>, gens: map<GenId, Gen>, nextNumber: nat, pc: Updater, meta: Meta, published: set<Record>)
  {
    active.Some? && active.value in gens ==>
      var a := gens[active.value];
      && nextNumber == a.number + 1
      && (!pc.Committed? ==> meta == Meta(a.number, a.name) && published == a.complete)
      && (pc.Maintenance? && pc.goal.Replace? ==> pc.goal.number == nextNumber)
  }

  /** A file reopened under another generation number. */
  function Renumbered(f: File, number: nat): File {
    f.(meta := Meta(number, f.meta.name))
  }

  /** The numbers a replacement starts from: those in service or, in a recovery, one. */
  ghost predicate NumbersFrom(goal: Goal, was: Was) {
    && (if was.recovery then was.number == 1 else was.last == was.number == was.file.meta.number)
    && (goal.Replace? ==> goal.number == if was.recovery then 1 else was.number + 1)
  }

  /** How far environment replacement has got, and what each outcome leaves in service. */
  ghost predicate ReplacementOk(s: State) {
    match s.pc
    case Closed(goal, was, stage) =>
      && s.pins == map[] && s.draining == {} && s.reclaim.NotReclaiming? && s.nextNumber == 1
      && CompleteFile(was.file) && NumbersFrom(goal, was) && s.env == was.env
      && (match stage
          case Starting => s.file == was.file && s.backup.None? && goal.Replace?
          case Linked => s.file == was.file && s.backup == Some(was.file) && goal.Replace?
          case Renamed => goal.Replace? && s.file == Rebuilt(goal) && s.backup == Some(was.file)
          case Restoring => goal.Replace? && s.file == Rebuilt(goal) && s.backup == Some(was.file)
          case ReopenOld(_) => s.file == was.file && s.backup.None?)
    case Reopened(goal, was) =>
      && s.backup.None? && s.retired == [] && NumbersFrom(goal, was) && s.active.Some? && s.active.value in s.gens
      && var number := s.gens[s.active.value].number;
         || (goal.Replace? && s.file == Rebuilt(goal) && number == goal.number && s.env == was.env + 1)
         || (s.file == Renumbered(was.file, was.number) && number == was.number && s.env == was.env)
    case Down(was) => s.pins == map[] && s.draining == {} && s.reclaim.NotReclaiming? && s.nextNumber == 1
    case _ => s.backup.None?
  }

  ghost predicate Inv(s: State) {
    && CompleteFile(s.file)
    && LocksOk(s.inLock, s.writer, s.pc)
    && ThreadsOk(s.inLock, s.pins, s.draining)
    && ListsOk(EnvOpen(s), s.active, s.retired, s.gens, s.nextId)
    && PinsOk(s.pins, s.gens)
    && NamesOk(s.gens)
    && CandidateNameOk(s.pc, s.gens)
    && ReclaimOk(s.reclaim, s.draining, s.retired, s.gens)
    && StoredOk(s.gens, s.file.dbs, s.reclaim)
    && CandidateOk(s.pc, s.nextNumber, s.file)
    && NumbersOk(s.active, s.gens, s.nextNumber, s.pc, s.file.meta, s.file.published)
    && ReplacementOk(s)
  }

  // ---------------------------------------------------------------------------------------------
  // Every step keeps the invariant

  lemma PinKeepsCounts(pins: map<Thread, GenId>, gens: map<GenId, Gen>, t: Thread, g: GenId)
    requires PinsOk(pins, gens) && t !in pins && g in gens
    ensures PinsOk(pins[t := g], gens[g := gens[g].(readers := gens[g].readers + 1)])
  {
    assert Holders(pins[t := g], g) == Holders(pins, g) + {t};
    assert forall h :: h != g ==> Holders(pins[t := g], h) == Holders(pins, h);
  }

  lemma UnpinKeepsCounts(pins: map<Thread, GenId>, gens: map<GenId, Gen>, t: Thread)
    requires PinsOk(pins, gens) && t in pins
    ensures var g := pins[t];
            gens[g].readers > 0 && PinsOk(pins - {t}, gens[g := gens[g].(readers := gens[g].readers - 1)])
  {
    var g := pins[t];
    assert t in Holders(pins, g);
    assert Holders(pins - {t}, g) == Holders(pins, g) - {t};
    assert forall h :: h != g ==> Holders(pins - {t}, h) == Holders(pins, h);
  }

  /** A generation without readers is pinned by nobody, so it can be freed. */
  lemma FreeKeepsCounts(pins: map<Thread, GenId>, gens: map<GenId, Gen>, g: GenId)
    requires PinsOk(pins, gens) && g in gens && gens[g].readers == 0
    ensures PinsOk(pins, gens - {g})
  {
    assert Holders(pins, g) == {};
    assert forall t :: t in pins && pins[t] == g ==> t in Holders(pins, g);
  }

  lemma NewKeepsCounts(pins: map<Thread, GenId>, gens: map<GenId, Gen>, id: GenId, g: Gen)
    requires PinsOk(pins, gens) && id !in gens && g.readers == 0
    ensures PinsOk(pins, gens[id := g])
  {
    assert Holders(pins, id) == {};
  }

  /** The same generations, with the same names, numbers and contents. */
  ghost predicate SameGenerations(gens: map<GenId, Gen>, gens': map<GenId, Gen>) {
    && gens'.Keys == gens.Keys
    && forall g :: g in gens ==> gens'[g] == gens[g].(readers := gens'[g].readers)
  }

  /** Changing reader counts touches nothing but the pin accounting. */
  lemma ReaderCountKeeps(s: State, gens': map<GenId, Gen>)
    requires Inv(s) && SameGenerations(s.gens, gens')
    ensures ListsOk(EnvOpen(s), s.active, s.retired, gens', s.nextId)
    ensures NamesOk(gens') && CandidateNameOk(s.pc, gens')
    ensures StoredOk(gens', s.file.dbs, s.reclaim)
    ensures NumbersOk(s.active, gens', s.nextNumber, s.pc, s.file.meta, s.file.published)
  {
  }

  lemma LockingKeepsInv(s: State, t: Thread, s': State)
    requires Inv(s) && (ReadLock(s, t, s') || ReadUnlock(s, t, s'))
    ensures Inv(s')
  {
  }

  lemma ReclaimBeginKeepsInv(s: State, t: Thread, s': State)
    requires Inv(s) && ReclaimBegin(s, t, s')
    ensures Inv(s')
  {
  }

  lemma AcquireCounts(s: State, t: Thread, s': State)
    requires PinsOk(s.pins, s.gens) && Acquire(s, t, s')
    ensures PinsOk(s'.pins, s'.gens) && SameGenerations(s.gens, s'.gens)
    ensures forall g :: g in s.gens && s.active != Some(g) ==> s'.gens[g] == s.gens[g]
  {
    if s.active.Some? && s.active.value in s.gens {
      PinKeepsCounts(s.pins, s.gens, t, s.active.value);
    }
  }

  lemma AcquireKeepsInv(s: State, t: Thread, s': State)
    requires Inv(s) && Acquire(s, t, s')
    ensures Inv(s')
  {
    AcquireCounts(s, t, s');
    ReaderCountKeeps(s, s'.gens);
  }

  lemma ReleaseCounts(s: State, t: Thread, s': State)
    requires PinsOk(s.pins, s.gens) && Release(s, t, s')
    ensures PinsOk(s'.pins, s'.gens) && SameGenerations(s.gens, s'.gens)
    ensures forall g :: g in s.gens ==> s'.gens[g].readers <= s.gens[g].readers
  {
    UnpinKeepsCounts(s.pins, s.gens, t);
  }

  lemma ReleaseKeepsInv(s: State, t: Thread, s': State)
    requires Inv(s) && Release(s, t, s')
    ensures Inv(s')
  {
    ReleaseCounts(s, t, s');
    ReaderCountKeeps(s, s'.gens);
    ReleaseKeepsThreads(s, t);
  }

  lemma ReleaseKeepsThreads(s: State, t: Thread)
    requires ThreadsOk(s.inLock, s.pins, s.draining) && t in s.pins
    ensures ThreadsOk(s.inLock, s.pins - {t}, s.draining + {t})
  {
  }

  lemma ReclaimPickKeepsInv(s: State, s': State)
    requires Inv(s) && ReclaimPick(s, s')
    ensures Inv(s')
  {
  }

  lemma ReclaimDropKeepsInv(s: State, ok: bool, s': State)
    requires Inv(s) && ReclaimDrop(s, ok, s')
    ensures Inv(s')
  {
  }

  lemma ReclaimUnlinkKeepsInv(s: State, s': State)
    requires Inv(s) && ReclaimUnlink(s, s')
    ensures Inv(s')
  {
    FreeKeepsCounts(s.pins, s.gens, s.reclaim.g);
  }

  lemma ChooseSlotKeepsInv(s: State, k: nat, lines: seq<Record>, s': State)
    requires Inv(s) && ChooseSlot(s, k, lines, s')
    ensures Inv(s')
  {
  }

  /** Writing a database that no generation refers to leaves every published one alone. */
  lemma CandidateWriteKeeps(s: State, file': File)
    requires Inv(s) && HoldsCandidate(s.pc) && !s.pc.Committed?
    requires file'.meta == s.file.meta && file'.published == s.file.published
    requires forall n :: n in file'.dbs ==> n in s.file.dbs || n == s.pc.c.name
    requires forall n :: n in s.file.dbs && n != s.pc.c.name ==> n in file'.dbs && file'.dbs[n] == s.file.dbs[n]
    ensures CompleteFile(file')
    ensures StoredOk(s.gens, file'.dbs, s.reclaim)
  {
  }

  lemma OpenCandidateKeepsInv(s: State, ok: bool, s': State)
    requires Inv(s) && OpenCandidate(s, ok, s')
    ensures Inv(s')
  {
    CandidateWriteKeeps(s, WithDb(s.file, s.pc.c.name, {}));
  }

  lemma ClearKeepsInv(s: State, ok: bool, s': State)
    requires Inv(s) && (ClearCandidate(s, ok, s') || ClearForRetry(s, ok, s'))
    ensures Inv(s')
  {
    CandidateWriteKeeps(s, WithDb(s.file, s.pc.c.name, {}));
  }

  lemma ImportChunkKeepsInv(s: State, n: nat, s': State)
    requires Inv(s) && ImportChunk(s, n, s')
    ensures Inv(s')
  {
    var lines, done := s.pc.c.lines, s.pc.done;
    assert lines[..done + n] == lines[..done] + lines[done..done + n];
    CandidateWriteKeeps(s, s'.file);
  }

  lemma DropCandidateKeepsInv(s: State, ok: bool, s': State)
    requires Inv(s) && DropCandidate(s, ok, s')
    ensures Inv(s')
  {
    CandidateWriteKeeps(s, WithoutDb(s.file, s.pc.c.name));
  }

  lemma ImportInterruptedKeepsInv(s: State, s': State)
    requires Inv(s) && (ImportFails(s, s') || HitMapFull(s, s') || LockToGrow(s, s'))
    ensures Inv(s')
  {
  }

  lemma GrowMapKeepsInv(s: State, ok: bool, s': State)
    requires Inv(s) && GrowMap(s, ok, s')
    ensures Inv(s')
  {
  }

  lemma CommitMetadataKeepsInv(s: State, ok: bool, s': State)
    requires Inv(s) && CommitMetadata(s, ok, s')
    ensures Inv(s')
  {
    var lines := s.pc.c.lines;
    assert lines[..|lines|] == lines;
  }

  lemma PrependKeepsDistinct(g: GenId, retired: seq<GenId>)
    requires NoDuplicates(retired) && g !in retired
    ensures NoDuplicates([g] + retired) && Elems([g] + retired) == {g} + Elems(retired)
  {
    assert forall x :: x in [g] + retired <==> x == g || x in retired;
  }

  /** The active generation moves to the front of the retired list and a fresh one takes its place. */
  lemma RetireKeepsLists(active: GenId, retired: seq<GenId>, gens: map<GenId, Gen>, id: GenId, g: Gen)
    requires ListsOk(true, Some(active), retired, gens, id)
    ensures ListsOk(true, Some(id), [active] + retired, gens[id := g], id + 1)
  {
    PrependKeepsDistinct(active, retired);
    assert gens[id := g].Keys == {id} + gens.Keys;
  }

  lemma SwapKeepsLists(s: State, s': State)
    requires ListsOk(EnvOpen(s), s.active, s.retired, s.gens, s.nextId) && SwapActive(s, s')
    ensures ListsOk(EnvOpen(s'), s'.active, s'.retired, s'.gens, s'.nextId)
    ensures s.nextId !in s.gens && forall g :: g in s.retired ==> g in s'.retired
  {
    RetireKeepsLists(s.active.value, s.retired, s.gens, s.nextId, s'.gens[s.nextId]);
  }

  lemma SwapActiveKeepsInv(s: State, s': State)
    requires Inv(s) && SwapActive(s, s')
    ensures Inv(s')
  {
    SwapKeepsLists(s, s');
    NewKeepsCounts(s.pins, s.gens, s.nextId, s'.gens[s.nextId]);
  }

  /** Only the active generation's database changes, since no other generation has its name. */
  lemma StoreKeepsDatabases(s: State, r: Record, s': State)
    requires NamesOk(s.gens) && PinsOk(s.pins, s.gens) && StoredOk(s.gens, s.file.dbs, s.reclaim)
    requires StoreRecord(s, r, s')
    requires !(s.reclaim.Dropped? && s.active == Some(s.reclaim.g))
    ensures NamesOk(s'.gens) && PinsOk(s.pins, s'.gens) && StoredOk(s'.gens, s'.file.dbs, s.reclaim)
    ensures s'.gens.Keys == s.gens.Keys
  {
  }

  lemma StoreRecordKeepsInv(s: State, r: Record, s': State)
    requires Inv(s) && StoreRecord(s, r, s')
    ensures Inv(s')
  {
    StoreKeepsDatabases(s, r, s');
  }

  lemma LockForMaintenanceKeepsInv(s: State, goal: Goal, s': State)
    requires Inv(s) && LockForMaintenance(s, goal, s')
    ensures Inv(s')
  {
  }

  lemma UnlockKeepsInv(s: State, s': State)
    requires Inv(s) && (Postpone(s, s') || WriteUnlock(s, s'))
    ensures Inv(s')
  {
  }

  lemma CloseKeepsInv(s: State, s': State)
    requires Inv(s) && CloseEnvironment(s, s')
    ensures Inv(s')
  {
    assert s.pins.Keys == {} && s.draining == {};
  }

  lemma RecoverKeepsInv(s: State, goal: Goal, s': State)
    requires Inv(s) && RecoverFromDown(s, goal, s')
    ensures Inv(s')
  {
  }

  lemma SwapFileKeepsInv(s: State, ok: bool, s': State)
    requires Inv(s) && (LinkBackup(s, ok, s') || RenameNew(s, ok, s'))
    ensures Inv(s')
  {
  }

  lemma RestoreKeepsInv(s: State, renamed: bool, ok: bool, s': State)
    requires Inv(s) && Restore(s, renamed, ok, s')
    ensures Inv(s')
  {
  }

  /** One generation over the database that the metadata names is a complete service. */
  lemma ReopenServes(id: GenId, g: Gen, file: File)
    requires CompleteFile(file) && g.name == file.meta.name && g.complete == file.published && g.readers == 0
    ensures ListsOk(true, Some(id), [], map[id := g], id + 1)
    ensures PinsOk(map[], map[id := g]) && NamesOk(map[id := g])
    ensures StoredOk(map[id := g], file.dbs, NotReclaiming)
  {
    assert Holders(map[], id) == {};
  }

  lemma OpenNewKeepsInv(s: State, ok: bool, s': State)
    requires Inv(s) && OpenNew(s, ok, s')
    ensures Inv(s')
  {
    if ok {
      ReopenServes(s.nextId, s'.gens[s.nextId], s.file);
    }
  }

  lemma OpenOldKeepsInv(s: State, ok: bool, s': State)
    requires Inv(s) && OpenOld(s, ok, s')
    ensures Inv(s')
  {
    if ok {
      ReopenServes(s.nextId, s'.gens[s.nextId], s.file);
    }
  }

  // ---------------------------------------------------------------------------------------------
  // Runs

  /**
   What init_database() leaves when the update thread starts: generation 1 is published, nothing is
   pinned or locked. A retired generation may be left over from a startup rebuild.
   */
  ghost predicate Init(s: State) {
    && s.pc.Idle? && s.backup.None? && s.env == 1
    && s.inLock == {} && !s.writer && s.pins == map[] && s.draining == {} && s.reclaim.NotReclaiming?
    && CompleteFile(s.file)
    && ListsOk(true, s.active, s.retired, s.gens, s.nextId)
    && NamesOk(s.gens)
    && StoredOk(s.gens, s.file.dbs, s.reclaim)
    && (forall g :: g in s.gens ==> s.gens[g].readers == 0)
    && s.file.meta == Meta(1, s.gens[s.active.value].name)
    && s.file.published == s.gens[s.active.value].complete
    && s.gens[s.active.value].number == 1 && s.nextNumber == 2
  }

  ghost predicate StepAt(run: seq<State>, i: nat)
    requires i + 1 < |run|
  {
    Step(run[i], run[i + 1])
  }

  ghost predicate Run(run: seq<State>) {
    && |run| > 0
    && Init(run[0])
    && forall i: nat :: i + 1 < |run| ==> StepAt(run, i)
  }

  lemma InitHasInv(s: State)
    requires Init(s)
    ensures Inv(s)
  {
    assert forall g :: Holders(s.pins, g) == {};
  }

  lemma ThreadStepKeepsInv(s: State, s': State)
    requires Inv(s) && ThreadStep(s, s')
    ensures Inv(s')
  {
    if t :| ReadLock(s, t, s') { LockingKeepsInv(s, t, s'); }
    else if t :| ReadUnlock(s, t, s') { LockingKeepsInv(s, t, s'); }
    else if t :| Acquire(s, t, s') { AcquireKeepsInv(s, t, s'); }
    else if t :| Release(s, t, s') { ReleaseKeepsInv(s, t, s'); }
  }

  lemma ReclaimStepKeepsInv(s: State, s': State)
    requires Inv(s) && ReclaimStep(s, s')
    ensures Inv(s')
  {
    if t :| ReclaimBegin(s, t, s') { ReclaimBeginKeepsInv(s, t, s'); }
    else if ReclaimPick(s, s') { ReclaimPickKeepsInv(s, s'); }
    else if ok :| ReclaimDrop(s, ok, s') { ReclaimDropKeepsInv(s, ok, s'); }
    else if ReclaimUnlink(s, s') { ReclaimUnlinkKeepsInv(s, s'); }
  }

  lemma CandidateStepKeepsInv(s: State, s': State)
    requires Inv(s) && CandidateStep(s, s')
    ensures Inv(s')
  {
    if k, lines :| ChooseSlot(s, k, lines, s') { ChooseSlotKeepsInv(s, k, lines, s'); }
    else if ok :| OpenCandidate(s, ok, s') { OpenCandidateKeepsInv(s, ok, s'); }
    else if ok :| ClearCandidate(s, ok, s') { ClearKeepsInv(s, ok, s'); }
    else if n :| ImportChunk(s, n, s') { ImportChunkKeepsInv(s, n, s'); }
    else if ImportFails(s, s') || HitMapFull(s, s') || LockToGrow(s, s') { ImportInterruptedKeepsInv(s, s'); }
    else if ok :| GrowMap(s, ok, s') { GrowMapKeepsInv(s, ok, s'); }
    else if ok :| ClearForRetry(s, ok, s') { ClearKeepsInv(s, ok, s'); }
    else if ok :| CommitMetadata(s, ok, s') { CommitMetadataKeepsInv(s, ok, s'); }
    else if ok :| DropCandidate(s, ok, s') { DropCandidateKeepsInv(s, ok, s'); }
  }

  lemma PublishedStepKeepsInv(s: State, s': State)
    requires Inv(s) && PublishedStep(s, s')
    ensures Inv(s')
  {
    if SwapActive(s, s') { SwapActiveKeepsInv(s, s'); }
    else if r :| StoreRecord(s, r, s') { StoreRecordKeepsInv(s, r, s'); }
  }

  lemma MaintenanceStepKeepsInv(s: State, s': State)
    requires Inv(s) && MaintenanceStep(s, s')
    ensures Inv(s')
  {
    if goal :| LockForMaintenance(s, goal, s') { LockForMaintenanceKeepsInv(s, goal, s'); }
    else if Postpone(s, s') || WriteUnlock(s, s') { UnlockKeepsInv(s, s'); }
    else if CloseEnvironment(s, s') { CloseKeepsInv(s, s'); }
    else if goal :| RecoverFromDown(s, goal, s') { RecoverKeepsInv(s, goal, s'); }
    else if ok :| LinkBackup(s, ok, s') { SwapFileKeepsInv(s, ok, s'); }
    else if ok :| RenameNew(s, ok, s') { SwapFileKeepsInv(s, ok, s'); }
    else if ok :| OpenNew(s, ok, s') { OpenNewKeepsInv(s, ok, s'); }
    else if renamed, ok :| Restore(s, renamed, ok, s') { RestoreKeepsInv(s, renamed, ok, s'); }
    else if ok :| OpenOld(s, ok, s') { OpenOldKeepsInv(s, ok, s'); }
  }

  lemma StepKeepsInv(s: State, s': State)
    requires Inv(s) && Step(s, s')
    ensures Inv(s')
  {
    if ThreadStep(s, s') { ThreadStepKeepsInv(s, s'); }
    else if ReclaimStep(s, s') { ReclaimStepKeepsInv(s, s'); }
    else if CandidateStep(s, s') { CandidateStepKeepsInv(s, s'); }
    else if PublishedStep(s, s') { PublishedStepKeepsInv(s, s'); }
    else { MaintenanceStepKeepsInv(s, s'); }
  }

  /** The invariant holds in every state of every run. */
  lemma {:induction false} RunHasInv(run: seq<State>, i: nat)
    requires Run(run) && i < |run|
    ensures Inv(run[i])
  {
    if i == 0 {
      InitHasInv(run[0]);
    } else {
      RunHasInv(run, i - 1);
      assert StepAt(run, i - 1);
      StepKeepsInv(run[i - 1], run[i]);
    }
  }
}
