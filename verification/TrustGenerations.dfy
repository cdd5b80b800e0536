/**
 The runtime protocol that publishes, reads and reclaims trust database generations.

 One update thread (thread 0) builds a candidate named database, publishes it and replaces or
 reopens the whole environment; any number of other threads pin the active generation for a lookup.
 The code releases `generation_lock` between most of its steps, so each critical section and each
 committed LMDB transaction is one step of the machine and the steps of all threads interleave freely.
 Every LMDB or file system call may fail.
 */
module TrustGenerations {
  import opened Prelude
  import SnapshotLines

  const GENERATION_SLOTS: nat := 32
  const RESERVED_NAMED_DBS: nat := 8
  const MAX_NAMED_DBS: nat := GENERATION_SLOTS + RESERVED_NAMED_DBS

  type Record = SnapshotLines.Record
  type GenId = nat
  type Thread = nat
  const UPDATER: Thread := 0

  /** A named database: the legacy fixed name, or one of the reusable slots. */
  datatype DbName = Legacy | Slot(k: nat)

  /** The publication record stored in the metadata database. */
  datatype Meta = Meta(number: nat, name: DbName)

  /**
   A data.mdb file: its named databases and its publication record. `published` is a history
   value: what the last publication imported, plus the single-file updates stored since.
   */
  datatype File = File(dbs: map<DbName, set<Record>>, meta: Meta, published: set<Record>)

  /** In-memory generation. `complete` is the record set it was published with (and updated to). */
  datatype Gen = Gen(number: nat, name: DbName, readers: nat, complete: set<Record>)

  datatype Candidate = Candidate(number: nat, name: DbName, lines: seq<Record>)

  datatype Reclaim =
    | NotReclaiming
    | Scanning(who: Thread)
    | Picked(who: Thread, g: GenId)
    | Dropped(who: Thread, g: GenId)

  /** Why the environment is closed: a map-size reopen, or replacement by an offline rebuild. */
  datatype Goal = Resize | Replace(number: nat, lines: seq<Record>)

  /**
   What a rollback goes back to: the file, and the numbers to reopen it with. `recovery` tells that the
   environment was already down. `last` is a history value: the trust number last in service.
   */
  datatype Was = Was(file: File, number: nat, env: nat, last: nat, recovery: bool)

  datatype Stage = Starting | Linked | Renamed | Restoring | ReopenOld(tries: nat)

  datatype Updater =
    | Idle
    | SlotChosen(c: Candidate)
    | Opened(c: Candidate)
    | Importing(c: Candidate, done: nat, retried: bool)
    | MapFull(c: Candidate)
    | Growing(c: Candidate)
    | Grown(c: Candidate)
    | Failed(c: Candidate)
    | Committed(c: Candidate)
    | Maintenance(goal: Goal)
    | Closed(goal: Goal, was: Was, stage: Stage)
    | Reopened(goal: Goal, was: Was)
    | Down(was: Was)

  datatype State = State(
    file: File,
    backup: Option<File>,
    env: nat,
    active: Option<GenId>,
    retired: seq<GenId>,
    gens: map<GenId, Gen>,
    nextId: GenId,
    nextNumber: nat,
    inLock: set<Thread>,
    writer: bool,
    pins: map<Thread, GenId>,
    draining: set<Thread>,
    reclaim: Reclaim,
    pc: Updater)

  // ---------------------------------------------------------------------------------------------
  // Derived views

  predicate EnvOpen(s: State) {
    !s.pc.Closed? && !s.pc.Down?
  }

  /** The update thread advances its own program only when it holds no pin and owes no reclaim. */
  predicate UpdaterFree(s: State) {
    UPDATER !in s.pins && UPDATER !in s.draining
  }

  predicate HoldsCandidate(u: Updater) {
    u.SlotChosen? || u.Opened? || u.Importing? || u.MapFull? || u.Growing? || u.Grown? || u.Failed? || u.Committed?
  }

  /** Names that an active or retired generation still refers to. */
  function HeldNames(s: State): set<DbName> {
    set g | g in s.gens :: s.gens[g].name
  }

  predicate SlotFree(s: State, k: nat) {
    Slot(k) !in HeldNames(s)
  }

  function Holders(pins: map<Thread, GenId>, g: GenId): set<Thread> {
    set t | t in pins && pins[t] == g
  }

  /** Index of the first retired generation without readers, or the list's length. */
  function FirstUnread(retired: seq<GenId>, gens: map<GenId, Gen>): (i: nat)
    ensures i <= |retired|
    ensures i < |retired| && retired[i] in gens ==> gens[retired[i]].readers == 0
    ensures forall j :: 0 <= j < i && retired[j] in gens ==> gens[retired[j]].readers > 0
  {
    if retired == [] then 0
    else if retired[0] !in gens || gens[retired[0]].readers == 0 then 0
    else 1 + FirstUnread(retired[1..], gens)
  }

  function Without(s: seq<GenId>, g: GenId): (r: seq<GenId>)
    ensures forall x :: x in r <==> x in s && x != g
    ensures NoDuplicates(s) ==> NoDuplicates(r)
  {
    if s == [] then []
    else if s[0] == g then Without(s[1..], g)
    else
      var rest := Without(s[1..], g);
      assert forall x :: x in s <==> x == s[0] || x in s[1..];
      assert NoDuplicates(s) ==> s[0] !in s[1..];
      [s[0]] + rest
  }

  /** The replacement file built offline from the backend snapshots: everything is in slot 0. */
  function Rebuilt(goal: Goal): File
    requires goal.Replace?
  {
    File(map[Slot(0) := Elems(goal.lines)], Meta(goal.number, Slot(0)), Elems(goal.lines))
  }

  predicate Quiescent(s: State) {
    s.active.Some? && s.active.value in s.gens && s.gens[s.active.value].readers == 0 && s.retired == []
  }

  function WithDb(f: File, name: DbName, content: set<Record>): File {
    f.(dbs := f.dbs[name := content])
  }

  function WithoutDb(f: File, name: DbName): File {
    f.(dbs := f.dbs - {name})
  }

  /** `init_dbi`: publish the database that the metadata names as generation `number`. */
  function Reopen(s: State, number: nat, env: nat): State {
    var name := s.file.meta.name;
    s.(file := s.file.(meta := Meta(number, name)),
       active := Some(s.nextId),
       retired := [],
       gens := map[s.nextId := Gen(number, name, 0, s.file.published)],
       nextId := s.nextId + 1,
       nextNumber := number + 1,
       env := env)
  }

  // ---------------------------------------------------------------------------------------------
  // Steps any thread takes

  /** database_update_read_lock */
  predicate ReadLock(s: State, t: Thread, s': State) {
    && t != UPDATER && t !in s.inLock && !s.writer
    && s' == s.(inLock := s.inLock + {t})
  }

  /** database_update_read_unlock */
  predicate ReadUnlock(s: State, t: Thread, s': State) {
    && t in s.inLock && t !in s.pins && t !in s.draining
    && s' == s.(inLock := s.inLock - {t})
  }

  /** trust_db_generation_acquire; with no environment there is nothing to pin. */
  predicate Acquire(s: State, t: Thread, s': State) {
    && t !in s.pins && t !in s.draining
    && (t in s.inLock || t == UPDATER)
    && (if s.active.None? || s.active.value !in s.gens then s' == s
        else
          var g := s.active.value;
          s' == s.(gens := s.gens[g := s.gens[g].(readers := s.gens[g].readers + 1)], pins := s.pins[t := g]))
  }

  /** The first half of trust_db_generation_release: the caller then owes a reclaim pass. */
  predicate Release(s: State, t: Thread, s': State) {
    && t in s.pins && s.pins[t] in s.gens
    && var g := s.pins[t];
       var left := if s.gens[g].readers > 0 then s.gens[g].readers - 1 else 0;
       s' == s.(gens := s.gens[g := s.gens[g].(readers := left)], pins := s.pins - {t}, draining := s.draining + {t})
  }

  /** Take generation_reclaim_lock. */
  predicate ReclaimBegin(s: State, t: Thread, s': State) {
    && t in s.draining && s.reclaim.NotReclaiming?
    && s' == s.(reclaim := Scanning(t))
  }

  /** Find a retired generation without readers, or finish the pass. */
  predicate ReclaimPick(s: State, s': State) {
    && s.reclaim.Scanning?
    && var i := FirstUnread(s.retired, s.gens);
       if i < |s.retired| then s' == s.(reclaim := Picked(s.reclaim.who, s.retired[i]))
       else s' == s.(reclaim := NotReclaiming, draining := s.draining - {s.reclaim.who})
  }

  /** drop_generation_database: a failed drop ends the pass and keeps the generation listed. */
  predicate ReclaimDrop(s: State, ok: bool, s': State) {
    && s.reclaim.Picked? && s.reclaim.g in s.gens
    && if ok then
         s' == s.(file := WithoutDb(s.file, s.gens[s.reclaim.g].name), reclaim := Dropped(s.reclaim.who, s.reclaim.g))
       else s' == s.(reclaim := NotReclaiming, draining := s.draining - {s.reclaim.who})
  }

  /** Unlink and free the dropped generation, then scan again. */
  predicate ReclaimUnlink(s: State, s': State) {
    && s.reclaim.Dropped?
    && s' == s.(retired := Without(s.retired, s.reclaim.g), gens := s.gens - {s.reclaim.g},
                reclaim := Scanning(s.reclaim.who))
  }

  // ---------------------------------------------------------------------------------------------
  // Steps of the update thread: build and publish a candidate

  /** First half of create_candidate_generation: the lowest slot nobody refers to. */
  predicate ChooseSlot(s: State, k: nat, lines: seq<Record>, s': State) {
    && UpdaterFree(s) && s.pc.Idle?
    && k < GENERATION_SLOTS && SlotFree(s, k) && (forall j: nat :: j < k ==> !SlotFree(s, j))
    && s' == s.(pc := SlotChosen(Candidate(s.nextNumber, Slot(k), lines)))
  }

  /** MDB_CREATE keeps whatever a previous failed drop left behind under this name. */
  predicate OpenCandidate(s: State, ok: bool, s': State) {
    && UpdaterFree(s) && s.pc.SlotChosen?
    && var name := s.pc.c.name;
       if !ok then s' == s.(pc := Idle)
       else s' == s.(file := if name in s.file.dbs then s.file else WithDb(s.file, name, {}), pc := Opened(s.pc.c))
  }

  predicate ClearCandidate(s: State, ok: bool, s': State) {
    && UpdaterFree(s) && s.pc.Opened?
    && if ok then s' == s.(file := WithDb(s.file, s.pc.c.name, {}), pc := Importing(s.pc.c, 0, false))
       else s' == s.(pc := Failed(s.pc.c))
  }

  /** One committed import transaction. */
  predicate ImportChunk(s: State, n: nat, s': State) {
    && UpdaterFree(s) && s.pc.Importing? && s.pc.done + n <= |s.pc.c.lines| && s.pc.c.name in s.file.dbs
    && var c, done := s.pc.c, s.pc.done;
       s' == s.(file := WithDb(s.file, c.name, s.file.dbs[c.name] + Elems(c.lines[done..done + n])),
                pc := Importing(c, done + n, s.pc.retried))
  }

  /** An import error, a full map that may not be retried, or the stop flag. */
  predicate ImportFails(s: State, s': State) {
    && UpdaterFree(s) && s.pc.Importing?
    && s' == s.(pc := Failed(s.pc.c))
  }

  predicate HitMapFull(s: State, s': State) {
    && UpdaterFree(s) && s.pc.Importing? && !s.pc.retried
    && s' == s.(pc := MapFull(s.pc.c))
  }

  predicate LockToGrow(s: State, s': State) {
    && UpdaterFree(s) && s.pc.MapFull? && s.inLock == {}
    && s' == s.(pc := Growing(s.pc.c), writer := true)
  }

  predicate GrowMap(s: State, ok: bool, s': State) {
    && UpdaterFree(s) && s.pc.Growing?
    && s' == s.(pc := if ok then Grown(s.pc.c) else Failed(s.pc.c), writer := false)
  }

  predicate ClearForRetry(s: State, ok: bool, s': State) {
    && UpdaterFree(s) && s.pc.Grown?
    && if ok then s' == s.(file := WithDb(s.file, s.pc.c.name, {}), pc := Importing(s.pc.c, 0, true))
       else s' == s.(pc := Failed(s.pc.c))
  }

  /** The transaction that makes a fully imported candidate the persisted publication. */
  predicate CommitMetadata(s: State, ok: bool, s': State) {
    && UpdaterFree(s) && s.pc.Importing? && s.pc.done == |s.pc.c.lines|
    && var c := s.pc.c;
       if ok then
         s' == s.(file := s.file.(meta := Meta(c.number, c.name), published := Elems(c.lines)), pc := Committed(c))
       else s' == s.(pc := Failed(c))
  }

  /** The in-memory swap; publication then runs a reclaim pass. */
  predicate SwapActive(s: State, s': State) {
    && UpdaterFree(s) && s.pc.Committed?
    && var c := s.pc.c;
       s' == s.(active := Some(s.nextId),
                retired := (if s.active.Some? then [s.active.value] else []) + s.retired,
                gens := s.gens[s.nextId := Gen(c.number, c.name, 0, Elems(c.lines))],
                nextId := s.nextId + 1,
                nextNumber := if s.nextNumber <= c.number then c.number + 1 else s.nextNumber,
                draining := s.draining + {UPDATER},
                pc := Idle)
  }

  predicate DropCandidate(s: State, ok: bool, s': State) {
    && UpdaterFree(s) && s.pc.Failed?
    && s' == s.(file := if ok then WithoutDb(s.file, s.pc.c.name) else s.file, pc := Idle)
  }

  /** database_store_update_record: one record written straight into the active generation. */
  predicate StoreRecord(s: State, r: Record, s': State) {
    && UpdaterFree(s) && s.pc.Idle?
    && s.active.Some? && s.active.value in s.gens && s.gens[s.active.value].name in s.file.dbs
    && var g := s.active.value;
       var name := s.gens[g].name;
       s' == s.(file := WithDb(s.file, name, s.file.dbs[name] + {r}).(published := s.file.published + {r}),
                gens := s.gens[g := s.gens[g].(complete := s.gens[g].complete + {r})])
  }

  // ---------------------------------------------------------------------------------------------
  // Steps of the update thread: close, replace and reopen the environment

  predicate LockForMaintenance(s: State, goal: Goal, s': State) {
    && UpdaterFree(s) && s.pc.Idle? && s.inLock == {}
    && (goal.Replace? ==> goal.number == s.nextNumber)
    && s' == s.(pc := Maintenance(goal), writer := true,
                draining := if goal.Replace? then s.draining + {UPDATER} else s.draining)
  }

  predicate Postpone(s: State, s': State) {
    && UpdaterFree(s) && s.pc.Maintenance? && s.pc.goal.Replace? && !Quiescent(s)
    && s' == s.(pc := Idle, writer := false)
  }

  /** close_env: retired generations are forgotten, their databases stay behind in the file. */
  predicate CloseEnvironment(s: State, s': State) {
    && UpdaterFree(s) && s.pc.Maintenance? && (s.pc.goal.Replace? ==> Quiescent(s))
    && s.active.Some? && s.active.value in s.gens
    && var number := s.gens[s.active.value].number;
       var was := Was(s.file, number, s.env, number, false);
       s' == s.(active := None, retired := [], gens := map[], nextNumber := 1,
                pc := Closed(s.pc.goal, was, if s.pc.goal.Resize? then ReopenOld(2) else Starting))
  }

  /**
   A shrinking reload or a compaction after a failed reopen. There is nothing to close or to reclaim, and
   without an active generation its number counts as 1. An older backup stays behind under another name.
   */
  predicate RecoverFromDown(s: State, goal: Goal, s': State) {
    && UpdaterFree(s) && s.pc.Down? && s.inLock == {}
    && (goal.Replace? ==> goal.number == s.nextNumber)
    && var was := Was(s.file, 1, s.env, s.pc.was.last, true);
       s' == s.(backup := None, writer := true,
                pc := Closed(goal, was, if goal.Resize? then ReopenOld(2) else Starting))
  }

  predicate LinkBackup(s: State, ok: bool, s': State) {
    && s.pc.Closed? && s.pc.stage.Starting?
    && if ok then s' == s.(backup := Some(s.file), pc := s.pc.(stage := Linked))
       else s' == s.(pc := s.pc.(stage := ReopenOld(1)))
  }

  predicate RenameNew(s: State, ok: bool, s': State) {
    && s.pc.Closed? && s.pc.stage.Linked? && s.pc.goal.Replace?
    && if ok then s' == s.(file := Rebuilt(s.pc.goal), pc := s.pc.(stage := Renamed))
       else s' == s.(backup := None, pc := s.pc.(stage := ReopenOld(1)))
  }

  predicate OpenNew(s: State, ok: bool, s': State) {
    && s.pc.Closed? && s.pc.stage.Renamed? && s.pc.goal.Replace?
    && (ok ==> s.file.meta.name in s.file.dbs)
    && if ok then
         s' == Reopen(s, s.pc.goal.number, s.pc.was.env + 1).(backup := None, pc := Reopened(s.pc.goal, s.pc.was))
       else s' == s.(pc := s.pc.(stage := Restoring))
  }

  /** restore_lmdb_data_file can fail before or after the rename that puts the backup back. */
  predicate Restore(s: State, renamed: bool, ok: bool, s': State) {
    && s.pc.Closed? && s.pc.stage.Restoring? && s.backup.Some? && (ok ==> renamed)
    && var file := if renamed then s.backup.value else s.file;
       if ok then s' == s.(file := file, backup := None, pc := s.pc.(stage := ReopenOld(1)))
       else s' == s.(file := file, pc := Down(s.pc.was), writer := false)
  }

  predicate OpenOld(s: State, ok: bool, s': State) {
    && s.pc.Closed? && s.pc.stage.ReopenOld?
    && (ok ==> s.file.meta.name in s.file.dbs)
    && if ok then s' == Reopen(s, s.pc.was.number, s.pc.was.env).(pc := Reopened(s.pc.goal, s.pc.was))
       else if s.pc.stage.tries > 1 then s' == s.(pc := s.pc.(stage := ReopenOld(s.pc.stage.tries - 1)))
       else s' == s.(pc := Down(s.pc.was), writer := false)
  }

  predicate WriteUnlock(s: State, s': State) {
    && UpdaterFree(s) && s.pc.Reopened?
    && s' == s.(pc := Idle, writer := false)
  }

  // ---------------------------------------------------------------------------------------------
  // One step of any thread

  ghost predicate ThreadStep(s: State, s': State) {
    || (exists t :: ReadLock(s, t, s'))
    || (exists t :: ReadUnlock(s, t, s'))
    || (exists t :: Acquire(s, t, s'))
    || (exists t :: Release(s, t, s'))
  }

  ghost predicate ReclaimStep(s: State, s': State) {
    || (exists t :: ReclaimBegin(s, t, s'))
    || ReclaimPick(s, s')
    || (exists ok :: ReclaimDrop(s, ok, s'))
    || ReclaimUnlink(s, s')
  }

  ghost predicate CandidateStep(s: State, s': State) {
    || (exists k, lines :: ChooseSlot(s, k, lines, s'))
    || (exists ok :: OpenCandidate(s, ok, s'))
    || (exists ok :: ClearCandidate(s, ok, s'))
    || (exists n :: ImportChunk(s, n, s'))
    || ImportFails(s, s')
    || HitMapFull(s, s')
    || LockToGrow(s, s')
    || (exists ok :: GrowMap(s, ok, s'))
    || (exists ok :: ClearForRetry(s, ok, s'))
    || (exists ok :: CommitMetadata(s, ok, s'))
    || (exists ok :: DropCandidate(s, ok, s'))
  }

  ghost predicate PublishedStep(s: State, s': State) {
    || SwapActive(s, s')
    || (exists r :: StoreRecord(s, r, s'))
  }

  ghost predicate MaintenanceStep(s: State, s': State) {
    || (exists goal :: LockForMaintenance(s, goal, s'))
    || Postpone(s, s')
    || CloseEnvironment(s, s')
    || (exists goal :: RecoverFromDown(s, goal, s'))
    || (exists ok :: LinkBackup(s, ok, s'))
    || (exists ok :: RenameNew(s, ok, s'))
    || (exists ok :: OpenNew(s, ok, s'))
    || (exists renamed, ok :: Restore(s, renamed, ok, s'))
    || (exists ok :: OpenOld(s, ok, s'))
    || WriteUnlock(s, s')
  }

  ghost predicate Step(s: State, s': State) {
    ThreadStep(s, s') || ReclaimStep(s, s') || CandidateStep(s, s') || PublishedStep(s, s') || MaintenanceStep(s, s')
  }
}
