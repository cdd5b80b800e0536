/**
 The import loop and the generation protocol meet here: each transaction that the import commits is one
 chunk step of the protocol, and what the protocol publishes are the parsed records of the snapshot lines.
 */
module ImportRefinement {
  import opened Prelude
  import opened SnapshotLines
  import opened SnapshotImport
  import opened TrustGenerations
  import opened GenerationInvariant
  import opened GenerationSafety
  import opened GenerationProgress

  /** The update thread imports `lines` and has committed the first `k` of them. */
  ghost predicate ImportedTo(s: State, lines: seq<string>, k: nat, read: string -> Option<Record>) {
    && UpdaterFree(s) && s.pc.Importing? && s.pc.c.lines == RecordList(lines, read) && k <= |lines|
    && s.pc.done == |RecordList(lines[..k], read)|
    && s.pc.c.name in s.file.dbs && s.file.dbs[s.pc.c.name] == Records(lines[..k], read)
  }

  /** The state in which only the import has moved on, to line `k`. */
  ghost function MovedTo(s: State, lines: seq<string>, k: nat, read: string -> Option<Record>): State
    requires s.pc.Importing? && k <= |lines|
  {
    s.(file := WithDb(s.file, s.pc.c.name, Records(lines[..k], read)),
       pc := Importing(s.pc.c, |RecordList(lines[..k], read)|, s.pc.retried))
  }

  lemma PrefixOfRecords(a: seq<string>, lines: seq<string>, read: string -> Option<Record>)
    requires a <= lines
    ensures RecordList(a, read) <= RecordList(lines, read)
  {
    assert lines == a + lines[|a|..];
    RecordListConcat(a, lines[|a|..], read);
  }

  /** Adding what lies between two prefixes leads from the elements of one to those of the other. */
  lemma ElemsBetween<T>(s: seq<T>, a: seq<T>, b: seq<T>)
    requires a <= b <= s
    ensures Elems(a) + Elems(s[|a|..|b|]) == Elems(b)
  {
    assert b == a + s[|a|..|b|];
  }

  /**
   A committed transaction is a chunk step, whatever the other threads have done since the last one: the
   step depends on the update thread's own state and on the candidate's database only.
   */
  lemma CommitIsAChunk(s: State, lines: seq<string>, j: nat, k: nat, read: string -> Option<Record>)
    requires j <= k <= |lines| && ImportedTo(s, lines, j, read)
    ensures s.pc.done <= |RecordList(lines[..k], read)|
    ensures ImportChunk(s, |RecordList(lines[..k], read)| - s.pc.done, MovedTo(s, lines, k, read))
    ensures ImportedTo(MovedTo(s, lines, k, read), lines, k, read)
  {
    PrefixOfRecords(lines[..j], lines[..k], read);
    PrefixOfRecords(lines[..k], lines, read);
    ElemsBetween(s.pc.c.lines, RecordList(lines[..j], read), RecordList(lines[..k], read));
  }

  ghost predicate ChunkStep(s: State, s': State) {
    exists n: nat :: ImportChunk(s, n, s')
  }

  /** An undisturbed import, after `i` commits. */
  ghost function AfterCommits(
    s: State, lines: seq<string>, cuts: seq<nat>, i: nat, read: string -> Option<Record>): State
    requires s.pc.Importing? && i <= |cuts| && forall k :: 0 <= k < |cuts| ==> cuts[k] <= |lines|
  {
    if i == 0 then s else MovedTo(s, lines, cuts[i - 1], read)
  }

  lemma MovedFurther(s: State, lines: seq<string>, j: nat, k: nat, read: string -> Option<Record>)
    requires j <= k <= |lines| && ImportedTo(s, lines, 0, read)
    ensures ImportedTo(MovedTo(s, lines, j, read), lines, j, read)
    ensures ChunkStep(MovedTo(s, lines, j, read), MovedTo(s, lines, k, read))
  {
    CommitIsAChunk(s, lines, 0, j, read);
    CommitIsAChunk(MovedTo(s, lines, j, read), lines, j, k, read);
    assert MovedTo(MovedTo(s, lines, j, read), lines, k, read) == MovedTo(s, lines, k, read);
  }

  /** The commits that the import makes on a cleared candidate are chunk steps, one after the other. */
  lemma CommitsAreChunks(
    s: State, commits: seq<set<Record>>, lines: seq<string>, cuts: seq<nat>, i: nat, read: string -> Option<Record>)
    requires ImportedTo(s, lines, 0, read) && PrefixCommits(commits, {}, lines, cuts, read) && i < |commits|
    ensures ChunkStep(AfterCommits(s, lines, cuts, i, read), AfterCommits(s, lines, cuts, i + 1, read))
    ensures AfterCommits(s, lines, cuts, i + 1, read).file.dbs[s.pc.c.name] == commits[i]
  {
    if i == 0 {
      CommitIsAChunk(s, lines, 0, cuts[0], read);
    } else {
      MovedFurther(s, lines, cuts[i - 1], cuts[i], read);
    }
  }

  /** A finished import allows the metadata commit: the last chunk leads to the end of the lines. */
  lemma FinishedImportCanCommit(
    s: State, commits: seq<set<Record>>, lines: seq<string>, cuts: seq<nat>, read: string -> Option<Record>)
    requires ImportedTo(s, lines, 0, read) && PrefixCommits(commits, {}, lines, cuts, read)
    requires Latest(commits, {}) == Records(lines, read)
    ensures var last, end := AfterCommits(s, lines, cuts, |cuts|, read), MovedTo(s, lines, |lines|, read);
            && ChunkStep(last, end) && end.file == last.file && end.pc.done == |s.pc.c.lines|
            && exists s' :: CommitMetadata(end, true, s')
  {
    var end := MovedTo(s, lines, |lines|, read);
    assert lines[..|lines|] == lines && lines[..0] == [];
    if cuts == [] {
      CommitIsAChunk(s, lines, 0, |lines|, read);
      assert Records(lines[..0], read) == {};
      assert end.file.dbs == s.file.dbs;
    } else {
      var k := cuts[|cuts| - 1];
      MovedFurther(s, lines, k, |lines|, read);
      assert Records(lines[..k], read) == Records(lines, read);
    }
    var c := s.pc.c;
    assert CommitMetadata(end, true,
      end.(file := end.file.(meta := Meta(c.number, c.name), published := Elems(c.lines)), pc := Updater.Committed(c)));
  }

  /** A committed candidate holds exactly the parsed records of the snapshot lines, chunked or retried. */
  lemma CommittedCandidateHoldsTheLines(run: seq<State>, i: nat, lines: seq<string>, read: string -> Option<Record>)
    requires Run(run) && i < |run| && run[i].pc.Committed? && run[i].pc.c.lines == RecordList(lines, read)
    ensures var s := run[i]; var c := s.pc.c;
            && s.file.meta == Meta(c.number, c.name)
            && c.name in s.file.dbs && s.file.dbs[c.name] == Records(lines, read)
  {
    CommittedCandidateIsTheSnapshot(run, i);
  }

  // ---------------------------------------------------------------------------------------------
  // From a successful import to the service

  /** The machine makes the first `n` commits. */
  lemma {:induction false} ReplayCommits(
    run: seq<State>, commits: seq<set<Record>>, lines: seq<string>, cuts: seq<nat>, n: nat,
    read: string -> Option<Record>)
    returns (run': seq<State>)
    requires Run(run) && ImportedTo(run[|run| - 1], lines, 0, read)
    requires PrefixCommits(commits, {}, lines, cuts, read) && n <= |commits|
    ensures Run(run') && run <= run' && |run'| == |run| + n
    ensures run'[|run'| - 1] == AfterCommits(run[|run| - 1], lines, cuts, n, read)
    ensures forall k :: 0 <= k < n ==>
              HasContents(run'[|run| + k], run[|run| - 1].pc.c.name, commits[k])
  {
    var s := run[|run| - 1];
    if n == 0 {
      run' := run;
    } else {
      var before := ReplayCommits(run, commits, lines, cuts, n - 1, read);
      CommitsAreChunks(s, commits, lines, cuts, n - 1, read);
      var next := AfterCommits(s, lines, cuts, n, read);
      ExtendChunk(before, next);
      run' := before + [next];
    }
  }

  ghost predicate HasContents(s: State, name: DbName, records: set<Record>) {
    name in s.file.dbs && s.file.dbs[name] == records
  }

  lemma ExtendChunk(run: seq<State>, s': State)
    requires Run(run) && ChunkStep(run[|run| - 1], s')
    ensures Run(run + [s'])
  {
    ExtendCandidate(run, s');
  }

  /** The rest of the lines adds nothing, and the metadata commit makes the candidate the publication. */
  lemma FinishAndCommit(
    run: seq<State>, s: State, commits: seq<set<Record>>, lines: seq<string>, cuts: seq<nat>,
    read: string -> Option<Record>)
    returns (run': seq<State>)
    requires ImportedTo(s, lines, 0, read) && PrefixCommits(commits, {}, lines, cuts, read)
    requires Latest(commits, {}) == Records(lines, read)
    requires Run(run) && run[|run| - 1] == AfterCommits(s, lines, cuts, |cuts|, read)
    ensures Run(run') && run <= run' && UpdaterFree(run'[|run'| - 1])
    ensures run'[|run'| - 1].pc == Updater.Committed(s.pc.c)
  {
    FinishedImportCanCommit(s, commits, lines, cuts, read);
    var end := MovedTo(s, lines, |lines|, read);
    ExtendChunk(run, end);
    var done :| CommitMetadata(end, true, done);
    ExtendCandidate(run + [end], done);
    run' := run + [end] + [done];
  }

  lemma IdleServesItsDatabase(run: seq<State>)
    requires Run(run) && run[|run| - 1].pc.Idle?
    ensures var s := run[|run| - 1];
            && s.active.Some? && s.active.value in s.gens
            && HasContents(s, s.gens[s.active.value].name, s.gens[s.active.value].complete)
            && s.file.meta == Meta(s.gens[s.active.value].number, s.gens[s.active.value].name)
  {
    RunHasInv(run, |run| - 1);
  }

  /**
   What a successful create_database_for_generation leaves can be published: the machine makes the same
   commits, one after the other, and ends with a generation that serves exactly the parsed records of
   the available backends.
   */
  lemma SuccessfulImportIsServed(
    run: seq<State>, backends: seq<Option<seq<string>>>, commits: seq<set<Record>>, cuts: seq<nat>,
    read: string -> Option<Record>)
    returns (run': seq<State>)
    requires Run(run) && ImportedTo(run[|run| - 1], Flat(backends), 0, read)
    requires PrefixCommits(commits, {}, Flat(backends), cuts, read)
    requires Latest(commits, {}) == Records(Flat(backends), read)
    ensures Run(run') && run <= run' && |run'| >= |run| + |commits|
    ensures forall k :: 0 <= k < |commits| ==>
              HasContents(run'[|run| + k], run[|run| - 1].pc.c.name, commits[k])
    ensures var s := run'[|run'| - 1];
            && s.pc.Idle? && s.active.Some? && s.active.value in s.gens
            && s.gens[s.active.value].complete == Records(Flat(backends), read)
            && HasContents(s, s.gens[s.active.value].name, Records(Flat(backends), read))
            && s.file.meta == Meta(s.gens[s.active.value].number, s.gens[s.active.value].name)
  {
    var s, lines := run[|run| - 1], Flat(backends);
    var imported := ReplayCommits(run, commits, lines, cuts, |commits|, read);
    var committed := FinishAndCommit(imported, s, commits, lines, cuts, read);
    run' := Publish(committed);
    IdleServesItsDatabase(run');
  }
}
