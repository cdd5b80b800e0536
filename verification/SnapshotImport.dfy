/** Importing backend snapshots: bounded transactions, and one retry after a full map. */
module SnapshotImport {
  import opened Prelude
  import opened SnapshotLines

  const TXN_RECORDS: nat := 4096
  const WRITE_DB_MAP_FULL: int := 6

  // ---------------------------------------------------------------------------------------------
  // Where the transaction boundaries fall

  /**
   Commit number `i` left `base` and the records of the first `cuts[i]` lines: whole lines, in order,
   none left out.
   */
  ghost predicate PrefixCommits(
    commits: seq<set<Record>>, base: set<Record>, lines: seq<string>, cuts: seq<nat>, read: string -> Option<Record>)
  {
    && |commits| == |cuts|
    && (forall i :: 0 <= i < |cuts| ==> cuts[i] <= |lines| && commits[i] == base + Records(lines[..cuts[i]], read))
    && (forall i, j :: 0 <= i < j < |cuts| ==> cuts[i] <= cuts[j])
  }

  /** What the commits left in the database. */
  ghost function Latest(commits: seq<set<Record>>, base: set<Record>): set<Record> {
    if commits == [] then base else commits[|commits| - 1]
  }

  lemma OneMoreCommit(
    commits: seq<set<Record>>, base: set<Record>, lines: seq<string>, cuts: seq<nat>, k: nat,
    read: string -> Option<Record>)
    requires PrefixCommits(commits, base, lines, cuts, read) && k <= |lines|
    requires forall i :: 0 <= i < |cuts| ==> cuts[i] <= k
    ensures PrefixCommits(commits + [base + Records(lines[..k], read)], base, lines, cuts + [k], read)
  {
  }

  ghost function Shifted(cuts: seq<nat>, offset: nat): (r: seq<nat>)
    ensures |r| == |cuts| && forall i :: 0 <= i < |r| ==> r[i] == cuts[i] + offset
  {
    seq(|cuts|, i requires 0 <= i < |cuts| => cuts[i] + offset)
  }

  /** The commits of one snapshot, seen as commits of a concatenation in which it follows `before`. */
  lemma ShiftCommits(
    commits: seq<set<Record>>, base: set<Record>, lines: seq<string>, before: seq<string>, part: seq<string>,
    cuts: seq<nat>, read: string -> Option<Record>)
    requires before + part <= lines && PrefixCommits(commits, base + Records(before, read), part, cuts, read)
    ensures PrefixCommits(commits, base, lines, Shifted(cuts, |before|), read)
  {
    forall i | 0 <= i < |cuts|
      ensures commits[i] == base + Records(lines[..cuts[i] + |before|], read)
    {
      assert lines[..cuts[i] + |before|] == before + part[..cuts[i]];
      RecordsConcat(before, part[..cuts[i]], read);
    }
  }

  lemma JoinCommits(
    a: seq<set<Record>>, b: seq<set<Record>>, base: set<Record>, lines: seq<string>, cuts: seq<nat>, more: seq<nat>,
    read: string -> Option<Record>)
    requires PrefixCommits(a, base, lines, cuts, read) && PrefixCommits(b, base, lines, more, read)
    requires forall i, j :: 0 <= i < |cuts| && 0 <= j < |more| ==> cuts[i] <= more[j]
    ensures PrefixCommits(a + b, base, lines, cuts + more, read)
  {
  }

  /** The commits of one more snapshot follow those of the lines before it. */
  lemma PartCommits(
    done: seq<set<Record>>, commits: seq<set<Record>>, base: set<Record>, lines: seq<string>, before: seq<string>,
    part: seq<string>, cuts: seq<nat>, more: seq<nat>, read: string -> Option<Record>)
    requires before + part <= lines && Latest(done, base) == base + Records(before, read)
    requires PrefixCommits(done, base, lines, cuts, read) && forall k :: 0 <= k < |cuts| ==> cuts[k] <= |before|
    requires PrefixCommits(commits, base + Records(before, read), part, more, read)
    ensures var cuts' := cuts + Shifted(more, |before|);
            && PrefixCommits(done + commits, base, lines, cuts', read)
            && forall k :: 0 <= k < |cuts'| ==> cuts'[k] <= |before + part|
    ensures Latest(done + commits, base) == Latest(commits, base + Records(before, read))
  {
    ShiftCommits(commits, base, lines, before, part, more, read);
    JoinCommits(done, commits, base, lines, cuts, Shifted(more, |before|), read);
  }

  /** The snapshots of the available backends, one after the other; a backend without one contributes nothing. */
  ghost function Flat(backends: seq<Option<seq<string>>>): seq<string> {
    if backends == [] then []
    else
      var n := |backends| - 1;
      Flat(backends[..n]) + if backends[n].Some? then backends[n].value else []
  }

  lemma FlatNext(backends: seq<Option<seq<string>>>, i: nat)
    requires i < |backends|
    ensures backends[i].None? ==> Flat(backends[..i + 1]) == Flat(backends[..i])
    ensures backends[i].Some? ==> Flat(backends[..i + 1]) == Flat(backends[..i]) + backends[i].value
  {
    assert backends[..i + 1][..i] == backends[..i];
  }

  lemma {:induction false} FlatPrefix(backends: seq<Option<seq<string>>>, i: nat)
    requires i <= |backends|
    ensures Flat(backends[..i]) <= Flat(backends)
    decreases |backends|
  {
    var n := |backends| - 1;
    if i == |backends| {
      assert backends[..i] == backends;
    } else {
      assert backends[..n][..i] == backends[..i];
      FlatPrefix(backends[..n], i);
    }
  }

  /** The candidate database. LMDB answers and the stop flag are arbitrary functions of the clock; stop never clears. */
  class Store {
    const maxKey: nat
    const sha: string -> string
    const fault: nat -> int
    const stopTime: nat

    var clock: nat
    /** Committed records, and those of the open transaction. */
    var db: set<Record>
    var txn: Option<set<Record>>
    /** What the database held after each commit, since it was last cleared. */
    ghost var commits: seq<set<Record>>

    constructor (maxKey: nat, sha: string -> string, fault: nat -> int, stopTime: nat)
      ensures db == {} && txn.None? && commits == []
    {
      this.maxKey, this.sha, this.fault, this.stopTime := maxKey, sha, fault, stopTime;
      clock, db, txn, commits := 0, {}, None, [];
    }

    predicate Stopped()
      reads this`clock
    {
      clock >= stopTime
    }

    function Read(): string -> Option<Record> {
      Reader(maxKey, sha)
    }

    ghost function All(lines: seq<string>): set<Record> {
      Records(lines, Read())
    }

    ghost predicate CutAt(done: seq<set<Record>>, base: set<Record>, lines: seq<string>, cuts: seq<nat>) {
      PrefixCommits(done, base, lines, cuts, Read())
    }

    /** Ask LMDB; zero means success. */
    method Ask() returns (rc: int)
      modifies this`clock
      ensures clock == old(clock) + 1
    {
      rc := fault(clock);
      clock := clock + 1;
    }

    /** Records written so far, committed or not. */
    ghost function Written(): set<Record>
      reads this`db, this`txn
    {
      db + if txn.Some? then txn.value else {}
    }

    /** Commit the open transaction. */
    method Commit() returns (rc: int)
      requires txn.Some?
      modifies this`clock, this`db, this`txn, this`commits
      ensures clock >= old(clock) && txn.None?
      ensures rc == 0 ==> db == old(Written()) && commits == old(commits) + [db]
      ensures rc != 0 ==> db == old(db) && commits == old(commits)
    {
      rc := Ask();
      if rc == 0 {
        db := db + txn.value;
        commits := commits + [db];
      }
      txn := None;
    }

    /** Put one record into a transaction that is begun when needed; a failed put aborts it. */
    method Put(r: Record) returns (rc: int)
      modifies this`clock, this`txn
      ensures clock >= old(clock)
      ensures rc == 0 ==> txn.Some? && Written() == old(Written()) + {r}
      ensures rc != 0 ==> txn.None?
    {
      if txn.None? {
        rc := Ask();
        if rc != 0 {
          return;
        }
        txn := Some({});
      }
      rc := Ask();
      txn := if rc != 0 then None else Some(txn.value + {r});
    }

    /** One line of the import loop; a malformed line is skipped. */
    method ImportLine(line: string, txnRecords0: nat) returns (rc: int, txnRecords: nat)
      modifies this`clock, this`db, this`txn, this`commits
      ensures clock >= old(clock)
      ensures rc == 0 ==> Written() == old(Written()) + All([line])
      ensures rc != 0 ==> txn.None?
      ensures commits != old(commits) ==>
                rc == 0 && db == old(Written()) + All([line]) && commits == old(commits) + [db]
      ensures commits == old(commits) ==> db == old(db)
    {
      rc, txnRecords := 0, txnRecords0;
      var parsed := RecordFromLine(line);
      RecordsOfOne(line, Read());
      if parsed.None? {
        return;
      }
      rc := Put(Record(KeyFor(parsed.value.idx, maxKey, sha), parsed.value.data));
      if rc != 0 {
        return;
      }
      txnRecords := txnRecords + 1;
      if txnRecords >= TXN_RECORDS {
        rc := Commit();
        txnRecords := 0;
      }
    }

    lemma NextLine(base: set<Record>, lines: seq<string>, i: nat)
      requires i < |lines|
      ensures base + All(lines[..i]) + All([lines[i]]) == base + All(lines[..i + 1])
    {
      assert lines[..i + 1] == lines[..i] + [lines[i]];
      RecordsConcat(lines[..i], [lines[i]], Read());
    }

    /** The database holds what its commits left, each at or before line `i`. */
    ghost predicate Reached(base: set<Record>, lines: seq<string>, i: nat, cuts: seq<nat>)
      reads this`db, this`commits
    {
      && db == Latest(commits, base) && CutAt(commits, base, lines, cuts)
      && i <= |lines| && forall k :: 0 <= k < |cuts| ==> cuts[k] <= i
    }

    /** The import of line number `i`. */
    method ImportNext(lines: seq<string>, i: nat, txnRecords0: nat, ghost base: set<Record>, ghost cuts0: seq<nat>)
      returns (rc: int, txnRecords: nat, ghost cuts: seq<nat>)
      requires i < |lines| && Reached(base, lines, i, cuts0) && Written() == base + All(lines[..i])
      modifies this`clock, this`db, this`txn, this`commits
      ensures clock >= old(clock) && Reached(base, lines, i + 1, cuts)
      ensures rc == 0 ==> Written() == base + All(lines[..i + 1])
      ensures rc != 0 ==> txn.None?
    {
      cuts := cuts0;
      NextLine(base, lines, i);
      rc, txnRecords := ImportLine(lines[i], txnRecords0);
      if commits != old(commits) {
        OneMoreCommit(old(commits), base, lines, cuts, i + 1, Read());
        cuts := cuts + [i + 1];
      }
    }

    /** The loop of the import. A database error while reading ends it, and so does the stop flag. */
    method ImportLines(lines: seq<string>) returns (rc: int, entries: nat, ghost cuts: seq<nat>)
      requires txn.None? && commits == []
      modifies this`clock, this`db, this`txn, this`commits
      ensures clock >= old(clock) && Reached(old(db), lines, |lines|, cuts)
      ensures rc == 0 && !Stopped() ==> entries == |lines| && Written() == old(db) + All(lines)
    {
      rc, entries, cuts := 0, 0, [];
      var i, txnRecords, more := 0, 0, lines != [];
      assert lines[..0] == [];
      while more && rc == 0
        invariant 0 <= i <= |lines| && clock >= old(clock) && (more ==> i < |lines|)
        invariant Reached(old(db), lines, i, cuts)
        invariant rc == 0 ==> entries == i && Written() == old(db) + All(lines[..i])
        invariant rc == 0 && !more ==> i == |lines| || Stopped()
        decreases |lines| - i, rc == 0
      {
        rc := Ask();
        if rc != 0 {
          rc, txn := 1, None;
          break;
        }
        entries := entries + 1;
        rc, txnRecords, cuts := ImportNext(lines, i, txnRecords, old(db), cuts);
        i := i + 1;
        more := i < |lines| && !Stopped();
      }
      assert i == |lines| ==> lines[..i] == lines;
    }

    /**
     do_memfd_update_to_dbi_in_env: success means that exactly the snapshot's records were added. Every
     commit on the way, also of an import that fails later, leaves the records of some first lines.
     */
    method Import(lines: seq<string>) returns (rc: int, entries: nat, ghost cuts: seq<nat>)
      requires txn.None? && commits == []
      modifies this`clock, this`db, this`txn, this`commits
      ensures txn.None? && clock >= old(clock) && Reached(old(db), lines, |lines|, cuts)
      ensures rc == 0 && !Stopped() ==> db == old(db) + All(lines) && entries == |lines|
    {
      rc, entries, cuts := ImportLines(lines);
      if txn.Some? {
        if rc == 0 && !Stopped() {
          assert lines[..|lines|] == lines;
          OneMoreCommit(commits, old(db), lines, cuts, |lines|, Read());
          rc := Commit();
          if rc == 0 {
            cuts := cuts + [|lines|];
          }
        } else {
          txn := None;
        }
      }
    }

    /** One backend's snapshot `part`, after the snapshots `before` it in the concatenation `flat` of them all. */
    method ImportPart(part: seq<string>, ghost before: seq<string>, ghost flat: seq<string>, ghost cuts0: seq<nat>)
      returns (rc: int, ghost cuts: seq<nat>)
      requires before + part <= flat && txn.None? && Reached({}, flat, |before|, cuts0) && db == All(before)
      modifies this`clock, this`db, this`txn, this`commits
      ensures txn.None? && clock >= old(clock) && Reached({}, flat, |before + part|, cuts)
      ensures rc == 0 && !Stopped() ==> db == All(before + part)
    {
      ghost var done := commits;
      commits := [];
      var entries;
      rc, entries, cuts := Import(part);
      assert {} + All(before) == All(before);
      PartCommits(done, commits, {}, flat, before, part, cuts0, cuts, Read());
      RecordsConcat(before, part, Read());
      cuts, commits := cuts0 + Shifted(cuts, |before|), done + commits;
    }

    /** Backend number `i`, if it has a snapshot. */
    method LoadBackend(backends: seq<Option<seq<string>>>, i: nat, ghost flat: seq<string>, ghost cuts0: seq<nat>)
      returns (rc: int, ghost cuts: seq<nat>)
      requires i < |backends| && Flat(backends[..i + 1]) <= flat && txn.None?
      requires Reached({}, flat, |Flat(backends[..i])|, cuts0) && db == All(Flat(backends[..i]))
      modifies this`clock, this`db, this`txn, this`commits
      ensures txn.None? && clock >= old(clock) && Reached({}, flat, |Flat(backends[..i + 1])|, cuts)
      ensures rc == 0 && !Stopped() ==> db == All(Flat(backends[..i + 1]))
    {
      FlatNext(backends, i);
      rc, cuts := 0, cuts0;
      if backends[i].Some? {
        rc, cuts := ImportPart(backends[i].value, Flat(backends[..i]), flat, cuts);
      }
    }

    /** The loop over the backends. */
    method LoadBackends(backends: seq<Option<seq<string>>>) returns (rc: int, ghost cuts: seq<nat>)
      requires txn.None? && db == {} && commits == []
      modifies this`clock, this`db, this`txn, this`commits
      ensures txn.None? && clock >= old(clock)
      ensures CutAt(commits, {}, Flat(backends), cuts) && db == Latest(commits, {})
      ensures rc == 0 && !Stopped() ==> db == All(Flat(backends))
    {
      rc, cuts := 0, [];
      var i := 0;
      assert backends[..0] == [];
      while i < |backends| && !Stopped() && rc == 0
        invariant 0 <= i <= |backends| && txn.None? && clock >= old(clock)
        invariant Reached({}, Flat(backends), |Flat(backends[..i])|, cuts)
        invariant rc == 0 && !Stopped() ==> db == All(Flat(backends[..i]))
        decreases |backends| - i, rc == 0
      {
        FlatPrefix(backends, i + 1);
        rc, cuts := LoadBackend(backends, i, Flat(backends), cuts);
        i := i + 1;
      }
      assert i == |backends| ==> backends[..i] == backends;
    }

    /**
     create_database_for_generation on an empty candidate: one retry after a full map, on a cleared
     candidate. Success means that the candidate holds exactly the records of the available backends.
     Each commit since the candidate was last cleared holds the records of some first lines.
     */
    method CreateDatabase(backends: seq<Option<seq<string>>>, autoSizing: bool) returns (rc: int, ghost cuts: seq<nat>)
      requires txn.None? && db == {} && commits == []
      modifies this`clock, this`db, this`txn, this`commits
      ensures txn.None?
      ensures CutAt(commits, {}, Flat(backends), cuts) && db == Latest(commits, {})
      ensures rc == 0 ==> db == All(Flat(backends)) && !Stopped()
    {
      var retries := 0;
      while true
        invariant txn.None? && db == {} && commits == [] && retries <= 1
        decreases 1 - retries
      {
        rc, cuts := LoadBackends(backends);
        if rc == WRITE_DB_MAP_FULL && autoSizing && retries == 0 {
          var grown := Ask();
          if grown == 0 {
            var cleared := Ask();
            if cleared == 0 {
              db, commits := {}, [];
              retries := retries + 1;
              continue;
            }
          }
        }
        break;
      }
      if Stopped() {
        rc := 1;
      }
    }
  }
}
