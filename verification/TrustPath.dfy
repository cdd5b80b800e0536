/** From backend snapshots to verdicts: an imported database trusts exactly the files its records describe. */
module TrustPath {
  import opened Prelude
  import opened SnapshotLines
  import opened TrustLookup
  import opened TrustRecords
  import G = TrustGenerations
  import GenerationInvariant
  import GenerationSafety

  /** What the digest buffer holds before each read: anything. */
  predicate Buffers(lefts: seq<string>, values: seq<string>) {
    |lefts| == |values| && forall i :: 0 <= i < |lefts| ==> |lefts[i]| == DIGEST_MAX
  }

  /** What the cursor hands out for the values stored under one key. */
  function Cursor(values: seq<string>, lefts: seq<string>): (rows: seq<Read>)
    requires Buffers(lefts, values)
    ensures |rows| == |values|
    ensures forall i :: 0 <= i < |rows| ==> rows[i] == Value(ParseRecord(values[i], lefts[i]))
  {
    seq(|values|, i requires 0 <= i < |values| => Value(ParseRecord(values[i], lefts[i])))
  }

  /** The cursor enumerates the records of a path, each once or more, in any order. */
  ghost predicate Enumerates(values: seq<string>, db: set<Record>, key: DbKey) {
    forall d :: d in values <==> Record(key, d) in db
  }

  /** The cursor can be read to its end: few enough duplicates, all well formed. */
  predicate Readable(values: seq<string>) {
    |values| + 1 < MAX_TRIES && forall i :: 0 <= i < |values| ==> ScanRecord(values[i]).Some?
  }

  /** The file's contents can be hashed with every algorithm the configuration admits. */
  ghost predicate Hashable(file: File, sha256Only: bool) {
    HexDigests(file) && forall alg :: Admitted(alg, sha256Only) ==> file.hash(alg).Some?
  }

  lemma ReadDecides(d: string, left: string, sha256Only: bool, file: File)
    requires |left| == DIGEST_MAX && ScanRecord(d).Some? && Hashable(file, sha256Only)
    ensures var read := Value(ParseRecord(d, left));
            && (Describes(d, sha256Only, file) <==> Accepts(read, Digest, sha256Only, file))
            && (Describes(d, sha256Only, file) <==> !PassesOver(read, Digest, sha256Only, file))
  {
    VouchesIffDescribes(d, left, sha256Only, file);
  }

  /**
   A digest lookup of an imported path is trusted exactly when the size and digest fields of some
   imported record of the path describe the file.
   */
  lemma TrustedIffDescribed(
    db: set<Record>, key: DbKey, values: seq<string>, lefts: seq<string>, sha256Only: bool, file: File)
    requires Enumerates(values, db, key) && Readable(values) && Buffers(lefts, values) && Hashable(file, sha256Only)
    ensures Outcome(Cursor(values, lefts), 0, Digest, sha256Only, file) == Trusted <==>
            exists d :: Record(key, d) in db && Describes(d, sha256Only, file)
  {
    var rows := Cursor(values, lefts);
    var n := FirstDecisive(rows, Digest, sha256Only, file);
    DecisiveRecord(rows, n, Digest, sha256Only, file);
    if n < |rows| {
      ReadDecides(values[n], lefts[n], sha256Only, file);
      assert values[n] in values;
    }
    if d :| Record(key, d) in db && Describes(d, sha256Only, file) {
      var k :| 0 <= k < |values| && values[k] == d;
      ReadDecides(values[k], lefts[k], sha256Only, file);
    }
  }

  lemma DecimalIsField(n: nat)
    ensures Field(ToDecimal(n))
  {
    var s := ToDecimal(n);
    assert forall i :: 0 <= i < |s| ==> IsDigit(s[i]);
  }

  /** The line that a backend writes for a file whose digest under `alg` it knows. */
  ghost function ListingLine(path: string, source: nat, file: File, alg: Alg): string
    requires file.hash(alg).Some?
  {
    path + " " + ToDecimal(source) + " " + ToDecimal(file.size) + " " + file.hash(alg).value + "\n"
  }

  lemma ListingIsImported(
    lines: seq<string>, k: nat, path: string, source: nat, alg: Alg, file: File, maxKey: nat, sha: string -> string)
    requires path != [] && '\n' !in path && HexDigests(file) && file.hash(alg).Some?
    requires k < |lines| && lines[k] == ListingLine(path, source, file, alg)
    ensures Record(KeyFor(path, maxKey, sha), WrittenRecord(source, file.size, file.hash(alg).value))
            in Records(lines, Reader(maxKey, sha))
  {
    DecimalIsField(source);
    DecimalIsField(file.size);
    ReadersFindWrittenPath(
      lines, k, path, ToDecimal(source), ToDecimal(file.size), file.hash(alg).value, maxKey, sha);
  }

  /** A path that a snapshot lists with the file's own size and digest is trusted. */
  lemma ListedFileIsTrusted(
    lines: seq<string>, k: nat, path: string, source: nat, alg: Alg, maxKey: nat, sha: string -> string,
    db: set<Record>, values: seq<string>, lefts: seq<string>, sha256Only: bool, file: File)
    requires path != [] && '\n' !in path && source <= ULONG_MAX && file.size <= OFF_MAX
    requires Hashable(file, sha256Only) && Admitted(alg, sha256Only)
    requires k < |lines| && lines[k] == ListingLine(path, source, file, alg)
    requires Records(lines, Reader(maxKey, sha)) <= db && Enumerates(values, db, KeyFor(path, maxKey, sha))
    requires Readable(values) && Buffers(lefts, values)
    ensures Outcome(Cursor(values, lefts), 0, Digest, sha256Only, file) == Trusted
  {
    var d := WrittenRecord(source, file.size, file.hash(alg).value);
    ListingIsImported(lines, k, path, source, alg, file, maxKey, sha);
    RecordRoundTrip(source, file.size, file.hash(alg).value);
    assert Describes(d, sha256Only, file);
    assert Record(KeyFor(path, maxKey, sha), d) in db;
    TrustedIffDescribed(db, KeyFor(path, maxKey, sha), values, lefts, sha256Only, file);
  }

  /**
   The whole way: as long as a thread keeps its pin on a generation that was published from a snapshot
   listing the file, its lookups trust the file, whatever is published, stored or reclaimed meanwhile.
   */
  lemma PinnedLookupTrustsListedFile(
    run: seq<G.State>, i: nat, j: nat, t: G.Thread, g: G.GenId, lines: seq<string>, k: nat, path: string, source: nat,
    alg: Alg, maxKey: nat, sha: string -> string, values: seq<string>, lefts: seq<string>, sha256Only: bool, file: File)
    requires GenerationInvariant.Run(run) && i <= j < |run|
    requires forall m :: i <= m <= j ==> t in run[m].pins && run[m].pins[t] == g
    requires g in run[i].gens && g in run[j].gens && run[j].gens[g].name in run[j].file.dbs
    requires Records(lines, Reader(maxKey, sha)) <= run[i].gens[g].complete
    requires path != [] && '\n' !in path && source <= ULONG_MAX && file.size <= OFF_MAX
    requires Hashable(file, sha256Only) && Admitted(alg, sha256Only)
    requires k < |lines| && lines[k] == ListingLine(path, source, file, alg)
    requires Enumerates(values, run[j].file.dbs[run[j].gens[g].name], KeyFor(path, maxKey, sha))
    requires Readable(values) && Buffers(lefts, values)
    ensures Outcome(Cursor(values, lefts), 0, Digest, sha256Only, file) == Trusted
  {
    GenerationSafety.PinnedReaderIsSafe(run, i, j, t, g);
    GenerationSafety.PinnedGenerationIsComplete(run, i, t);
    ListedFileIsTrusted(
      lines, k, path, source, alg, maxKey, sha, run[j].file.dbs[run[j].gens[g].name], values, lefts, sha256Only, file);
  }
}
