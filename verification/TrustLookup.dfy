/** Looking a file up among the duplicate records of its path, hashing the file at most once per algorithm in a row. */
module TrustLookup {
  import opened Prelude

  const MAX_TRIES: nat := 128
  const SHA256_LEN: nat := 32

  datatype Alg = Md5 | Sha1 | Sha256 | Sha512

  function HashLength(alg: Alg): nat {
    match alg case Md5 => 16 case Sha1 => 20 case Sha256 => 32 case Sha512 => 64
  }

  datatype Integrity = NoIntegrity | SizeOnly | Ima | Digest

  /** A record as parse_lmdb_record returns it: the algorithm follows from the digest's length. */
  datatype TrustRecord = TrustRecord(size: nat, alg: Alg, digest: string)

  /** One cursor read: a value, which may be malformed, or a database error. */
  datatype Read = Value(record: Option<TrustRecord>) | ReadError

  datatype Verdict = Trusted | Untrusted | Error

  /** The digest that the kernel's security.ima attribute records. */
  datatype Measurement = Measurement(alg: Alg, digest: string)

  /** What the file looks like: its size, its digests, which may fail to compute, and its measurement, if it has one. */
  datatype File = File(size: nat, hash: Alg -> Option<string>, ima: Option<Measurement>)

  // ---------------------------------------------------------------------------------------------
  // The reference: judge every record on its own, hashing afresh

  datatype Judgement = Match | Skip | Broken

  predicate BelowFloor(r: TrustRecord, integrity: Integrity, sha256Only: bool) {
    sha256Only && (integrity == Digest || integrity == Ima) && HashLength(r.alg) < SHA256_LEN
  }

  /** The modes in which every record is judged on its own. */
  predicate Direct(integrity: Integrity) {
    integrity == SizeOnly || integrity == Digest
  }

  function Judge(read: Read, integrity: Integrity, sha256Only: bool, file: File): Judgement {
    if read.ReadError? || read.record.None? then Broken
    else
      var r := read.record.value;
      if BelowFloor(r, integrity, sha256Only) then Skip
      else if integrity == SizeOnly then (if r.size == file.size then Match else Skip)
      else if file.hash(r.alg).None? then Broken
      else if r.size == file.size && r.digest == file.hash(r.alg).value then Match
      else Skip
  }

  /** The first record that is not skipped decides; too many skipped records are an error. */
  function Outcome(rows: seq<Read>, i: nat, integrity: Integrity, sha256Only: bool, file: File): Verdict
    decreases |rows| - i
  {
    if i + 1 >= MAX_TRIES then Error
    else if i >= |rows| then Untrusted
    else
      match Judge(rows[i], integrity, sha256Only, file)
      case Match => Trusted
      case Broken => Error
      case Skip => Outcome(rows, i + 1, integrity, sha256Only, file)
  }

  /** The verdict of read_trust_db and its caller. Without integrity checks, finding the key is enough. */
  function Expected(rows: seq<Read>, integrity: Integrity, hasInfo: bool, sha256Only: bool, file: File): Verdict {
    if integrity == NoIntegrity || !hasInfo then
      if rows == [] then Untrusted else if rows[0].ReadError? then Error else Trusted
    else if integrity == Ima then ImaOutcome(rows, 0, true, sha256Only, file)
    else Outcome(rows, 0, integrity, sha256Only, file)
  }

  /** The record vouches for the file: same size and, in digest mode, its digest by a strong enough algorithm. */
  predicate Vouches(r: TrustRecord, integrity: Integrity, sha256Only: bool, file: File) {
    && r.size == file.size
    && (integrity == Digest ==> file.hash(r.alg) == Some(r.digest) && (sha256Only ==> HashLength(r.alg) >= SHA256_LEN))
  }

  /** The read vouches for the file. */
  predicate Accepts(read: Read, integrity: Integrity, sha256Only: bool, file: File) {
    read.Value? && read.record.Some? && Vouches(read.record.value, integrity, sha256Only, file)
  }

  /** The read neither vouches for the file nor fails: the record parses, and any digest it needed was computed. */
  predicate PassesOver(read: Read, integrity: Integrity, sha256Only: bool, file: File) {
    && read.Value? && read.record.Some? && !Accepts(read, integrity, sha256Only, file)
    && (integrity == Digest && (sha256Only ==> HashLength(read.record.value.alg) >= SHA256_LEN) ==>
          file.hash(read.record.value.alg).Some?)
  }

  lemma JudgeMeans(read: Read, integrity: Integrity, sha256Only: bool, file: File)
    requires Direct(integrity)
    ensures Judge(read, integrity, sha256Only, file) == Match <==> Accepts(read, integrity, sha256Only, file)
    ensures Judge(read, integrity, sha256Only, file) == Skip <==> PassesOver(read, integrity, sha256Only, file)
  {
  }

  /** Read number `k` is reached and vouches for the file. */
  ghost predicate MatchesFirst(rows: seq<Read>, k: nat, integrity: Integrity, sha256Only: bool, file: File) {
    && k < |rows| && k + 1 < MAX_TRIES && Accepts(rows[k], integrity, sha256Only, file)
    && forall j :: 0 <= j < k ==> PassesOver(rows[j], integrity, sha256Only, file)
  }

  ghost predicate AllSkipped(rows: seq<Read>, n: nat, integrity: Integrity, sha256Only: bool, file: File) {
    n <= |rows| && forall j :: 0 <= j < n ==> PassesOver(rows[j], integrity, sha256Only, file)
  }

  lemma {:induction false} OutcomeSkips(
    rows: seq<Read>, i: nat, n: nat, integrity: Integrity, sha256Only: bool, file: File)
    requires Direct(integrity) && i <= n < MAX_TRIES && AllSkipped(rows, n, integrity, sha256Only, file)
    ensures Outcome(rows, i, integrity, sha256Only, file) == Outcome(rows, n, integrity, sha256Only, file)
    decreases n - i
  {
    if i < n {
      JudgeMeans(rows[i], integrity, sha256Only, file);
      OutcomeSkips(rows, i + 1, n, integrity, sha256Only, file);
    }
  }

  /** The first record that is not skipped, or the number of records. */
  ghost function FirstDecisive(rows: seq<Read>, integrity: Integrity, sha256Only: bool, file: File): (n: nat)
    ensures AllSkipped(rows, n, integrity, sha256Only, file)
    ensures n < |rows| ==> !PassesOver(rows[n], integrity, sha256Only, file)
  {
    if rows == [] then 0
    else if !PassesOver(rows[0], integrity, sha256Only, file) then 0
    else
      var n := FirstDecisive(rows[1..], integrity, sha256Only, file);
      assert forall j :: 0 <= j < n ==> rows[1..][j] == rows[j + 1];
      n + 1
  }

  /** What the first decisive record makes of the lookup. */
  lemma DecisiveRecord(rows: seq<Read>, n: nat, integrity: Integrity, sha256Only: bool, file: File)
    requires Direct(integrity) && n == FirstDecisive(rows, integrity, sha256Only, file)
    ensures Outcome(rows, 0, integrity, sha256Only, file) ==
            if n + 1 >= MAX_TRIES then Error
            else if n == |rows| then Untrusted
            else if Accepts(rows[n], integrity, sha256Only, file) then Trusted
            else Error
  {
    if n + 1 < MAX_TRIES {
      OutcomeSkips(rows, 0, n, integrity, sha256Only, file);
      if n < |rows| {
        JudgeMeans(rows[n], integrity, sha256Only, file);
      }
    } else {
      OutcomeSkips(rows, 0, MAX_TRIES - 1, integrity, sha256Only, file);
    }
  }

  /** Trusted, exactly when one of the first 127 records vouches for the file and all before it are passed over. */
  lemma TrustedIffMatch(rows: seq<Read>, integrity: Integrity, sha256Only: bool, file: File)
    requires Direct(integrity)
    ensures Outcome(rows, 0, integrity, sha256Only, file) == Trusted <==>
            exists k: nat :: MatchesFirst(rows, k, integrity, sha256Only, file)
  {
    var n := FirstDecisive(rows, integrity, sha256Only, file);
    DecisiveRecord(rows, n, integrity, sha256Only, file);
    if Outcome(rows, 0, integrity, sha256Only, file) == Trusted {
      assert MatchesFirst(rows, n, integrity, sha256Only, file);
    }
    if k: nat :| MatchesFirst(rows, k, integrity, sha256Only, file) {
      assert !PassesOver(rows[k], integrity, sha256Only, file);
    }
  }

  /** A file is reported as an error, not as untrusted, once 127 records were tried without a match. */
  lemma ManyDuplicatesAreAnError(rows: seq<Read>, integrity: Integrity, sha256Only: bool, file: File)
    requires Direct(integrity)
    ensures Outcome(rows, 0, integrity, sha256Only, file) == Untrusted <==>
            |rows| + 1 < MAX_TRIES && AllSkipped(rows, |rows|, integrity, sha256Only, file)
  {
    DecisiveRecord(rows, FirstDecisive(rows, integrity, sha256Only, file), integrity, sha256Only, file);
  }

  // ---------------------------------------------------------------------------------------------
  // The IMA mode: records are compared with the kernel's measurement, and the first one also with a fresh digest

  predicate HasDigest(r: TrustRecord, file: File, digest: Option<string>) {
    r.size == file.size && digest == Some(r.digest)
  }

  predicate Measured(r: TrustRecord, file: File) {
    file.ima.Some? && HasDigest(r, file, Some(file.ima.value.digest))
  }

  /** The record has the digest that rehashing with the measurement's algorithm yields. */
  predicate Rehashed(r: TrustRecord, file: File) {
    file.ima.Some? && HasDigest(r, file, file.hash(file.ima.value.alg))
  }

  /** `first`: no record has been compared yet, so a mismatch makes the daemon rehash the file. */
  function ImaJudge(read: Read, first: bool, sha256Only: bool, file: File): Judgement {
    if read.ReadError? || read.record.None? then Broken
    else
      var r := read.record.value;
      if BelowFloor(r, Ima, sha256Only) then Skip
      else if file.ima.None? then Broken
      else if Measured(r, file) then Match
      else if !first then Skip
      else if file.hash(file.ima.value.alg).None? then Broken
      else if Rehashed(r, file) then Match
      else Skip
  }

  predicate Floored(read: Read, sha256Only: bool) {
    read.Value? && read.record.Some? && BelowFloor(read.record.value, Ima, sha256Only)
  }

  function ImaOutcome(rows: seq<Read>, i: nat, first: bool, sha256Only: bool, file: File): Verdict
    decreases |rows| - i
  {
    if i + 1 >= MAX_TRIES then Error
    else if i >= |rows| then Untrusted
    else
      match ImaJudge(rows[i], first, sha256Only, file)
      case Match => Trusted
      case Broken => Error
      case Skip => ImaOutcome(rows, i + 1, first && Floored(rows[i], sha256Only), sha256Only, file)
  }

  /** Every record before number `k` is below the floor. */
  ghost predicate FirstAdmitted(rows: seq<Read>, k: nat, sha256Only: bool) {
    k <= |rows| && forall j :: 0 <= j < k ==> Floored(rows[j], sha256Only)
  }

  /** Record number `k` is admitted and vouches for the file: by the measurement or, if first, by a fresh digest. */
  ghost predicate ImaVouches(rows: seq<Read>, k: nat, sha256Only: bool, file: File) {
    && k < |rows| && rows[k].Value? && rows[k].record.Some? && !Floored(rows[k], sha256Only)
    && (|| Measured(rows[k].record.value, file)
        || (FirstAdmitted(rows, k, sha256Only) && Rehashed(rows[k].record.value, file)))
  }

  /** Record number `k` parses and settles nothing: it is below the floor, or compared without a match. */
  ghost predicate ImaPasses(rows: seq<Read>, k: nat, sha256Only: bool, file: File) {
    && k < |rows| && rows[k].Value? && rows[k].record.Some? && !ImaVouches(rows, k, sha256Only, file)
    && (Floored(rows[k], sha256Only) ||
        (file.ima.Some? && (FirstAdmitted(rows, k, sha256Only) ==> file.hash(file.ima.value.alg).Some?)))
  }

  /** Record number `k` is reached and vouches for the file. */
  ghost predicate ImaMatchesFirst(rows: seq<Read>, k: nat, sha256Only: bool, file: File) {
    && k + 1 < MAX_TRIES && ImaVouches(rows, k, sha256Only, file)
    && forall j: nat :: j < k ==> ImaPasses(rows, j, sha256Only, file)
  }

  lemma ImaJudgeMeans(rows: seq<Read>, i: nat, first: bool, sha256Only: bool, file: File)
    requires i < |rows| && (first <==> FirstAdmitted(rows, i, sha256Only))
    ensures ImaJudge(rows[i], first, sha256Only, file) == Match <==> ImaVouches(rows, i, sha256Only, file)
    ensures ImaJudge(rows[i], first, sha256Only, file) == Skip <==> ImaPasses(rows, i, sha256Only, file)
    ensures FirstAdmitted(rows, i + 1, sha256Only) <==> first && Floored(rows[i], sha256Only)
  {
  }

  lemma {:induction false} ImaVerdictFrom(rows: seq<Read>, i: nat, first: bool, sha256Only: bool, file: File)
    requires i <= |rows| && (first <==> FirstAdmitted(rows, i, sha256Only))
    requires forall j: nat :: j < i ==> ImaPasses(rows, j, sha256Only, file)
    ensures ImaOutcome(rows, i, first, sha256Only, file) == Trusted <==>
            exists k: nat :: ImaMatchesFirst(rows, k, sha256Only, file)
    ensures ImaOutcome(rows, i, first, sha256Only, file) == Untrusted <==>
            |rows| + 1 < MAX_TRIES && forall j: nat :: j < |rows| ==> ImaPasses(rows, j, sha256Only, file)
    decreases |rows| - i
  {
    forall k: nat | ImaMatchesFirst(rows, k, sha256Only, file) ensures k >= i {
      assert k < i ==> ImaPasses(rows, k, sha256Only, file);
    }
    if i < |rows| && i + 1 < MAX_TRIES {
      ImaJudgeMeans(rows, i, first, sha256Only, file);
      match ImaJudge(rows[i], first, sha256Only, file)
      case Match => assert ImaMatchesFirst(rows, i, sha256Only, file);
      case Broken =>
      case Skip => ImaVerdictFrom(rows, i + 1, first && Floored(rows[i], sha256Only), sha256Only, file);
    }
  }

  /**
   An IMA lookup is trusted exactly when one of the first 127 records vouches for the file, by the measured
   digest or as the first admitted one by the file's own, and every record before it is passed over. It is
   untrusted exactly when fewer than 127 records are all passed over; everything else is an error.
   */
  lemma ImaTrustedIff(rows: seq<Read>, sha256Only: bool, file: File)
    ensures ImaOutcome(rows, 0, true, sha256Only, file) == Trusted <==>
            exists k: nat :: ImaMatchesFirst(rows, k, sha256Only, file)
    ensures ImaOutcome(rows, 0, true, sha256Only, file) == Untrusted <==>
            |rows| + 1 < MAX_TRIES && forall j: nat :: j < |rows| ==> ImaPasses(rows, j, sha256Only, file)
  {
    ImaVerdictFrom(rows, 0, true, sha256Only, file);
  }

  /** All records parse, few enough of them, and the file has a measurement and can be hashed. */
  ghost predicate ImaReadable(rows: seq<Read>, file: File) {
    && |rows| + 1 < MAX_TRIES && (forall j :: 0 <= j < |rows| ==> rows[j].Value? && rows[j].record.Some?)
    && file.ima.Some? && file.hash(file.ima.value.alg).Some?
  }

  lemma {:induction false} ImaOutcomeFrom(rows: seq<Read>, i: nat, first: bool, sha256Only: bool, file: File)
    requires ImaReadable(rows, file) && i <= |rows| && (first <==> FirstAdmitted(rows, i, sha256Only))
    ensures ImaOutcome(rows, i, first, sha256Only, file) ==
            if exists k: nat :: i <= k && ImaVouches(rows, k, sha256Only, file) then Trusted else Untrusted
    decreases |rows| - i
  {
    if i < |rows| {
      ImaOutcomeFrom(rows, i + 1, first && Floored(rows[i], sha256Only), sha256Only, file);
      assert ImaJudge(rows[i], first, sha256Only, file) == Match <==> ImaVouches(rows, i, sha256Only, file);
    }
  }

  /** If nothing can fail, no record has to be passed over: any record that vouches is enough. */
  lemma ImaReadableIff(rows: seq<Read>, sha256Only: bool, file: File)
    requires ImaReadable(rows, file)
    ensures ImaOutcome(rows, 0, true, sha256Only, file) ==
            if exists k: nat :: ImaVouches(rows, k, sha256Only, file) then Trusted else Untrusted
  {
    ImaOutcomeFrom(rows, 0, true, sha256Only, file);
    assert forall k: nat :: 0 <= k && ImaVouches(rows, k, sha256Only, file) <==> ImaVouches(rows, k, sha256Only, file);
  }

  /** Some admitted record has the file's size and this digest. */
  ghost predicate Listed(rows: seq<Read>, sha256Only: bool, file: File, digest: string) {
    exists k :: 0 <= k < |rows| && rows[k].Value? && rows[k].record.Some? && !Floored(rows[k], sha256Only) &&
                HasDigest(rows[k].record.value, file, Some(digest))
  }

  /** While the measurement is current the order of the duplicates does not matter. */
  lemma CurrentMeasurementIgnoresOrder(rows: seq<Read>, sha256Only: bool, file: File)
    requires ImaReadable(rows, file) && file.hash(file.ima.value.alg) == Some(file.ima.value.digest)
    ensures ImaOutcome(rows, 0, true, sha256Only, file) == Trusted <==>
            Listed(rows, sha256Only, file, file.ima.value.digest)
  {
    ImaReadableIff(rows, sha256Only, file);
    if k :| 0 <= k < |rows| && rows[k].Value? && rows[k].record.Some? && !Floored(rows[k], sha256Only) &&
            HasDigest(rows[k].record.value, file, Some(file.ima.value.digest)) {
      assert ImaVouches(rows, k, sha256Only, file);
    }
  }

  /** With a stale measurement it does: only the first record is compared with the file's own digest. */
  lemma StaleMeasurementDependsOnOrder(r: TrustRecord, other: TrustRecord, file: File)
    requires file.ima.Some? && file.hash(file.ima.value.alg) == Some(r.digest) && r.size == file.size
    requires r.digest != file.ima.value.digest
    requires other.digest != r.digest && other.digest != file.ima.value.digest
    ensures ImaOutcome([Value(Some(r)), Value(Some(other))], 0, true, false, file) == Trusted
    ensures ImaOutcome([Value(Some(other)), Value(Some(r))], 0, true, false, file) == Untrusted
  {
    var rows := [Value(Some(other)), Value(Some(r))];
    assert ImaJudge(rows[0], true, false, file) == Skip && ImaJudge(rows[1], false, false, file) == Skip;
    assert ImaOutcome(rows, 2, false, false, file) == Untrusted;
    assert ImaOutcome(rows, 1, false, false, file) == Untrusted;
  }

  /** The verdict on two duplicates, without an algorithm floor. */
  function ImaPair(a: TrustRecord, b: TrustRecord, file: File): Verdict {
    ImaOutcome([Value(Some(a)), Value(Some(b))], 0, true, false, file)
  }

  lemma PairIgnoresOrder(a: TrustRecord, b: TrustRecord, file: File)
    requires file.ima.Some? && file.hash(file.ima.value.alg) == Some(file.ima.value.digest)
    ensures ImaPair(a, b, file) == Trusted <==> ImaPair(b, a, file) == Trusted
  {
    var rows, swapped := [Value(Some(a)), Value(Some(b))], [Value(Some(b)), Value(Some(a))];
    CurrentMeasurementIgnoresOrder(rows, false, file);
    CurrentMeasurementIgnoresOrder(swapped, false, file);
    assert rows[0] == swapped[1] && rows[1] == swapped[0];
  }

  /** The order of two duplicates never matters, exactly for files whose measurement is current. */
  lemma OrderIgnoredIffCurrent(file: File)
    requires file.ima.Some? && file.hash(file.ima.value.alg).Some?
    ensures (forall a, b :: ImaPair(a, b, file) == Trusted <==> ImaPair(b, a, file) == Trusted) <==>
            file.hash(file.ima.value.alg) == Some(file.ima.value.digest)
  {
    var own, measured := file.hash(file.ima.value.alg).value, file.ima.value.digest;
    if own == measured {
      forall a, b ensures ImaPair(a, b, file) == Trusted <==> ImaPair(b, a, file) == Trusted {
        PairIgnoresOrder(a, b, file);
      }
    } else {
      var r, other := TrustRecord(file.size, Sha256, own), TrustRecord(file.size, Sha256, own + measured + "x");
      assert |other.digest| > |own| && |other.digest| > |measured|;
      StaleMeasurementDependsOnOrder(r, other, file);
      assert ImaPair(r, other, file) != ImaPair(other, r, file);
    }
  }

  // ---------------------------------------------------------------------------------------------
  // The loop with its cached digest

  /** The IMA branch of read_trust_db: the measurement is read and the file rehashed at most once. */
  method ReadTrustDbIma(rows: seq<Read>, sha256Only: bool, file: File) returns (verdict: Verdict)
    ensures verdict == ImaOutcome(rows, 0, true, sha256Only, file)
  {
    var retry := 0;
    var measured: Option<Measurement>, rehashAttempted := None, false;
    while true
      invariant retry < MAX_TRIES && retry <= |rows|
      invariant measured.Some? ==> measured == file.ima
      invariant rehashAttempted ==> measured.Some?
      invariant ImaOutcome(rows, retry, !rehashAttempted, sha256Only, file) ==
                ImaOutcome(rows, 0, true, sha256Only, file)
      decreases MAX_TRIES - retry
    {
      retry := retry + 1;
      if retry >= MAX_TRIES {
        return Error;
      }
      if retry > |rows| {
        return Untrusted;
      }
      var read := rows[retry - 1];
      if read.ReadError? || read.record.None? {
        return Error;
      }
      var record := read.record.value;
      if sha256Only && HashLength(record.alg) < SHA256_LEN {
        continue;
      }
      if measured.None? {
        measured := file.ima;
      }
      if measured.None? {
        return Error;
      }
      if record.size == file.size && record.digest == measured.value.digest {
        return Trusted;
      }
      if !rehashAttempted {
        rehashAttempted := true;
        var hash := file.hash(measured.value.alg);
        if hash.None? {
          return Error;
        }
        if record.size == file.size && record.digest == hash.value {
          return Trusted;
        }
      }
    }
  }

  /** read_trust_db with check_trust_database_with_read's reading of its error flag. */
  method ReadTrustDb(rows: seq<Read>, integrity: Integrity, hasInfo: bool, sha256Only: bool, file: File)
    returns (verdict: Verdict)
    ensures verdict == Expected(rows, integrity, hasInfo, sha256Only, file)
  {
    if integrity == NoIntegrity || !hasInfo {
      if rows == [] {
        return Untrusted;
      }
      return if rows[0].ReadError? then Error else Trusted;
    }
    if integrity == Ima {
      verdict := ReadTrustDbIma(rows, sha256Only, file);
      return;
    }
    var retry := 0;
    var calcAlg: Option<Alg>, calcDigest := None, "";
    while true
      invariant retry < MAX_TRIES && retry <= |rows|
      invariant calcAlg.Some? ==> file.hash(calcAlg.value) == Some(calcDigest)
      invariant Outcome(rows, retry, integrity, sha256Only, file) ==
                Expected(rows, integrity, hasInfo, sha256Only, file)
      decreases MAX_TRIES - retry
    {
      retry := retry + 1;
      if retry >= MAX_TRIES {
        return Error;
      }
      if retry > |rows| {
        return Untrusted;
      }
      var read := rows[retry - 1];
      if read.ReadError? || read.record.None? {
        return Error;
      }
      var record := read.record.value;
      if sha256Only && integrity == Digest && HashLength(record.alg) < SHA256_LEN {
        continue;
      }
      if integrity == SizeOnly {
        if record.size == file.size {
          return Trusted;
        }
        continue;
      }
      if calcAlg != Some(record.alg) {
        var hash := file.hash(record.alg);
        if hash.None? {
          return Error;
        }
        calcDigest, calcAlg := hash.value, Some(record.alg);
      }
      if record.size == file.size && record.digest == calcDigest {
        return Trusted;
      }
    }
  }
}
