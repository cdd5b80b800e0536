/** The stored form of a trust record, and how a lookup reads it back. */
module TrustRecords {
  import opened Prelude
  import opened SnapshotLines
  import opened TrustLookup

  const DIGEST_MAX: nat := 136
  const ULONG_MAX: nat := 0xFFFF_FFFF_FFFF_FFFF
  const OFF_MAX: nat := 0x7FFF_FFFF_FFFF_FFFF

  // ---------------------------------------------------------------------------------------------
  // Decimal numbers

  predicate IsDigit(c: char) {
    '0' <= c <= '9'
  }

  predicate IsDecimal(s: string) {
    s != [] && forall i :: 0 <= i < |s| ==> IsDigit(s[i])
  }

  function DigitValue(c: char): nat
    requires IsDigit(c)
  {
    (c - '0') as int
  }

  function Decimal(s: string): nat
    requires forall i :: 0 <= i < |s| ==> IsDigit(s[i])
  {
    if s == [] then 0 else 10 * Decimal(s[..|s| - 1]) + DigitValue(s[|s| - 1])
  }

  function ToDecimal(n: nat): (s: string)
    ensures IsDecimal(s)
  {
    var last := ['0' + (n % 10) as char];
    if n < 10 then last else ToDecimal(n / 10) + last
  }

  lemma {:induction false} DecimalRoundTrip(n: nat)
    ensures Decimal(ToDecimal(n)) == n
  {
    if n >= 10 {
      DecimalRoundTrip(n / 10);
      assert ToDecimal(n)[..|ToDecimal(n)| - 1] == ToDecimal(n / 10);
    }
  }

  // ---------------------------------------------------------------------------------------------
  // Scanning

  function SkipBlanks(s: string, i: nat): (j: nat)
    requires i <= |s|
    ensures i <= j <= |s| && (forall k :: i <= k < j ==> IsSpace(s[k])) && (j < |s| ==> !IsSpace(s[j]))
    decreases |s| - i
  {
    if i < |s| && IsSpace(s[i]) then SkipBlanks(s, i + 1) else i
  }

  function SkipDigits(s: string, i: nat): (j: nat)
    requires i <= |s|
    ensures i <= j <= |s| && (forall k :: i <= k < j ==> IsDigit(s[k])) && (j < |s| ==> !IsDigit(s[j]))
    decreases |s| - i
  {
    if i < |s| && IsDigit(s[i]) then SkipDigits(s, i + 1) else i
  }

  datatype Number = Number(value: nat, end: nat)

  /** strtoul and strtoull in base ten. Nothing is returned without digits or when the number does not fit. */
  function StrToU(s: string, i: nat): Option<Number>
    requires i <= |s|
  {
    var p := SkipBlanks(s, i);
    var signed := p < |s| && (s[p] == '+' || s[p] == '-');
    var q := if signed then p + 1 else p;
    var e := SkipDigits(s, q);
    var v := Decimal(s[q..e]);
    if e == q || v > ULONG_MAX then None
    else if signed && s[p] == '-' && v > 0 then Some(Number(ULONG_MAX + 1 - v, e))
    else Some(Number(v, e))
  }

  /** Where a digest that starts at `i` ends: at a blank or at the end of the C string. */
  function DigestEnd(s: string, i: nat): (j: nat)
    requires i <= |s|
    ensures i <= j <= |s| && (forall k :: i <= k < j ==> s[k] != '\0' && !IsSpace(s[k]))
    ensures j < |s| ==> s[j] == '\0' || IsSpace(s[j])
    decreases |s| - i
  {
    if i < |s| && s[i] != '\0' && !IsSpace(s[i]) then DigestEnd(s, i + 1) else i
  }

  /** The size and digest fields of a stored record. */
  datatype Scanned = Scanned(size: nat, digest: string)

  function ScanDigest(s: string, i: nat, size: nat): Option<Scanned>
    requires i <= |s|
  {
    var d := SkipBlanks(s, i);
    var e := DigestEnd(s, d);
    if size > OFF_MAX || e == d || e - d >= DIGEST_MAX then None else Some(Scanned(size, s[d..e]))
  }

  /** lmdb_scan_record; the number of the trust source is read and dropped. */
  function ScanRecord(s: string): Option<Scanned> {
    match StrToU(s, 0)
    case None => None
    case Some(source) =>
      var p := SkipBlanks(s, source.end);
      if p < |s| && s[p] == '-' then None
      else
        match StrToU(s, p)
        case None => None
        case Some(size) => ScanDigest(s, size.end, size.value)
  }

  method SkipBlanksFrom(s: string, i: nat) returns (p: nat)
    requires i <= |s|
    ensures p == SkipBlanks(s, i)
  {
    p := i;
    while p < |s| && IsSpace(s[p])
      invariant i <= p <= |s| && SkipBlanks(s, p) == SkipBlanks(s, i)
    {
      p := p + 1;
    }
  }

  method ScanDigestFrom(s: string, i: nat, size: nat) returns (r: Option<Scanned>)
    requires i <= |s|
    ensures r == ScanDigest(s, i, size)
  {
    if size > OFF_MAX {
      return None;
    }
    var p := SkipBlanksFrom(s, i);
    var len := 0;
    while p + len < |s| && s[p + len] != '\0' && !IsSpace(s[p + len])
      invariant p + len <= |s| && DigestEnd(s, p + len) == DigestEnd(s, p)
    {
      len := len + 1;
    }
    if len == 0 || len >= DIGEST_MAX {
      return None;
    }
    return Some(Scanned(size, s[p..p + len]));
  }

  /** The statements of lmdb_scan_record. */
  method LmdbScanRecord(s: string) returns (r: Option<Scanned>)
    ensures r == ScanRecord(s)
  {
    var source := StrToU(s, 0);
    if source.None? {
      return None;
    }
    var p := SkipBlanksFrom(s, source.value.end);
    if p < |s| && s[p] == '-' {
      return None;
    }
    var size := StrToU(s, p);
    if size.None? {
      return None;
    }
    r := ScanDigestFrom(s, size.value.end, size.value.value);
  }

  // ---------------------------------------------------------------------------------------------
  // Reading back what was written

  /** DATA_FORMAT */
  function WrittenRecord(source: nat, size: nat, digest: string): string {
    ToDecimal(source) + " " + ToDecimal(size) + " " + digest
  }

  /** A digest that fits the lookup's buffer. */
  predicate IsDigest(s: string) {
    Field(s) && '\0' !in s && |s| < DIGEST_MAX
  }

  lemma NumberAt(s: string, q: nat, e: nat)
    requires q < e <= |s| && (forall k :: q <= k < e ==> IsDigit(s[k])) && (e < |s| ==> !IsDigit(s[e]))
    requires Decimal(s[q..e]) <= ULONG_MAX
    ensures StrToU(s, q) == Some(Number(Decimal(s[q..e]), e))
  {
    assert IsDigit(s[q]);
    assert SkipBlanks(s, q) == q;
    assert SkipDigits(s, q) == e;
  }

  lemma DigestAt(s: string, i: nat, size: nat)
    requires i < |s| && s[i] == ' ' && IsDigest(s[i + 1..]) && size <= OFF_MAX
    ensures ScanDigest(s, i, size) == Some(Scanned(size, s[i + 1..]))
  {
    assert forall k :: i + 1 <= k < |s| ==> s[k] == s[i + 1..][k - i - 1];
    assert s[i + 1] == s[i + 1..][0];
    assert SkipBlanks(s, i) == i + 1;
    assert DigestEnd(s, i + 1) == |s|;
    assert s[i + 1..|s|] == s[i + 1..];
  }

  /** Two numbers and a digest, with one blank between them. */
  lemma ThreeFields(s: string, i: nat, j: nat)
    requires 0 < i && i + 1 < j < |s| && s[i] == ' ' && s[j] == ' ' && IsDigest(s[j + 1..])
    requires (forall k :: 0 <= k < i ==> IsDigit(s[k])) && Decimal(s[0..i]) <= ULONG_MAX
    requires (forall k :: i < k < j ==> IsDigit(s[k])) && Decimal(s[i + 1..j]) <= OFF_MAX
    ensures ScanRecord(s) == Some(Scanned(Decimal(s[i + 1..j]), s[j + 1..]))
  {
    NumberAt(s, 0, i);
    assert IsDigit(s[i + 1]);
    assert SkipBlanks(s, i) == i + 1;
    NumberAt(s, i + 1, j);
    DigestAt(s, j, Decimal(s[i + 1..j]));
  }

  lemma CutFields(a: string, b: string, c: string)
    ensures var s, i, j := a + " " + b + " " + c, |a|, |a| + 1 + |b|;
            s[0..i] == a && s[i] == ' ' && s[i + 1..j] == b && s[j] == ' ' && s[j + 1..] == c
  {
  }

  /** A record is read back with the size and digest it was written with. */
  lemma RecordRoundTrip(source: nat, size: nat, digest: string)
    requires source <= ULONG_MAX && size <= OFF_MAX && IsDigest(digest)
    ensures ScanRecord(WrittenRecord(source, size, digest)) == Some(Scanned(size, digest))
  {
    var a, b, s := ToDecimal(source), ToDecimal(size), WrittenRecord(source, size, digest);
    var i, j := |a|, |a| + 1 + |b|;
    DecimalRoundTrip(source);
    DecimalRoundTrip(size);
    CutFields(a, b, digest);
    assert forall k :: 0 <= k < i ==> s[k] == s[0..i][k];
    assert forall k :: i < k < j ==> s[k] == s[i + 1..j][k - i - 1];
    ThreeFields(s, i, j);
  }

  // ---------------------------------------------------------------------------------------------
  // The algorithm

  /** The digest buffer after a record was scanned into it: what an earlier record left behind the end stays. */
  function Buffer(digest: string, left: string): (buf: string)
    requires |digest| < DIGEST_MAX == |left|
    ensures |buf| == DIGEST_MAX
  {
    digest + ['\0'] + left[|digest| + 1..]
  }

  /** file_hash_alg_fast looks only for a terminator at each of the four lengths, shortest first. */
  function AlgFast(buf: string): Option<Alg>
    requires |buf| == DIGEST_MAX
  {
    if buf[32] == '\0' then Some(Md5)
    else if buf[40] == '\0' then Some(Sha1)
    else if buf[64] == '\0' then Some(Sha256)
    else if buf[128] == '\0' then Some(Sha512)
    else None
  }

  /** parse_lmdb_record, with the buffer's previous content. An unknown length falls back to SHA-256. */
  function ParseRecord(s: string, left: string): Option<TrustRecord>
    requires |left| == DIGEST_MAX
  {
    match ScanRecord(s)
    case None => None
    case Some(f) =>
      var alg := AlgFast(Buffer(f.digest, left));
      Some(TrustRecord(f.size, if alg.Some? then alg.value else Sha256, f.digest))
  }

  /** The digest lengths of the four algorithms. */
  predicate Standard(n: nat) {
    n == 32 || n == 40 || n == 64 || n == 128
  }

  lemma ScannedDigest(s: string)
    requires ScanRecord(s).Some?
    ensures IsDigest(ScanRecord(s).value.digest)
  {
  }

  /** A digest of standard length is read with the algorithm of that length, whatever the buffer held. */
  lemma AlgOfLength(digest: string, left: string, alg: Alg)
    requires IsDigest(digest) && |left| == DIGEST_MAX && |digest| == 2 * HashLength(alg)
    ensures AlgFast(Buffer(digest, left)) == Some(alg)
  {
  }

  /** The algorithm follows from the digest alone exactly for the standard lengths and for longer digests. */
  lemma AlgIgnoresLeftoversIff(digest: string)
    requires IsDigest(digest)
    ensures (forall left, left' :: |left| == |left'| == DIGEST_MAX ==>
               AlgFast(Buffer(digest, left)) == AlgFast(Buffer(digest, left'))) <==>
            Standard(|digest|) || |digest| > 128
  {
    if !Standard(|digest|) && |digest| <= 128 {
      var zeros, others := seq(DIGEST_MAX, _ => '\0'), seq(DIGEST_MAX, _ => 'x');
      assert AlgFast(Buffer(digest, others)) == None;
      assert AlgFast(Buffer(digest, zeros)).Some?;
    }
  }

  // ---------------------------------------------------------------------------------------------
  // What a stored record vouches for

  /** Hashing yields hexadecimal text, two digits for each byte. */
  ghost predicate HexDigests(file: File) {
    forall alg :: file.hash(alg).Some? ==>
      IsDigest(file.hash(alg).value) && |file.hash(alg).value| == 2 * HashLength(alg)
  }

  predicate Admitted(alg: Alg, sha256Only: bool) {
    sha256Only ==> HashLength(alg) >= SHA256_LEN
  }

  /** The stored fields are the file's size and its digest under an admitted algorithm. */
  ghost predicate Describes(s: string, sha256Only: bool, file: File) {
    exists alg :: Admitted(alg, sha256Only) && file.hash(alg).Some? &&
                  ScanRecord(s) == Some(Scanned(file.size, file.hash(alg).value))
  }

  /** A record vouches for a file exactly when its fields describe the file; leftovers in the buffer never matter. */
  lemma VouchesIffDescribes(s: string, left: string, sha256Only: bool, file: File)
    requires |left| == DIGEST_MAX && ScanRecord(s).Some? && HexDigests(file)
    ensures Vouches(ParseRecord(s, left).value, Digest, sha256Only, file) <==> Describes(s, sha256Only, file)
  {
    ScannedDigest(s);
    if alg :| Admitted(alg, sha256Only) && file.hash(alg).Some? &&
              ScanRecord(s) == Some(Scanned(file.size, file.hash(alg).value)) {
      AlgOfLength(file.hash(alg).value, left, alg);
    }
  }
}
