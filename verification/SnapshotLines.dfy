/** Snapshot lines and the database records they stand for. */
module SnapshotLines {
  import opened Prelude

  const MAX_DELIMS: nat := 3

  // ---------------------------------------------------------------------------------------------
  // Lines

  predicate IsSpace(c: char) {
    c == ' ' || c == '\t' || c == '\n' || c == '\U{000B}' || c == '\U{000C}' || c == '\r'
  }

  /** A parsed line: the key bytes and the value. */
  datatype Parsed = Parsed(idx: string, data: string)

  function NewlineAt(line: string): (n: nat)
    ensures n <= |line|
    ensures n < |line| ==> line[n] == '\n'
    ensures forall i :: 0 <= i < n ==> line[i] != '\n'
  {
    if line == [] then 0 else if line[0] == '\n' then 0 else 1 + NewlineAt(line[1..])
  }

  /** The position of the `k`-th blank from the end, or of the leftmost one if there are fewer. */
  function BlankFromEnd(s: string, k: nat): (r: Option<nat>)
    requires k > 0
    ensures r.Some? ==> r.value < |s| && IsSpace(s[r.value])
    decreases |s|
  {
    if s == [] then None
    else
      var n := |s| - 1;
      if !IsSpace(s[n]) then BlankFromEnd(s[..n], k)
      else if k == 1 then Some(n)
      else match BlankFromEnd(s[..n], k - 1) case Some(i) => Some(i) case None => Some(n)
  }

  function BlankCount(s: string): nat {
    if s == [] then 0 else BlankCount(s[..|s| - 1]) + if IsSpace(s[|s| - 1]) then 1 else 0
  }

  /**
   trust_db_record_from_line. A blank in front of everything leaves an empty path: the key is then
   measured up to the terminator, which the parser wrote only if it found all three blanks.
   */
  function ParseLine(line: string): Option<Parsed> {
    var n := NewlineAt(line);
    if n == |line| then None
    else
      match BlankFromEnd(line[..n], MAX_DELIMS)
      case None => None
      case Some(d) =>
        var text := line[..n];
        var idx := if d > 0 then text[..d] else if BlankCount(text) >= MAX_DELIMS then [] else text;
        Some(Parsed(idx, text[d + 1..]))
  }

  /** A field that a backend writes: not empty and without blanks. */
  predicate Field(s: string) {
    s != [] && forall i :: 0 <= i < |s| ==> !IsSpace(s[i])
  }

  lemma {:induction false} BlankSkipsField(s: string, f: string, k: nat)
    requires k > 0 && forall i :: 0 <= i < |f| ==> !IsSpace(f[i])
    ensures BlankFromEnd(s + f, k) == BlankFromEnd(s, k)
    decreases |f|
  {
    if f == [] {
      assert s + f == s;
    } else {
      var n := |f| - 1;
      assert (s + f)[..|s| + n] == s + f[..n];
      BlankSkipsField(s, f[..n], k);
    }
  }

  /** One more field at the end moves the search one blank further. */
  lemma BlankBeforeField(s: string, f: string, k: nat)
    requires k > 1 && Field(f)
    ensures BlankFromEnd(s + " " + f, k) ==
            match BlankFromEnd(s, k - 1) case Some(i) => Some(i) case None => Some(|s|)
  {
    BlankSkipsField(s + " ", f, k);
    assert (s + " ")[..|s|] == s;
  }

  lemma LastBlank(s: string, f: string)
    requires Field(f)
    ensures BlankFromEnd(s + " " + f, 1) == Some(|s|)
  {
    BlankSkipsField(s + " ", f, 1);
  }

  lemma NewlineAfter(s: string)
    requires '\n' !in s
    ensures NewlineAt(s + "\n") == |s| && (s + "\n")[..|s|] == s
  {
    assert (s + "\n")[|s|] == '\n';
    assert forall i :: 0 <= i < |s| ==> (s + "\n")[i] == s[i];
  }

  lemma FieldsHaveNoNewline(path: string, source: string, size: string, digest: string)
    requires '\n' !in path && Field(source) && Field(size) && Field(digest)
    ensures '\n' !in path + " " + source + " " + size + " " + digest
  {
  }

  lemma ThirdBlank(path: string, source: string, size: string, digest: string)
    requires Field(source) && Field(size) && Field(digest)
    ensures BlankFromEnd(path + " " + source + " " + size + " " + digest, 3) == Some(|path|)
  {
    BlankBeforeField(path + " " + source + " " + size, digest, 3);
    BlankBeforeField(path + " " + source, size, 2);
    LastBlank(path, source);
  }

  lemma CutAfterPath(path: string, source: string, size: string, digest: string)
    ensures var c := path + " " + source + " " + size + " " + digest;
            c[..|path|] == path && c[|path| + 1..] == source + " " + size + " " + digest
  {
  }

  /** A record line is read back as it was written, even when the path contains blanks. */
  lemma LineRoundTrip(path: string, source: string, size: string, digest: string)
    requires path != [] && '\n' !in path && Field(source) && Field(size) && Field(digest)
    ensures ParseLine(path + " " + source + " " + size + " " + digest + "\n") ==
            Some(Parsed(path, source + " " + size + " " + digest))
  {
    var c := path + " " + source + " " + size + " " + digest;
    FieldsHaveNoNewline(path, source, size, digest);
    NewlineAfter(c);
    ThirdBlank(path, source, size, digest);
    CutAfterPath(path, source, size, digest);
  }

  /** What a scan that stands at `i`, with `k` blanks still to find and `delim` the last one found, ends with. */
  ghost function Pending(text: string, i: nat, k: nat, delim: Option<nat>): Option<nat>
    requires i <= |text|
  {
    if k == 0 then delim
    else match BlankFromEnd(text[..i], k) case Some(d) => Some(d) case None => delim
  }

  lemma PendingStep(text: string, i: nat, k: nat, delim: Option<nat>)
    requires i < |text| && k > 0
    ensures Pending(text, i + 1, k, delim) ==
            if IsSpace(text[i]) then Pending(text, i, k - 1, Some(i)) else Pending(text, i, k, delim)
    ensures BlankCount(text[..i + 1]) == BlankCount(text[..i]) + if IsSpace(text[i]) then 1 else 0
  {
    assert text[..i + 1][..i] == text[..i];
  }

  /** The scan of trust_db_record_from_line, from the end of the line. */
  method ScanBack(line: string, n: nat) returns (delim: Option<nat>, terminated: bool)
    requires n <= |line|
    ensures delim == BlankFromEnd(line[..n], MAX_DELIMS)
    ensures terminated <==> BlankCount(line[..n]) >= MAX_DELIMS
  {
    ghost var text := line[..n];
    var delims, i := 0, n;
    delim, terminated := None, false;
    assert text[..n] == text;
    while i > 0 && !terminated
      invariant 0 <= i <= n && delims <= MAX_DELIMS
      invariant terminated <==> delims == MAX_DELIMS
      invariant Pending(text, i, MAX_DELIMS - delims, delim) == BlankFromEnd(text, MAX_DELIMS)
      invariant delims + BlankCount(text[..i]) == BlankCount(text)
    {
      i := i - 1;
      PendingStep(text, i, MAX_DELIMS - delims, delim);
      if IsSpace(line[i]) {
        delim := Some(i);
        delims := delims + 1;
      }
      if delims >= MAX_DELIMS {
        terminated := true;
      }
    }
  }

  /** trust_db_record_from_line */
  method RecordFromLine(line: string) returns (r: Option<Parsed>)
    ensures r == ParseLine(line)
  {
    var n := 0;
    while n < |line| && line[n] != '\n'
      invariant 0 <= n <= |line| && forall i :: 0 <= i < n ==> line[i] != '\n'
    {
      n := n + 1;
    }
    if n == |line| {
      return None;
    }
    assert NewlineAt(line) == n;
    var delim, terminated := ScanBack(line, n);
    if delim.None? {
      return None;
    }
    var d := delim.value;
    // The path is measured by its length, or up to the terminator when the length is zero.
    var idx := if d > 0 then line[..n][..d] else if terminated then [] else line[..n];
    return Some(Parsed(idx, line[..n][d + 1..]));
  }

  // ---------------------------------------------------------------------------------------------
  // Keys

  /** Keys longer than LMDB allows are replaced by the digest of the whole path. */
  datatype DbKey = Raw(path: string) | Hashed(sha: string)

  datatype Record = Record(key: DbKey, data: string)

  /** trust_db_key_init_with_max and the start of trust_db_read_record: both measure the whole path. */
  function KeyFor(path: string, maxKey: nat, sha: string -> string): DbKey {
    if |path| > maxKey then Hashed(sha(path)) else Raw(path)
  }

  /** What a snapshot line puts into the database, if anything. */
  function RecordOf(line: string, maxKey: nat, sha: string -> string): Option<Record> {
    match ParseLine(line)
    case None => None
    case Some(p) => Some(Record(KeyFor(p.idx, maxKey, sha), p.data))
  }

  /** How the database in use reads snapshot lines. */
  function Reader(maxKey: nat, sha: string -> string): string -> Option<Record> {
    line => RecordOf(line, maxKey, sha)
  }

  /** The records of a snapshot, in the order of its lines; a malformed line has none. */
  function RecordList(lines: seq<string>, read: string -> Option<Record>): seq<Record> {
    if lines == [] then []
    else
      var rest := RecordList(lines[..|lines| - 1], read);
      match read(lines[|lines| - 1]) case None => rest case Some(r) => rest + [r]
  }

  /** All records of a snapshot. */
  function Records(lines: seq<string>, read: string -> Option<Record>): set<Record> {
    Elems(RecordList(lines, read))
  }

  lemma {:induction false} RecordListConcat(a: seq<string>, b: seq<string>, read: string -> Option<Record>)
    ensures RecordList(a + b, read) == RecordList(a, read) + RecordList(b, read)
    decreases |b|
  {
    if b == [] {
      assert a + b == a;
    } else {
      var n := |b| - 1;
      assert (a + b)[..|a| + n] == a + b[..n] && (a + b)[|a| + n] == b[n];
      RecordListConcat(a, b[..n], read);
    }
  }

  lemma RecordsConcat(a: seq<string>, b: seq<string>, read: string -> Option<Record>)
    ensures Records(a + b, read) == Records(a, read) + Records(b, read)
  {
    RecordListConcat(a, b, read);
  }

  lemma RecordsOfOne(line: string, read: string -> Option<Record>)
    ensures Records([line], read) == match read(line) case None => {} case Some(r) => {r}
  {
    assert [line][..0] == [];
    assert RecordList([line][..0], read) == [];
  }

  lemma RecordOfLine(lines: seq<string>, k: nat, read: string -> Option<Record>)
    requires k < |lines| && read(lines[k]).Some?
    ensures read(lines[k]).value in Records(lines, read)
  {
    assert lines == lines[..k] + [lines[k]] + lines[k + 1..];
    RecordsConcat(lines[..k] + [lines[k]], lines[k + 1..], read);
    RecordsConcat(lines[..k], [lines[k]], read);
    RecordsOfOne(lines[k], read);
  }

  /** A written path is found under the key that a reader computes for it. */
  lemma ReadersFindWrittenPath(
    lines: seq<string>, k: nat, path: string, source: string, size: string, digest: string,
    maxKey: nat, sha: string -> string)
    requires path != [] && '\n' !in path && Field(source) && Field(size) && Field(digest)
    requires k < |lines| && lines[k] == path + " " + source + " " + size + " " + digest + "\n"
    ensures Record(KeyFor(path, maxKey, sha), source + " " + size + " " + digest) in Records(lines, Reader(maxKey, sha))
  {
    LineRoundTrip(path, source, size, digest);
    RecordOfLine(lines, k, Reader(maxKey, sha));
  }
}
