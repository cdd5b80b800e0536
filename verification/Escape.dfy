/** Shell escaping of path names: predicted size, bounded encoding, and decoding in place. */
module Escape {
  type byte = x: int | 0 <= x < 256

  const BACKSLASH: byte := 92
  const SIZE_MAX: nat := 0xFFFF_FFFF_FFFF_FFFF
  const MAX_SIZE: nat := 8192

  /** The shell metacharacters: double and single quote, backquote, $, backslash, !, (, ), | and space. */
  predicate IsMeta(c: byte) {
    c == 34 || c == 39 || c == 96 || c == 36 || c == 92 || c == 33 || c == 40 || c == 41 || c == 124 || c == 32
  }

  function Width(c: byte): nat {
    if c < 32 then 4 else if IsMeta(c) then 2 else 1
  }

  function EncodeByte(c: byte): (r: seq<byte>)
    ensures |r| == Width(c)
  {
    if c < 32 then [BACKSLASH, 48 + c / 64, 48 + c / 8 % 8, 48 + c % 8]
    else if IsMeta(c) then [BACKSLASH, c]
    else [c]
  }

  function Encode(s: seq<byte>): seq<byte> {
    if s == [] then [] else Encode(s[..|s| - 1]) + EncodeByte(s[|s| - 1])
  }

  predicate IsOctal(c: byte) {
    48 <= c < 56
  }

  predicate OctalEscape(s: seq<byte>) {
    |s| >= 4 && s[0] == BACKSLASH && IsOctal(s[1]) && IsOctal(s[2]) && IsOctal(s[3])
  }

  predicate CharEscape(s: seq<byte>) {
    |s| >= 2 && s[0] == BACKSLASH && !IsOctal(s[1])
  }

  /** The byte that three octal digits stand for, as a char holds it. */
  function OctalValue(a: byte, b: byte, c: byte): byte {
    (64 * (a % 8) + 8 * (b % 8) + c % 8) % 256
  }

  /** The byte one decoding step produces, and how many bytes it consumes. */
  function Decoded(s: seq<byte>): byte
    requires s != []
  {
    if OctalEscape(s) then OctalValue(s[1], s[2], s[3]) else if CharEscape(s) then s[1] else s[0]
  }

  function Consumed(s: seq<byte>): (n: nat)
    requires s != []
    ensures 1 <= n <= |s|
  {
    if OctalEscape(s) then 4 else if CharEscape(s) then 2 else 1
  }

  function Decode(s: seq<byte>): seq<byte> {
    if s == [] then [] else [Decoded(s)] + Decode(s[Consumed(s)..])
  }

  // ---------------------------------------------------------------------------------------------
  // The round trip

  lemma EncodeSnoc(s: seq<byte>, c: byte)
    ensures Encode(s + [c]) == Encode(s) + EncodeByte(c)
  {
    assert (s + [c])[..|s|] == s;
  }

  lemma Associates(x: seq<byte>, y: seq<byte>, z: seq<byte>)
    ensures (x + y) + z == x + (y + z)
  {
  }

  lemma {:induction false} EncodeConcat(a: seq<byte>, b: seq<byte>)
    ensures Encode(a + b) == Encode(a) + Encode(b)
  {
    if b == [] {
      assert a + b == a;
    } else {
      var c, m := b[|b| - 1], b[..|b| - 1];
      EncodeConcat(a, m);
      assert (a + b)[..|a + b| - 1] == a + m && (a + b)[|a + b| - 1] == c;
      assert Encode(a + b) == Encode(a + m) + EncodeByte(c);
      Associates(Encode(a), Encode(m), EncodeByte(c));
    }
  }

  lemma EncodeCons(s: seq<byte>)
    requires s != []
    ensures Encode(s) == EncodeByte(s[0]) + Encode(s[1..])
  {
    assert s == [s[0]] + s[1..];
    EncodeConcat([s[0]], s[1..]);
    EncodeOne(s[0]);
  }

  lemma EncodeOne(c: byte)
    ensures Encode([c]) == EncodeByte(c)
  {
    EncodeSnoc([], c);
    assert [] + [c] == [c];
    assert Encode([]) == [];
  }

  lemma OctalDigits(c: byte)
    requires c < 32
    ensures c / 64 == 0 && OctalValue(48, 48 + c / 8 % 8, 48 + c % 8) == c
  {
  }

  /** The decoder reads one encoded byte back, whatever follows it. */
  lemma DecodeOneByte(c: byte, rest: seq<byte>)
    ensures Decode(EncodeByte(c) + rest) == [c] + Decode(rest)
  {
    var s := EncodeByte(c) + rest;
    if c < 32 {
      OctalDigits(c);
    }
    assert Decoded(s) == c && Consumed(s) == |EncodeByte(c)|;
    assert s[|EncodeByte(c)|..] == rest;
  }

  /** Decoding undoes encoding, for every byte string. */
  lemma {:induction false} RoundTrip(s: seq<byte>)
    ensures Decode(Encode(s)) == s
  {
    if s != [] {
      EncodeCons(s);
      DecodeOneByte(s[0], Encode(s[1..]));
      RoundTrip(s[1..]);
    }
  }

  predicate NeedsEscape(s: seq<byte>) {
    exists i :: 0 <= i < |s| && Width(s[i]) > 1
  }

  /** A string that needs no escaping is its own encoding, so decoding it changes nothing. */
  lemma PlainRoundTrip(s: seq<byte>)
    requires !NeedsEscape(s)
    ensures Encode(s) == s && Decode(s) == s
  {
    PlainEncode(s);
    RoundTrip(s);
  }

  lemma {:induction false} PlainEncode(s: seq<byte>)
    requires !NeedsEscape(s)
    ensures Encode(s) == s
  {
    if s != [] {
      var c, m := s[|s| - 1], s[..|s| - 1];
      assert forall i :: 0 <= i < |m| ==> m[i] == s[i];
      PlainEncode(m);
      assert Width(c) == 1 && EncodeByte(c) == [c];
      assert s == m + [c];
      EncodeSnoc(m, c);
    }
  }

  /** Encodings are strings again: no NUL byte appears, even for control bytes. */
  lemma {:induction false} EncodeHasNoNul(s: seq<byte>)
    requires 0 !in s
    ensures 0 !in Encode(s)
  {
    if s != [] {
      EncodeHasNoNul(s[..|s| - 1]);
    }
  }

  lemma {:induction false} EncodeGrows(s: seq<byte>, n: nat)
    requires n <= |s|
    ensures |Encode(s[..n])| <= |Encode(s)|
    ensures n < |s| ==> |Encode(s[..n])| + Width(s[n]) <= |Encode(s)|
  {
    assert s == s[..n] + s[n..];
    EncodeConcat(s[..n], s[n..]);
    if n < |s| {
      EncodeCons(s[n..]);
    }
  }

  lemma EncodeNext(s: seq<byte>, n: nat)
    requires n < |s|
    ensures Encode(s[..n + 1]) == Encode(s[..n]) + EncodeByte(s[n])
  {
    assert s[..n + 1][..n] == s[..n];
  }

  lemma NeedsNext(s: seq<byte>, n: nat)
    requires n < |s|
    ensures NeedsEscape(s[..n + 1]) <==> NeedsEscape(s[..n]) || Width(s[n]) > 1
  {
    assert s[..n + 1][n] == s[n];
    assert forall k :: 0 <= k < n ==> s[..n + 1][k] == s[..n][k];
  }

  lemma DecodeNext(s: seq<byte>, k: nat, done: seq<byte>)
    requires k < |s|
    ensures done + Decode(s[k..]) == done + [Decoded(s[k..])] + Decode(s[k + Consumed(s[k..])..])
  {
    var rest := s[k..];
    assert rest[Consumed(rest)..] == s[k + Consumed(rest)..];
    Associates(done, [Decoded(rest)], Decode(rest[Consumed(rest)..]));
  }

  // ---------------------------------------------------------------------------------------------
  // The buffers

  /** `a` holds the NUL-terminated string `s`. */
  ghost predicate CString(a: array<byte>, s: seq<byte>)
    reads a
  {
    |s| < a.Length && a[..|s|] == s && a[|s|] == 0 && 0 !in s
  }

  /** escape_shell_size: the encoded length, unless it overflows a size_t. */
  method Size(input: array<byte>, ghost s: seq<byte>) returns (size: nat, needs: bool)
    requires CString(input, s)
    ensures size == if |Encode(s)| <= SIZE_MAX then |Encode(s)| else SIZE_MAX
    ensures |Encode(s)| <= SIZE_MAX ==> (needs <==> NeedsEscape(s))
  {
    size, needs := 0, false;
    var i := 0;
    while input[i] != 0
      invariant i <= |s| && size == |Encode(s[..i])| <= SIZE_MAX
      invariant needs <==> NeedsEscape(s[..i])
      decreases |s| - i
    {
      assert i < |s| && input[i] == s[i];
      var width := Width(input[i]);
      EncodeNext(s, i);
      EncodeGrows(s, i);
      NeedsNext(s, i);
      if width > 1 {
        needs := true;
      }
      if size > SIZE_MAX - width {
        return SIZE_MAX, needs;
      }
      size := size + width;
      i := i + 1;
    }
    assert s[..i] == s;
  }

  /** check_escape_shell: zero when nothing needs escaping. */
  method CheckEscape(input: array<byte>, ghost s: seq<byte>) returns (size: nat)
    requires CString(input, s)
    ensures |Encode(s)| <= SIZE_MAX ==> size == if NeedsEscape(s) then |Encode(s)| else 0
  {
    var needs;
    size, needs := Size(input, s);
    if !needs {
      return 0;
    }
  }

  /** Write the encoding of one byte. */
  method PutByte(c: byte, width: nat, output: array<byte>, pos: nat)
    requires width == Width(c) && pos + width <= output.Length
    modifies output
    ensures output[..pos + width] == old(output[..pos]) + EncodeByte(c)
  {
    if width == 4 {
      output[pos] := BACKSLASH;
      output[pos + 1] := 48 + c / 64;
      output[pos + 2] := 48 + c / 8 % 8;
      output[pos + 3] := 48 + c % 8;
    } else if width == 2 {
      output[pos] := BACKSLASH;
      output[pos + 1] := c;
    } else {
      output[pos] := c;
    }
  }

  /** escape_shell_into: the whole encoding and a terminator fit, or the buffer is refused. */
  method EscapeInto(input: array<byte>, n: nat, output: array<byte>, capacity: nat) returns (size: nat)
    requires n <= input.Length && capacity <= output.Length && input != output && capacity <= SIZE_MAX
    modifies output
    ensures |Encode(input[..n])| < capacity ==>
              && size == |Encode(input[..n])|
              && output[..size] == Encode(input[..n]) && output[size] == 0
    ensures |Encode(input[..n])| >= capacity ==> size == SIZE_MAX
  {
    if capacity == 0 {
      return SIZE_MAX;
    }
    ghost var s := input[..n];
    var pos, i := 0, 0;
    while i < n
      invariant i <= n && pos == |Encode(s[..i])| < capacity && output[..pos] == Encode(s[..i])
    {
      var c := input[i];
      var width := Width(c);
      EncodeNext(s, i);
      EncodeGrows(s, i);
      if width >= capacity - pos {
        return SIZE_MAX;
      }
      PutByte(c, width, output, pos);
      pos := pos + width;
      i := i + 1;
    }
    assert s[..n] == s;
    output[pos] := 0;
    size := pos;
  }

  /** escape_shell: the encoding, exactly when the caller predicted its size and it is below the limit. */
  method EscapeShell(input: array<byte>, expected: nat, ghost s: seq<byte>) returns (output: array?<byte>)
    requires CString(input, s)
    ensures output != null <==> expected < MAX_SIZE && |Encode(s)| == expected
    ensures output != null ==> fresh(output) && output.Length == expected + 1 && CString(output, Encode(s))
  {
    if expected >= MAX_SIZE {
      return null;
    }
    var buffer := new byte[expected + 1];
    var n := 0;
    while input[n] != 0
      invariant n <= |s|
      decreases |s| - n
    {
      assert input[n] == s[n];
      n := n + 1;
    }
    var size := EscapeInto(input, n, buffer, expected + 1);
    if size != expected {
      return null;
    }
    EncodeHasNoNul(s);
    return buffer;
  }

  /**
   unescape_shell: decodes in place. The write position never passes the read position, and bytes
   beyond the old terminator are not touched.
   */
  method Unescape(a: array<byte>, capacity: nat) returns (rc: int)
    requires capacity <= a.Length
    modifies a
    ensures rc == -1 <==> 0 !in old(a[..capacity])
    ensures rc == -1 ==> a[..] == old(a[..])
    ensures rc != -1 ==> rc == 0
    ensures rc == 0 ==> forall s :: old(CString(a, s)) ==>
              && |Decode(s)| <= |s| && a[..|Decode(s)|] == Decode(s) && a[|Decode(s)|] == 0
              && a[|s| + 1..] == old(a[|s| + 1..])
  {
    var len := 0;
    while len < capacity && a[len] != 0
      invariant len <= capacity && 0 !in a[..len]
    {
      len := len + 1;
    }
    if len == capacity {
      return -1;
    }
    ghost var s := a[..len];
    DecodeInPlace(a, len, s);
    return 0;
  }

  /** The three cases of the decoding loop. */
  method ReadEscape(a: array<byte>, read: nat, len: nat, ghost rest: seq<byte>) returns (b: byte, n: nat)
    requires read < len < a.Length && rest == a[read..len]
    ensures b == Decoded(rest) && n == Consumed(rest)
  {
    var remaining := len - read;
    assert forall i :: 0 <= i < remaining ==> rest[i] == a[read + i];
    if a[read] == BACKSLASH && remaining >= 4 && IsOctal(a[read + 1]) && IsOctal(a[read + 2]) && IsOctal(a[read + 3]) {
      return OctalValue(a[read + 1], a[read + 2], a[read + 3]), 4;
    } else if a[read] == BACKSLASH && remaining >= 2 && !IsOctal(a[read + 1]) {
      return a[read + 1], 2;
    } else {
      return a[read], 1;
    }
  }

  /** One iteration of the decoding loop: one byte is written at or before the ones being read. */
  method DecodeOne(a: array<byte>, read: nat, write: nat, len: nat, ghost s: seq<byte>) returns (n: nat)
    requires write <= read < len < a.Length && len == |s| && a[read..len] == s[read..]
    modifies a
    ensures 1 <= n <= len - read
    ensures a[..write + 1] + Decode(s[read + n..]) == old(a[..write]) + Decode(s[read..])
    ensures a[read + n..] == old(a[read + n..])
  {
    var b;
    b, n := ReadEscape(a, read, len, s[read..]);
    DecodeNext(s, read, a[..write]);
    a[write] := b;
    assert a[..write + 1] == old(a[..write]) + [b];
  }

  /** The decoding loop of unescape_shell. */
  method DecodeInPlace(a: array<byte>, len: nat, ghost s: seq<byte>)
    requires len < a.Length && s == a[..len]
    modifies a
    ensures |Decode(s)| <= len && a[..|Decode(s)|] == Decode(s) && a[|Decode(s)|] == 0
    ensures a[len + 1..] == old(a[len + 1..])
  {
    var read, write := 0, 0;
    ghost var all := a[..];
    assert s[0..] == s;
    while read < len
      invariant write <= read <= len
      invariant a[read..] == all[read..]
      invariant a[..write] + Decode(s[read..]) == Decode(s)
      decreases len - read
    {
      TailIsUntouched(a[..], all, s, read, len);
      var n := DecodeOne(a, read, write, len, s);
      assert a[read + n..] == all[read + n..];
      read, write := read + n, write + 1;
    }
    assert Decode(s[read..]) == [] && a[..write] == Decode(s);
    a[write] := 0;
  }

  lemma TailIsUntouched(now: seq<byte>, all: seq<byte>, s: seq<byte>, read: nat, len: nat)
    requires read <= len < |all| == |now| && s == all[..len] && now[read..] == all[read..]
    ensures now[read..len] == s[read..]
    ensures forall n :: read <= n <= |all| ==> now[n..] == all[n..]
  {
    assert now[read..len] == now[read..][..len - read];
    forall n | read <= n <= |all| ensures now[n..] == all[n..] {
      assert now[n..] == now[read..][n - read..] && all[n..] == all[read..][n - read..];
    }
  }

  /** Escaping as the writers do it, then decoding as the readers do it, gives the string back. */
  method StoreAndLoad(input: array<byte>, ghost s: seq<byte>) returns (stored: array?<byte>)
    requires CString(input, s) && |Encode(s)| < MAX_SIZE
    modifies input
    ensures stored != null && CString(stored, s)
  {
    var size := CheckEscape(input, s);
    ghost var text;
    if size == 0 {
      PlainRoundTrip(s);
      stored, text := input, s;
    } else {
      RoundTrip(s);
      stored := EscapeShell(input, size, s);
      text := Encode(s);
    }
    assert CString(stored, text) && Decode(text) == s;
    assert stored[..][|text|] == 0;
    label before:
    var rc := Unescape(stored, stored.Length);
    assert old@before(CString(stored, text));
  }
}
