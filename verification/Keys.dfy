/** The keys of attribute sets and the comparators that order them. */
module Keys {
  /** A numeric or a string set member; C strings are NUL-free, so `strcmp` sees the whole sequence. */
  datatype Key = Num(i: int) | Text(s: string)

  function StrCompare(a: string, b: string): (c: int)
    ensures -1 <= c <= 1
  {
    if a == [] && b == [] then 0
    else if a == [] then -1
    else if b == [] then 1
    else if a[0] < b[0] then -1
    else if a[0] > b[0] then 1
    else StrCompare(a[1..], b[1..])
  }

  function NumCompare(a: int, b: int): int {
    if a > b then 1 else if a < b then -1 else 0
  }

  /** The comparator of a set; sets hold one kind of key, and ranking numbers first makes the order total. */
  function Compare(a: Key, b: Key): int {
    if a.Num? && b.Num? then NumCompare(a.i, b.i)
    else if a.Text? && b.Text? then StrCompare(a.s, b.s)
    else if a.Num? then -1 else 1
  }

  predicate Less(a: Key, b: Key) {
    Compare(a, b) < 0
  }

  lemma {:induction false} StrCompareFlips(a: string, b: string)
    ensures StrCompare(a, b) == -StrCompare(b, a)
    ensures StrCompare(a, b) == 0 <==> a == b
  {
    if a != [] && b != [] && a[0] == b[0] {
      StrCompareFlips(a[1..], b[1..]);
      assert a == [a[0]] + a[1..] && b == [b[0]] + b[1..];
    }
  }

  lemma {:induction false} StrCompareTransitive(a: string, b: string, c: string)
    requires StrCompare(a, b) < 0 && StrCompare(b, c) < 0
    ensures StrCompare(a, c) < 0
  {
    if a != [] && a[0] == b[0] && b[0] == c[0] {
      StrCompareTransitive(a[1..], b[1..], c[1..]);
    }
  }

  /** The comparators are strict total orders: exactly one of less, equal and greater holds. */
  lemma CompareIsTotal(a: Key, b: Key)
    ensures Compare(a, b) == -Compare(b, a)
    ensures Compare(a, b) == 0 <==> a == b
  {
    if a.Text? && b.Text? {
      StrCompareFlips(a.s, b.s);
    }
  }

  lemma LessIsTransitive(a: Key, b: Key, c: Key)
    requires Less(a, b) && Less(b, c)
    ensures Less(a, c)
  {
    if a.Text? && b.Text? && c.Text? {
      StrCompareTransitive(a.s, b.s, c.s);
    }
  }
}
