/** String comparison, standing in for JavaScript's `String.prototype.localeCompare`.
    Locale-aware collation is replaced by plain lexicographic order on characters;
    what the sorts rely on is only that it is a consistent three-way comparison. */
module Collation {

  /** Three-way lexicographic comparison: -1 when `a` sorts first, 1 when `b` does,
      0 when they are the same string. */
  function LocaleCompare(a: string, b: string): (r: int)
    ensures -1 <= r <= 1
    ensures r == 0 <==> a == b
  {
    if a == [] && b == [] then 0
    else if a == [] then -1
    else if b == [] then 1
    else if a[0] < b[0] then -1
    else if a[0] > b[0] then 1
    else
      assert a == [a[0]] + a[1..] && b == [b[0]] + b[1..];
      LocaleCompare(a[1..], b[1..])
  }

  /** Swapping the arguments flips the result. */
  lemma {:induction false} LocaleCompareAntisymmetric(a: string, b: string)
    ensures LocaleCompare(a, b) == -LocaleCompare(b, a)
  {
    if a != [] && b != [] && a[0] == b[0] {
      LocaleCompareAntisymmetric(a[1..], b[1..]);
    }
  }

  /** "Sorts no later than" is transitive. */
  lemma {:induction false} LocaleCompareTransitive(a: string, b: string, c: string)
    requires LocaleCompare(a, b) <= 0 && LocaleCompare(b, c) <= 0
    ensures LocaleCompare(a, c) <= 0
  {
    if a != [] && b != [] && c != [] && a[0] == b[0] == c[0] {
      LocaleCompareTransitive(a[1..], b[1..], c[1..]);
    }
  }
}
