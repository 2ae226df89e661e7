/** In-place reordering of a list view's items: JavaScript's `Array.prototype.sort`
    with a comparator, and `Array.prototype.reverse`. */
module Sorting {

  /** A comparator in the JavaScript sense: negative means "a before b", positive
      "b before a", zero "either". `sort` only promises an ordered result when the
      comparator is consistent: the sign flips when the arguments are swapped,
      and "not after" is transitive. */
  ghost predicate Consistent<T(!new)>(cmp: (T, T) -> int) {
    && (forall x, y :: cmp(x, y) < 0 <==> cmp(y, x) > 0)
    && (forall x, y, z :: NotAfter(cmp, x, y) && NotAfter(cmp, y, z) ==> NotAfter(cmp, x, z))
  }

  /** `x` comes no later than `y` by `cmp`. */
  ghost predicate NotAfter<T>(cmp: (T, T) -> int, x: T, y: T) {
    cmp(x, y) <= 0
  }

  /** Every element comes no later, by `cmp`, than every element after it. */
  ghost predicate SortedBy<T>(s: seq<T>, cmp: (T, T) -> int) {
    forall i, j :: 0 <= i < j < |s| ==> cmp(s[i], s[j]) <= 0
  }

  /** The comparator with its arguments swapped: `(a, b) => cmp(b, a)`. */
  function Flip<T>(cmp: (T, T) -> int): (T, T) -> int {
    (x: T, y: T) => cmp(y, x)
  }

  /** The sequence in the opposite order. */
  function Reversed<T>(s: seq<T>): (r: seq<T>)
    ensures |r| == |s|
    ensures forall k :: 0 <= k < |s| ==> r[k] == s[|s| - 1 - k]
  {
    if s == [] then [] else [s[|s| - 1]] + Reversed(s[..|s| - 1])
  }

  /** Reversing twice gives back the original order. */
  lemma ReversedTwice<T>(s: seq<T>)
    ensures Reversed(Reversed(s)) == s
  {
    var r := Reversed(Reversed(s));
    assert |r| == |s|;
    forall k | 0 <= k < |s| ensures r[k] == s[k] {
      assert r[k] == Reversed(s)[|s| - 1 - k];
    }
  }

  /** Reversing preserves the elements and their multiplicities. */
  lemma {:induction false} ReversedPermutes<T>(s: seq<T>)
    ensures multiset(Reversed(s)) == multiset(s)
  {
    if s != [] {
      ReversedPermutes(s[..|s| - 1]);
      assert s == s[..|s| - 1] + [s[|s| - 1]];
    }
  }

  /** Reversing an ascending sequence gives one that is ascending for the flipped
      comparator, that is, descending for the original one. */
  lemma ReversedSortedIsFlipped<T>(s: seq<T>, cmp: (T, T) -> int)
    requires SortedBy(s, cmp)
    ensures SortedBy(Reversed(s), Flip(cmp))
  {
    var r := Reversed(s);
    forall i, j | 0 <= i < j < |r| ensures Flip(cmp)(r[i], r[j]) <= 0 {
      assert r[i] == s[|s| - 1 - i] && r[j] == s[|s| - 1 - j];
    }
  }

  /** Flipping a consistent comparator keeps it consistent. */
  lemma FlipConsistent<T(!new)>(cmp: (T, T) -> int)
    requires Consistent(cmp)
    ensures Consistent(Flip(cmp))
  {
    forall x, y ensures Flip(cmp)(x, y) < 0 <==> Flip(cmp)(y, x) > 0 {
      assert Flip(cmp)(x, y) == cmp(y, x) && Flip(cmp)(y, x) == cmp(x, y);
    }
    forall x, y, z | NotAfter(Flip(cmp), x, y) && NotAfter(Flip(cmp), y, z)
      ensures NotAfter(Flip(cmp), x, z)
    {
      assert NotAfter(cmp, z, y) && NotAfter(cmp, y, x);
    }
  }

  /** Distinct positions of `s` never compare equal (for an identifier comparator:
      the identifiers are unique). */
  ghost predicate Strict<T>(s: seq<T>, cmp: (T, T) -> int) {
    forall i, j :: 0 <= i < |s| && 0 <= j < |s| && i != j ==> cmp(s[i], s[j]) != 0
  }

  /** A strict consistent order leaves no choice: two sorted arrangements of the
      same elements are the same sequence, whatever order they started from. */
  lemma {:induction false} SortedArrangementUnique<T(!new)>(s: seq<T>, t: seq<T>, cmp: (T, T) -> int)
    requires Consistent(cmp)
    requires SortedBy(s, cmp) && SortedBy(t, cmp)
    requires multiset(s) == multiset(t)
    requires Strict(s, cmp)
    ensures s == t
  {
    if s == [] {
      assert |t| == |multiset(t)| == 0;
    } else {
      SmallestFirst(s, t, cmp);
      TailsAgree(s, t, cmp);
      SortedArrangementUnique(s[1..], t[1..], cmp);
      assert s == [s[0]] + s[1..] && t == [t[0]] + t[1..];
    }
  }

  /** Both arrangements start with the same, smallest, element. */
  lemma SmallestFirst<T(!new)>(s: seq<T>, t: seq<T>, cmp: (T, T) -> int)
    requires Consistent(cmp)
    requires SortedBy(s, cmp) && SortedBy(t, cmp)
    requires multiset(s) == multiset(t)
    requires Strict(s, cmp)
    requires s != []
    ensures t != [] && s[0] == t[0]
  {
    assert s[0] in multiset(t);
    var k :| 0 <= k < |t| && t[k] == s[0];
    assert t[0] in multiset(s);
    var m :| 0 <= m < |s| && s[m] == t[0];
    var least, head := s[0], t[0];
    assert k > 0 ==> cmp(head, least) <= 0;
    assert m > 0 ==> cmp(least, head) < 0;
  }

  /** Removing an equal first element keeps every hypothesis. */
  lemma TailsAgree<T>(s: seq<T>, t: seq<T>, cmp: (T, T) -> int)
    requires SortedBy(s, cmp) && SortedBy(t, cmp)
    requires multiset(s) == multiset(t)
    requires Strict(s, cmp)
    requires s != [] && t != [] && s[0] == t[0]
    ensures SortedBy(s[1..], cmp) && SortedBy(t[1..], cmp)
    ensures multiset(s[1..]) == multiset(t[1..])
    ensures Strict(s[1..], cmp)
  {
    TailSorted(s, cmp);
    TailSorted(t, cmp);
    TailStrict(s, cmp);
    TailMultiset(s, t);
  }

  lemma TailSorted<T>(s: seq<T>, cmp: (T, T) -> int)
    requires SortedBy(s, cmp) && s != []
    ensures SortedBy(s[1..], cmp)
  {
    forall i, j | 0 <= i < j < |s[1..]| ensures cmp(s[1..][i], s[1..][j]) <= 0 {
      assert s[1..][i] == s[i + 1] && s[1..][j] == s[j + 1];
    }
  }

  lemma TailStrict<T>(s: seq<T>, cmp: (T, T) -> int)
    requires Strict(s, cmp) && s != []
    ensures Strict(s[1..], cmp)
  {
    forall i, j | 0 <= i < |s[1..]| && 0 <= j < |s[1..]| && i != j
      ensures cmp(s[1..][i], s[1..][j]) != 0
    {
      assert s[1..][i] == s[i + 1] && s[1..][j] == s[j + 1];
    }
  }

  lemma TailMultiset<T>(s: seq<T>, t: seq<T>)
    requires multiset(s) == multiset(t) && s != [] && t != [] && s[0] == t[0]
    ensures multiset(s[1..]) == multiset(t[1..])
  {
    assert s == [s[0]] + s[1..] && t == [t[0]] + t[1..];
    assert multiset(s) == multiset{s[0]} + multiset(s[1..]);
    assert multiset(t) == multiset{t[0]} + multiset(t[1..]);
    assert multiset(s[1..]) == multiset(s) - multiset{s[0]};
    assert multiset(t[1..]) == multiset(t) - multiset{t[0]};
  }

  /** `a.sort(cmp)`: reorders `a` in place into ascending order by `cmp`, here
      by insertion sort. The order among elements that tie is not stated. */
  method SortInPlace<T(!new)>(a: array<T>, cmp: (T, T) -> int)
    requires Consistent(cmp)
    modifies a
    ensures SortedBy(a[..], cmp)
    ensures multiset(a[..]) == multiset(old(a[..]))
  {
    var i := 0;
    while i < a.Length
      invariant 0 <= i <= a.Length
      invariant SortedBy(a[..i], cmp)
      invariant multiset(a[..]) == multiset(old(a[..]))
    {
      Insert(a, i, cmp);
      i := i + 1;
    }
  }

  /** One insertion-sort step: with `a[..i]` ascending, moves `a[i]` leftwards
      past every greater element, so that `a[..i + 1]` is ascending. */
  method Insert<T(!new)>(a: array<T>, i: nat, cmp: (T, T) -> int)
    requires Consistent(cmp)
    requires i < a.Length
    requires SortedBy(a[..i], cmp)
    modifies a
    ensures SortedBy(a[..i + 1], cmp)
    ensures multiset(a[..]) == multiset(old(a[..]))
  {
    var j := i;
    InsertingStart(a[..], i, cmp);
    while j > 0 && cmp(a[j - 1], a[j]) > 0
      invariant 0 <= j <= i
      invariant Inserting(a[..], i, j, cmp)
      invariant multiset(a[..]) == multiset(old(a[..]))
    {
      SwapDown(a, i, j, cmp);
      j := j - 1;
    }
    InsertingDone(a[..], i, j, cmp);
  }

  /** The invariant of the insertion step: `s[..i + 1]` is ascending except that
      the element being inserted, at `j`, may still come before smaller ones; it
      already comes no later than everything to its right. */
  ghost predicate Inserting<T>(s: seq<T>, i: nat, j: nat, cmp: (T, T) -> int)
    requires j <= i < |s|
  {
    && (forall p, q :: 0 <= p < q <= i && p != j && q != j ==> cmp(s[p], s[q]) <= 0)
    && (forall q :: j < q <= i ==> cmp(s[j], s[q]) <= 0)
  }

  lemma InsertingStart<T>(s: seq<T>, i: nat, cmp: (T, T) -> int)
    requires i < |s| && SortedBy(s[..i], cmp)
    ensures Inserting(s, i, i, cmp)
  {
    forall p, q | 0 <= p < q <= i && p != i && q != i ensures cmp(s[p], s[q]) <= 0 {
      assert s[p] == s[..i][p] && s[q] == s[..i][q];
    }
  }

  lemma InsertingStep<T(!new)>(s: seq<T>, i: nat, j: nat, cmp: (T, T) -> int)
    requires Consistent(cmp)
    requires 0 < j <= i < |s|
    requires Inserting(s, i, j, cmp) && cmp(s[j - 1], s[j]) > 0
    ensures Inserting(s[j - 1 := s[j]][j := s[j - 1]], i, j - 1, cmp)
  {
    var t := s[j - 1 := s[j]][j := s[j - 1]];
    assert cmp(s[j], s[j - 1]) < 0;
    forall p, q | 0 <= p < q <= i && p != j - 1 && q != j - 1
      ensures cmp(t[p], t[q]) <= 0
    {
      if q == j {
        assert t[q] == s[j - 1];
      } else if p == j {
        assert t[p] == s[j - 1];
      }
    }
  }

  lemma InsertingDone<T(!new)>(s: seq<T>, i: nat, j: nat, cmp: (T, T) -> int)
    requires Consistent(cmp)
    requires j <= i < |s|
    requires Inserting(s, i, j, cmp)
    requires j == 0 || cmp(s[j - 1], s[j]) <= 0
    ensures SortedBy(s[..i + 1], cmp)
  {
    forall p, q | 0 <= p < q <= i ensures cmp(s[p], s[q]) <= 0 {
      if q == j && p < j - 1 {
        assert NotAfter(cmp, s[p], s[j - 1]) && NotAfter(cmp, s[j - 1], s[j]);
      }
    }
  }

  /** The body of the insertion loop: exchanges the element being inserted,
      at `j`, with its greater left neighbour. */
  method SwapDown<T(!new)>(a: array<T>, i: nat, j: nat, cmp: (T, T) -> int)
    requires Consistent(cmp)
    requires 0 < j <= i < a.Length
    requires Inserting(a[..], i, j, cmp) && cmp(a[j - 1], a[j]) > 0
    modifies a
    ensures Inserting(a[..], i, j - 1, cmp)
    ensures multiset(a[..]) == multiset(old(a[..]))
  {
    ghost var before := a[..];
    Swap(a, j - 1);
    InsertingStep(before, i, j, cmp);
    assert a[..] == before[j - 1 := before[j]][j := before[j - 1]];
  }

  /** Exchanges `a[k]` and `a[k + 1]`. */
  method Swap<T>(a: array<T>, k: nat)
    requires k + 1 < a.Length
    modifies a
    ensures a[..] == old(a[..])[k := old(a[k + 1])][k + 1 := old(a[k])]
    ensures multiset(a[..]) == multiset(old(a[..]))
  {
    a[k], a[k + 1] := a[k + 1], a[k];
  }

  /** `a.reverse()`: reverses `a` in place. */
  method ReverseInPlace<T>(a: array<T>)
    modifies a
    ensures a[..] == Reversed(old(a[..]))
  {
    var lo, hi := 0, a.Length - 1;
    while lo < hi
      invariant 0 <= lo <= a.Length && hi == a.Length - 1 - lo
      invariant forall k :: 0 <= k < lo ==> a[k] == old(a[a.Length - 1 - k]) && a[a.Length - 1 - k] == old(a[k])
      invariant forall k :: lo <= k < a.Length - lo ==> a[k] == old(a[k])
    {
      a[lo], a[hi] := a[hi], a[lo];
      lo, hi := lo + 1, hi - 1;
    }
    assert a[..] == Reversed(old(a[..])) by {
      var r := Reversed(old(a[..]));
      assert |r| == a.Length;
      forall k | 0 <= k < a.Length ensures a[..][k] == r[k] {
      }
    }
  }
}
