/**
 * Lexicographic comparison of integer keys and an in-place sort of an
 * array by such a key.  Each Java comparator of the core (McVersion.compareTo,
 * the ranking lambda of findBestMatchVersion, the newest-first lambda of
 * getNewestApi) is proved to return exactly LexCompare of a key, so the
 * library sorts the source calls are modelled by SortByKey.
 */
module KeySort {

  /** -1, 0 or 1 as `a` precedes, equals or follows `b` lexicographically. */
  function LexCompare(a: seq<int>, b: seq<int>): (r: int)
    ensures -1 <= r <= 1
  {
    if |a| == 0 && |b| == 0 then 0
    else if |a| == 0 then -1
    else if |b| == 0 then 1
    else if a[0] < b[0] then -1
    else if a[0] > b[0] then 1
    else LexCompare(a[1..], b[1..])
  }

  /** One step of the comparison: the heads decide unless they are equal. */
  lemma LexStep(a: seq<int>, b: seq<int>)
    requires |a| > 0 && |b| > 0
    ensures LexCompare(a, b) ==
      if a[0] < b[0] then -1 else if a[0] > b[0] then 1 else LexCompare(a[1..], b[1..])
  {
  }

  lemma {:induction false} LexAntisymmetric(a: seq<int>, b: seq<int>)
    ensures LexCompare(a, b) == -LexCompare(b, a)
  {
    if |a| > 0 && |b| > 0 && a[0] == b[0] {
      LexAntisymmetric(a[1..], b[1..]);
    }
  }

  lemma {:induction false} LexZeroIsEqual(a: seq<int>, b: seq<int>)
    ensures LexCompare(a, b) == 0 <==> a == b
  {
    if |a| > 0 && |b| > 0 && a[0] == b[0] {
      LexZeroIsEqual(a[1..], b[1..]);
      if a[1..] == b[1..] {
        assert a == [a[0]] + a[1..] && b == [b[0]] + b[1..];
      }
    }
  }

  lemma {:induction false} LexTransitive(a: seq<int>, b: seq<int>, c: seq<int>)
    requires LexCompare(a, b) <= 0 && LexCompare(b, c) <= 0
    ensures LexCompare(a, c) <= 0
    ensures LexCompare(a, b) < 0 || LexCompare(b, c) < 0 ==> LexCompare(a, c) < 0
  {
    if |a| > 0 && |b| > 0 && |c| > 0 && a[0] == b[0] == c[0] {
      LexTransitive(a[1..], b[1..], c[1..]);
    }
  }

  /** Every element's key is at most the key of each later element. */
  ghost predicate SortedBy<T>(s: seq<T>, key: T -> seq<int>)
  {
    forall i, j :: 0 <= i < j < |s| ==> LexCompare(key(s[i]), key(s[j])) <= 0
  }

  /** The first element of a sorted sequence has a least key. */
  lemma SortedHeadIsLeast<T>(s: seq<T>, key: T -> seq<int>)
    requires SortedBy(s, key) && |s| > 0
    ensures forall x :: x in s ==> LexCompare(key(s[0]), key(x)) <= 0
  {
    forall x | x in s
      ensures LexCompare(key(s[0]), key(x)) <= 0
    {
      var k :| 0 <= k < |s| && s[k] == x;
      if k == 0 {
        LexZeroIsEqual(key(x), key(x));
      }
    }
  }

  /**
   * Insertion sort by adjacent swaps: `a` ends up sorted by `key` and holds
   * the same elements as before.
   */
  method SortByKey<T>(a: array<T>, key: T -> seq<int>)
    modifies a
    ensures SortedBy(a[..], key)
    ensures multiset(a[..]) == multiset(old(a[..]))
  {
    var i := 0;
    while i < a.Length
      invariant 0 <= i <= a.Length
      invariant SortedBy(a[..i], key)
      invariant multiset(a[..]) == multiset(old(a[..]))
    {
      InsertLast(a, i, key);
      i := i + 1;
    }
  }

  /** Moves a[i] left into the sorted prefix a[..i]. */
  method InsertLast<T>(a: array<T>, i: int, key: T -> seq<int>)
    requires 0 <= i < a.Length
    requires SortedBy(a[..i], key)
    modifies a
    ensures SortedBy(a[..i + 1], key)
    ensures multiset(a[..]) == multiset(old(a[..]))
    ensures a[i + 1..] == old(a[i + 1..])
  {
    var j := i;
    while j > 0 && LexCompare(key(a[j - 1]), key(a[j])) > 0
      invariant 0 <= j <= i
      invariant multiset(a[..]) == multiset(old(a[..]))
      invariant a[i + 1..] == old(a[i + 1..])
      invariant SortedExcept(a[..i + 1], j, key)
      invariant forall q :: j < q <= i ==> LexCompare(key(a[j]), key(a[q])) < 0
    {
      LexAntisymmetric(key(a[j - 1]), key(a[j]));
      Swap(a, j);
      j := j - 1;
    }
    ClosePrefix(a[..i + 1], j, key);
  }

  /** Sorted once the element at index j is ignored. */
  ghost predicate SortedExcept<T>(s: seq<T>, j: int, key: T -> seq<int>)
  {
    forall p, q :: 0 <= p < q < |s| && p != j && q != j ==> LexCompare(key(s[p]), key(s[q])) <= 0
  }

  /** Exchanges a[j - 1] and a[j]. */
  method Swap<T>(a: array<T>, j: int)
    requires 0 < j < a.Length
    modifies a
    ensures a[..] == old(a[..])[j - 1 := old(a[j])][j := old(a[j - 1])]
    ensures multiset(a[..]) == multiset(old(a[..]))
  {
    a[j - 1], a[j] := a[j], a[j - 1];
  }

  /** The loop exit of InsertLast: the element at j fits between its neighbours. */
  lemma ClosePrefix<T>(s: seq<T>, j: int, key: T -> seq<int>)
    requires 0 <= j < |s|
    requires SortedExcept(s, j, key)
    requires forall q :: j < q < |s| ==> LexCompare(key(s[j]), key(s[q])) < 0
    requires j > 0 ==> LexCompare(key(s[j - 1]), key(s[j])) <= 0
    ensures SortedBy(s, key)
  {
    forall p, q | 0 <= p < q < |s|
      ensures LexCompare(key(s[p]), key(s[q])) <= 0
    {
      if q == j && p < j - 1 {
        LexTransitive(key(s[p]), key(s[j - 1]), key(s[j]));
      }
    }
  }
}
