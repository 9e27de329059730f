/**
 * Ascending sort of coordinate lists, standing in for Python's `list.sort()`
 * and `sorted()` on numbers.
 */
module Sorting {

  predicate Sorted(s: seq<real>) {
    forall i, j :: 0 <= i < j < |s| ==> s[i] <= s[j]
  }

  /** Inserts `x` into an ascending list, before the first element not below it. */
  function Insert(x: real, s: seq<real>): (r: seq<real>)
    requires Sorted(s)
    ensures Sorted(r)
    ensures multiset(r) == multiset(s) + multiset{x}
    ensures |r| == |s| + 1
    ensures r[0] == if s == [] || x <= s[0] then x else s[0]
  {
    if s == [] || x <= s[0] then [x] + s
    else
      assert s == [s[0]] + s[1..];
      var rest := Insert(x, s[1..]);
      // `rest` starts with x or with s[1], both at least s[0]
      ConsSorted(s[0], rest);
      [s[0]] + rest
  }

  /** Putting a value no greater than the head in front of an ascending list keeps it ascending. */
  lemma ConsSorted(h: real, s: seq<real>)
    requires Sorted(s) && (s != [] ==> h <= s[0])
    ensures Sorted([h] + s)
  {
    assert forall j :: 0 <= j < |s| ==> h <= s[0] <= s[j];
  }

  function Sort(s: seq<real>): (r: seq<real>)
    ensures Sorted(r)
    ensures multiset(r) == multiset(s)
  {
    if s == [] then []
    else
      assert s == [s[0]] + s[1..];
      Insert(s[0], Sort(s[1..]))
  }

  /** The first element of an ascending list is below every element of it. */
  lemma {:induction false} HeadIsMinimum(s: seq<real>, x: real)
    requires Sorted(s) && x in multiset(s)
    ensures s[0] <= x
  {
    var i :| 0 <= i < |s| && s[i] == x;
  }

  /** An ascending list is determined by its elements. */
  lemma {:induction false} SortedUnique(a: seq<real>, b: seq<real>)
    requires Sorted(a) && Sorted(b)
    requires multiset(a) == multiset(b)
    ensures a == b
  {
    if a != [] {
      assert a[0] in multiset(b);
      assert b[0] in multiset(a);
      HeadIsMinimum(a, b[0]);
      HeadIsMinimum(b, a[0]);
      assert a[0] == b[0];
      assert a == [a[0]] + a[1..] && b == [b[0]] + b[1..];
      assert multiset(a) == multiset{a[0]} + multiset(a[1..]);
      assert multiset(b) == multiset{b[0]} + multiset(b[1..]);
      assert multiset(a[1..]) == multiset(a) - multiset{a[0]};
      assert multiset(b[1..]) == multiset(b) - multiset{b[0]};
      SortedUnique(a[1..], b[1..]);
    } else {
      assert |b| == |multiset(b)| == 0;
    }
  }

  /** Sorting an ascending list leaves it as it is. */
  lemma SortOfSorted(s: seq<real>)
    requires Sorted(s)
    ensures Sort(s) == s
  {
    SortedUnique(Sort(s), s);
  }

  /** Sorting depends only on the elements, not on their order. */
  lemma SortPermutationInvariant(a: seq<real>, b: seq<real>)
    requires multiset(a) == multiset(b)
    ensures Sort(a) == Sort(b)
  {
    SortedUnique(Sort(a), Sort(b));
  }

  /** `r` is `s` with the entries at `i` and `j` exchanged. */
  predicate IsSwap(s: seq<real>, r: seq<real>, i: nat, j: nat) {
    i < |s| && j < |s| && r == s[i := s[j]][j := s[i]]
  }

  /** Exchanging two entries keeps the same elements. */
  lemma SwapPreservesMultiset(s: seq<real>, r: seq<real>, i: nat, j: nat)
    requires IsSwap(s, r, i, j)
    ensures multiset(s) == multiset(r)
  {
  }
}
