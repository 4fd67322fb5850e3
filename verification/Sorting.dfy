/** Python's `sorted` on integers: one definition for lists and for sets. */
module Sorting {
  ghost predicate IsSorted(s: seq<int>) {
    forall i, j :: 0 <= i < j < |s| ==> s[i] <= s[j]
  }

  ghost predicate IsStrictlySorted(s: seq<int>) {
    forall i, j :: 0 <= i < j < |s| ==> s[i] < s[j]
  }

  function Insert(x: int, s: seq<int>): (r: seq<int>)
    requires IsSorted(s)
    ensures multiset(r) == multiset(s) + multiset{x}
    ensures IsSorted(r)
  {
    if s == [] || x <= s[0] then
      [x] + s
    else
      var rest := Insert(x, s[1..]);
      InsertBelow(x, s[0], s[1..], rest);
      assert s == [s[0]] + s[1..];
      [s[0]] + rest
  }

  lemma InsertBelow(x: int, low: int, s: seq<int>, r: seq<int>)
    requires low <= x && forall k :: 0 <= k < |s| ==> low <= s[k]
    requires multiset(r) == multiset(s) + multiset{x}
    ensures forall k :: 0 <= k < |r| ==> low <= r[k]
  {
    forall k | 0 <= k < |r| ensures low <= r[k] {
      assert r[k] in multiset(r);
    }
  }

  /** sorted(list): keeps duplicates. */
  function Sorted(s: seq<int>): (r: seq<int>)
    ensures IsSorted(r) && multiset(r) == multiset(s)
  {
    if s == [] then
      []
    else
      assert s == [s[0]] + s[1..];
      Insert(s[0], Sorted(s[1..]))
  }

  /** list(set), in the order the elements first occur in s. */
  function Distinct(s: seq<int>): (r: seq<int>)
    ensures forall x :: x in r <==> x in s
    ensures forall i, j :: 0 <= i < j < |r| ==> r[i] != r[j]
  {
    if s == [] then
      []
    else
      var rest := Distinct(s[..|s| - 1]);
      assert s == s[..|s| - 1] + [s[|s| - 1]];
      if s[|s| - 1] in rest then rest else rest + [s[|s| - 1]]
  }

  /** sorted(set(list)). */
  function SortedSet(s: seq<int>): (r: seq<int>)
    ensures IsStrictlySorted(r)
    ensures forall x :: x in r <==> x in s
  {
    var d := Distinct(s);
    var r := Sorted(d);
    SortedKeepsElements(d);
    DistinctSortedIsStrict(d);
    r
  }

  lemma SortedKeepsElements(s: seq<int>)
    ensures forall x :: x in Sorted(s) <==> x in s
  {
    forall x ensures x in Sorted(s) <==> x in s {
      assert x in Sorted(s) <==> x in multiset(Sorted(s));
      assert x in s <==> x in multiset(s);
    }
  }

  lemma RepeatCountsTwice(s: seq<int>, i: nat, j: nat)
    requires i < j < |s| && s[i] == s[j]
    ensures multiset(s)[s[i]] >= 2
  {
    var a, b := s[..j], s[j..];
    assert s == a + b;
    assert multiset(s) == multiset(a) + multiset(b);
    assert a[i] in multiset(a) && b[0] in multiset(b);
  }

  lemma {:induction false} DistinctCountsOne(d: seq<int>)
    requires forall i, j :: 0 <= i < j < |d| ==> d[i] != d[j]
    ensures forall x :: x in multiset(d) ==> multiset(d)[x] == 1
  {
    if d != [] {
      DistinctCountsOne(d[1..]);
      assert d == [d[0]] + d[1..];
      assert multiset(d) == multiset{d[0]} + multiset(d[1..]);
      assert d[0] !in d[1..];
    }
  }

  lemma DistinctSortedIsStrict(d: seq<int>)
    requires forall i, j :: 0 <= i < j < |d| ==> d[i] != d[j]
    ensures IsStrictlySorted(Sorted(d))
  {
    DistinctCountsOne(d);
    forall i, j | 0 <= i < j < |Sorted(d)| ensures Sorted(d)[i] < Sorted(d)[j] {
      if Sorted(d)[i] == Sorted(d)[j] {
        RepeatCountsTwice(Sorted(d), i, j);
      }
    }
  }

  /** Two strictly sorted sequences with the same elements are equal: sorted(set) is canonical. */
  lemma {:induction false} StrictlySortedUnique(a: seq<int>, b: seq<int>)
    requires IsStrictlySorted(a) && IsStrictlySorted(b)
    requires forall x :: x in a <==> x in b
    ensures a == b
  {
    assert b == [] || b[0] in b;
    if a != [] {
      assert a[0] in a;
      assert a[0] in b && b[0] in a;
      assert a[0] == b[0];
      forall x ensures x in a[1..] <==> x in b[1..] {
        assert x in a <==> x == a[0] || x in a[1..];
        assert x in b <==> x == b[0] || x in b[1..];
        assert a[0] !in a[1..] && b[0] !in b[1..];
      }
      StrictlySortedUnique(a[1..], b[1..]);
      assert a == [a[0]] + a[1..] && b == [b[0]] + b[1..];
    }
  }
}
