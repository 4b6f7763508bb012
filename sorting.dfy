/**
 * Sorting statements by their derived order. The collection's rendering sorts
 * a vector of statements in place; because the order is total and only equal
 * statements compare `Equal`, every sorting algorithm yields the same
 * sequence (`SortedUnique`), so the in-place sort is specified by the
 * functional reference `Sort`.
 */
module Sorting {
  import opened Orderings
  import opened Statement

  predicate Sorted(s: seq<TopLevelStatement>) {
    forall i, j :: 0 <= i < j < |s| ==> Le(s[i], s[j])
  }

  /** If `y` is at most every element of `s` and at most `x`, it is at most
      every element of any permutation of `s + [x]`. */
  lemma LowerBound(y: TopLevelStatement, x: TopLevelStatement, s: seq<TopLevelStatement>, r: seq<TopLevelStatement>)
    requires multiset(r) == multiset(s) + multiset{x}
    requires Le(y, x) && forall k :: 0 <= k < |s| ==> Le(y, s[k])
    ensures forall k :: 0 <= k < |r| ==> Le(y, r[k])
  {
    forall k | 0 <= k < |r|
      ensures Le(y, r[k])
    {
      assert r[k] in multiset(r);
      if r[k] != x {
        assert r[k] in multiset(s);
        var j :| 0 <= j < |s| && s[j] == r[k];
      }
    }
  }

  /** The first element of a sorted sequence is at most all of it. */
  lemma HeadIsLeast(x: TopLevelStatement, s: seq<TopLevelStatement>)
    requires Sorted(s) && s != [] && Le(x, s[0])
    ensures forall k :: 0 <= k < |s| ==> Le(x, s[k])
  {
    forall k | 0 < k < |s|
      ensures Le(x, s[k])
    {
      CompareTransitive(x, s[0], s[k]);
    }
  }

  /** A lower bound of a sorted sequence can go in front of it. */
  lemma ConsSorted(y: TopLevelStatement, r: seq<TopLevelStatement>)
    requires Sorted(r) && forall k :: 0 <= k < |r| ==> Le(y, r[k])
    ensures Sorted([y] + r)
  {
  }

  /** Inserts `x` into the sorted `s` before the first element it is at most. */
  function InsertSorted(x: TopLevelStatement, s: seq<TopLevelStatement>): (r: seq<TopLevelStatement>)
    requires Sorted(s)
    ensures Sorted(r) && multiset(r) == multiset(s) + multiset{x}
  {
    if s == [] then [x]
    else if Le(x, s[0]) then
      HeadIsLeast(x, s);
      ConsSorted(x, s);
      [x] + s
    else
      var tail := s[1..];
      assert s == [s[0]] + tail;
      var rest := InsertSorted(x, tail);
      LeTotal(x, s[0]);
      LowerBound(s[0], x, tail, rest);
      ConsSorted(s[0], rest);
      [s[0]] + rest
  }

  /** Reference sort (insertion sort): a sorted permutation of `s`. */
  function Sort(s: seq<TopLevelStatement>): (r: seq<TopLevelStatement>)
    ensures Sorted(r) && multiset(r) == multiset(s)
  {
    if s == [] then []
    else
      assert s == s[..|s| - 1] + [s[|s| - 1]];
      InsertSorted(s[|s| - 1], Sort(s[..|s| - 1]))
  }

  /** Two sorted arrangements of one multiset start with the same element. */
  lemma SortedSameHead(a: seq<TopLevelStatement>, b: seq<TopLevelStatement>)
    requires Sorted(a) && Sorted(b) && multiset(a) == multiset(b) && a != []
    ensures b != [] && a[0] == b[0]
  {
    assert a[0] in multiset(b);
    var j :| 0 <= j < |b| && b[j] == a[0];
    assert b[0] in multiset(a);
    var i :| 0 <= i < |a| && a[i] == b[0];
    assert Le(b[0], a[0]) && Le(a[0], b[0]);
    LeTotal(a[0], b[0]);
  }

  lemma TailMultiset(a: seq<TopLevelStatement>)
    requires a != []
    ensures multiset(a[1..]) == multiset(a) - multiset{a[0]}
  {
    assert a == [a[0]] + a[1..];
  }

  /** A multiset of statements has exactly one sorted arrangement. */
  lemma {:induction false} SortedUnique(a: seq<TopLevelStatement>, b: seq<TopLevelStatement>)
    requires Sorted(a) && Sorted(b) && multiset(a) == multiset(b)
    ensures a == b
    decreases |a|
  {
    if a == [] {
      assert |b| == |multiset(b)| == 0;
    } else {
      SortedSameHead(a, b);
      TailMultiset(a);
      TailMultiset(b);
      SortedUnique(a[1..], b[1..]);
      assert a == [a[0]] + a[1..] && b == [b[0]] + b[1..];
    }
  }

  /** Sorting sees only the multiset: the order the statements arrive in
      does not matter. */
  lemma SortDependsOnlyOnMultiset(s: seq<TopLevelStatement>, t: seq<TopLevelStatement>)
    requires multiset(s) == multiset(t)
    ensures Sort(s) == Sort(t)
  {
    SortedUnique(Sort(s), Sort(t));
  }

  /** The first `n` elements of `s` are in order. */
  predicate SortedPrefix(s: seq<TopLevelStatement>, n: nat)
    requires n <= |s|
  {
    forall p, q :: 0 <= p < q < n ==> Le(s[p], s[q])
  }

  /** Sifting the element that started at `i` towards the front has reached
      position `j`: `s[..j]` and `s[j..i + 1]` are each in order, and every
      element of the first part is at most every element of the second. */
  predicate Sifting(s: seq<TopLevelStatement>, j: nat, i: nat)
    requires j <= i < |s|
  {
    && SortedPrefix(s, j)
    && (forall p, q :: j <= p < q <= i ==> Le(s[p], s[q]))
    && (forall p, q :: 0 <= p < j < q <= i ==> Le(s[p], s[q]))
  }

  /** Swapping the sifted element with a greater predecessor moves it one
      step towards the front. */
  lemma SiftStep(s: seq<TopLevelStatement>, j: nat, i: nat)
    requires 0 < j <= i < |s| && Sifting(s, j, i)
    requires Compare(s[j - 1], s[j]) == Greater
    ensures Sifting(s[j - 1 := s[j]][j := s[j - 1]], j - 1, i)
    ensures multiset(s[j - 1 := s[j]][j := s[j - 1]]) == multiset(s)
  {
    var t := s[j - 1 := s[j]][j := s[j - 1]];
    CompareReverse(s[j - 1], s[j]);
    forall p, q | j - 1 <= p < q <= i
      ensures Le(t[p], t[q])
    {
      if p == j - 1 && q > j {
        assert t[p] == s[j] && t[q] == s[q];
      } else if p == j {
        assert t[p] == s[j - 1] && t[q] == s[q];
      }
    }
    forall p, q | 0 <= p < j - 1 < q <= i
      ensures Le(t[p], t[q])
    {
      if q == j {
        assert t[p] == s[p] && t[q] == s[j - 1];
      }
    }
  }

  /** Once the sifted element is at most its predecessor, `s[..i + 1]` is in
      order. */
  lemma SiftDone(s: seq<TopLevelStatement>, j: nat, i: nat)
    requires j <= i < |s| && Sifting(s, j, i)
    requires j > 0 ==> Compare(s[j - 1], s[j]) != Greater
    ensures SortedPrefix(s, i + 1)
  {
    if j > 0 {
      forall p | 0 <= p < j - 1
        ensures Le(s[p], s[j])
      {
        CompareTransitive(s[p], s[j - 1], s[j]);
      }
    }
  }

  /** Sorts `a` in place (insertion sort by adjacent swaps). */
  method SortInPlace(a: array<TopLevelStatement>)
    modifies a
    ensures Sorted(a[..]) && multiset(a[..]) == multiset(old(a[..]))
  {
    var i := 0;
    while i < a.Length
      invariant 0 <= i <= a.Length
      invariant SortedPrefix(a[..], i)
      invariant multiset(a[..]) == multiset(old(a[..]))
    {
      SiftDown(a, i);
      i := i + 1;
    }
  }

  /** Moves `a[i]` towards the front past every greater element, so that
      `a[..i + 1]` is sorted when `a[..i]` was. */
  method SiftDown(a: array<TopLevelStatement>, i: nat)
    requires i < a.Length && SortedPrefix(a[..], i)
    modifies a
    ensures SortedPrefix(a[..], i + 1)
    ensures multiset(a[..]) == multiset(old(a[..]))
    ensures a[i + 1..] == old(a[i + 1..])
  {
    var j := i;
    while j > 0 && Compare(a[j - 1], a[j]) == Greater
      invariant 0 <= j <= i && Sifting(a[..], j, i)
      invariant multiset(a[..]) == multiset(old(a[..]))
      invariant a[i + 1..] == old(a[i + 1..])
    {
      ghost var s := a[..];
      SiftStep(s, j, i);
      a[j - 1], a[j] := a[j], a[j - 1];
      assert a[..] == s[j - 1 := s[j]][j := s[j - 1]];
      j := j - 1;
    }
    SiftDone(a[..], j, i);
  }

  /** Every import precedes every variable definition. */
  lemma ImportsPrecedeDefinitions(s: seq<TopLevelStatement>, i: nat, j: nat)
    requires Sorted(s) && i < |s| && j < |s|
    requires s[i].ImportStatement? && s[j].VariableDefinition?
    ensures i < j
  {
  }

  /** Among imports, every default import precedes every named import. */
  lemma DefaultsPrecedeNamed(s: seq<TopLevelStatement>, i: nat, j: nat)
    requires Sorted(s) && i < |s| && j < |s|
    requires s[i].ImportStatement? && s[i].moduleImportName.Default?
    requires s[j].ImportStatement? && s[j].moduleImportName.Named?
    ensures i < j
  {
  }

  /** Imports are ordered by import name first and, for equal names, by path. */
  lemma ImportsByNameThenPath(s: seq<TopLevelStatement>, i: nat, j: nat)
    requires Sorted(s) && i < j < |s|
    requires s[i].ImportStatement? && s[j].ImportStatement?
    ensures CompareImportNames(s[i].moduleImportName, s[j].moduleImportName) != Greater
    ensures s[i].moduleImportName == s[j].moduleImportName ==> CompareStrings(s[i].path, s[j].path) != Greater
  {
    assert Le(s[i], s[j]);
  }

  /** For equal imported names, the import without an alias comes first. */
  lemma UnaliasedPrecedesAliased(s: seq<TopLevelStatement>, i: nat, j: nat)
    requires Sorted(s) && i < |s| && j < |s|
    requires s[i].ImportStatement? && s[i].moduleImportName.Named? && s[i].moduleImportName.importAs.None?
    requires s[j].ImportStatement? && s[j].moduleImportName.Named? && s[j].moduleImportName.importAs.Some?
    requires s[i].moduleImportName.name == s[j].moduleImportName.name
    ensures i < j
  {
  }
}
