/**
 * `Array.prototype.sort()` without a comparator, on strings: the order is
 * lexicographic by character code, and the sorted array is a permutation of
 * the input. Insertion sort is the reference definition; any algorithm with
 * these two properties gives the same array (SortedPermutationsEqual).
 */
module Ordering {
  import opened Seqs

  /** `a` sorts no later than `b`: lexicographic comparison by character code. */
  predicate Below(a: string, b: string) {
    a == [] || (b != [] && (a[0] < b[0] || (a[0] == b[0] && Below(a[1..], b[1..]))))
  }

  lemma {:induction false} BelowReflexive(a: string)
    ensures Below(a, a)
  {
    if a != [] {
      BelowReflexive(a[1..]);
    }
  }

  lemma {:induction false} BelowTotal(a: string, b: string)
    ensures Below(a, b) || Below(b, a)
  {
    if a != [] && b != [] && a[0] == b[0] {
      BelowTotal(a[1..], b[1..]);
    }
  }

  lemma {:induction false} BelowAntisymmetric(a: string, b: string)
    requires Below(a, b) && Below(b, a)
    ensures a == b
  {
    if a != [] && b != [] {
      BelowAntisymmetric(a[1..], b[1..]);
      assert a == [a[0]] + a[1..] && b == [b[0]] + b[1..];
    }
  }

  lemma {:induction false} BelowTransitive(a: string, b: string, c: string)
    requires Below(a, b) && Below(b, c)
    ensures Below(a, c)
  {
    if a != [] && a[0] == b[0] && b[0] == c[0] {
      BelowTransitive(a[1..], b[1..], c[1..]);
    }
  }

  predicate Sorted(s: seq<string>) {
    forall i, j :: 0 <= i < j < |s| ==> Below(s[i], s[j])
  }

  /** Sorted and without duplicates. */
  predicate StrictlySorted(s: seq<string>) {
    forall i, j :: 0 <= i < j < |s| ==> Below(s[i], s[j]) && s[i] != s[j]
  }

  /** `x` put in front of the first element it sorts no later than. */
  function Insert(x: string, s: seq<string>): (r: seq<string>)
    ensures multiset(r) == multiset(s) + multiset{x}
  {
    if s == [] then [x]
    else if Below(x, s[0]) then [x] + s
    else
      assert s == [s[0]] + s[1..];
      [s[0]] + Insert(x, s[1..])
  }

  function Sort(s: seq<string>): (r: seq<string>)
    ensures multiset(r) == multiset(s)
  {
    if s == [] then []
    else
      assert s == [s[0]] + s[1..];
      Insert(s[0], Sort(s[1..]))
  }

  /** A sorted list stays sorted with a lower bound of all its elements in front. */
  lemma SortedCons(a: string, t: seq<string>)
    requires Sorted(t) && forall j :: 0 <= j < |t| ==> Below(a, t[j])
    ensures Sorted([a] + t)
  {
    var r := [a] + t;
    forall i, j | 0 <= i < j < |r|
      ensures Below(r[i], r[j])
    {
      if i > 0 {
        assert r[i] == t[i - 1] && r[j] == t[j - 1];
      }
    }
  }

  /** A lower bound of `x` and of all of `s` bounds all of `Insert(x, s)`. */
  lemma {:induction false} InsertLowerBound(x: string, s: seq<string>, a: string)
    requires Below(a, x) && forall j :: 0 <= j < |s| ==> Below(a, s[j])
    ensures forall j :: 0 <= j < |Insert(x, s)| ==> Below(a, Insert(x, s)[j])
  {
    if s != [] && !Below(x, s[0]) {
      InsertLowerBound(x, s[1..], a);
      assert Insert(x, s) == [s[0]] + Insert(x, s[1..]);
    }
  }

  lemma {:induction false} InsertSorted(x: string, s: seq<string>)
    requires Sorted(s)
    ensures Sorted(Insert(x, s))
  {
    if s == [] {
    } else if Below(x, s[0]) {
      forall j | 0 <= j < |s|
        ensures Below(x, s[j])
      {
        if j > 0 {
          BelowTransitive(x, s[0], s[j]);
        }
      }
      SortedCons(x, s);
    } else {
      BelowTotal(x, s[0]);
      InsertSorted(x, s[1..]);
      InsertLowerBound(x, s[1..], s[0]);
      SortedCons(s[0], Insert(x, s[1..]));
    }
  }

  /** The reference sort returns a sorted permutation of its input. */
  lemma {:induction false} SortSorted(s: seq<string>)
    ensures Sorted(Sort(s))
  {
    if s != [] {
      SortSorted(s[1..]);
      InsertSorted(s[0], Sort(s[1..]));
    }
  }

  /** Sorting a list without duplicates gives a strictly increasing one. */
  lemma SortDistinct(s: seq<string>)
    requires NoDup(s)
    ensures StrictlySorted(Sort(s))
  {
    SortSorted(s);
    NoDupPermutation(s, Sort(s));
  }

  /** Removing the head of a list removes one copy of it from the multiset. */
  lemma MultisetTail(s: seq<string>)
    requires s != []
    ensures multiset(s[1..]) == multiset(s) - multiset{s[0]}
  {
    assert s == [s[0]] + s[1..];
  }

  /** Two sorted permutations of one list start with the same element. */
  lemma SortedHeadsAgree(a: seq<string>, b: seq<string>)
    requires Sorted(a) && Sorted(b) && multiset(a) == multiset(b) && a != [] && b != []
    ensures a[0] == b[0]
  {
    assert a[0] in multiset(b) && b[0] in multiset(a);
    var i :| 0 <= i < |b| && b[i] == a[0];
    var j :| 0 <= j < |a| && a[j] == b[0];
    if i > 0 && j > 0 {
      assert Below(b[0], a[0]) && Below(a[0], b[0]);
      BelowAntisymmetric(a[0], b[0]);
    }
  }

  /** A sorted permutation is unique: the sort algorithm does not matter. */
  lemma {:induction false} SortedPermutationsEqual(a: seq<string>, b: seq<string>)
    requires Sorted(a) && Sorted(b) && multiset(a) == multiset(b)
    ensures a == b
  {
    if a != [] {
      assert |b| == |a| by {
        assert |multiset(a)| == |a| && |multiset(b)| == |b|;
      }
      SortedHeadsAgree(a, b);
      MultisetTail(a);
      MultisetTail(b);
      SortedPermutationsEqual(a[1..], b[1..]);
      assert a == [a[0]] + a[1..] && b == [b[0]] + b[1..];
    }
  }
}
