/**
 * `Array.prototype.filter` and the facts about it the search relies on: it keeps
 * exactly the elements that pass, with their multiplicities, in their order.
 */
module Seqs {

  /** `s.filter(p)`. */
  function Filter<T>(s: seq<T>, p: T -> bool): (r: seq<T>)
    ensures |r| <= |s|
    ensures forall i :: 0 <= i < |r| ==> p(r[i])
  {
    if s == [] then [] else (if p(s[0]) then [s[0]] else []) + Filter(s[1..], p)
  }

  /** `a` is `b` with some elements left out, the rest in their order. */
  predicate Subseq<T(==)>(a: seq<T>, b: seq<T>)
    decreases |b|
  {
    if a == [] then true
    else if b == [] then false
    else if a[0] == b[0] then Subseq(a[1..], b[1..])
    else Subseq(a, b[1..])
  }

  /** No element occurs twice. */
  predicate NoDup<T(==)>(s: seq<T>) {
    forall i, j :: 0 <= i < j < |s| ==> s[i] != s[j]
  }

  /** Appending a new element keeps a list free of duplicates. */
  lemma NoDupSnoc<T>(s: seq<T>, x: T)
    requires NoDup(s) && x !in s
    ensures NoDup(s + [x])
  {
  }

  lemma {:induction false} FilterMembers<T>(s: seq<T>, p: T -> bool, x: T)
    ensures x in Filter(s, p) <==> x in s && p(x)
  {
    if s != [] {
      FilterMembers(s[1..], p, x);
      assert s == [s[0]] + s[1..];
    }
  }

  /** Each element passing `p` keeps all its copies; the others lose all of them. */
  lemma {:induction false} FilterCount<T>(s: seq<T>, p: T -> bool, x: T)
    ensures multiset(Filter(s, p))[x] == if p(x) then multiset(s)[x] else 0
  {
    if s != [] {
      FilterCount(s[1..], p, x);
      assert s == [s[0]] + s[1..];
      assert multiset(s) == multiset{s[0]} + multiset(s[1..]);
    }
  }

  lemma {:induction false} FilterSubseq<T>(s: seq<T>, p: T -> bool)
    ensures Subseq(Filter(s, p), s)
  {
    if s != [] {
      FilterSubseq(s[1..], p);
      var r := Filter(s, p);
      if p(s[0]) {
        assert r[0] == s[0] && r[1..] == Filter(s[1..], p);
      } else {
        assert r == Filter(s[1..], p);
        SubseqSkip(r, s);
      }
    }
  }

  lemma {:induction false} FilterAppend<T>(a: seq<T>, b: seq<T>, p: T -> bool)
    ensures Filter(a + b, p) == Filter(a, p) + Filter(b, p)
  {
    if a != [] {
      assert (a + b)[1..] == a[1..] + b;
      FilterAppend(a[1..], b, p);
    } else {
      assert a + b == b;
    }
  }

  /** A filter every element passes changes nothing. */
  lemma {:induction false} FilterAll<T>(s: seq<T>, p: T -> bool)
    requires forall i :: 0 <= i < |s| ==> p(s[i])
    ensures Filter(s, p) == s
  {
    if s != [] {
      FilterAll(s[1..], p);
    }
  }

  /** Skipping the head of `b` keeps every subsequence of its tail one of `b`. */
  lemma {:induction false} SubseqSkip<T>(a: seq<T>, b: seq<T>)
    requires b != [] && Subseq(a, b[1..])
    ensures Subseq(a, b)
    decreases |b|, |a|, 0
  {
    if a != [] && a[0] == b[0] {
      SubseqDropHead(a, b[1..]);
    }
  }

  lemma {:induction false} SubseqDropHead<T>(a: seq<T>, b: seq<T>)
    requires a != [] && Subseq(a, b)
    ensures Subseq(a[1..], b)
    decreases |b|, |a|, 1
  {
    if a[0] == b[0] {
      if a[1..] != [] {
        SubseqDropHead(a[1..], b[1..]);
        SubseqSkip(a[1..], b);
      }
    } else {
      SubseqDropHead(a, b[1..]);
      if a[1..] != [] {
        SubseqSkip(a[1..], b);
      }
    }
  }

  lemma {:induction false} SubseqTrans<T>(a: seq<T>, b: seq<T>, c: seq<T>)
    requires Subseq(a, b) && Subseq(b, c)
    ensures Subseq(a, c)
    decreases |c|
  {
    if a != [] {
      if b[0] == c[0] {
        if a[0] == b[0] {
          SubseqTrans(a[1..], b[1..], c[1..]);
        } else {
          SubseqTrans(a, b[1..], c[1..]);
        }
      } else {
        SubseqTrans(a, b, c[1..]);
        SubseqSkip(a, c);
      }
    }
  }

  /** Every element of a subsequence is an element of the whole. */
  lemma {:induction false} SubseqMembers<T>(a: seq<T>, b: seq<T>, x: T)
    requires Subseq(a, b) && x in a
    ensures x in b
    decreases |b|
  {
    if a[0] == b[0] {
      if x != a[0] {
        assert x in a[1..];
        SubseqMembers(a[1..], b[1..], x);
      }
    } else {
      SubseqMembers(a, b[1..], x);
    }
  }

  lemma {:induction false} NoDupCount<T>(s: seq<T>, x: T)
    requires NoDup(s)
    ensures multiset(s)[x] <= 1
  {
    if s != [] {
      assert s == [s[0]] + s[1..];
      assert NoDup(s[1..]);
      NoDupCount(s[1..], x);
      if x == s[0] {
        assert x !in s[1..];
      }
    }
  }

  /** A permutation of a sequence without duplicates has none either. */
  lemma NoDupPermutation<T>(a: seq<T>, b: seq<T>)
    requires NoDup(a) && multiset(a) == multiset(b)
    ensures NoDup(b)
  {
    forall i, j | 0 <= i < j < |b|
      ensures b[i] != b[j]
    {
      NoDupCount(a, b[j]);
      assert b == b[..j] + b[j..];
      assert b[i] in b[..j] && b[j] in b[j..];
      assert multiset(b)[b[j]] == multiset(b[..j])[b[j]] + multiset(b[j..])[b[j]];
    }
  }

  lemma {:induction false} SubseqReflexive<T>(s: seq<T>)
    ensures Subseq(s, s)
  {
    if s != [] {
      SubseqReflexive(s[1..]);
    }
  }

  /** A prefix is a subsequence. */
  lemma {:induction false} PrefixSubseq<T>(a: seq<T>, b: seq<T>)
    requires a <= b
    ensures Subseq(a, b)
  {
    if a != [] {
      PrefixSubseq(a[1..], b[1..]);
    }
  }

  /** Leaving out one element keeps the rest in order. */
  lemma {:induction false} SubseqDropAt<T>(s: seq<T>, i: int)
    requires 0 <= i < |s|
    ensures Subseq(s[..i] + s[i + 1..], s)
  {
    if i == 0 {
      assert s[..i] + s[i + 1..] == s[1..];
      SubseqReflexive(s[1..]);
      SubseqSkip(s[1..], s);
    } else {
      var r := s[..i] + s[i + 1..];
      SubseqDropAt(s[1..], i - 1);
      assert r[1..] == s[1..][..i - 1] + s[1..][i..];
    }
  }

  /** A filter no element passes gives the empty sequence. */
  lemma {:induction false} FilterNone<T>(s: seq<T>, p: T -> bool)
    requires forall i :: 0 <= i < |s| ==> !p(s[i])
    ensures Filter(s, p) == []
  {
    if s != [] {
      FilterNone(s[1..], p);
    }
  }
}
