/** Order-preserving filtering of sequences, the `Array.prototype.filter` that
    every search and filter of the dashboard is built from. */
module Seqs {
  import opened Wrappers

  /** `sub` can be obtained from `s` by deleting elements: it keeps their order. */
  predicate IsSubsequence<T(==)>(sub: seq<T>, s: seq<T>)
    decreases |s|
  {
    if sub == [] then true
    else if s == [] then false
    else if sub[0] == s[0] then IsSubsequence(sub[1..], s[1..])
    else IsSubsequence(sub, s[1..])
  }

  lemma {:induction false} SubsequenceReflexive<T>(s: seq<T>)
    ensures IsSubsequence(s, s)
  {
    if s != [] {
      SubsequenceReflexive(s[1..]);
    }
  }

  lemma {:induction false} SubsequenceLength<T>(sub: seq<T>, s: seq<T>)
    requires IsSubsequence(sub, s)
    ensures |sub| <= |s|
    decreases |s|
  {
    if sub != [] {
      if sub[0] == s[0] {
        SubsequenceLength(sub[1..], s[1..]);
      } else {
        SubsequenceLength(sub, s[1..]);
      }
    }
  }

  /** The elements of `s` that satisfy `p`, in their original order. */
  function Filter<T(!new)>(s: seq<T>, p: T -> bool): (r: seq<T>)
    ensures |r| <= |s|
    ensures forall x :: x in r <==> x in s && p(x)
    ensures IsSubsequence(r, s)
    ensures forall x :: multiset(r)[x] == if p(x) then multiset(s)[x] else 0
    ensures (forall x :: x in s ==> p(x)) ==> r == s
  {
    if s == [] then []
    else
      var rest := Filter(s[1..], p);
      assert forall x :: x in s <==> x == s[0] || x in s[1..];
      assert s == [s[0]] + s[1..];
      assert multiset(s) == multiset{s[0]} + multiset(s[1..]);
      if p(s[0]) then [s[0]] + rest else rest
  }

  /** Every element of `s` that is not `x`, in order: the `filter(id => id !== x)` idiom. */
  function Remove<T(==,!new)>(s: seq<T>, x: T): (r: seq<T>)
    ensures |r| <= |s| && x !in r
    ensures forall y :: y != x ==> (y in r <==> y in s)
    ensures IsSubsequence(r, s)
    ensures forall y :: y != x ==> multiset(r)[y] == multiset(s)[y]
    ensures x !in s ==> r == s
  {
    Filter(s, y => y != x)
  }

  /** `i` is the first index of `s` whose element satisfies `p`. */
  predicate FirstMatch<T>(s: seq<T>, p: T -> bool, i: int)
  {
    0 <= i < |s| && p(s[i]) && forall j :: 0 <= j < i ==> !p(s[j])
  }

  /** `Array.prototype.find`: the first element satisfying `p`, if any. */
  function Find<T>(s: seq<T>, p: T -> bool): (r: Option<T>)
    ensures r.Some? ==> exists i :: FirstMatch(s, p, i) && s[i] == r.value
    ensures r.None? <==> forall j :: 0 <= j < |s| ==> !p(s[j])
    ensures forall i :: FirstMatch(s, p, i) ==> r == Some(s[i])
  {
    if s == [] then None
    else if p(s[0]) then
      assert FirstMatch(s, p, 0);
      Some(s[0])
    else
      var r := Find(s[1..], p);
      assert r.Some? ==> exists i :: FirstMatch(s, p, i) && s[i] == r.value by {
        if r.Some? {
          var i :| FirstMatch(s[1..], p, i) && s[1..][i] == r.value;
          assert FirstMatch(s, p, i + 1);
        }
      }
      assert forall i :: FirstMatch(s, p, i) ==> r == Some(s[i]) by {
        forall i | FirstMatch(s, p, i)
          ensures r == Some(s[i])
        {
          assert i != 0;
          assert FirstMatch(s[1..], p, i - 1);
        }
      }
      r
  }

  predicate Distinct<T(==)>(s: seq<T>)
  {
    forall i, j :: 0 <= i < j < |s| ==> s[i] != s[j]
  }

  /** A duplicate-free selection drawn from a duplicate-free list is as long
      as the list exactly when it holds every element of the list. */
  lemma SameLengthIffCovers<T>(sub: seq<T>, s: seq<T>)
    requires Distinct(sub) && Distinct(s)
    requires forall x :: x in sub ==> x in s
    ensures |sub| == |s| <==> forall x :: x in s ==> x in sub
  {
    var a := set x | x in sub;
    var b := set x | x in s;
    DistinctCard(sub);
    DistinctCard(s);
    assert a <= b;
    if |sub| == |s| {
      SubsetEqualCard(a, b);
      assert forall x :: x in s ==> x in b;
    }
    if forall x :: x in s ==> x in sub {
      assert a == b;
    }
  }

  lemma {:induction false} DistinctCard<T>(s: seq<T>)
    requires Distinct(s)
    ensures |set x | x in s| == |s|
  {
    if s != [] {
      DistinctCard(s[1..]);
      assert (set x | x in s) == (set x | x in s[1..]) + {s[0]};
      assert s[0] !in s[1..];
    }
  }

  lemma SubsetEqualCard<T>(a: set<T>, b: set<T>)
    requires a <= b && |a| == |b|
    ensures a == b
  {
    if a != b {
      assert !(b <= a);
      var x :| x in b && x !in a;
      assert a <= b - {x};
      assert |b - {x}| == |b| - 1;
      SubsetCard(a, b - {x});
    }
  }

  lemma SubsetCard<T>(a: set<T>, b: set<T>)
    requires a <= b
    ensures |a| <= |b|
  {
    assert b == a + (b - a);
  }
}
