/** Small datatypes and set facts shared by every other module. */
module Prelude {

  datatype Option<+T> = None | Some(value: T)

  /** The keys of a sequence of distinct values number as many as the sequence is long. */
  lemma {:induction false} DistinctCardinality<T>(s: seq<T>, elements: set<T>)
    requires forall i, j :: 0 <= i < j < |s| ==> s[i] != s[j]
    requires forall i :: 0 <= i < |s| ==> s[i] in elements
    ensures |elements| >= |s|
  {
    if s != [] {
      var last := s[|s| - 1];
      DistinctCardinality(s[..|s| - 1], elements - {last});
    }
  }

  lemma SubsetCardinality<T>(a: set<T>, b: set<T>)
    requires a <= b
    ensures |a| <= |b|
  {
    if a != {} {
      var x :| x in a;
      SubsetCardinality(a - {x}, b - {x});
    }
  }

  lemma PrefixOfPrefix<T>(s: seq<T>, n: nat, k: nat)
    requires k <= n <= |s|
    ensures s[..n][..k] == s[..k]
  {
  }

  lemma WholePrefix<T>(s: seq<T>)
    ensures s[..|s|] == s
  {
  }

  lemma SplitLast<T>(s: seq<T>)
    requires s != []
    ensures s == s[..|s| - 1] + [s[|s| - 1]]
  {
  }

  lemma Regroup<T>(a: seq<T>, b: seq<T>, c: seq<T>)
    ensures a + (b + c) == (a + b) + c
  {
  }

  lemma PlaceOf<T>(s: seq<T>, x: T) returns (i: nat)
    requires x in s
    ensures i < |s| && s[i] == x
  {
    i :| 0 <= i < |s| && s[i] == x;
  }

  /** First occurrences, in order. */
  function Dedup<T(==)>(xs: seq<T>): (r: seq<T>)
    ensures forall i, j :: 0 <= i < j < |r| ==> r[i] != r[j]
    ensures forall x <- r :: x in xs
    ensures forall x <- xs :: x in r
  {
    if xs == [] then []
    else
      var n := |xs| - 1;
      var before := Dedup(xs[..n]);
      SplitLast(xs);
      if xs[n] in before then before else before + [xs[n]]
  }

  /** The values of a list without repetitions come in the order in which they first occur. */
  lemma {:induction false} DedupInOrder<T>(xs: seq<T>, i: nat, j: nat) returns (p: nat, q: nat)
    requires i < j < |Dedup(xs)|
    ensures p < q < |xs| && xs[p] == Dedup(xs)[i] && xs[q] == Dedup(xs)[j]
    ensures forall k :: 0 <= k < q ==> xs[k] != Dedup(xs)[j]
  {
    var n := |xs| - 1;
    var before := Dedup(xs[..n]);
    if j < |before| {
      p, q := DedupInOrder(xs[..n], i, j);
    } else {
      q := n;
      p := PlaceOf(xs[..n], before[i]);
    }
  }
}
