/** Scored posting lists and the document totals a ranked query is about.

    A posting list pairs strictly increasing document identifiers with the
    non-negative scores its term gives them.  The total of a document is the sum of
    its scores over the lists of the query.
 */
module Postings {

  datatype PostingList = PostingList(docs: seq<nat>, scores: seq<real>)

  ghost predicate Increasing(s: seq<nat>) {
    forall i, j :: 0 <= i < j < |s| ==> s[i] < s[j]
  }

  ghost predicate ValidList(l: PostingList, universe: nat) {
    && |l.docs| == |l.scores|
    && Increasing(l.docs)
    && (forall i :: 0 <= i < |l.docs| ==> l.docs[i] < universe)
    && NonNegative(l)
  }

  ghost predicate NonNegative(l: PostingList) {
    forall i :: 0 <= i < |l.scores| ==> l.scores[i] >= 0.0
  }

  ghost predicate HasAt(l: PostingList, d: nat, i: nat) {
    i < |l.docs| && i < |l.scores| && l.docs[i] == d
  }

  /** The score list `l` gives document `d`; 0 when `d` is not in the list. */
  ghost function ScoreAt(l: PostingList, d: nat): real {
    if exists i: nat :: HasAt(l, d, i) then var i: nat :| HasAt(l, d, i); l.scores[i] else 0.0
  }

  lemma ScoreAtIndex(l: PostingList, universe: nat, i: nat)
    requires ValidList(l, universe) && i < |l.docs|
    ensures ScoreAt(l, l.docs[i]) == l.scores[i]
  {
    assert HasAt(l, l.docs[i], i);
  }

  ghost function Total(ls: seq<PostingList>, d: nat): real {
    if ls == [] then 0.0 else Total(ls[..|ls| - 1], d) + ScoreAt(ls[|ls| - 1], d)
  }

  lemma TotalExtend(ls: seq<PostingList>, n: nat, d: nat)
    requires n < |ls|
    ensures Total(ls[..n + 1], d) == Total(ls[..n], d) + ScoreAt(ls[n], d)
  {
    assert ls[..n + 1][..n] == ls[..n];
  }

  lemma {:induction false} TotalConcat(a: seq<PostingList>, b: seq<PostingList>, d: nat)
    ensures Total(a + b, d) == Total(a, d) + Total(b, d)
  {
    if b == [] {
      assert a + b == a;
    } else {
      TotalConcat(a, b[..|b| - 1], d);
      assert (a + b)[..|a + b| - 1] == a + b[..|b| - 1];
    }
  }

  /** A total does not depend on the order in which the lists are visited. */
  lemma {:induction false} TotalPermutation(a: seq<PostingList>, b: seq<PostingList>, d: nat)
    requires multiset(a) == multiset(b)
    ensures Total(a, d) == Total(b, d)
  {
    if a == [] {
      assert |multiset(b)| == |b|;
    } else {
      var x := a[|a| - 1];
      assert a == a[..|a| - 1] + [x];
      assert x in multiset(b);
      var j :| 0 <= j < |b| && b[j] == x;
      assert b == b[..j] + [x] + b[j + 1..];
      assert multiset(a[..|a| - 1]) == multiset(a) - multiset{x};
      assert multiset(b[..j] + b[j + 1..]) == multiset(b) - multiset{x};
      TotalPermutation(a[..|a| - 1], b[..j] + b[j + 1..], d);
      TotalConcat(b[..j], b[j + 1..], d);
      TotalConcat(b[..j] + [x], b[j + 1..], d);
      TotalConcat(b[..j], [x], d);
      TotalConcat(a[..|a| - 1], [x], d);
    }
  }

  lemma {:induction false} TotalNonNegative(ls: seq<PostingList>, d: nat)
    requires forall i :: 0 <= i < |ls| ==> NonNegative(ls[i])
    ensures Total(ls, d) >= 0.0
  {
    if ls != [] {
      TotalNonNegative(ls[..|ls| - 1], d);
    }
  }

  ghost predicate Contains(l: PostingList, d: nat) {
    exists i: nat :: HasAt(l, d, i)
  }

  /** Documents numbered lo, lo+1, ..., hi-1: one half-open interval of the collection. */
  ghost function Docs(lo: nat, hi: nat): (s: set<nat>)
    ensures forall d :: d in s <==> lo <= d < hi
    decreases hi
  {
    if lo >= hi then {} else Docs(lo, hi - 1) + {hi - 1}
  }

  ghost predicate InAll(ls: seq<PostingList>, d: nat) {
    forall i :: 0 <= i < |ls| ==> Contains(ls[i], d)
  }

  /** The documents below `n` that every list contains. */
  ghost function CommonDocs(ls: seq<PostingList>, n: nat): (s: set<nat>)
    ensures forall d: nat :: d in s <==> d < n && InAll(ls, d)
  {
    set d: nat | d in Docs(0, n) && InAll(ls, d)
  }
}
