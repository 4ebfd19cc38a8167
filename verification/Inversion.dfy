/** Inversion of a collection: postings are grouped by term and document on pieces that are
    split and joined, and batches are merged term by term.

    What an index must be is stated without reference to any order of work: for every term
    its documents in increasing order, each with the number of times the term occurs in it.
    There is exactly one such index, so neither the splitting nor the batch size nor the
    number of threads can make a difference.
 */
module Inversion {

  datatype Posting = Posting(term: nat, doc: nat)

  /* ----- What an index is ----- */

  ghost predicate Increasing(s: seq<nat>) {
    forall i, j :: 0 <= i < j < |s| ==> s[i] < s[j]
  }

  ghost function Count(ps: seq<Posting>, t: nat, d: nat): nat {
    multiset(ps)[Posting(t, d)]
  }

  /** The documents with term `t`, in order, and how often it occurs in each. */
  ghost predicate ListOf(docs: seq<nat>, freqs: seq<nat>, ps: seq<Posting>, t: nat) {
    && |docs| == |freqs| && Increasing(docs)
    && (forall i :: 0 <= i < |docs| ==> freqs[i] == Count(ps, t, docs[i]) && freqs[i] > 0)
    && (forall d :: Count(ps, t, d) > 0 ==> d in docs)
  }

  ghost predicate HasTerm(ps: seq<Posting>, t: nat) {
    exists d :: Count(ps, t, d) > 0
  }

  type Lists = map<nat, seq<nat>>

  ghost predicate IsIndex(documents: Lists, frequencies: Lists, ps: seq<Posting>) {
    && documents.Keys == frequencies.Keys
    && (forall t: nat :: t in documents <==> HasTerm(ps, t))
    && (forall t: nat :: t in documents && t in frequencies ==> ListOf(documents[t], frequencies[t], ps, t))
  }

  /** The list of a term is determined by the postings. */
  lemma ListUnique(docs: seq<nat>, freqs: seq<nat>, docs': seq<nat>, freqs': seq<nat>, ps: seq<Posting>, t: nat)
    requires ListOf(docs, freqs, ps, t) && ListOf(docs', freqs', ps, t)
    ensures docs == docs' && freqs == freqs'
  {
    forall d ensures d in docs <==> d in docs' {
      if d in docs { assert Count(ps, t, d) > 0; }
      if d in docs' { assert Count(ps, t, d) > 0; }
    }
    IncreasingUnique(docs, docs');
  }

  lemma {:induction false} IncreasingUnique(a: seq<nat>, b: seq<nat>)
    requires Increasing(a) && Increasing(b) && forall d :: d in a <==> d in b
    ensures a == b
  {
    assert a != [] ==> a[|a| - 1] in a;
    assert b != [] ==> b[|b| - 1] in b;
    if a != [] && b != [] {
      var m, n := a[|a| - 1], b[|b| - 1];
      var a', b' := a[..|a| - 1], b[..|b| - 1];
      assert m <= n && n <= m;
      forall d: nat ensures d in a' <==> d in b' {
        DroppedLast(a, d);
        DroppedLast(b, d);
      }
      IncreasingUnique(a', b');
      assert a == a' + [m] && b == b' + [n];
    }
  }

  lemma DroppedLast(a: seq<nat>, d: nat)
    requires Increasing(a) && a != []
    ensures d in a[..|a| - 1] <==> d in a && d != a[|a| - 1]
  {
    if d in a && d != a[|a| - 1] {
      var i :| 0 <= i < |a| && a[i] == d;
      assert a[..|a| - 1][i] == d;
    }
  }

  /** Two indexes of the same postings, in whatever order, are the same index. */
  lemma IndexUnique(d1: Lists, f1: Lists, ps: seq<Posting>, d2: Lists, f2: Lists, qs: seq<Posting>)
    requires IsIndex(d1, f1, ps) && IsIndex(d2, f2, qs) && multiset(ps) == multiset(qs)
    ensures d1 == d2 && f1 == f2
  {
    SameCounts(d1, f1, ps, qs);
    forall t: nat | t in d1 ensures t in d2 && d1[t] == d2[t] && f1[t] == f2[t] {
      assert HasTerm(qs, t);
      ListUnique(d1[t], f1[t], d2[t], f2[t], qs, t);
    }
    assert d1.Keys == d2.Keys;
  }

  lemma SameCounts(documents: Lists, frequencies: Lists, ps: seq<Posting>, qs: seq<Posting>)
    requires IsIndex(documents, frequencies, ps) && multiset(ps) == multiset(qs)
    ensures IsIndex(documents, frequencies, qs)
  {
    forall t: nat, d: nat ensures Count(ps, t, d) == Count(qs, t, d) {
    }
    forall t: nat ensures HasTerm(ps, t) <==> HasTerm(qs, t) {
      if d: nat :| Count(ps, t, d) > 0 { assert Count(qs, t, d) > 0; }
      if d: nat :| Count(qs, t, d) > 0 { assert Count(ps, t, d) > 0; }
    }
    forall t: nat | t in documents && t in frequencies ensures ListOf(documents[t], frequencies[t], qs, t) {
      assert ListOf(documents[t], frequencies[t], ps, t);
    }
  }

  /* ----- Counting ----- */

  lemma CountConcat(a: seq<Posting>, b: seq<Posting>, t: nat, d: nat)
    ensures Count(a + b, t, d) == Count(a, t, d) + Count(b, t, d)
  {
  }

  lemma HasTermConcat(a: seq<Posting>, b: seq<Posting>, t: nat)
    ensures HasTerm(a + b, t) <==> HasTerm(a, t) || HasTerm(b, t)
  {
    forall d: nat ensures Count(a + b, t, d) == Count(a, t, d) + Count(b, t, d) {
      CountConcat(a, b, t, d);
    }
    if d: nat :| Count(a, t, d) > 0 { assert Count(a + b, t, d) > 0; }
    if d: nat :| Count(b, t, d) > 0 { assert Count(a + b, t, d) > 0; }
    if d: nat :| Count(a + b, t, d) > 0 { assert Count(a, t, d) > 0 || Count(b, t, d) > 0; }
  }

  lemma CountPositive(ps: seq<Posting>, t: nat, d: nat)
    ensures Count(ps, t, d) > 0 <==> Posting(t, d) in ps
  {
    assert Posting(t, d) in multiset(ps) <==> Posting(t, d) in ps;
  }

  /** Group `g` consists of copies of one posting. */
  ghost predicate AllSame(g: seq<Posting>, p: Posting) {
    forall i :: 0 <= i < |g| ==> g[i] == p
  }

  lemma {:induction false} CountSame(g: seq<Posting>, p: Posting, t: nat, d: nat)
    requires AllSame(g, p)
    ensures Count(g, t, d) == if Posting(t, d) == p then |g| else 0
  {
    if g != [] {
      CountSame(g[..|g| - 1], p, t, d);
      assert g == g[..|g| - 1] + [p];
    }
  }

  /* ----- One group of equal postings ----- */

  /** All documents that have term `t` so far come before `d`. */
  ghost predicate AllBefore(ps: seq<Posting>, t: nat, d: nat) {
    forall i :: 0 <= i < |ps| && ps[i].term == t ==> ps[i].doc < d
  }

  lemma NewGroupList(docs: seq<nat>, freqs: seq<nat>, ps: seq<Posting>, g: seq<Posting>, t: nat, d: nat)
    requires ListOf(docs, freqs, ps, t) && AllSame(g, Posting(t, d)) && g != [] && AllBefore(ps, t, d)
    ensures ListOf(docs + [d], freqs + [|g|], ps + g, t)
  {
    forall e: nat ensures Count(ps + g, t, e) == Count(ps, t, e) + if e == d then |g| else 0 {
      CountConcat(ps, g, t, e);
      CountSame(g, Posting(t, d), t, e);
    }
    CountPositive(ps, t, d);
    forall i | 0 <= i < |docs| ensures docs[i] < d {
      CountPositive(ps, t, docs[i]);
    }
  }

  lemma GrownGroupList(docs: seq<nat>, freqs: seq<nat>, ps: seq<Posting>, g: seq<Posting>, t: nat, d: nat)
    requires ListOf(docs, freqs, ps, t) && AllSame(g, Posting(t, d)) && docs != [] && docs[|docs| - 1] == d
    ensures ListOf(docs, freqs[|freqs| - 1 := freqs[|freqs| - 1] + |g|], ps + g, t)
  {
    forall e: nat ensures Count(ps + g, t, e) == Count(ps, t, e) + if e == d then |g| else 0 {
      CountConcat(ps, g, t, e);
      CountSame(g, Posting(t, d), t, e);
    }
  }

  lemma OtherList(docs: seq<nat>, freqs: seq<nat>, ps: seq<Posting>, g: seq<Posting>, p: Posting, t: nat)
    requires ListOf(docs, freqs, ps, t) && AllSame(g, p) && p.term != t
    ensures ListOf(docs, freqs, ps + g, t)
  {
    forall e: nat ensures Count(ps + g, t, e) == Count(ps, t, e) {
      CountConcat(ps, g, t, e);
      CountSame(g, p, t, e);
    }
  }

  lemma GroupTerms(ps: seq<Posting>, g: seq<Posting>, p: Posting, t: nat)
    requires AllSame(g, p) && g != []
    ensures HasTerm(ps + g, t) <==> HasTerm(ps, t) || t == p.term
  {
    HasTermConcat(ps, g, t);
    CountSame(g, p, t, p.doc);
    if d: nat :| Count(g, t, d) > 0 {
      CountSame(g, p, t, d);
    }
  }

  function Get(m: Lists, t: nat): seq<nat> { if t in m then m[t] else [] }

  /** No postings, no list. */
  lemma NoList(ps: seq<Posting>, t: nat)
    requires !HasTerm(ps, t)
    ensures ListOf([], [], ps, t)
  {
  }

  lemma AppendGroup(documents: Lists, frequencies: Lists, ps: seq<Posting>, g: seq<Posting>, t: nat, d: nat)
    requires IsIndex(documents, frequencies, ps) && AllSame(g, Posting(t, d)) && g != [] && AllBefore(ps, t, d)
    ensures IsIndex(
              documents[t := Get(documents, t) + [d]], frequencies[t := Get(frequencies, t) + [|g|]], ps + g)
  {
    hide ListOf, HasTerm, AllSame, AllBefore;
    if t !in documents {
      NoList(ps, t);
    }
    NewGroupList(Get(documents, t), Get(frequencies, t), ps, g, t, d);
    forall u: nat ensures HasTerm(ps + g, u) <==> HasTerm(ps, u) || u == t {
      GroupTerms(ps, g, Posting(t, d), u);
    }
    forall u: nat | u in documents && u != t ensures ListOf(documents[u], frequencies[u], ps + g, u) {
      OtherList(documents[u], frequencies[u], ps, g, Posting(t, d), u);
    }
  }

  lemma GrowGroup(documents: Lists, frequencies: Lists, ps: seq<Posting>, g: seq<Posting>, t: nat, d: nat)
    requires IsIndex(documents, frequencies, ps) && AllSame(g, Posting(t, d)) && t in documents && t in frequencies
    requires documents[t] != [] && documents[t][|documents[t]| - 1] == d && |frequencies[t]| > 0
    ensures IsIndex(
              documents, frequencies[t := AddToLast(frequencies[t], |g|)], ps + g)
  {
    hide ListOf, HasTerm, AllSame;
    if g == [] {
      assert ps + g == ps;
      assert AddToLast(frequencies[t], 0) == frequencies[t];
      assert frequencies[t := frequencies[t]] == frequencies;
    } else {
      SizesAgree(documents[t], frequencies[t], ps, t);
      GrownGroupList(documents[t], frequencies[t], ps, g, t, d);
      forall u: nat ensures HasTerm(ps + g, u) <==> HasTerm(ps, u) || u == t {
        GroupTerms(ps, g, Posting(t, d), u);
      }
      forall u: nat | u in documents && u != t ensures ListOf(documents[u], frequencies[u], ps + g, u) {
        OtherList(documents[u], frequencies[u], ps, g, Posting(t, d), u);
      }
    }
  }

  function AddToLast(s: seq<nat>, n: nat): seq<nat>
    requires s != []
  {
    s[|s| - 1 := s[|s| - 1] + n]
  }

  lemma SizesAgree(docs: seq<nat>, freqs: seq<nat>, ps: seq<Posting>, t: nat)
    requires ListOf(docs, freqs, ps, t)
    ensures |docs| == |freqs|
    ensures HasTerm(ps, t) ==> docs != []
  {
  }

  /* ----- Joining two lists of one term ----- */

  /** Every document of the first list is at most every document of the second. */
  ghost predicate Precedes(a: seq<nat>, b: seq<nat>) {
    forall i, j :: 0 <= i < |a| && 0 <= j < |b| ==> a[i] <= b[j]
  }

  lemma JoinedList(
    docs: seq<nat>, freqs: seq<nat>, ps: seq<Posting>, docs': seq<nat>, freqs': seq<nat>, qs: seq<Posting>, t: nat)
    requires ListOf(docs, freqs, ps, t) && ListOf(docs', freqs', qs, t) && Precedes(docs, docs')
    requires docs != [] && docs' != []
    ensures var (d, f) := JoinTerm(docs, freqs, docs', freqs'); ListOf(d, f, ps + qs, t) && d != []
  {
    if docs[|docs| - 1] == docs'[0] {
      OverlapList(docs, freqs, ps, docs', freqs', qs, t);
    } else {
      ApartList(docs, freqs, ps, docs', freqs', qs, t);
    }
  }

  /** The frequency a list records for document `d`. */
  ghost function Freq(docs: seq<nat>, freqs: seq<nat>, d: nat): nat
    requires |docs| == |freqs|
  {
    if docs == [] then 0 else (if docs[0] == d then freqs[0] else 0) + Freq(docs[1..], freqs[1..], d)
  }

  lemma {:induction false} FreqConcat(docs: seq<nat>, freqs: seq<nat>, docs': seq<nat>, freqs': seq<nat>, d: nat)
    requires |docs| == |freqs| && |docs'| == |freqs'|
    ensures Freq(docs + docs', freqs + freqs', d) == Freq(docs, freqs, d) + Freq(docs', freqs', d)
  {
    if docs == [] {
      assert docs + docs' == docs' && freqs + freqs' == freqs';
    } else {
      assert (docs + docs')[1..] == docs[1..] + docs' && (freqs + freqs')[1..] == freqs[1..] + freqs';
      FreqConcat(docs[1..], freqs[1..], docs', freqs', d);
    }
  }

  lemma {:induction false} FreqAddToLast(docs: seq<nat>, freqs: seq<nat>, n: nat, d: nat)
    requires |docs| == |freqs| > 0
    ensures Freq(docs, AddToLast(freqs, n), d) == Freq(docs, freqs, d) + if docs[|docs| - 1] == d then n else 0
  {
    if |docs| > 1 {
      assert AddToLast(freqs, n)[1..] == AddToLast(freqs[1..], n);
      FreqAddToLast(docs[1..], freqs[1..], n, d);
    }
  }

  lemma {:induction false} FreqAt(docs: seq<nat>, freqs: seq<nat>, d: nat)
    requires |docs| == |freqs| && Increasing(docs)
    ensures d !in docs ==> Freq(docs, freqs, d) == 0
    ensures forall i :: 0 <= i < |docs| && docs[i] == d ==> Freq(docs, freqs, d) == freqs[i]
  {
    if docs != [] {
      FreqAt(docs[1..], freqs[1..], d);
      forall i | 0 <= i < |docs| && docs[i] == d ensures Freq(docs, freqs, d) == freqs[i] {
        if i > 0 {
          assert docs[1..][i - 1] == d && docs[0] < docs[i];
        } else {
          assert d !in docs[1..];
        }
      }
    }
  }

  /** A list is right when it records every document's count, and nothing for free. */
  lemma ListIffFreq(docs: seq<nat>, freqs: seq<nat>, ps: seq<Posting>, t: nat)
    requires |docs| == |freqs| && Increasing(docs) && forall i :: 0 <= i < |freqs| ==> freqs[i] > 0
    ensures ListOf(docs, freqs, ps, t) <==> forall d: nat :: Freq(docs, freqs, d) == Count(ps, t, d)
  {
    hide Count, Freq;
    forall d: nat ensures d !in docs ==> Freq(docs, freqs, d) == 0 {
      FreqAt(docs, freqs, d);
    }
    forall i | 0 <= i < |docs| ensures Freq(docs, freqs, docs[i]) == freqs[i] {
      FreqAt(docs, freqs, docs[i]);
    }
  }

  lemma IncreasingConcat(a: seq<nat>, b: seq<nat>)
    requires Increasing(a) && Increasing(b) && (a != [] && b != [] ==> a[|a| - 1] < b[0])
    ensures Increasing(a + b)
  {
    forall i, j | 0 <= i < j < |a + b| ensures (a + b)[i] < (a + b)[j] {
      if i < |a| <= j {
        assert a[i] <= a[|a| - 1] < b[0] <= b[j - |a|];
      }
    }
  }

  lemma ListShape(docs: seq<nat>, freqs: seq<nat>, ps: seq<Posting>, t: nat)
    requires ListOf(docs, freqs, ps, t)
    ensures |docs| == |freqs| && Increasing(docs) && forall i :: 0 <= i < |freqs| ==> freqs[i] > 0
    ensures forall d: nat :: Freq(docs, freqs, d) == Count(ps, t, d)
  {
    ListIffFreq(docs, freqs, ps, t);
  }

  /** Lists without a common document are simply put together. */
  lemma ApartList(
    docs: seq<nat>, freqs: seq<nat>, ps: seq<Posting>, docs': seq<nat>, freqs': seq<nat>, qs: seq<Posting>, t: nat)
    requires ListOf(docs, freqs, ps, t) && ListOf(docs', freqs', qs, t) && Precedes(docs, docs')
    requires docs != [] && docs' != [] ==> docs[|docs| - 1] != docs'[0]
    ensures ListOf(docs + docs', freqs + freqs', ps + qs, t)
  {
    hide Count, Freq, ListOf;
    ListShape(docs, freqs, ps, t);
    ListShape(docs', freqs', qs, t);
    IncreasingConcat(docs, docs');
    hide Increasing;
    forall d: nat ensures Freq(docs + docs', freqs + freqs', d) == Count(ps + qs, t, d) {
      CountConcat(ps, qs, t, d);
      FreqConcat(docs, freqs, docs', freqs', d);
    }
    ListIffFreq(docs + docs', freqs + freqs', ps + qs, t);
  }

  /** A document the lists share at the boundary gets the sum of both frequencies. */
  lemma OverlapList(
    docs: seq<nat>, freqs: seq<nat>, ps: seq<Posting>, docs': seq<nat>, freqs': seq<nat>, qs: seq<Posting>, t: nat)
    requires ListOf(docs, freqs, ps, t) && ListOf(docs', freqs', qs, t)
    requires |docs| == |freqs| > 0 && |docs'| == |freqs'| > 0 && docs[|docs| - 1] == docs'[0]
    ensures ListOf(docs + docs'[1..], AddToLast(freqs, freqs'[0]) + freqs'[1..], ps + qs, t)
  {
    hide Count, ListOf;
    ListShape(docs, freqs, ps, t);
    ListShape(docs', freqs', qs, t);
    IncreasingConcat(docs, docs'[1..]);
    hide Increasing;
    var f := AddToLast(freqs, freqs'[0]);
    forall d: nat ensures Freq(docs + docs'[1..], f + freqs'[1..], d) == Count(ps + qs, t, d) {
      CountConcat(ps, qs, t, d);
      FreqConcat(docs, f, docs'[1..], freqs'[1..], d);
      FreqAddToLast(docs, freqs, freqs'[0], d);
    }
    ListIffFreq(docs + docs'[1..], f + freqs'[1..], ps + qs, t);
  }

  function JoinTerm(docs: seq<nat>, freqs: seq<nat>, docs': seq<nat>, freqs': seq<nat>): (r: (seq<nat>, seq<nat>))
    requires |docs| == |freqs| > 0 && |docs'| == |freqs'| > 0
  {
    if docs[|docs| - 1] == docs'[0] then (docs + docs'[1..], AddToLast(freqs, freqs'[0]) + freqs'[1..])
    else (docs + docs', freqs + freqs')
  }

  /* ----- Sorted postings ----- */

  predicate Le(a: Posting, b: Posting) {
    a.term < b.term || (a.term == b.term && a.doc <= b.doc)
  }

  ghost predicate Sorted(ps: seq<Posting>) {
    forall i, j :: 0 <= i <= j < |ps| ==> Le(ps[i], ps[j])
  }

  /** What `std::sort` promises. */
  method Sort(ps: seq<Posting>) returns (s: seq<Posting>)
    ensures Sorted(s) && multiset(s) == multiset(ps)
  {
    s := [];
    for n := 0 to |ps|
      invariant Sorted(s) && multiset(s) == multiset(ps[..n])
    {
      assert ps[..n + 1] == ps[..n] + [ps[n]];
      s := InsertSorted(s, ps[n]);
    }
    assert ps[..|ps|] == ps;
  }

  method InsertSorted(s: seq<Posting>, p: Posting) returns (r: seq<Posting>)
    requires Sorted(s)
    ensures Sorted(r) && multiset(r) == multiset(s) + multiset{p}
  {
    var i := 0;
    while i < |s| && Le(s[i], p)
      invariant 0 <= i <= |s| && forall j :: 0 <= j < i ==> Le(s[j], p)
    {
      i := i + 1;
    }
    r := s[..i] + [p] + s[i..];
    InsertedSorted(s, i, p);
    assert s == s[..i] + s[i..];
  }

  lemma InsertedSorted(s: seq<Posting>, i: nat, p: Posting)
    requires Sorted(s) && i <= |s| && forall j :: 0 <= j < i ==> Le(s[j], p)
    requires i < |s| ==> !Le(s[i], p)
    ensures Sorted(s[..i] + [p] + s[i..])
  {
    var r := s[..i] + [p] + s[i..];
    forall a, b | 0 <= a <= b < |r| ensures Le(r[a], r[b]) {
      assert r[a] == if a < i then s[a] else if a == i then p else s[a - 1];
      assert r[b] == if b < i then s[b] else if b == i then p else s[b - 1];
    }
  }

  lemma SortedParts(a: seq<Posting>, b: seq<Posting>)
    requires Sorted(a + b)
    ensures Sorted(a) && Sorted(b)
    ensures forall i, j :: 0 <= i < |a| && 0 <= j < |b| ==> Le(a[i], b[j])
  {
    var c := a + b;
    forall i, j | 0 <= i <= j < |a| ensures Le(a[i], a[j]) {
      assert a[i] == c[i] && a[j] == c[j];
    }
    forall i, j | 0 <= i <= j < |b| ensures Le(b[i], b[j]) {
      assert b[i] == c[|a| + i] && b[j] == c[|a| + j];
    }
    forall i, j | 0 <= i < |a| && 0 <= j < |b| ensures Le(a[i], b[j]) {
      assert a[i] == c[i] && b[j] == c[|a| + j];
    }
  }

  /** In sorted postings, one that differs from its predecessor has not occurred before. */
  lemma NewPosting(s: seq<Posting>, k: nat)
    requires Sorted(s) && k < |s| && (k > 0 ==> s[k - 1] != s[k])
    ensures s[k] !in s[..k]
  {
    forall i | 0 <= i < k ensures s[..k][i] != s[k] {
      assert Le(s[i], s[k - 1]) && Le(s[k - 1], s[k]);
    }
  }

  lemma NewIsAfterAll(s: seq<Posting>, k: nat)
    requires Sorted(s) && k < |s| && s[k] !in s[..k]
    ensures AllBefore(s[..k], s[k].term, s[k].doc)
  {
    forall i | 0 <= i < k && s[..k][i].term == s[k].term ensures s[..k][i].doc < s[k].doc {
      assert Le(s[i], s[k]) && s[..k][i] in s[..k];
    }
  }

  /** The end of the run of postings equal to `p` that starts at `first`. */
  method RunEnd(r: seq<Posting>, first: nat, p: Posting) returns (last: nat)
    requires first <= |r|
    ensures first <= last <= |r| && AllSame(r[first..last], p)
    ensures last < |r| ==> r[last] != p
  {
    last := first;
    while last < |r| && r[last] == p
      invariant first <= last <= |r| && forall i :: first <= i < last ==> r[i] == p
    {
      last := last + 1;
    }
  }

  /* ----- The index under construction ----- */

  class InvertedIndex {
    var documents: Lists
    var frequencies: Lists

    ghost predicate Holds(ps: seq<Posting>)
      reads this
    {
      IsIndex(documents, frequencies, ps)
    }

    constructor ()
      ensures Holds([])
    {
      documents, frequencies := map[], map[];
    }

    /** Adds a sorted range that follows everything the index holds. */
    method Apply(r: seq<Posting>, ghost ps: seq<Posting>)
      requires Holds(ps) && Sorted(ps + r)
      modifies this
      ensures Holds(ps + r)
    {
      hide IsIndex, Sorted, AllSame, AllBefore, HasTerm;
      var first := Resume(r, ps);
      while first < |r|
        invariant first <= |r| && Holds(ps + r[..first])
        invariant first < |r| ==> r[first] !in ps + r[..first]
      {
        first := AddGroup(r, first, ps);
      }
      assert r[..|r|] == r;
    }

    /** Counts the postings that continue the last document of the first term. */
    method Resume(r: seq<Posting>, ghost ps: seq<Posting>) returns (first: nat)
      requires Holds(ps) && Sorted(ps + r)
      modifies this
      ensures first <= |r| && Holds(ps + r[..first])
      ensures first < |r| ==> r[first] !in ps + r[..first]
    {
      hide Sorted, AllSame, IsIndex;
      first := 0;
      assert ps + r[..0] == ps;
      if |r| > 0 {
        var term := r[0].term;
        if Get(documents, term) != [] {
          LastDocument(documents, frequencies, ps, term);
          var currentDoc := documents[term][|documents[term]| - 1];
          var last := RunEnd(r, 0, Posting(term, currentDoc));
          assert r[0..last] == r[..last];
          GrowGroup(documents, frequencies, ps, r[..last], term, currentDoc);
          ResumedNew(documents, frequencies, ps, r, term, last);
          frequencies := frequencies[term := AddToLast(frequencies[term], last)];
          first := last;
        } else {
          TermIsNew(documents, frequencies, ps, r[0]);
        }
      }
    }

    /** One document of one term: the run of equal postings from `first`. */
    method AddGroup(r: seq<Posting>, first: nat, ghost ps: seq<Posting>) returns (last: nat)
      requires first < |r| && Holds(ps + r[..first]) && Sorted(ps + r)
      requires r[first] !in ps + r[..first]
      modifies this
      ensures first < last <= |r| && Holds(ps + r[..last])
      ensures last < |r| ==> r[last] !in ps + r[..last]
    {
      hide IsIndex, Sorted, AllBefore, HasTerm;
      var p := r[first];
      last := RunEnd(r, first, p);
      ghost var s := ps + r;
      assert s[..|ps| + first] == ps + r[..first] && s[..|ps| + last] == ps + r[..last];
      assert ps + r[..last] == ps + r[..first] + r[first..last];
      NewIsAfterAll(s, |ps| + first);
      AppendGroup(documents, frequencies, ps + r[..first], r[first..last], p.term, p.doc);
      documents := documents[p.term := Get(documents, p.term) + [p.doc]];
      frequencies := frequencies[p.term := Get(frequencies, p.term) + [last - first]];
      if last < |r| {
        assert r[first..last][last - first - 1] == p;
        NewPosting(s, |ps| + last);
      }
    }

    /** Takes in another index.  For every term they share, one's documents must come before
        the other's; the last document of the first may be the first of the second. */
    method Join(rhs: InvertedIndex, ghost ps: seq<Posting>, ghost qs: seq<Posting>)
      requires rhs != this && Holds(ps) && rhs.Holds(qs)
      requires forall t: nat :: t in documents && t in rhs.documents ==>
                 Precedes(documents[t], rhs.documents[t]) || Precedes(rhs.documents[t], documents[t])
      modifies this
      ensures Holds(ps + qs)
    {
      hide IsIndex, ListOf, HasTerm, Precedes, JoinedSoFar;
      ghost var docs, freqs := documents, frequencies;
      var todo := rhs.documents.Keys;
      JoinStart(docs, freqs, rhs.documents, rhs.frequencies, ps, qs);
      while todo != {}
        invariant todo <= rhs.documents.Keys
        invariant JoinedSoFar(docs, freqs, rhs.documents, documents, frequencies, todo, ps + qs)
        decreases |todo|
      {
        var term :| term in todo;
        JoinReady(docs, freqs, rhs.documents, rhs.frequencies, documents, frequencies, todo, ps, qs, term);
        ghost var d, f := documents, frequencies;
        JoinOne(rhs, term, ps, qs);
        JoinDone(docs, freqs, rhs.documents, d, f, documents, frequencies, todo, ps + qs, term);
        todo := todo - {term};
      }
      JoinedIndex(docs, freqs, rhs.documents, rhs.frequencies, documents, frequencies, ps, qs);
    }

    method JoinOne(rhs: InvertedIndex, term: nat, ghost ps: seq<Posting>, ghost qs: seq<Posting>)
      requires rhs != this && documents.Keys == frequencies.Keys && term in rhs.documents && term in rhs.frequencies
      requires HasTerm(qs, term) && ListOf(rhs.documents[term], rhs.frequencies[term], qs, term)
      requires if term in documents then HasTerm(ps, term) && ListOf(documents[term], frequencies[term], ps, term)
               else !HasTerm(ps, term)
      requires term in documents ==>
                 Precedes(documents[term], rhs.documents[term]) || Precedes(rhs.documents[term], documents[term])
      modifies this
      ensures documents.Keys == frequencies.Keys == old(documents.Keys) + {term}
      ensures ListOf(documents[term], frequencies[term], ps + qs, term)
      ensures forall t: nat :: t in old(documents) && t != term ==>
                documents[t] == old(documents[t]) && frequencies[t] == old(frequencies[t])
    {
      hide ListOf, HasTerm, Increasing;
      var docIds, freqs := rhs.documents[term], rhs.frequencies[term];
      SizesAgree(docIds, freqs, qs, term);
      if term !in documents {
        NoList(ps, term);
        ApartList([], [], ps, docIds, freqs, qs, term);
        assert [] + docIds == docIds && [] + freqs == freqs;
        documents, frequencies := documents[term := docIds], frequencies[term := freqs];
      } else {
        SizesAgree(documents[term], frequencies[term], ps, term);
        if documents[term][|documents[term]| - 1] <= docIds[0] {
          BackBeforeFront(documents[term], frequencies[term], ps, docIds, freqs, qs, term);
          JoinedList(documents[term], frequencies[term], ps, docIds, freqs, qs, term);
          var (d, f) := JoinTerm(documents[term], frequencies[term], docIds, freqs);
          documents, frequencies := documents[term := d], frequencies[term := f];
        } else {
          JoinedList(docIds, freqs, qs, documents[term], frequencies[term], ps, term);
          var (d, f) := JoinTerm(docIds, freqs, documents[term], frequencies[term]);
          ListPermute(d, f, qs + ps, ps + qs, term);
          documents, frequencies := documents[term := d], frequencies[term := f];
        }
      }
    }
  }

  lemma ListPermute(docs: seq<nat>, freqs: seq<nat>, ps: seq<Posting>, qs: seq<Posting>, t: nat)
    requires ListOf(docs, freqs, ps, t) && multiset(ps) == multiset(qs)
    ensures ListOf(docs, freqs, qs, t)
  {
    forall d: nat ensures Count(ps, t, d) == Count(qs, t, d) {
    }
  }

  lemma BackBeforeFront(
    docs: seq<nat>, freqs: seq<nat>, ps: seq<Posting>, docs': seq<nat>, freqs': seq<nat>, qs: seq<Posting>, t: nat)
    requires ListOf(docs, freqs, ps, t) && ListOf(docs', freqs', qs, t)
    requires docs != [] && docs' != [] && docs[|docs| - 1] <= docs'[0]
    ensures Precedes(docs, docs')
  {
    forall i, j | 0 <= i < |docs| && 0 <= j < |docs'| ensures docs[i] <= docs'[j] {
      assert docs[i] <= docs[|docs| - 1] <= docs'[0] <= docs'[j];
    }
  }

  /** The terms of the other index not in `todo` have been joined, the rest left alone. */
  ghost predicate JoinedSoFar(
    d1: Lists, f1: Lists, d2: Lists, d: Lists, f: Lists, todo: set<nat>, both: seq<Posting>)
  {
    && d1.Keys == f1.Keys && d.Keys == f.Keys == d1.Keys + (d2.Keys - todo)
    && (forall t: nat :: t in d2.Keys - todo ==> ListOf(d[t], f[t], both, t))
    && (forall t: nat :: t in d1.Keys && t !in d2.Keys - todo ==> d[t] == d1[t] && f[t] == f1[t])
  }

  lemma JoinStart(d1: Lists, f1: Lists, d2: Lists, f2: Lists, ps: seq<Posting>, qs: seq<Posting>)
    requires IsIndex(d1, f1, ps) && IsIndex(d2, f2, qs)
    ensures JoinedSoFar(d1, f1, d2, d1, f1, d2.Keys, ps + qs)
  {
  }

  lemma JoinReady(
    d1: Lists, f1: Lists, d2: Lists, f2: Lists, d: Lists, f: Lists, todo: set<nat>, ps: seq<Posting>, qs: seq<Posting>,
    term: nat)
    requires IsIndex(d1, f1, ps) && IsIndex(d2, f2, qs) && JoinedSoFar(d1, f1, d2, d, f, todo, ps + qs)
    requires todo <= d2.Keys && term in todo
    ensures d.Keys == f.Keys && term in d2 && term in f2
    ensures HasTerm(qs, term) && ListOf(d2[term], f2[term], qs, term)
    ensures term in d ==> HasTerm(ps, term) && ListOf(d[term], f[term], ps, term) && term in d1 && d[term] == d1[term]
    ensures term !in d ==> !HasTerm(ps, term)
  {
    hide ListOf, HasTerm;
  }

  lemma JoinDone(
    d1: Lists, f1: Lists, d2: Lists, d: Lists, f: Lists, d': Lists, f': Lists, todo: set<nat>, both: seq<Posting>,
    term: nat)
    requires JoinedSoFar(d1, f1, d2, d, f, todo, both) && todo <= d2.Keys && term in todo
    requires d'.Keys == f'.Keys == d.Keys + {term} && ListOf(d'[term], f'[term], both, term)
    requires forall t: nat :: t in d && t != term ==> d'[t] == d[t] && f'[t] == f[t]
    ensures JoinedSoFar(d1, f1, d2, d', f', todo - {term}, both)
  {
    hide ListOf;
  }

  lemma JoinedIndex(
    d1: Lists, f1: Lists, d2: Lists, f2: Lists, d: Lists, f: Lists, ps: seq<Posting>, qs: seq<Posting>)
    requires IsIndex(d1, f1, ps) && IsIndex(d2, f2, qs) && JoinedSoFar(d1, f1, d2, d, f, {}, ps + qs)
    ensures IsIndex(d, f, ps + qs)
  {
    hide ListOf, HasTerm;
    forall t: nat ensures HasTerm(ps + qs, t) <==> HasTerm(ps, t) || HasTerm(qs, t) {
      HasTermConcat(ps, qs, t);
    }
    forall t: nat | t in d1 && t !in d2 ensures ListOf(d1[t], f1[t], ps + qs, t) {
      NoList(qs, t);
      SizesAgree(d1[t], f1[t], ps, t);
      Precedes0(d1[t]);
      ApartList(d1[t], f1[t], ps, [], [], qs, t);
      assert d1[t] + [] == d1[t] && f1[t] + [] == f1[t];
    }
  }

  lemma Precedes0(docs: seq<nat>)
    ensures Precedes(docs, []) && Precedes([], docs)
  {
  }

  lemma LastDocument(documents: Lists, frequencies: Lists, ps: seq<Posting>, t: nat)
    requires IsIndex(documents, frequencies, ps) && t in documents && documents[t] != []
    ensures t in frequencies && |frequencies[t]| == |documents[t]| > 0
    ensures Posting(t, documents[t][|documents[t]| - 1]) in ps
    ensures forall p :: p in ps && p.term == t ==> p.doc <= documents[t][|documents[t]| - 1]
  {
    assert ListOf(documents[t], frequencies[t], ps, t);
    var last := documents[t][|documents[t]| - 1];
    CountPositive(ps, t, last);
    forall p | p in ps && p.term == t ensures p.doc <= last {
      CountPositive(ps, t, p.doc);
    }
  }

  lemma ResumedNew(documents: Lists, frequencies: Lists, ps: seq<Posting>, r: seq<Posting>, t: nat, last: nat)
    requires IsIndex(documents, frequencies, ps) && Sorted(ps + r) && r != [] && t == r[0].term
    requires t in documents && documents[t] != [] && last <= |r|
    requires var p := Posting(t, documents[t][|documents[t]| - 1]);
             AllSame(r[..last], p) && (last < |r| ==> r[last] != p)
    ensures last < |r| ==> r[last] !in ps + r[..last]
  {
    if last < |r| {
      LastDocument(documents, frequencies, ps, t);
      SortedParts(ps, r);
      var p := Posting(t, documents[t][|documents[t]| - 1]);
      assert Le(r[0], r[last]);
      var j :| 0 <= j < |ps| && ps[j] == p;
      assert Le(ps[j], r[last]);
      forall i | 0 <= i < |ps| ensures ps[i] != r[last] {
        assert ps[i] in ps && Le(ps[i], r[0]);
      }
    }
  }

  lemma NoEmptyLists(documents: Lists, frequencies: Lists, ps: seq<Posting>)
    requires IsIndex(documents, frequencies, ps)
    ensures forall t: nat :: t in documents ==> documents[t] != []
  {
    forall t: nat | t in documents ensures documents[t] != [] {
      SizesAgree(documents[t], frequencies[t], ps, t);
    }
  }

  lemma TermIsNew(documents: Lists, frequencies: Lists, ps: seq<Posting>, p: Posting)
    requires IsIndex(documents, frequencies, ps) && Get(documents, p.term) == []
    ensures p !in ps
  {
    NoEmptyLists(documents, frequencies, ps);
    CountPositive(ps, p.term, p.doc);
    assert !HasTerm(ps, p.term);
  }

  /* ----- Splitting and joining ----- */

  /** How a range is worked on: in one piece, in two pieces by the same body one after the
      other, or in two pieces by two bodies that are joined. */
  datatype Plan = Whole | Then(k: nat, first: Plan, second: Plan) | Fork(k: nat, first: Plan, second: Plan)

  /** Whatever the plan, the body ends up with the range added. */
  method Reduce(body: InvertedIndex, r: seq<Posting>, plan: Plan, ghost ps: seq<Posting>)
    requires body.Holds(ps) && Sorted(ps + r)
    modifies body
    ensures body.Holds(ps + r)
    decreases plan
  {
    hide IsIndex, Sorted;
    match plan {
      case Whole => body.Apply(r, ps);
      case Then(k, first, second) =>
        var cut := if k <= |r| then k else |r|;
        SplitRange(ps, r, cut);
        Reduce(body, r[..cut], first, ps);
        Reduce(body, r[cut..], second, ps + r[..cut]);
      case Fork(k, first, second) =>
        var cut := if k <= |r| then k else |r|;
        SplitRange(ps, r, cut);
        Reduce(body, r[..cut], first, ps);
        var rhs := new InvertedIndex();
        Reduce(rhs, r[cut..], second, []);
        assert [] + r[cut..] == r[cut..];
        InOrderOfDocuments(
          body.documents, body.frequencies, ps + r[..cut], rhs.documents, rhs.frequencies, r[cut..]);
        body.Join(rhs, ps + r[..cut], r[cut..]);
    }
  }

  lemma SplitRange(ps: seq<Posting>, r: seq<Posting>, cut: nat)
    requires Sorted(ps + r) && cut <= |r|
    ensures Sorted(ps + r[..cut]) && Sorted(ps + r[..cut] + r[cut..]) && Sorted([] + r[cut..])
    ensures ps + r[..cut] + r[cut..] == ps + r
  {
    assert ps + r[..cut] + r[cut..] == ps + r;
    SortedParts(ps + r[..cut], r[cut..]);
    assert [] + r[cut..] == r[cut..];
  }

  /** For sorted postings, an index of the front part precedes one of the rest. */
  lemma InOrderOfDocuments(d1: Lists, f1: Lists, ps: seq<Posting>, d2: Lists, f2: Lists, qs: seq<Posting>)
    requires IsIndex(d1, f1, ps) && IsIndex(d2, f2, qs) && Sorted(ps + qs)
    ensures forall t: nat :: t in d1 && t in d2 ==> Precedes(d1[t], d2[t])
  {
    SortedParts(ps, qs);
    forall t: nat | t in d1 && t in d2 ensures Precedes(d1[t], d2[t]) {
      assert ListOf(d1[t], f1[t], ps, t) && ListOf(d2[t], f2[t], qs, t);
      forall i, j | 0 <= i < |d1[t]| && 0 <= j < |d2[t]| ensures d1[t][i] <= d2[t][j] {
        CountPositive(ps, t, d1[t][i]);
        CountPositive(qs, t, d2[t][j]);
        var a :| 0 <= a < |ps| && ps[a] == Posting(t, d1[t][i]);
        var b :| 0 <= b < |qs| && qs[b] == Posting(t, d2[t][j]);
        assert Le(ps[a], qs[b]);
      }
    }
  }

  /* ----- Whole collections ----- */

  /** The postings of one document: one for every occurrence of a term. */
  ghost function DocPostings(terms: seq<nat>, doc: nat): seq<Posting> {
    seq(|terms|, i requires 0 <= i < |terms| => Posting(terms[i], doc))
  }

  /** The postings of documents numbered from `first`. */
  ghost function PostingsOf(documents: seq<seq<nat>>, first: nat): seq<Posting> {
    if documents == [] then []
    else PostingsOf(documents[..|documents| - 1], first) + DocPostings(documents[|documents| - 1], first + |documents| - 1)
  }

  lemma PostingsLast(documents: seq<seq<nat>>, first: nat)
    requires documents != []
    ensures var m := |documents| - 1;
            PostingsOf(documents, first) == PostingsOf(documents[..m], first) + DocPostings(documents[m], first + m)
  {
  }

  lemma NoPostings(first: nat)
    ensures PostingsOf([], first) == []
  {
  }

  lemma {:induction false} PostingsConcat(a: seq<seq<nat>>, b: seq<seq<nat>>, first: nat)
    ensures PostingsOf(a + b, first) == PostingsOf(a, first) + PostingsOf(b, first + |a|)
  {
    hide DocPostings, PostingsOf;
    if b == [] {
      NoPostings(first + |a|);
      assert a + b == a;
    } else {
      var m := |b| - 1;
      PostingsConcat(a, b[..m], first);
      PostingsLast(a + b, first);
      PostingsLast(b, first + |a|);
      assert (a + b)[..|a| + m] == a + b[..m];
    }
  }

  lemma {:induction false} DocsWithin(documents: seq<seq<nat>>, first: nat)
    ensures forall p :: p in PostingsOf(documents, first) ==> first <= p.doc < first + |documents|
  {
    if documents != [] {
      DocsWithin(documents[..|documents| - 1], first);
    }
  }

  /** Consecutive documents, the first one numbered `first`. */
  datatype Batch = Batch(documents: seq<seq<nat>>, first: nat)

  method MapToPostings(batch: Batch) returns (postings: seq<Posting>)
    ensures postings == PostingsOf(batch.documents, batch.first)
  {
    postings := [];
    var docid := batch.first;
    for i := 0 to |batch.documents|
      invariant docid == batch.first + i
      invariant postings == PostingsOf(batch.documents[..i], batch.first)
    {
      var document := batch.documents[i];
      ghost var before := postings;
      for j := 0 to |document|
        invariant postings == before + DocPostings(document, docid)[..j]
      {
        postings := postings + [Posting(document[j], docid)];
      }
      assert batch.documents[..i + 1][..i] == batch.documents[..i];
      docid := docid + 1;
    }
    assert batch.documents[..|batch.documents|] == batch.documents;
  }

  function CeilDiv(a: nat, b: nat): nat
    requires b > 0
  {
    (a + b - 1) / b
  }

  lemma CeilDivPositive(a: nat, b: nat)
    requires a > 0 && b > 0
    ensures CeilDiv(a, b) > 0
  {
  }

  function Min(a: nat, b: nat): nat { if a < b then a else b }

  /** The documents' postings, mapped batch by batch, one batch to a thread. */
  method MapInBatches(documents: seq<seq<nat>>, firstId: nat, threads: nat) returns (postings: seq<Posting>)
    requires threads > 0
    ensures postings == PostingsOf(documents, firstId)
  {
    hide PostingsOf;
    var batchSize := CeilDiv(|documents|, threads);
    if |documents| > 0 {
      CeilDivPositive(|documents|, threads);
    }
    var batches: seq<Batch> := [];
    NoBatches(documents, firstId);
    var i := 0;
    while i < |documents|
      invariant i <= |documents| && Joined(batches, documents[..i], firstId)
    {
      var last := Min(i + batchSize, |documents|);
      AddBatch(batches, documents, firstId, i, last);
      batches := batches + [Batch(documents[i..last], firstId + i)];
      i := last;
    }
    assert documents[..|documents|] == documents;
    postings := [];
    for b := 0 to |batches|
      invariant postings == AllPostings(batches[..b])
    {
      var mapped := MapToPostings(batches[b]);
      assert batches[..b + 1][..b] == batches[..b];
      postings := postings + mapped;
    }
    assert batches[..|batches|] == batches;
  }

  ghost function AllPostings(batches: seq<Batch>): seq<Posting> {
    if batches == [] then []
    else AllPostings(batches[..|batches| - 1]) + PostingsOf(batches[|batches| - 1].documents, batches[|batches| - 1].first)
  }

  ghost predicate Joined(batches: seq<Batch>, documents: seq<seq<nat>>, firstId: nat) {
    AllPostings(batches) == PostingsOf(documents, firstId)
  }

  lemma NoBatches(documents: seq<seq<nat>>, firstId: nat)
    ensures Joined([], documents[..0], firstId)
  {
  }

  lemma AllPostingsExtend(batches: seq<Batch>, batch: Batch)
    ensures AllPostings(batches + [batch]) == AllPostings(batches) + PostingsOf(batch.documents, batch.first)
  {
    var more := batches + [batch];
    assert more[..|more| - 1] == batches;
  }

  lemma AddBatch(batches: seq<Batch>, documents: seq<seq<nat>>, firstId: nat, i: nat, last: nat)
    requires i <= last <= |documents| && Joined(batches, documents[..i], firstId)
    ensures Joined(batches + [Batch(documents[i..last], firstId + i)], documents[..last], firstId)
  {
    hide PostingsOf;
    AllPostingsExtend(batches, Batch(documents[i..last], firstId + i));
    assert documents[..last] == documents[..i] + documents[i..last];
    PostingsConcat(documents[..i], documents[i..last], firstId);
  }

  /** The index of a run of documents, for any number of threads and any plan. */
  method InvertRange(documents: seq<seq<nat>>, firstId: nat, threads: nat, plan: Plan) returns (index: InvertedIndex)
    requires threads > 0
    ensures fresh(index) && index.Holds(PostingsOf(documents, firstId))
  {
    hide IsIndex, Sorted, PostingsOf;
    var postings := MapInBatches(documents, firstId, threads);
    var sorted := Sort(postings);
    index := new InvertedIndex();
    assert [] + sorted == sorted;
    Reduce(index, sorted, plan, []);
    SameCounts(index.documents, index.frequencies, sorted, PostingsOf(documents, firstId));
  }

  /** What is written of one batch and read back. */
  datatype Stored = Stored(documents: Lists, frequencies: Lists)

  /** Batch b indexes the documents cuts[b], ..., cuts[b+1]-1. */
  ghost predicate BatchOk(stored: seq<Stored>, collection: seq<seq<nat>>, cuts: seq<nat>, b: nat) {
    && b < |stored| && b + 1 < |cuts| && cuts[b] <= cuts[b + 1] <= |collection|
    && IsIndex(stored[b].documents, stored[b].frequencies, PostingsOf(collection[cuts[b]..cuts[b + 1]], cuts[b]))
  }

  ghost predicate BatchesOk(stored: seq<Stored>, collection: seq<seq<nat>>, cuts: seq<nat>) {
    && |cuts| == |stored| + 1 && cuts[0] == 0
    && forall b: nat :: b < |stored| ==> BatchOk(stored, collection, cuts, b)
  }

  /** The batches index the collection piece by piece. */
  ghost predicate Batched(stored: seq<Stored>, collection: seq<seq<nat>>) {
    exists cuts :: BatchesOk(stored, collection, cuts) && cuts[|stored|] == |collection|
  }

  method BuildBatches(collection: seq<seq<nat>>, batchSize: nat, threads: nat, plans: nat -> Plan)
    returns (stored: seq<Stored>, ghost cuts: seq<nat>)
    requires batchSize > 0 && threads > 0
    ensures BatchesOk(stored, collection, cuts) && cuts[|stored|] == |collection|
    ensures forall b: nat :: b < |stored| ==> cuts[b] < cuts[b + 1] == Min(cuts[b] + batchSize, |collection|)
    ensures Batched(stored, collection)
  {
    hide IsIndex, PostingsOf;
    stored, cuts := [], [0];
    var processed := 0;
    while processed < |collection|
      invariant processed <= |collection| && BatchesOk(stored, collection, cuts) && cuts[|stored|] == processed
      invariant forall b: nat :: b < |stored| ==> cuts[b] < cuts[b + 1] == Min(cuts[b] + batchSize, |collection|)
    {
      var end := Min(processed + batchSize, |collection|);
      var index := InvertRange(collection[processed..end], processed, threads, plans(|stored|));
      StoreBatch(stored, collection, cuts, Stored(index.documents, index.frequencies), end);
      stored := stored + [Stored(index.documents, index.frequencies)];
      cuts := cuts + [end];
      processed := end;
    }
  }

  lemma StoreBatch(stored: seq<Stored>, collection: seq<seq<nat>>, cuts: seq<nat>, batch: Stored, end: nat)
    requires BatchesOk(stored, collection, cuts) && cuts[|stored|] <= end <= |collection|
    requires IsIndex(batch.documents, batch.frequencies, PostingsOf(collection[cuts[|stored|]..end], cuts[|stored|]))
    ensures BatchesOk(stored + [batch], collection, cuts + [end])
  {
    hide IsIndex, PostingsOf;
    forall b: nat | b < |stored| + 1 ensures BatchOk(stored + [batch], collection, cuts + [end], b) {
      if b < |stored| {
        assert BatchOk(stored, collection, cuts, b);
      }
    }
  }

  datatype Result = Merged(lists: seq<(seq<nat>, seq<nat>)>) | SizeMismatch | EmptyList(term: nat)

  /** One term's list over all batches, put together without looking at the documents. */
  method MergeTerm(stored: seq<Stored>, term: nat, ghost collection: seq<seq<nat>>, ghost cuts: seq<nat>)
    returns (dlist: seq<nat>, flist: seq<nat>)
    requires BatchesOk(stored, collection, cuts) && cuts[|stored|] == |collection|
    ensures ListOf(dlist, flist, PostingsOf(collection, 0), term)
  {
    hide ListOf, PostingsOf, IsIndex, HasTerm;
    dlist, flist := [], [];
    NothingYet(term, collection);
    for b := 0 to |stored|
      invariant cuts[b] <= |collection|
      invariant ListOf(dlist, flist, PostingsOf(collection[..cuts[b]], 0), term)
    {
      assert BatchOk(stored, collection, cuts, b);
      MergeStep(stored, collection, cuts, b, term, dlist, flist);
      dlist := dlist + Get(stored[b].documents, term);
      flist := flist + Get(stored[b].frequencies, term);
    }
    assert collection[..|collection|] == collection;
  }

  lemma NothingYet(term: nat, collection: seq<seq<nat>>)
    ensures ListOf([], [], PostingsOf(collection[..0], 0), term)
  {
  }

  lemma MergeStep(
    stored: seq<Stored>, collection: seq<seq<nat>>, cuts: seq<nat>, b: nat, term: nat, dlist: seq<nat>, flist: seq<nat>)
    requires BatchOk(stored, collection, cuts, b)
    requires ListOf(dlist, flist, PostingsOf(collection[..cuts[b]], 0), term)
    ensures ListOf(dlist + Get(stored[b].documents, term), flist + Get(stored[b].frequencies, term),
              PostingsOf(collection[..cuts[b + 1]], 0), term)
  {
    hide PostingsOf, HasTerm, ListOf;
    var front, rest := collection[..cuts[b]], collection[cuts[b]..cuts[b + 1]];
    assert collection[..cuts[b + 1]] == front + rest;
    PostingsConcat(front, rest, 0);
    DocsWithin(front, 0);
    DocsWithin(rest, cuts[b]);
    var docs, freqs := Get(stored[b].documents, term), Get(stored[b].frequencies, term);
    if term !in stored[b].documents {
      NoList(PostingsOf(rest, cuts[b]), term);
    }
    ListApart(dlist, flist, PostingsOf(front, 0), docs, freqs, PostingsOf(rest, cuts[b]), term, cuts[b]);
    ApartList(dlist, flist, PostingsOf(front, 0), docs, freqs, PostingsOf(rest, cuts[b]), term);
  }

  lemma ListApart(
    docs: seq<nat>, freqs: seq<nat>, ps: seq<Posting>, docs': seq<nat>, freqs': seq<nat>, qs: seq<Posting>,
    t: nat, cut: nat)
    requires ListOf(docs, freqs, ps, t) && ListOf(docs', freqs', qs, t)
    requires forall p :: p in ps ==> p.doc < cut
    requires forall p :: p in qs ==> cut <= p.doc
    ensures Precedes(docs, docs') && (docs != [] && docs' != [] ==> docs[|docs| - 1] != docs'[0])
  {
    forall i | 0 <= i < |docs| ensures docs[i] < cut {
      CountPositive(ps, t, docs[i]);
    }
    forall i | 0 <= i < |docs'| ensures cut <= docs'[i] {
      CountPositive(qs, t, docs'[i]);
    }
  }

  /** All lists are written, unless a term has no posting at all. */
  ghost predicate MergeOk(result: Result, ps: seq<Posting>, termCount: nat) {
    match result
    case Merged(lists) => |lists| == termCount && forall t: nat :: t < termCount ==> HasTerm(ps, t) && ListOf(lists[t].0, lists[t].1, ps, t)
    case EmptyList(t) => t < termCount && !HasTerm(ps, t) && forall u: nat :: u < t ==> HasTerm(ps, u)
    case SizeMismatch => false
  }

  method MergeBatches(
    stored: seq<Stored>, termCount: nat, ghost collection: seq<seq<nat>>, ghost cuts: seq<nat>)
    returns (result: Result)
    requires BatchesOk(stored, collection, cuts) && cuts[|stored|] == |collection|
    ensures MergeOk(result, PostingsOf(collection, 0), termCount)
  {
    hide ListOf, PostingsOf, HasTerm, BatchesOk;
    ghost var ps := PostingsOf(collection, 0);
    var lists: seq<(seq<nat>, seq<nat>)> := [];
    for t := 0 to termCount
      invariant |lists| == t
      invariant forall u: nat :: u < t ==> HasTerm(ps, u) && ListOf(lists[u].0, lists[u].1, ps, u)
    {
      var dlist, flist := MergeTerm(stored, t, collection, cuts);
      EmptyIffNoTerm(dlist, flist, ps, t);
      if |dlist| != |flist| {
        return SizeMismatch;
      }
      if |dlist| == 0 {
        return EmptyList(t);
      }
      lists := lists + [(dlist, flist)];
    }
    result := Merged(lists);
  }

  lemma EmptyIffNoTerm(docs: seq<nat>, freqs: seq<nat>, ps: seq<Posting>, t: nat)
    requires ListOf(docs, freqs, ps, t)
    ensures |docs| == |freqs| && (docs == [] <==> !HasTerm(ps, t))
  {
    if docs != [] {
      assert Count(ps, t, docs[0]) > 0;
    }
  }

  /** Inverts a collection in batches of the given size. */
  method InvertForwardIndex(
    collection: seq<seq<nat>>, batchSize: nat, threads: nat, plans: nat -> Plan, termCount: nat)
    returns (result: Result)
    requires batchSize > 0 && threads > 0
    ensures MergeOk(result, PostingsOf(collection, 0), termCount)
  {
    var stored;
    ghost var cuts;
    stored, cuts := BuildBatches(collection, batchSize, threads, plans);
    result := MergeBatches(stored, termCount, collection, cuts);
  }

  /** The outcome does not depend on the batch size, the number of threads or how ranges
      were split and joined: any two runs over a collection agree completely. */
  lemma OutcomeUnique(a: Result, b: Result, ps: seq<Posting>, termCount: nat)
    requires MergeOk(a, ps, termCount) && MergeOk(b, ps, termCount)
    ensures a == b
  {
    hide ListOf, HasTerm;
    if a.Merged? && b.Merged? {
      forall t: nat | t < termCount ensures a.lists[t] == b.lists[t] {
        ListUnique(a.lists[t].0, a.lists[t].1, b.lists[t].0, b.lists[t].1, ps, t);
      }
    }
  }
}
