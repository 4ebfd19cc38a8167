/** What the anytime queries order ranges by, on the posting lists alone: over built data the
    bound sum of a range is the sum of the largest scores the query's lists have in it.
 */
module BoundSums {
  import opened Postings
  import opened TopK
  import opened Cursors
  import opened Blocks
  import opened RangeQueries
  import opened WandData

  /** The largest score of the first `n` postings whose documents map to the range; 0 when
      there are none. */
  ghost function LargestUpTo(l: PostingList, docToRange: map<nat, nat>, range: nat, n: nat): real
    requires n <= |l.docs| == |l.scores|
  {
    if n == 0 then 0.0
    else
      var before := LargestUpTo(l, docToRange, range, n - 1);
      if RangeOf(docToRange, l.docs[n - 1]) == range then Larger(before, l.scores[n - 1]) else before
  }

  ghost function LargestIn(l: PostingList, docToRange: map<nat, nat>, range: nat): real {
    if |l.docs| == |l.scores| then LargestUpTo(l, docToRange, range, |l.docs|) else 0.0
  }

  lemma {:induction false} LargestUpToIs(l: PostingList, docToRange: map<nat, nat>, range: nat, n: nat)
    requires n <= |l.docs| == |l.scores|
    ensures var m := LargestUpTo(l, docToRange, range, n);
            && m >= 0.0
            && (forall i :: 0 <= i < n && RangeOf(docToRange, l.docs[i]) == range ==> l.scores[i] <= m)
            && (m == 0.0 || exists i :: 0 <= i < n && RangeOf(docToRange, l.docs[i]) == range && l.scores[i] == m)
  {
    if n > 0 {
      LargestUpToIs(l, docToRange, range, n - 1);
    }
  }

  /** The largest score in a range is the only value that bounds the list's scores there and
      is reached by one of them, or is 0. */
  lemma RangeMaxIff(l: PostingList, docToRange: map<nat, nat>, range: nat, m: real)
    requires |l.docs| == |l.scores|
    ensures IsRangeMax(l, docToRange, range, m) <==> m == LargestIn(l, docToRange, range)
  {
    LargestUpToIs(l, docToRange, range, |l.docs|);
  }

  /** For every list its largest score in the range. */
  ghost function Largest(ls: seq<PostingList>, docToRange: map<nat, nat>, range: nat): seq<real> {
    seq(|ls|, i requires 0 <= i < |ls| => LargestIn(ls[i], docToRange, range))
  }

  ghost function LargestSum(ls: seq<PostingList>, docToRange: map<nat, nat>, range: nat): real {
    Sum(Largest(ls, docToRange, range))
  }

  lemma {:induction false} SumConcat(u: seq<real>, v: seq<real>)
    ensures Sum(u + v) == Sum(u) + Sum(v)
  {
    if v == [] {
      assert u + v == u;
    } else {
      SumConcat(u, v[..|v| - 1]);
      assert (u + v)[..|u + v| - 1] == u + v[..|v| - 1];
    }
  }

  lemma LargestSumConcat(a: seq<PostingList>, b: seq<PostingList>, docToRange: map<nat, nat>, range: nat)
    ensures LargestSum(a + b, docToRange, range) == LargestSum(a, docToRange, range) + LargestSum(b, docToRange, range)
  {
    SumConcat(Largest(a, docToRange, range), Largest(b, docToRange, range));
    assert Largest(a + b, docToRange, range) == Largest(a, docToRange, range) + Largest(b, docToRange, range);
  }

  lemma LargestSumOne(l: PostingList, docToRange: map<nat, nat>, range: nat)
    ensures LargestSum([l], docToRange, range) == LargestIn(l, docToRange, range)
  {
    var u := Largest([l], docToRange, range);
    SumExtend(u, 0);
    assert u[..1] == u && u[..0] == [] && u[0] == LargestIn(l, docToRange, range);
  }

  lemma LargestSumWithout(ls: seq<PostingList>, j: nat, docToRange: map<nat, nat>, range: nat) returns (rest: seq<PostingList>)
    requires j < |ls|
    ensures |rest| == |ls| - 1 && multiset(rest) == multiset(ls) - multiset{ls[j]}
    ensures LargestSum(ls, docToRange, range) == LargestSum(rest, docToRange, range) + LargestSum([ls[j]], docToRange, range)
  {
    hide LargestSum;
    rest := ls[..j] + ls[j + 1..];
    assert ls == ls[..j] + ([ls[j]] + ls[j + 1..]);
    LargestSumConcat(ls[..j], [ls[j]] + ls[j + 1..], docToRange, range);
    LargestSumConcat([ls[j]], ls[j + 1..], docToRange, range);
    LargestSumConcat(ls[..j], ls[j + 1..], docToRange, range);
  }

  /** The order of the lists does not matter. */
  lemma {:induction false} LargestSumPermutation(
    a: seq<PostingList>, b: seq<PostingList>, docToRange: map<nat, nat>, range: nat)
    requires multiset(a) == multiset(b)
    ensures LargestSum(a, docToRange, range) == LargestSum(b, docToRange, range)
    decreases |a|
  {
    hide LargestSum;
    if a == [] {
      assert |multiset(b)| == |b|;
    } else {
      assert a[0] in multiset(b);
      var j :| 0 <= j < |b| && b[j] == a[0];
      var a' := LargestSumWithout(a, 0, docToRange, range);
      var b' := LargestSumWithout(b, j, docToRange, range);
      LargestSumPermutation(a', b', docToRange, range);
    }
  }

  /* ----- Cursors over built data ----- */

  /** Upper-bound data built for a collection of `n` documents with these clusters. */
  ghost predicate IsBuilt(builder: Builder, n: nat, clusters: seq<nat>, ranges: seq<Range>)
    reads builder
  {
    && builder.Valid() && MapsFirst(builder.docToRange, clusters, |clusters|)
    && ValidClusters(clusters, n) && AreAllRanges(clusters, ranges)
    && forall i :: 0 <= i < |builder.lists| ==> IndexList(builder.lists[i], n)
  }

  /** Every cursor is over some list of the collection, with any query weight. */
  ghost predicate OverLists(cs: seq<Cursor>, builder: Builder, n: nat)
    requires builder.Shaped()
    reads builder
  {
    forall i :: 0 <= i < |cs| ==> OverSome(cs[i], builder, n)
  }

  ghost predicate OverSome(c: Cursor, builder: Builder, n: nat)
    requires builder.Shaped()
    reads builder
  {
    exists term: nat :: term < |builder.lists| && OverTerm(c, builder, term, n)
  }

  lemma BuiltBoundIs(
    builder: Builder, n: nat, clusters: seq<nat>, ranges: seq<Range>, c: Cursor, r: nat)
    requires IsBuilt(builder, n, clusters, ranges) && OverSome(c, builder, n)
    ensures RangeBound(c.wand, r) == LargestIn(c.list, builder.docToRange, r)
  {
    hide Described, MapsFirst, ValidClusters, AreAllRanges, Increasing, ValidWand, RangesDominate;
    var term: nat :| term < |builder.lists| && OverTerm(c, builder, term, n);
    var l := builder.lists[term];
    IndexListFacts(l, n);
    ValidClustersRise(clusters, n);
    DescribedIsSound(builder.GetEnum(term), l, n, clusters, ranges, builder.docToRange);
    RangeMaxIff(l, builder.docToRange, r, RangeBound(c.wand, r));
  }

  /** The bound sum of a range is the sum over the query's lists of the largest score each has
      among the documents of the range, whatever the query weights and the order of the
      cursors. */
  lemma BoundSumIsLargestSum(
    builder: Builder, n: nat, clusters: seq<nat>, ranges: seq<Range>, cs: seq<Cursor>, r: nat)
    requires IsBuilt(builder, n, clusters, ranges) && OverLists(cs, builder, n)
    ensures BoundSum(cs, r) == LargestSum(Lists(cs), builder.docToRange, r)
  {
    hide IsBuilt, OverSome, LargestIn, RangeBound, Sum;
    var bounds := seq(|cs|, i requires 0 <= i < |cs| => RangeBound(cs[i].wand, r));
    forall i | 0 <= i < |cs| ensures bounds[i] == Largest(Lists(cs), builder.docToRange, r)[i] {
      BuiltBoundIs(builder, n, clusters, ranges, cs[i], r);
    }
    assert bounds == Largest(Lists(cs), builder.docToRange, r);
  }

  lemma ArrangedOver(cs: seq<Cursor>, cursors: seq<Cursor>, builder: Builder, n: nat)
    requires builder.Shaped() && Arranges(cs, cursors) && OverLists(cursors, builder, n)
    ensures OverLists(cs, builder, n)
  {
    hide OverSome;
    ArrangedMembers(cs, cursors);
    forall i | 0 <= i < |cs| ensures OverSome(cs[i], builder, n) {
      assert cs[i] in Group(cursors);
    }
  }

  /** Every range once, and none before one whose largest scores sum to more. */
  ghost predicate LargestSumOrder(ids: seq<nat>, ls: seq<PostingList>, docToRange: map<nat, nat>, n: nat) {
    && ValidIds(ids, n) && multiset(ids) == multiset(All(n))
    && forall i, j :: 0 <= i < j < |ids| ==> LargestSum(ls, docToRange, ids[i]) >= LargestSum(ls, docToRange, ids[j])
  }

  /** Over built data, the order a query visits ranges in, however it arranged its cursors, is
      the order of what the lists can give there. */
  lemma BoundSumOrderIff(
    builder: Builder, n: nat, clusters: seq<nat>, ranges: seq<Range>, cursors: seq<Cursor>, cs: seq<Cursor>, ids: seq<nat>)
    requires IsBuilt(builder, n, clusters, ranges) && OverLists(cursors, builder, n) && Arranges(cs, cursors)
    ensures BoundSumOrder(ids, cs, |ranges|) <==> LargestSumOrder(ids, Lists(cursors), builder.docToRange, |ranges|)
  {
    hide IsBuilt, OverLists, LargestSum, BoundSum, Arranges;
    BuiltIsShaped(builder, n, clusters, ranges);
    ArrangedOver(cs, cursors, builder, n);
    ArrangedLists(cs, cursors);
    forall r: nat ensures BoundSum(cs, r) == LargestSum(Lists(cursors), builder.docToRange, r) {
      BoundSumIsLargestSum(builder, n, clusters, ranges, cs, r);
      LargestSumPermutation(Lists(cs), Lists(cursors), builder.docToRange, r);
    }
  }

  lemma BuiltIsShaped(builder: Builder, n: nat, clusters: seq<nat>, ranges: seq<Range>)
    requires IsBuilt(builder, n, clusters, ranges)
    ensures builder.Shaped()
  {
  }
}
