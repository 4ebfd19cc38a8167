/** What it means for blocks and range runs to tile a posting list and carry true maxima,
    and why such blocks are bounds the queries may rely on.
 */
module Blocks {
  import opened Postings
  import opened Cursors

  function Larger(a: real, b: real): real { if a < b then b else a }

  /** The largest of 0 and scores[lo..hi]. */
  ghost function MaxOf(scores: seq<real>, lo: nat, hi: nat): (m: real)
    requires lo <= hi <= |scores|
    ensures m >= 0.0 && forall i :: lo <= i < hi ==> scores[i] <= m
    ensures m == 0.0 || exists i :: lo <= i < hi && scores[i] == m
  {
    if lo == hi then 0.0 else Larger(MaxOf(scores, lo, hi - 1), scores[hi - 1])
  }

  /** A bound that some element reaches, or that is 0, is the maximum. */
  lemma {:induction false} MaxIs(scores: seq<real>, lo: nat, hi: nat, m: real)
    requires lo <= hi <= |scores|
    requires m >= 0.0 && forall i :: lo <= i < hi ==> scores[i] <= m
    requires m == 0.0 || exists i :: lo <= i < hi && scores[i] == m
    ensures m == MaxOf(scores, lo, hi)
  {
  }

  /** `cuts` are the boundaries: part b holds the postings cuts[b], ..., cuts[b+1]-1. */
  ghost predicate Cuts(cuts: seq<nat>, n: nat) {
    |cuts| > 1 && cuts[0] == 0 && cuts[|cuts| - 1] == n && Increasing(cuts)
  }

  /** Block b carries the true maximum of its postings and ends just before the first
      document of the next block, or, the last one, at the list's last document. */
  ghost predicate BlockIs(l: PostingList, cuts: seq<nat>, b: nat, docid: nat, max: real) {
    && b + 1 < |cuts| && cuts[b] < cuts[b + 1] <= |l.docs| == |l.scores|
    && max == MaxOf(l.scores, cuts[b], cuts[b + 1])
    && (if cuts[b + 1] < |l.docs| then docid + 1 == l.docs[cuts[b + 1]] else docid == l.docs[|l.docs| - 1])
  }

  ghost predicate Tiles(l: PostingList, cuts: seq<nat>, blockDocids: seq<nat>, blockMaxs: seq<real>) {
    && Cuts(cuts, |l.docs|)
    && |blockDocids| == |blockMaxs| == |cuts| - 1
    && forall b: nat :: b < |blockDocids| ==> BlockIs(l, cuts, b, blockDocids[b], blockMaxs[b])
  }

  /** Every posting lies in the part whose cuts enclose it. */
  lemma EnclosingCut(cuts: seq<nat>, n: nat, i: nat) returns (b: nat)
    requires Cuts(cuts, n) && i < n
    ensures b + 1 < |cuts| && cuts[b] <= i < cuts[b + 1]
  {
    b := 0;
    while cuts[b + 1] <= i
      invariant b + 1 < |cuts| && cuts[b] <= i
      decreases |cuts| - b
    {
      b := b + 1;
    }
  }

  /** The blocks are those of some tiling of the list, with their true maxima. */
  ghost predicate TrueBlocks(l: PostingList, blockDocids: seq<nat>, blockMaxs: seq<real>) {
    exists cuts :: Tiles(l, cuts, blockDocids, blockMaxs)
  }

  /** The documents of block b, and of no other, lie up to its docid and past the previous. */
  lemma BlockSpan(l: PostingList, cuts: seq<nat>, b: nat, docid: nat, max: real, i: nat)
    requires BlockIs(l, cuts, b, docid, max) && Increasing(l.docs) && i < |l.docs|
    ensures i < cuts[b + 1] <==> l.docs[i] <= docid
  {
    if cuts[b + 1] < |l.docs| {
      assert i < cuts[b + 1] ==> l.docs[i] < l.docs[cuts[b + 1]];
      assert cuts[b + 1] < i ==> l.docs[cuts[b + 1]] < l.docs[i];
    } else {
      assert i < |l.docs| - 1 ==> l.docs[i] < l.docs[|l.docs| - 1];
    }
  }

  lemma TilesIncrease(l: PostingList, cuts: seq<nat>, blockDocids: seq<nat>, blockMaxs: seq<real>)
    requires Tiles(l, cuts, blockDocids, blockMaxs) && Increasing(l.docs)
    ensures Increasing(blockDocids)
  {
    forall a, b | 0 <= a < b < |blockDocids| ensures blockDocids[a] < blockDocids[b] {
      assert BlockIs(l, cuts, a, blockDocids[a], blockMaxs[a]);
      assert BlockIs(l, cuts, b, blockDocids[b], blockMaxs[b]);
      assert cuts[a + 1] < cuts[b + 1];
      BlockSpan(l, cuts, a, blockDocids[a], blockMaxs[a], cuts[a + 1]);
      BlockSpan(l, cuts, b, blockDocids[b], blockMaxs[b], cuts[a + 1]);
    }
  }

  /** The block whose docid covers a posting bounds the posting's score. */
  lemma TileBounds(
    l: PostingList, cuts: seq<nat>, blockDocids: seq<nat>, blockMaxs: seq<real>, i: nat, b: nat)
    requires Tiles(l, cuts, blockDocids, blockMaxs) && Increasing(l.docs)
    requires i < |l.docs| && Covers(blockDocids, b, l.docs[i])
    ensures i < |l.scores| && l.scores[i] <= blockMaxs[b]
  {
    assert BlockIs(l, cuts, b, blockDocids[b], blockMaxs[b]);
    BlockSpan(l, cuts, b, blockDocids[b], blockMaxs[b], i);
    if b > 0 {
      assert BlockIs(l, cuts, b - 1, blockDocids[b - 1], blockMaxs[b - 1]);
      BlockSpan(l, cuts, b - 1, blockDocids[b - 1], blockMaxs[b - 1], i);
    }
  }

  /** Tiling blocks with true maxima are bounds a cursor may rely on. */
  lemma TilesAreValid(l: PostingList, cuts: seq<nat>, blockDocids: seq<nat>, blockMaxs: seq<real>)
    requires Tiles(l, cuts, blockDocids, blockMaxs) && Increasing(l.docs)
    ensures ValidBlocks(l, blockDocids, blockMaxs)
  {
    TilesIncrease(l, cuts, blockDocids, blockMaxs);
    forall b | 0 <= b < |blockMaxs| ensures blockMaxs[b] >= 0.0 {
      assert BlockIs(l, cuts, b, blockDocids[b], blockMaxs[b]);
    }
    var last := |blockDocids| - 1;
    assert BlockIs(l, cuts, last, blockDocids[last], blockMaxs[last]);
    forall i | 0 <= i < |l.docs| ensures l.docs[i] <= blockDocids[last] {
      BlockSpan(l, cuts, last, blockDocids[last], blockMaxs[last], i);
    }
    forall i, b: nat | 0 <= i < |l.docs| && i < |l.scores| && Covers(blockDocids, b, l.docs[i])
      ensures l.scores[i] <= blockMaxs[b]
    {
      TileBounds(l, cuts, blockDocids, blockMaxs, i, b);
    }
  }

  /** The largest block maximum is the list's largest score. */
  lemma ListMaxIs(l: PostingList, cuts: seq<nat>, blockDocids: seq<nat>, blockMaxs: seq<real>)
    requires Tiles(l, cuts, blockDocids, blockMaxs)
    ensures |l.docs| == |l.scores| && MaxOf(blockMaxs, 0, |blockMaxs|) == MaxOf(l.scores, 0, |l.scores|)
  {
    assert BlockIs(l, cuts, 0, blockDocids[0], blockMaxs[0]);
    var m := MaxOf(blockMaxs, 0, |blockMaxs|);
    forall i | 0 <= i < |l.scores| ensures l.scores[i] <= m {
      var b := EnclosingCut(cuts, |l.docs|, i);
      assert BlockIs(l, cuts, b, blockDocids[b], blockMaxs[b]);
    }
    if m != 0.0 {
      var b :| 0 <= b < |blockMaxs| && blockMaxs[b] == m;
      assert BlockIs(l, cuts, b, blockDocids[b], blockMaxs[b]);
    }
    MaxIs(l.scores, 0, |l.scores|, m);
  }

  /* ----- Runs of postings in one document range ----- */

  /** `unordered_map::operator[]`: documents without an entry get range 0. */
  function RangeOf(docToRange: map<nat, nat>, d: nat): nat {
    if d in docToRange then docToRange[d] else 0
  }

  /** Run r is a maximal stretch of postings in range `id` and carries its true maximum. */
  ghost predicate RunIs(l: PostingList, docToRange: map<nat, nat>, cuts: seq<nat>, r: nat, id: nat, max: real) {
    && r + 1 < |cuts| && cuts[r] < cuts[r + 1] <= |l.docs| == |l.scores|
    && max == MaxOf(l.scores, cuts[r], cuts[r + 1])
    && (forall i :: cuts[r] <= i < cuts[r + 1] ==> RangeOf(docToRange, l.docs[i]) == id)
    && (cuts[r + 1] < |l.docs| ==> RangeOf(docToRange, l.docs[cuts[r + 1]]) != id)
  }

  ghost predicate Runs(
    l: PostingList, docToRange: map<nat, nat>, cuts: seq<nat>, rangeIds: seq<nat>, rangeMaxs: seq<real>)
  {
    && Cuts(cuts, |l.docs|)
    && |rangeIds| == |rangeMaxs| == |cuts| - 1
    && forall r: nat :: r < |rangeIds| ==> RunIs(l, docToRange, cuts, r, rangeIds[r], rangeMaxs[r])
  }

  /** The identifiers and maxima are those of the list's runs. */
  ghost predicate TrueRuns(l: PostingList, docToRange: map<nat, nat>, rangeIds: seq<nat>, rangeMaxs: seq<real>) {
    exists runs :: Runs(l, docToRange, runs, rangeIds, rangeMaxs)
  }

  /** Range identifiers never fall along the list. */
  ghost predicate RangesRise(docs: seq<nat>, docToRange: map<nat, nat>) {
    forall i, j :: 0 <= i < j < |docs| ==> RangeOf(docToRange, docs[i]) <= RangeOf(docToRange, docs[j])
  }

  lemma RunsIncrease(
    l: PostingList, docToRange: map<nat, nat>, cuts: seq<nat>, rangeIds: seq<nat>, rangeMaxs: seq<real>)
    requires Runs(l, docToRange, cuts, rangeIds, rangeMaxs)
    ensures Increasing(rangeIds) <==> RangesRise(l.docs, docToRange)
  {
    if RangesRise(l.docs, docToRange) {
      forall a, b | 0 <= a < b < |rangeIds| ensures rangeIds[a] < rangeIds[b] {
        RunsApart(l, docToRange, cuts, rangeIds, rangeMaxs, a, b);
      }
    }
    if Increasing(rangeIds) {
      forall i, j | 0 <= i < j < |l.docs|
        ensures RangeOf(docToRange, l.docs[i]) <= RangeOf(docToRange, l.docs[j])
      {
        var a := EnclosingCut(cuts, |l.docs|, i);
        var b := EnclosingCut(cuts, |l.docs|, j);
        assert RunIs(l, docToRange, cuts, a, rangeIds[a], rangeMaxs[a]);
        assert RunIs(l, docToRange, cuts, b, rangeIds[b], rangeMaxs[b]);
      }
    }
  }

  lemma RunsApart(
    l: PostingList, docToRange: map<nat, nat>, cuts: seq<nat>, rangeIds: seq<nat>, rangeMaxs: seq<real>, a: nat, b: nat)
    requires Runs(l, docToRange, cuts, rangeIds, rangeMaxs) && RangesRise(l.docs, docToRange)
    requires a < b < |rangeIds|
    ensures rangeIds[a] < rangeIds[b]
  {
    assert RunIs(l, docToRange, cuts, a, rangeIds[a], rangeMaxs[a]);
    assert RunIs(l, docToRange, cuts, b, rangeIds[b], rangeMaxs[b]);
    assert cuts[a + 1] <= cuts[b];
    assert RangeOf(docToRange, l.docs[cuts[a]]) == rangeIds[a];
    assert RangeOf(docToRange, l.docs[cuts[b]]) == rangeIds[b];
    assert RangeOf(docToRange, l.docs[cuts[a + 1]]) != rangeIds[a];
  }

  /** What `range_score` returns for a list: the largest score among its postings in the
      range, 0 when there are none. */
  ghost predicate IsRangeMax(l: PostingList, docToRange: map<nat, nat>, range: nat, m: real) {
    && m >= 0.0
    && (forall i :: 0 <= i < |l.docs| && i < |l.scores| && RangeOf(docToRange, l.docs[i]) == range ==> l.scores[i] <= m)
    && (m == 0.0 || exists i :: 0 <= i < |l.docs| && i < |l.scores| && RangeOf(docToRange, l.docs[i]) == range && l.scores[i] == m)
  }

  lemma RangeBoundIsMax(l: PostingList, docToRange: map<nat, nat>, cuts: seq<nat>, w: WandList, range: nat)
    requires Runs(l, docToRange, cuts, w.rangeIds, w.rangeMaxs) && RangesRise(l.docs, docToRange)
    ensures IsRangeMax(l, docToRange, range, RangeBound(w, range))
  {
    RunsIncrease(l, docToRange, cuts, w.rangeIds, w.rangeMaxs);
    if r: nat :| RangeAt(w, range, r) {
      assert RangeBound(w, range) == w.rangeMaxs[r];
      assert RunIs(l, docToRange, cuts, r, range, w.rangeMaxs[r]);
    }
    forall i | 0 <= i < |l.docs| && i < |l.scores| && RangeOf(docToRange, l.docs[i]) == range
      ensures l.scores[i] <= RangeBound(w, range)
    {
      var r := EnclosingCut(cuts, |l.docs|, i);
      assert RunIs(l, docToRange, cuts, r, w.rangeIds[r], w.rangeMaxs[r]);
      assert RangeAt(w, range, r);
    }
  }
}
