/** Fixed-size blocks and range maxima, computed in one pass over a posting list. */
module StaticPartition {
  import opened Postings
  import opened Blocks

  /** The blocks closed so far; an open one starts at the last cut. */
  ghost predicate Closed(l: PostingList, cuts: seq<nat>, blockDocids: seq<nat>, blockMaxs: seq<real>) {
    && |cuts| == |blockDocids| + 1 == |blockMaxs| + 1
    && cuts[0] == 0 && Increasing(cuts) && |l.docs| == |l.scores|
    && forall b: nat :: b < |blockDocids| ==> cuts[b + 1] < |l.docs| && BlockIs(l, cuts, b, blockDocids[b], blockMaxs[b])
  }

  ghost predicate ClosedRuns(
    l: PostingList, docToRange: map<nat, nat>, cuts: seq<nat>, rangeIds: seq<nat>, rangeMaxs: seq<real>)
  {
    && |cuts| == |rangeIds| + 1 == |rangeMaxs| + 1
    && cuts[0] == 0 && Increasing(cuts) && |l.docs| == |l.scores|
    && forall r: nat :: r < |rangeIds| ==>
         cuts[r + 1] < |l.docs| && RunIs(l, docToRange, cuts, r, rangeIds[r], rangeMaxs[r])
  }

  function Last(cuts: seq<nat>): nat
    requires cuts != []
  {
    cuts[|cuts| - 1]
  }

  /** Block b starts at posting b * size. */
  ghost predicate FixedCuts(cuts: seq<nat>, size: nat) {
    forall b :: 0 <= b < |cuts| ==> cuts[b] == b * size
  }

  lemma StillBlock(l: PostingList, cuts: seq<nat>, next: nat, b: nat, docid: nat, max: real)
    requires BlockIs(l, cuts, b, docid, max)
    ensures BlockIs(l, cuts + [next], b, docid, max)
  {
    assert (cuts + [next])[b] == cuts[b] && (cuts + [next])[b + 1] == cuts[b + 1];
  }

  lemma StillRun(l: PostingList, docToRange: map<nat, nat>, cuts: seq<nat>, next: nat, r: nat, id: nat, max: real)
    requires RunIs(l, docToRange, cuts, r, id, max)
    ensures RunIs(l, docToRange, cuts + [next], r, id, max)
  {
    assert (cuts + [next])[r] == cuts[r] && (cuts + [next])[r + 1] == cuts[r + 1];
  }

  lemma IncreasingExtend(cuts: seq<nat>, next: nat)
    requires Increasing(cuts) && cuts != [] && Last(cuts) < next
    ensures Increasing(cuts + [next])
  {
  }

  /** Closing the open block keeps the closed ones and adds a true maximum. */
  lemma CloseBlock(
    l: PostingList, cuts: seq<nat>, blockDocids: seq<nat>, blockMaxs: seq<real>, open: real, i: nat, docid: nat)
    requires Closed(l, cuts, blockDocids, blockMaxs) && Last(cuts) < i < |l.docs|
    requires open == MaxOf(l.scores, Last(cuts), i) && docid + 1 == l.docs[i]
    ensures Closed(l, cuts + [i], blockDocids + [docid], blockMaxs + [open])
  {
    IncreasingExtend(cuts, i);
    forall b: nat | b < |blockDocids| + 1
      ensures (cuts + [i])[b + 1] < |l.docs|
      ensures BlockIs(l, cuts + [i], b, (blockDocids + [docid])[b], (blockMaxs + [open])[b])
    {
      if b < |blockDocids| {
        StillBlock(l, cuts, i, b, blockDocids[b], blockMaxs[b]);
      }
    }
  }

  lemma CloseLastBlock(l: PostingList, cuts: seq<nat>, blockDocids: seq<nat>, blockMaxs: seq<real>, open: real)
    requires Closed(l, cuts, blockDocids, blockMaxs) && Last(cuts) < |l.docs|
    requires open == MaxOf(l.scores, Last(cuts), |l.docs|)
    ensures Tiles(l, cuts + [|l.docs|], blockDocids + [l.docs[|l.docs| - 1]], blockMaxs + [open])
  {
    var n, docid := |l.docs|, l.docs[|l.docs| - 1];
    IncreasingExtend(cuts, n);
    forall b: nat | b < |blockDocids| + 1
      ensures BlockIs(l, cuts + [n], b, (blockDocids + [docid])[b], (blockMaxs + [open])[b])
    {
      if b < |blockDocids| {
        StillBlock(l, cuts, n, b, blockDocids[b], blockMaxs[b]);
      }
    }
  }

  lemma CloseRun(
    l: PostingList, docToRange: map<nat, nat>, cuts: seq<nat>, rangeIds: seq<nat>, rangeMaxs: seq<real>,
    id: nat, open: real, i: nat)
    requires ClosedRuns(l, docToRange, cuts, rangeIds, rangeMaxs) && Last(cuts) < i < |l.docs|
    requires open == MaxOf(l.scores, Last(cuts), i)
    requires forall j :: Last(cuts) <= j < i ==> RangeOf(docToRange, l.docs[j]) == id
    requires RangeOf(docToRange, l.docs[i]) != id
    ensures ClosedRuns(l, docToRange, cuts + [i], rangeIds + [id], rangeMaxs + [open])
  {
    IncreasingExtend(cuts, i);
    forall r: nat | r < |rangeIds| + 1
      ensures (cuts + [i])[r + 1] < |l.docs|
      ensures RunIs(l, docToRange, cuts + [i], r, (rangeIds + [id])[r], (rangeMaxs + [open])[r])
    {
      if r < |rangeIds| {
        StillRun(l, docToRange, cuts, i, r, rangeIds[r], rangeMaxs[r]);
      }
    }
  }

  lemma CloseLastRun(
    l: PostingList, docToRange: map<nat, nat>, cuts: seq<nat>, rangeIds: seq<nat>, rangeMaxs: seq<real>,
    id: nat, open: real)
    requires ClosedRuns(l, docToRange, cuts, rangeIds, rangeMaxs) && Last(cuts) < |l.docs|
    requires open == MaxOf(l.scores, Last(cuts), |l.docs|)
    requires forall j :: Last(cuts) <= j < |l.docs| ==> RangeOf(docToRange, l.docs[j]) == id
    ensures Runs(l, docToRange, cuts + [|l.docs|], rangeIds + [id], rangeMaxs + [open])
  {
    var n := |l.docs|;
    IncreasingExtend(cuts, n);
    forall r: nat | r < |rangeIds| + 1
      ensures RunIs(l, docToRange, cuts + [n], r, (rangeIds + [id])[r], (rangeMaxs + [open])[r])
    {
      if r < |rangeIds| {
        StillRun(l, docToRange, cuts, n, r, rangeIds[r], rangeMaxs[r]);
      }
    }
  }

  /** `i / size` still names the block that starts at `block * size`. */
  lemma SameBlock(i: nat, size: nat, block: nat)
    requires 0 < size && block * size <= i <= block * size + size
    ensures i / size == block <==> i < block * size + size
  {
    if i < block * size + size {
      QuotientIs(i, size, block, i - block * size);
    } else {
      assert i == (block + 1) * size;
      QuotientIs(i, size, block + 1, 0);
    }
  }

  lemma QuotientIs(i: nat, size: nat, q: nat, r: nat)
    requires r < size && i == q * size + r
    ensures i / size == q
  {
    var d := i / size - q;
    assert d * size == r - i % size;
    MulAtLeast(d, size);
  }

  lemma MulAtLeast(d: int, size: nat)
    ensures d >= 1 ==> d * size >= size
    ensures d <= -1 ==> d * size + size <= 0
  {
  }

  /** A block is complete exactly when the next posting's number is its successor's start. */
  lemma NextBlock(
    l: PostingList, size: nat, i: nat, currentBlock: nat, open: real,
    blockDocids: seq<nat>, blockMaxs: seq<real>, cuts: seq<nat>)
    requires 0 < size && i < |l.docs| && Increasing(l.docs)
    requires Closed(l, cuts, blockDocids, blockMaxs) && FixedCuts(cuts, size) && |cuts| == currentBlock + 1
    requires Last(cuts) < i <= Last(cuts) + size && i / size != currentBlock
    requires open == MaxOf(l.scores, Last(cuts), i)
    ensures l.docs[i] > 0
    ensures Closed(l, cuts + [i], blockDocids + [l.docs[i] - 1], blockMaxs + [open])
    ensures FixedCuts(cuts + [i], size)
  {
    SameBlock(i, size, currentBlock);
    assert i == (currentBlock + 1) * size;
    assert l.docs[0] < l.docs[i];
    CloseBlock(l, cuts, blockDocids, blockMaxs, open, i, l.docs[i] - 1);
  }

  lemma MaxExtend(scores: seq<real>, lo: nat, i: nat)
    requires lo <= i < |scores|
    ensures MaxOf(scores, lo, i + 1) == Larger(MaxOf(scores, lo, i), scores[i])
    ensures MaxOf(scores, i, i + 1) == Larger(0.0, scores[i])
  {
    assert MaxOf(scores, i, i) == 0.0;
  }

  /** While the quotient is the current block, the next posting still fits it. */
  lemma FitsBlock(l: PostingList, cuts: seq<nat>, size: nat, i: nat, block: nat)
    requires FixedCuts(cuts, size) && |cuts| == block + 1 && 0 < size
    requires Last(cuts) <= i <= Last(cuts) + size && i / size == block
    ensures i + 1 <= Last(cuts) + size
  {
    SameBlock(i, size, block);
  }

  /** One posting of the block loop. */
  method StepBlock(
    l: PostingList, size: nat, i: nat, currentBlock: nat, open: real,
    blockDocids: seq<nat>, blockMaxs: seq<real>, ghost cuts: seq<nat>)
    returns (currentBlock': nat, open': real, blockDocids': seq<nat>, blockMaxs': seq<real>, ghost cuts': seq<nat>)
    requires 0 < size && i < |l.docs| == |l.scores| && Increasing(l.docs)
    requires Closed(l, cuts, blockDocids, blockMaxs) && FixedCuts(cuts, size) && |cuts| == currentBlock + 1
    requires Last(cuts) <= i <= Last(cuts) + size && (i > 0 ==> Last(cuts) < i)
    requires open == MaxOf(l.scores, Last(cuts), i)
    ensures Closed(l, cuts', blockDocids', blockMaxs') && FixedCuts(cuts', size) && |cuts'| == currentBlock' + 1
    ensures Last(cuts') < i + 1 <= Last(cuts') + size
    ensures open' == MaxOf(l.scores, Last(cuts'), i + 1)
  {
    hide Closed, FixedCuts, MaxOf, Increasing, Larger;
    currentBlock', open', blockDocids', blockMaxs', cuts' := currentBlock, open, blockDocids, blockMaxs, cuts;
    MaxExtend(l.scores, Last(cuts), i);
    MaxExtend(l.scores, i, i);
    if i == 0 || i / size == currentBlock {
      open' := Larger(open, l.scores[i]);
      if i > 0 {
        FitsBlock(l, cuts, size, i, currentBlock);
      }
    } else {
      NextBlock(l, size, i, currentBlock, open, blockDocids, blockMaxs, cuts);
      blockDocids', blockMaxs', cuts' := blockDocids + [l.docs[i] - 1], blockMaxs + [open], cuts + [i];
      currentBlock' := currentBlock + 1;
      open' := Larger(0.0, l.scores[i]);
    }
  }

  /** One posting of the range loop. */
  method StepRange(
    l: PostingList, docToRange: map<nat, nat>, i: nat, currentRange: nat, open: real,
    rangeIds: seq<nat>, rangeMaxs: seq<real>, ghost cuts: seq<nat>)
    returns (currentRange': nat, open': real, rangeIds': seq<nat>, rangeMaxs': seq<real>, ghost cuts': seq<nat>)
    requires i < |l.docs|
    requires ClosedRuns(l, docToRange, cuts, rangeIds, rangeMaxs)
    requires Last(cuts) <= i && (i > 0 ==> Last(cuts) < i)
    requires i == 0 ==> currentRange == RangeOf(docToRange, l.docs[0])
    requires forall j :: Last(cuts) <= j < i ==> RangeOf(docToRange, l.docs[j]) == currentRange
    requires open == MaxOf(l.scores, Last(cuts), i)
    ensures ClosedRuns(l, docToRange, cuts', rangeIds', rangeMaxs')
    ensures Last(cuts') <= i
    ensures forall j :: Last(cuts') <= j < i + 1 ==> RangeOf(docToRange, l.docs[j]) == currentRange'
    ensures open' == MaxOf(l.scores, Last(cuts'), i + 1)
  {
    hide RunIs, MaxOf, Larger;
    MaxExtend(l.scores, Last(cuts), i);
    currentRange', open', rangeIds', rangeMaxs', cuts' := currentRange, open, rangeIds, rangeMaxs, cuts;
    if RangeOf(docToRange, l.docs[i]) != currentRange {
      CloseRun(l, docToRange, cuts, rangeIds, rangeMaxs, currentRange, open, i);
      rangeIds' := rangeIds + [currentRange];
      rangeMaxs' := rangeMaxs + [open];
      cuts' := cuts + [i];
      open' := Larger(0.0, l.scores[i]);
      currentRange' := RangeOf(docToRange, l.docs[i]);
    } else {
      open' := Larger(open, l.scores[i]);
    }
  }

  /** Block b holds the postings b * size, ..., (b + 1) * size - 1, or up to the last one. */
  ghost predicate FixedBlockIs(l: PostingList, size: nat, b: nat, docid: nat, max: real) {
    var lo, hi := b * size, if (b + 1) * size < |l.docs| then (b + 1) * size else |l.docs|;
    && lo < hi && |l.docs| == |l.scores| && max == MaxOf(l.scores, lo, hi)
    && if hi < |l.docs| then docid + 1 == l.docs[hi] else docid == l.docs[hi - 1]
  }

  /** As many blocks as it takes, all but the last of the full size. */
  ghost predicate FixedBlocks(l: PostingList, size: nat, blockDocids: seq<nat>, blockMaxs: seq<real>) {
    var m: nat := |blockDocids|;
    && 0 < m == |blockMaxs| && (m - 1) * size < |l.docs| <= m * size
    && forall b: nat :: b < m ==> FixedBlockIs(l, size, b, blockDocids[b], blockMaxs[b])
  }

  lemma CutsAreFixed(
    l: PostingList, size: nat, cuts: seq<nat>, blockDocids: seq<nat>, blockMaxs: seq<real>)
    requires Tiles(l, cuts, blockDocids, blockMaxs)
    requires FixedCuts(cuts[..|cuts| - 1], size) && |l.docs| <= cuts[|cuts| - 2] + size
    ensures FixedBlocks(l, size, blockDocids, blockMaxs)
  {
    hide MaxOf, Increasing;
    var m: nat := |blockDocids|;
    CutAt(cuts, size, m - 1);
    assert BlockIs(l, cuts, m - 1, blockDocids[m - 1], blockMaxs[m - 1]);
    assert m * size == (m - 1) * size + size;
    forall b: nat | b < m ensures FixedBlockIs(l, size, b, blockDocids[b], blockMaxs[b]) {
      assert BlockIs(l, cuts, b, blockDocids[b], blockMaxs[b]);
      CutAt(cuts, size, b);
      if b < m - 1 {
        CutAt(cuts, size, b + 1);
        assert BlockIs(l, cuts, b + 1, blockDocids[b + 1], blockMaxs[b + 1]);
      }
    }
  }

  lemma CutAt(cuts: seq<nat>, size: nat, b: nat)
    requires |cuts| > 1 && FixedCuts(cuts[..|cuts| - 1], size) && b < |cuts| - 1
    ensures cuts[b] == b * size
  {
    assert cuts[..|cuts| - 1][b] == b * size;
  }

  /** Blocks of `blockSize` postings and runs of postings in one range, with their maxima. */
  method StaticBlockPartition(l: PostingList, blockSize: nat, docToRange: map<nat, nat>)
    returns (
      blockDocids: seq<nat>, blockMaxs: seq<real>, rangeIds: seq<nat>, rangeMaxs: seq<real>,
      ghost cuts: seq<nat>, ghost runs: seq<nat>)
    requires 0 < |l.docs| == |l.scores| && Increasing(l.docs) && 0 < blockSize
    ensures Tiles(l, cuts, blockDocids, blockMaxs)
    ensures FixedCuts(cuts[..|cuts| - 1], blockSize) && |l.docs| <= cuts[|cuts| - 2] + blockSize
    ensures Runs(l, docToRange, runs, rangeIds, rangeMaxs)
    ensures TrueBlocks(l, blockDocids, blockMaxs) && TrueRuns(l, docToRange, rangeIds, rangeMaxs)
    ensures FixedBlocks(l, blockSize, blockDocids, blockMaxs)
  {
    hide FixedBlocks, Closed, ClosedRuns, FixedCuts, MaxOf, Tiles, Runs, Increasing;
    blockDocids, blockMaxs, rangeIds, rangeMaxs, cuts, runs := [], [], [], [], [0], [0];
    var currentBlock, blockMax := 0, 0.0;
    var currentRange, rangeMax := RangeOf(docToRange, l.docs[0]), 0.0;
    Start(l, blockSize, docToRange);
    for i := 0 to |l.docs|
      invariant Closed(l, cuts, blockDocids, blockMaxs) && FixedCuts(cuts, blockSize) && |cuts| == currentBlock + 1
      invariant Last(cuts) <= i <= Last(cuts) + blockSize && (i > 0 ==> Last(cuts) < i)
      invariant blockMax == MaxOf(l.scores, Last(cuts), i)
      invariant ClosedRuns(l, docToRange, runs, rangeIds, rangeMaxs) && runs != []
      invariant Last(runs) <= i && (i > 0 ==> Last(runs) < i)
      invariant i == 0 ==> currentRange == RangeOf(docToRange, l.docs[0])
      invariant forall j :: Last(runs) <= j < i ==> RangeOf(docToRange, l.docs[j]) == currentRange
      invariant rangeMax == MaxOf(l.scores, Last(runs), i)
    {
      currentBlock, blockMax, blockDocids, blockMaxs, cuts :=
        StepBlock(l, blockSize, i, currentBlock, blockMax, blockDocids, blockMaxs, cuts);
      currentRange, rangeMax, rangeIds, rangeMaxs, runs :=
        StepRange(l, docToRange, i, currentRange, rangeMax, rangeIds, rangeMaxs, runs);
      RunsNonEmpty(l, docToRange, runs, rangeIds, rangeMaxs);
    }
    CloseLastBlock(l, cuts, blockDocids, blockMaxs, blockMax);
    CloseLastRun(l, docToRange, runs, rangeIds, rangeMaxs, currentRange, rangeMax);
    assert (cuts + [|l.docs|])[..|cuts|] == cuts;
    blockDocids, blockMaxs, cuts := blockDocids + [l.docs[|l.docs| - 1]], blockMaxs + [blockMax], cuts + [|l.docs|];
    rangeIds, rangeMaxs, runs := rangeIds + [currentRange], rangeMaxs + [rangeMax], runs + [|l.docs|];
    CutsAreFixed(l, blockSize, cuts, blockDocids, blockMaxs);
  }

  lemma Start(l: PostingList, blockSize: nat, docToRange: map<nat, nat>)
    requires 0 < |l.docs| == |l.scores|
    ensures Closed(l, [0], [], []) && FixedCuts([0], blockSize)
    ensures ClosedRuns(l, docToRange, [0], [], [])
    ensures MaxOf(l.scores, 0, 0) == 0.0
  {
  }

  lemma RunsNonEmpty(
    l: PostingList, docToRange: map<nat, nat>, cuts: seq<nat>, rangeIds: seq<nat>, rangeMaxs: seq<real>)
    requires ClosedRuns(l, docToRange, cuts, rangeIds, rangeMaxs)
    ensures cuts != []
  {
  }
}
