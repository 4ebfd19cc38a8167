/** The upper-bound data of a whole index: documents mapped to ranges, every list's blocks
    and range maxima appended to shared vectors, and the ranges queries walk over.

    The main result is that the data built for any collection satisfies every assumption the
    queries make about it, and exactly which documents the ranges leave out.
 */
module WandData {
  import opened Postings
  import opened TopK
  import opened Cursors
  import opened RangeQueries
  import opened Blocks
  import StaticPartition
  import ScoreOptPartition

  /* ----- Documents and ranges ----- */

  /** Range c is the first whose upper boundary lies beyond document d. */
  ghost predicate FirstBeyond(clusters: seq<nat>, d: nat, c: nat) {
    c < |clusters| && d < clusters[c] && forall j :: 0 <= j < c ==> clusters[j] <= d
  }

  /** The first `c` clusters have been worked through. */
  ghost predicate MapsFirst(docToRange: map<nat, nat>, clusters: seq<nat>, c: nat) {
    && c <= |clusters|
    && (forall d :: d in docToRange ==> FirstBeyond(clusters, d, docToRange[d]))
    && (forall d: nat, j :: 0 <= j < c && d < clusters[j] ==> d in docToRange)
  }

  /** Maps every document below some boundary to the first range reaching past it. */
  method DocToRange(clusters: seq<nat>) returns (docToRange: map<nat, nat>)
    ensures MapsFirst(docToRange, clusters, |clusters|)
  {
    docToRange := map[];
    var docId := 0;
    for c := 0 to |clusters|
      invariant MapsFirst(docToRange, clusters, c)
      invariant forall d: nat :: d in docToRange <==> d < docId
      invariant forall j :: 0 <= j < c ==> clusters[j] <= docId
    {
      while docId < clusters[c]
        invariant MapsFirst(docToRange, clusters, c)
        invariant forall d: nat :: d in docToRange <==> d < docId
        invariant forall j :: 0 <= j < c ==> clusters[j] <= docId
      {
        docToRange := docToRange[docId := c];
        docId := docId + 1;
      }
    }
  }

  /** The r-th range runs from just past the previous boundary up to its own, both excluded. */
  ghost predicate RangeIs(clusters: seq<nat>, r: nat, range: Range) {
    && r < |clusters|
    && range.end == clusters[r]
    && range.start == (if r == 0 then 0 else clusters[r - 1] + 1)
  }

  ghost predicate AreAllRanges(clusters: seq<nat>, ranges: seq<Range>) {
    |ranges| == |clusters| && forall r: nat :: r < |ranges| ==> RangeIs(clusters, r, ranges[r])
  }

  method AllRanges(clusters: seq<nat>) returns (ranges: seq<Range>)
    ensures AreAllRanges(clusters, ranges)
  {
    ranges := [];
    var lower := 0;
    for i := 0 to |clusters|
      invariant |ranges| == i && forall r: nat :: r < i ==> RangeIs(clusters, r, ranges[r])
      invariant lower == if i == 0 then 0 else clusters[i - 1] + 1
    {
      var upper := clusters[i];
      ranges := ranges + [Range(lower, upper)];
      lower := upper + 1;
    }
  }

  lemma BoundariesRise(clusters: seq<nat>, a: nat, b: nat)
    requires Increasing(clusters) && a <= b < |clusters|
    ensures clusters[a] <= clusters[b]
  {
  }

  /** A document of the r-th range is mapped to r. */
  lemma RangeMapsToItself(clusters: seq<nat>, docToRange: map<nat, nat>, r: nat, range: Range, d: nat)
    requires Increasing(clusters) && MapsFirst(docToRange, clusters, |clusters|)
    requires RangeIs(clusters, r, range) && range.start <= d < range.end
    ensures RangeOf(docToRange, d) == r
  {
    assert d in docToRange;
    var c := docToRange[d];
    assert FirstBeyond(clusters, d, c);
    assert r > 0 ==> clusters[r - 1] < d;
    var last: nat := if r == 0 then 0 else r - 1;
    if c <= last {
      BoundariesRise(clusters, c, last);
    }
  }

  /** For any boundaries, rising or not: every document of every range is mapped to that range
      if and only if no boundary lies beyond the start of a later range that is not empty. */
  lemma RangesMapIff(clusters: seq<nat>, docToRange: map<nat, nat>, ranges: seq<Range>)
    requires MapsFirst(docToRange, clusters, |clusters|) && AreAllRanges(clusters, ranges)
    ensures (forall r, d :: 0 <= r < |ranges| && d in RangeDocs(ranges[r]) ==> RangeOf(docToRange, d) == r)
            <==> forall j, r :: 0 <= j < r < |clusters| && ranges[r].start < ranges[r].end ==> clusters[j] <= ranges[r].start
  {
    forall r: nat | r < |ranges| ensures RangeIs(clusters, r, ranges[r]) {
    }
    if forall j, r :: 0 <= j < r < |clusters| && ranges[r].start < ranges[r].end ==> clusters[j] <= ranges[r].start {
      forall r, d | 0 <= r < |ranges| && d in RangeDocs(ranges[r]) ensures RangeOf(docToRange, d) == r {
        assert d in docToRange && FirstBeyond(clusters, d, docToRange[d]);
      }
    }
    if j, r :| 0 <= j < r < |clusters| && ranges[r].start < ranges[r].end && clusters[j] > ranges[r].start {
      var d := ranges[r].start;
      assert d in RangeDocs(ranges[r]);
      assert d in docToRange && FirstBeyond(clusters, d, docToRange[d]);
      assert RangeOf(docToRange, d) != r;
    }
  }

  /** The ranges cover exactly the documents below the last boundary that are not boundaries. */
  lemma RangesCover(clusters: seq<nat>, ranges: seq<Range>, d: nat)
    requires Increasing(clusters) && AreAllRanges(clusters, ranges)
    ensures d in AllDocs(ranges) <==> clusters != [] && d < clusters[|clusters| - 1] && d !in clusters
  {
    InAllDocs(ranges, d);
    if d in AllDocs(ranges) {
      var r :| 0 <= r < |ranges| && d in RangeDocs(ranges[r]);
      InRange(clusters, ranges, r, d);
    }
    if clusters != [] && d < clusters[|clusters| - 1] && d !in clusters {
      var r := EnclosingRange(clusters, d);
      assert RangeIs(clusters, r, ranges[r]);
      assert r > 0 ==> clusters[r - 1] in clusters;
      assert d in RangeDocs(ranges[r]);
    }
  }

  lemma InRange(clusters: seq<nat>, ranges: seq<Range>, r: nat, d: nat)
    requires Increasing(clusters) && AreAllRanges(clusters, ranges)
    requires r < |ranges| && d in RangeDocs(ranges[r])
    ensures d < clusters[|clusters| - 1] && d !in clusters
  {
    assert RangeIs(clusters, r, ranges[r]);
    forall j | 0 <= j < |clusters| ensures clusters[j] != d {
      if j < r {
        assert clusters[j] <= clusters[r - 1];
      } else {
        assert clusters[r] <= clusters[j];
      }
    }
  }

  lemma EnclosingRange(clusters: seq<nat>, d: nat) returns (r: nat)
    requires clusters != [] && d < clusters[|clusters| - 1]
    ensures FirstBeyond(clusters, d, r)
  {
    r := 0;
    while clusters[r] <= d
      invariant r < |clusters| && forall j :: 0 <= j < r ==> clusters[j] <= d
      decreases |clusters| - r
    {
      r := r + 1;
    }
  }

  lemma RangesDisjoint(clusters: seq<nat>, ranges: seq<Range>)
    requires Increasing(clusters) && AreAllRanges(clusters, ranges)
    ensures Disjoint(ranges)
  {
    forall r, s | 0 <= r < s < |ranges| ensures RangeDocs(ranges[r]) !! RangeDocs(ranges[s]) {
      assert RangeIs(clusters, r, ranges[r]) && RangeIs(clusters, s, ranges[s]);
      assert clusters[r] <= clusters[s - 1];
    }
  }

  /** With boundaries ending at the collection size, the ranges are the whole collection if
      and only if there is a single range: every inner boundary is lost. */
  lemma WholeCollectionIffOneRange(clusters: seq<nat>, ranges: seq<Range>, n: nat)
    requires Increasing(clusters) && AreAllRanges(clusters, ranges)
    requires clusters != [] && clusters[|clusters| - 1] == n
    ensures AllDocs(ranges) == Docs(0, n) <==> |clusters| == 1
  {
    forall d: nat ensures d in AllDocs(ranges) <==> d < n && d !in clusters {
      RangesCover(clusters, ranges, d);
    }
    if |clusters| == 1 {
      assert forall d: nat :: d < n ==> d !in clusters;
    } else {
      assert clusters[0] in clusters && clusters[0] < n;
      assert clusters[0] in Docs(0, n);
    }
  }

  /** A queue that is exact over all ranges is exact over the whole collection if and only if
      no boundary document could still enter it. */
  lemma CompleteIffBoundariesCannotEnter(
    q: seq<Entry>, threshold: real, k: nat, floor: real, ls: seq<PostingList>,
    clusters: seq<nat>, ranges: seq<Range>, n: nat)
    requires QueueOk(q, threshold, k, floor)
    requires Increasing(clusters) && AreAllRanges(clusters, ranges)
    requires clusters != [] && clusters[|clusters| - 1] == n
    requires IsTopK(multiset(q), k, floor, ls, AllDocs(ranges))
    ensures IsTopK(multiset(q), k, floor, ls, Docs(0, n))
            <==> forall j :: 0 <= j < |clusters| - 1 ==> Total(ls, clusters[j]) <= threshold
  {
    hide Total, QueueOk, AllDocs;
    var m, part, all := multiset(q), EntriesOf(ls, AllDocs(ranges)), EntriesOf(ls, Docs(0, n));
    BestOfDocuments(m, k, floor, ls, AllDocs(ranges));
    BestOfDocuments(m, k, floor, ls, Docs(0, n));
    ExactIffAccounted(q, threshold, k, floor, part);
    ExactIffAccounted(q, threshold, k, floor, all);
    LeftOutAreBoundaries(clusters, ranges, n);
    if Accounted(m, threshold, all) {
      forall j | 0 <= j < |clusters| - 1 ensures Total(ls, clusters[j]) <= threshold {
        var e := Entry(Total(ls, clusters[j]), clusters[j]);
        assert m[e] <= part[e] == 0 && all[e] == 1;
      }
    }
    if forall j :: 0 <= j < |clusters| - 1 ==> Total(ls, clusters[j]) <= threshold {
      forall e ensures part[e] <= all[e] && (part[e] < all[e] ==> e.score <= threshold) {
        if part[e] < all[e] {
          var j: nat :| j < |clusters| - 1 && clusters[j] == e.docid;
        }
      }
      AccountMore(m, threshold, part, all);
    }
  }

  /** The documents that no range holds are the inner boundaries. */
  lemma LeftOutAreBoundaries(clusters: seq<nat>, ranges: seq<Range>, n: nat)
    requires Increasing(clusters) && AreAllRanges(clusters, ranges)
    requires clusters != [] && clusters[|clusters| - 1] == n
    ensures AllDocs(ranges) <= Docs(0, n)
    ensures forall d :: d in Docs(0, n) && d !in AllDocs(ranges) ==> exists j: nat :: j < |clusters| - 1 && clusters[j] == d
    ensures forall j: nat :: j < |clusters| - 1 ==> clusters[j] in Docs(0, n) && clusters[j] !in AllDocs(ranges)
  {
    hide AllDocs;
    forall d: nat ensures d in AllDocs(ranges) <==> d < n && d !in clusters {
      RangesCover(clusters, ranges, d);
    }
    forall d | d in Docs(0, n) && d !in AllDocs(ranges) ensures exists j: nat :: j < |clusters| - 1 && clusters[j] == d {
      var j: nat :| j < |clusters| && clusters[j] == d;
    }
    forall j: nat | j < |clusters| - 1 ensures clusters[j] in Docs(0, n) && clusters[j] !in AllDocs(ranges) {
      assert clusters[j] in clusters;
    }
  }

  /** What a caller can tell beforehand, for a queue of size k: every exact answer over all
      ranges is exact over the collection if and only if each inner boundary document above
      the floor has k rivals in the ranges. */
  lemma CompleteIffBoundariesHaveRivals(
    k: nat, floor: real, ls: seq<PostingList>, clusters: seq<nat>, ranges: seq<Range>, n: nat)
    requires 0 < k && Increasing(clusters) && AreAllRanges(clusters, ranges)
    requires clusters != [] && clusters[|clusters| - 1] == n
    ensures (forall m :: IsTopK(m, k, floor, ls, AllDocs(ranges)) ==> IsTopK(m, k, floor, ls, Docs(0, n)))
            <==> forall j: nat :: j < |clusters| - 1 && Total(ls, clusters[j]) > floor ==>
                   |Rivals(ls, AllDocs(ranges), clusters[j])| >= k
  {
    hide Total, IsTopK, AllDocs, Rivals;
    LeftOutAreBoundaries(clusters, ranges, n);
    PartAnswersAllIff(k, floor, ls, AllDocs(ranges), Docs(0, n));
  }

  /** And for queues of every size: if and only if no inner boundary document is above the
      floor. */
  lemma CompleteIffBoundariesBelowFloor(
    floor: real, ls: seq<PostingList>, clusters: seq<nat>, ranges: seq<Range>, n: nat)
    requires Increasing(clusters) && AreAllRanges(clusters, ranges)
    requires clusters != [] && clusters[|clusters| - 1] == n
    ensures (forall k: nat, m :: 0 < k && IsTopK(m, k, floor, ls, AllDocs(ranges)) ==> IsTopK(m, k, floor, ls, Docs(0, n)))
            <==> forall j: nat :: j < |clusters| - 1 ==> Total(ls, clusters[j]) <= floor
  {
    hide Total, IsTopK, AllDocs;
    LeftOutAreBoundaries(clusters, ranges, n);
    PartAnswersAllAlwaysIff(floor, ls, AllDocs(ranges), Docs(0, n));
  }

  /** One document on a boundary, in one list, is enough to lose the best answer. */
  lemma BoundaryDocumentIsLost()
    ensures var l := PostingList([1], [1.0]);
            exists clusters, ranges ::
              Increasing(clusters) && clusters == [1, 3] && AreAllRanges(clusters, ranges)
              && IsTopK(multiset{}, 1, 0.0, [l], AllDocs(ranges))
              && IsTopK(multiset{Entry(1.0, 1)}, 1, 0.0, [l], Docs(0, 3))
              && !IsTopK(multiset{}, 1, 0.0, [l], Docs(0, 3))
  {
    var l := PostingList([1], [1.0]);
    var clusters: seq<nat>, ranges := [1, 3], [Range(0, 1), Range(2, 3)];
    ScoreAtIndex(l, 3, 0);
    forall d: nat ensures Total([l], d) == (if d == 1 then 1.0 else 0.0) {
      assert Total([l][..0], d) == 0.0;
      TotalExtend([l], 0, d);
      assert [l][..1] == [l];
    }
    RangesCover(clusters, ranges, 1);
    assert AreAllRanges(clusters, ranges);
    assert 1 in Docs(0, 3) && !Holds(multiset{}, [l], 1);
  }

  /* ----- One list ----- */

  datatype BlockSize = FixedBlock(size: nat) | VariableBlock(lambda: real)

  ghost predicate ValidBlockSize(blockSize: BlockSize) {
    match blockSize
    case FixedBlock(size) => size > 0
    case VariableBlock(lambda) => lambda >= 0.0
  }

  /** Blocks and range runs tile the list and carry its true maxima. */
  ghost predicate Describes(
    w: WandList, l: PostingList, docToRange: map<nat, nat>, cuts: seq<nat>, runs: seq<nat>)
  {
    && Tiles(l, cuts, w.blockDocids, w.blockMaxs)
    && Runs(l, docToRange, runs, w.rangeIds, w.rangeMaxs)
    && w.listMax == MaxOf(w.blockMaxs, 0, |w.blockMaxs|)
  }

  ghost predicate Described(w: WandList, l: PostingList, docToRange: map<nat, nat>) {
    exists cuts, runs :: Describes(w, l, docToRange, cuts, runs)
  }

  const EPS1: real := 0.01
  const EPS2: real := 0.4

  /** The blocks are those that the block size asks for. */
  ghost predicate Sized(w: WandList, l: PostingList, blockSize: BlockSize) {
    match blockSize
    case FixedBlock(size) => StaticPartition.FixedBlocks(l, size, w.blockDocids, w.blockMaxs)
    case VariableBlock(lambda) => ScoreOptPartition.OptimisedBlocks(l, lambda, EPS1, EPS2, w.blockDocids, w.blockMaxs)
  }

  /** Variable-sized blocks; the range maxima come from a pass of their own. */
  method VariableBlockPartition(
    l: PostingList, docToRange: map<nat, nat>, lambda: real, eps1: real, eps2: real)
    returns (
      blockDocids: seq<nat>, blockMaxs: seq<real>, rangeIds: seq<nat>, rangeMaxs: seq<real>,
      ghost cuts: seq<nat>, ghost runs: seq<nat>)
    requires 0 < |l.docs| == |l.scores| && Increasing(l.docs) && NonNegative(l)
    requires eps1 > 0.0 && eps2 > 0.0 && lambda >= 0.0
    ensures Tiles(l, cuts, blockDocids, blockMaxs)
    ensures forall b :: 0 <= b < |cuts| ==> cuts[b] <= |l.scores|
    ensures |cuts| == 2 || ScoreOptPartition.PartCost(l.scores, cuts, lambda) < ScoreOptPartition.Cost(l.scores, 0, |l.scores|, 0.0)
    ensures Runs(l, docToRange, runs, rangeIds, rangeMaxs)
    ensures TrueBlocks(l, blockDocids, blockMaxs) && TrueRuns(l, docToRange, rangeIds, rangeMaxs)
    ensures ScoreOptPartition.OptimisedBlocks(l, lambda, eps1, eps2, blockDocids, blockMaxs)
  {
    hide ScoreOptPartition.OptimisedBlocks, StaticPartition.ClosedRuns, MaxOf, Tiles, Runs, Increasing, NonNegative, ScoreOptPartition.PartCost,
      ScoreOptPartition.Cost;
    rangeIds, rangeMaxs, runs := [], [], [0];
    var currentRange, rangeMax := RangeOf(docToRange, l.docs[0]), 0.0;
    StaticPartition.Start(l, 1, docToRange);
    for i := 0 to |l.docs|
      invariant StaticPartition.ClosedRuns(l, docToRange, runs, rangeIds, rangeMaxs) && runs != []
      invariant StaticPartition.Last(runs) <= i && (i > 0 ==> StaticPartition.Last(runs) < i)
      invariant i == 0 ==> currentRange == RangeOf(docToRange, l.docs[0])
      invariant forall j :: StaticPartition.Last(runs) <= j < i ==> RangeOf(docToRange, l.docs[j]) == currentRange
      invariant rangeMax == MaxOf(l.scores, StaticPartition.Last(runs), i)
    {
      currentRange, rangeMax, rangeIds, rangeMaxs, runs :=
        StaticPartition.StepRange(l, docToRange, i, currentRange, rangeMax, rangeIds, rangeMaxs, runs);
      StaticPartition.RunsNonEmpty(l, docToRange, runs, rangeIds, rangeMaxs);
    }
    StaticPartition.CloseLastRun(l, docToRange, runs, rangeIds, rangeMaxs, currentRange, rangeMax);
    rangeIds, rangeMaxs, runs := rangeIds + [currentRange], rangeMaxs + [rangeMax], runs + [|l.docs|];
    blockDocids, blockMaxs, cuts := ScoreOptPartition.Partition(l, eps1, eps2, lambda);
  }

  method MaxElement(s: seq<real>) returns (m: real)
    requires s != [] && forall i :: 0 <= i < |s| ==> s[i] >= 0.0
    ensures m == MaxOf(s, 0, |s|)
  {
    m := s[0];
    assert MaxOf(s, 0, 0) == 0.0;
    for i := 1 to |s|
      invariant m == MaxOf(s, 0, i)
    {
      if m < s[i] {
        m := s[i];
      }
    }
  }

  /* ----- The builder ----- */

  /** `starts` are the boundaries of consecutive slices of a vector of length `n`. */
  ghost predicate Offsets(starts: seq<nat>, n: nat) {
    && starts != [] && starts[0] == 0 && starts[|starts| - 1] == n
    && forall i, j :: 0 <= i <= j < |starts| ==> starts[i] <= starts[j]
  }

  function Slice<T>(v: seq<T>, starts: seq<nat>, i: nat): seq<T>
    requires Offsets(starts, |v|) && i + 1 < |starts|
  {
    v[starts[i]..starts[i + 1]]
  }

  lemma OffsetsAppend(starts: seq<nat>, n: nat, more: nat)
    requires Offsets(starts, n)
    ensures Offsets(starts + [more + starts[|starts| - 1]], n + more)
  {
  }

  /** Appending a slice leaves the earlier ones alone. */
  lemma SliceAppend<T>(v: seq<T>, starts: seq<nat>, x: seq<T>)
    requires Offsets(starts, |v|) && Offsets(starts + [|x| + starts[|starts| - 1]], |v + x|)
    ensures Slice(v + x, starts + [|x| + starts[|starts| - 1]], |starts| - 1) == x
    ensures forall i: nat :: i + 1 < |starts| ==>
              Slice(v + x, starts + [|x| + starts[|starts| - 1]], i) == Slice(v, starts, i)
  {
    var starts' := starts + [|x| + starts[|starts| - 1]];
    forall i: nat | i + 1 < |starts| ensures Slice(v + x, starts', i) == Slice(v, starts, i) {
      assert starts'[i] == starts[i] && starts'[i + 1] == starts[i + 1] <= |v|;
    }
  }

  /** Appends every list's data to vectors shared by all lists. */
  class Builder {
    const docToRange: map<nat, nat>
    var maxTermWeight: seq<real>
    var blocksStart: seq<nat>
    var blockMaxTermWeight: seq<real>
    var blockDocid: seq<nat>
    var rangesStart: seq<nat>
    var rangeMaxTermWeight: seq<real>
    var rangeId: seq<nat>
    /** The lists added, and the block size asked for each. */
    ghost var lists: seq<PostingList>
    ghost var sizes: seq<BlockSize>

    ghost predicate Shaped()
      reads this
    {
      && |blocksStart| == |rangesStart| == |maxTermWeight| + 1 == |lists| + 1
      && |blockMaxTermWeight| == |blockDocid| && |rangeMaxTermWeight| == |rangeId|
      && Offsets(blocksStart, |blockDocid|) && Offsets(rangesStart, |rangeId|)
    }

    /** The data of list `i`: its slices of the shared vectors. */
    function GetEnum(i: nat): WandList
      requires Shaped() && i < |maxTermWeight|
      reads this
    {
      WandList(
        Slice(blockDocid, blocksStart, i), Slice(blockMaxTermWeight, blocksStart, i),
        Slice(rangeId, rangesStart, i), Slice(rangeMaxTermWeight, rangesStart, i),
        maxTermWeight[i])
    }

    /** Every list added so far is described by its slices, with blocks of the size asked for. */
    ghost predicate Valid()
      reads this
    {
      && Shaped() && |sizes| == |lists|
      && forall i: nat :: i < |lists| ==> Described(GetEnum(i), lists[i], docToRange) && Sized(GetEnum(i), lists[i], sizes[i])
    }

    constructor (docToRange: map<nat, nat>)
      ensures Valid() && this.docToRange == docToRange && lists == [] && sizes == []
    {
      this.docToRange := docToRange;
      maxTermWeight, blocksStart, blockMaxTermWeight, blockDocid := [], [0], [], [];
      rangesStart, rangeMaxTermWeight, rangeId, lists, sizes := [0], [], [], [], [];
    }

    /** Appends one list's data behind everything already there. */
    method Append(l: PostingList, w: WandList, ghost blockSize: BlockSize)
      requires Valid() && Described(w, l, docToRange) && Sized(w, l, blockSize)
      modifies this
      ensures Valid() && lists == old(lists) + [l] && sizes == old(sizes) + [blockSize]
      ensures GetEnum(|lists| - 1) == w
      ensures forall i: nat :: i < |old(lists)| ==> GetEnum(i) == old(GetEnum(i))
    {
      hide Offsets, Slice, Described, Sized;
      SameSizes(w, l, docToRange);
      Nonempty(blocksStart, |blockDocid|);
      Nonempty(rangesStart, |rangeId|);
      OffsetsAppend(blocksStart, |blockDocid|, |w.blockDocids|);
      OffsetsAppend(rangesStart, |rangeId|, |w.rangeIds|);
      SliceAppend(blockDocid, blocksStart, w.blockDocids);
      SliceAppend(blockMaxTermWeight, blocksStart, w.blockMaxs);
      SliceAppend(rangeId, rangesStart, w.rangeIds);
      SliceAppend(rangeMaxTermWeight, rangesStart, w.rangeMaxs);
      blockMaxTermWeight := blockMaxTermWeight + w.blockMaxs;
      blockDocid := blockDocid + w.blockDocids;
      maxTermWeight := maxTermWeight + [w.listMax];
      blocksStart := blocksStart + [|w.blockDocids| + blocksStart[|blocksStart| - 1]];
      rangeMaxTermWeight := rangeMaxTermWeight + w.rangeMaxs;
      rangeId := rangeId + w.rangeIds;
      rangesStart := rangesStart + [|w.rangeIds| + rangesStart[|rangesStart| - 1]];
      lists := lists + [l];
      sizes := sizes + [blockSize];
    }

    /** Computes and appends the upper bounds of one list. */
    method AddSequence(l: PostingList, blockSize: BlockSize) returns (listMax: real)
      requires Valid() && 0 < |l.docs| == |l.scores| && Increasing(l.docs) && NonNegative(l)
      requires ValidBlockSize(blockSize)
      modifies this
      ensures Valid() && lists == old(lists) + [l] && sizes == old(sizes) + [blockSize]
      ensures Sized(GetEnum(|lists| - 1), l, blockSize)
      ensures forall i: nat :: i < |old(lists)| ==> GetEnum(i) == old(GetEnum(i))
      ensures listMax == MaxOf(l.scores, 0, |l.scores|) && AtMost(l, listMax)
    {
      hide StaticPartition.FixedBlocks, ScoreOptPartition.OptimisedBlocks;
      var blockDocids, blockMaxs, rangeIds, rangeMaxs;
      ghost var cuts, runs;
      if blockSize.FixedBlock? {
        blockDocids, blockMaxs, rangeIds, rangeMaxs, cuts, runs :=
          StaticPartition.StaticBlockPartition(l, blockSize.size, docToRange);
      } else {
        blockDocids, blockMaxs, rangeIds, rangeMaxs, cuts, runs :=
          VariableBlockPartition(l, docToRange, blockSize.lambda, EPS1, EPS2);
      }
      TilesAreValid(l, cuts, blockDocids, blockMaxs);
      listMax := MaxElement(blockMaxs);
      ListMaxIs(l, cuts, blockDocids, blockMaxs);
      var w := WandList(blockDocids, blockMaxs, rangeIds, rangeMaxs, listMax);
      assert Describes(w, l, docToRange, cuts, runs);
      Append(l, w, blockSize);
    }
  }

  lemma Nonempty(starts: seq<nat>, n: nat)
    requires Offsets(starts, n)
    ensures starts != []
  {
  }

  lemma SameSizes(w: WandList, l: PostingList, docToRange: map<nat, nat>)
    requires Described(w, l, docToRange)
    ensures |w.blockDocids| == |w.blockMaxs| && |w.rangeIds| == |w.rangeMaxs|
  {
  }

  /* ----- The whole index ----- */

  ghost predicate IndexList(l: PostingList, n: nat) {
    ValidList(l, n) && l.docs != []
  }

  lemma IndexListFacts(l: PostingList, n: nat)
    requires IndexList(l, n)
    ensures 0 < |l.docs| == |l.scores| && Increasing(l.docs) && NonNegative(l)
  {
  }

  /** No score of the list exceeds `m`. */
  ghost predicate AtMost(l: PostingList, m: real) {
    forall j :: 0 <= j < |l.scores| ==> l.scores[j] <= m
  }

  lemma AtMostLarger(l: PostingList, a: real, b: real)
    requires AtMost(l, a)
    ensures AtMost(l, Larger(a, b)) && AtMost(l, Larger(b, a))
  {
  }

  /** The boundaries rise to the number of documents, or there are none. */
  ghost predicate ValidClusters(clusters: seq<nat>, n: nat) {
    Increasing(clusters) && (clusters != [] ==> clusters[|clusters| - 1] == n)
  }

  /** The last boundary is at or past every document; a single one, or none, does not matter. */
  ghost predicate ReachEnd(clusters: seq<nat>, n: nat) {
    |clusters| <= 1 || clusters[|clusters| - 1] >= n
  }

  /** Documents map to ranges without falling, in every list of the collection, if and only if
      the boundaries reach its end: documents past them all are mapped to range 0 again. */
  lemma ClustersRiseIff(clusters: seq<nat>, n: nat, docToRange: map<nat, nat>)
    requires Increasing(clusters) && MapsFirst(docToRange, clusters, |clusters|)
    ensures (forall l :: ValidList(l, n) ==> RangesRise(l.docs, docToRange)) <==> ReachEnd(clusters, n)
  {
    if ReachEnd(clusters, n) {
      forall l | ValidList(l, n) ensures RangesRise(l.docs, docToRange) {
        ClustersRise(l, n, clusters, docToRange);
      }
    } else {
      var last := clusters[|clusters| - 1];
      var l := PostingList([clusters[0], last], [0.0, 0.0]);
      assert ValidList(l, n);
      assert clusters[0] in docToRange && FirstBeyond(clusters, clusters[0], docToRange[clusters[0]]);
      assert last in docToRange ==> FirstBeyond(clusters, last, docToRange[last]);
      assert RangeOf(docToRange, l.docs[0]) > RangeOf(docToRange, l.docs[1]);
    }
  }

  lemma ClustersRise(l: PostingList, n: nat, clusters: seq<nat>, docToRange: map<nat, nat>)
    requires ValidList(l, n) && MapsFirst(docToRange, clusters, |clusters|)
    requires Increasing(clusters) && ReachEnd(clusters, n)
    ensures RangesRise(l.docs, docToRange)
  {
    forall i, j | 0 <= i < j < |l.docs| ensures RangeOf(docToRange, l.docs[i]) <= RangeOf(docToRange, l.docs[j]) {
      var x, y := l.docs[i], l.docs[j];
      assert x in docToRange ==> FirstBeyond(clusters, x, docToRange[x]);
      assert y in docToRange ==> FirstBeyond(clusters, y, docToRange[y]);
    }
  }

  /** The data built for a list satisfies everything cursors and range queries assume, and
      each range bound is the largest score the list has there. */
  lemma DescribedIsSound(
    w: WandList, l: PostingList, n: nat, clusters: seq<nat>, ranges: seq<Range>, docToRange: map<nat, nat>)
    requires Described(w, l, docToRange) && ValidList(l, n) && Increasing(clusters) && ReachEnd(clusters, n)
    requires MapsFirst(docToRange, clusters, |clusters|) && AreAllRanges(clusters, ranges)
    ensures ValidWand(l, w) && Increasing(w.rangeIds)
    ensures RangesDominate(l, w, ranges)
    ensures forall r: nat :: IsRangeMax(l, docToRange, r, RangeBound(w, r))
  {
    var cuts, runs :| Describes(w, l, docToRange, cuts, runs);
    ClustersRise(l, n, clusters, docToRange);
    TilesAreValid(l, cuts, w.blockDocids, w.blockMaxs);
    ListMaxIs(l, cuts, w.blockDocids, w.blockMaxs);
    RunsIncrease(l, docToRange, runs, w.rangeIds, w.rangeMaxs);
    RunMaxsNonNegative(l, docToRange, runs, w.rangeIds, w.rangeMaxs);
    forall r: nat ensures IsRangeMax(l, docToRange, r, RangeBound(w, r)) {
      RangeBoundIsMax(l, docToRange, runs, w, r);
    }
    RangeMaxDominates(w, l, clusters, ranges, docToRange);
  }

  lemma RunMaxsNonNegative(
    l: PostingList, docToRange: map<nat, nat>, runs: seq<nat>, rangeIds: seq<nat>, rangeMaxs: seq<real>)
    requires Runs(l, docToRange, runs, rangeIds, rangeMaxs)
    ensures 0 < |rangeIds| == |rangeMaxs|
    ensures forall r :: 0 <= r < |rangeMaxs| ==> rangeMaxs[r] >= 0.0
  {
    forall r: nat | r < |rangeMaxs| ensures rangeMaxs[r] >= 0.0 {
      assert RunIs(l, docToRange, runs, r, rangeIds[r], rangeMaxs[r]);
    }
  }

  lemma RangeMaxDominates(
    w: WandList, l: PostingList, clusters: seq<nat>, ranges: seq<Range>, docToRange: map<nat, nat>)
    requires Increasing(clusters) && MapsFirst(docToRange, clusters, |clusters|) && AreAllRanges(clusters, ranges)
    requires forall r: nat :: IsRangeMax(l, docToRange, r, RangeBound(w, r))
    ensures RangesDominate(l, w, ranges)
  {
    hide RangeBound;
    forall r, i | 0 <= r < |ranges| && 0 <= i < |l.docs| && i < |l.scores| && ranges[r].start <= l.docs[i] < ranges[r].end
      ensures l.scores[i] <= RangeBound(w, r)
    {
      RangeMapsToItself(clusters, docToRange, r, ranges[r], l.docs[i]);
      assert IsRangeMax(l, docToRange, r, RangeBound(w, r));
    }
  }

  /** Some score of the list is `m`. */
  ghost predicate Reaches(l: PostingList, m: real) {
    exists j :: 0 <= j < |l.scores| && l.scores[j] == m
  }

  lemma ListReaches(l: PostingList)
    requires l.scores != [] && NonNegative(l)
    ensures Reaches(l, MaxOf(l.scores, 0, |l.scores|))
  {
    var m := MaxOf(l.scores, 0, |l.scores|);
    if m == 0.0 {
      assert l.scores[0] == m;
    }
  }

  lemma StillReached(lists: seq<PostingList>, t: nat, m: real, v: real)
    requires t < |lists| && Reaches(lists[t], v) && v >= 0.0
    requires if t == 0 then m == 0.0 else exists i: nat :: i < t && Reaches(lists[i], m)
    ensures exists i: nat :: i <= t && Reaches(lists[i], Larger(m, v))
  {
    hide Reaches;
    if Larger(m, v) == v {
      assert Reaches(lists[t], Larger(m, v));
    }
  }

  lemma Raise(lists: seq<PostingList>, t: nat, m: real, v: real)
    requires t < |lists| && AtMost(lists[t], v) && forall i :: 0 <= i < t ==> AtMost(lists[i], m)
    ensures forall i :: 0 <= i <= t ==> AtMost(lists[i], Larger(m, v))
  {
    hide AtMost, Larger;
    forall i | 0 <= i <= t ensures AtMost(lists[i], Larger(m, v)) {
      AtMostLarger(lists[i], if i == t then v else m, if i == t then m else v);
    }
  }

  /** The upper bounds of a collection: one call per list, in order. */
  method BuildWandData(lists: seq<PostingList>, ghost n: nat, clusters: seq<nat>, blockSize: BlockSize)
    returns (builder: Builder, indexMax: real)
    requires forall i :: 0 <= i < |lists| ==> IndexList(lists[i], n)
    requires ValidBlockSize(blockSize)
    ensures fresh(builder) && builder.Valid() && builder.lists == lists
    ensures forall i: nat :: i < |lists| ==> Sized(builder.GetEnum(i), lists[i], blockSize)
    ensures MapsFirst(builder.docToRange, clusters, |clusters|)
    ensures forall i :: 0 <= i < |lists| ==> AtMost(lists[i], indexMax)
    ensures lists == [] ==> indexMax == 0.0
    ensures lists != [] ==> exists i: nat :: i < |lists| && Reaches(lists[i], indexMax)
  {
    hide Reaches, Sized, MapsFirst, IndexList, AtMost, Increasing, NonNegative, Described, Larger;
    var docToRange := DocToRange(clusters);
    builder := new Builder(docToRange);
    indexMax := 0.0;
    for t := 0 to |lists|
      invariant fresh(builder) && builder.Valid() && builder.lists == lists[..t]
      invariant forall i: nat :: i < t ==> builder.sizes[i] == blockSize
      invariant t == 0 ==> indexMax == 0.0
      invariant t > 0 ==> exists i: nat :: i < t && Reaches(lists[i], indexMax)
      invariant builder.docToRange == docToRange
      invariant forall i :: 0 <= i < t ==> AtMost(lists[i], indexMax)
    {
      IndexListFacts(lists[t], n);
      var v := builder.AddSequence(lists[t], blockSize);
      Raise(lists, t, indexMax, v);
      ListReaches(lists[t]);
      StillReached(lists, t, indexMax, v);
      indexMax := Larger(indexMax, v);
      assert lists[..t] + [lists[t]] == lists[..t + 1];
    }
    assert lists[..|lists|] == lists;
  }

  /** Cursors over built data may take part in every range query over all ranges. */
  lemma BuiltCursorsAreReady(
    builder: Builder, n: nat, clusters: seq<nat>, ranges: seq<Range>, cs: seq<Cursor>, terms: seq<nat>)
    requires builder.Valid() && MapsFirst(builder.docToRange, clusters, |clusters|)
    requires ValidClusters(clusters, n) && AreAllRanges(clusters, ranges)
    requires forall i :: 0 <= i < |builder.lists| ==> IndexList(builder.lists[i], n)
    requires |cs| == |terms| && Distinct(cs)
    requires forall i :: 0 <= i < |cs| ==> terms[i] < |builder.lists| && OverTerm(cs[i], builder, terms[i], n)
    ensures Setting(cs, ranges) && Disjoint(ranges)
  {
    hide Distinct, Disjoint, Described, MapsFirst, ValidClusters, AreAllRanges, IndexList, Increasing, OverTerm, Ranged;
    ValidClustersRise(clusters, n);
    RangesDisjoint(clusters, ranges);
    forall i | 0 <= i < |cs| ensures Ranged(cs[i], ranges) {
      BuiltCursorIsRanged(builder, n, clusters, ranges, cs[i], terms[i]);
    }
  }

  lemma ValidClustersRise(clusters: seq<nat>, n: nat)
    requires ValidClusters(clusters, n)
    ensures Increasing(clusters) && ReachEnd(clusters, n)
  {
  }

  /** Traversals of all ranges score nothing but postings if and only if the last boundary is
      at or below the number of documents. */
  lemma RangesSafeIffLastFits(clusters: seq<nat>, ranges: seq<Range>, n: nat)
    requires Increasing(clusters) && AreAllRanges(clusters, ranges)
    ensures (forall r :: 0 <= r < |ranges| ==> ScoresPostingsOnly(n, ranges[r].end))
            <==> clusters == [] || clusters[|clusters| - 1] <= n
  {
    hide ScoresPostingsOnly;
    forall r: nat | r < |ranges| ensures ranges[r].end <= clusters[|clusters| - 1] {
      assert RangeIs(clusters, r, ranges[r]);
      BoundariesRise(clusters, r, |clusters| - 1);
    }
    if clusters != [] {
      assert RangeIs(clusters, |clusters| - 1, ranges[|clusters| - 1]);
    }
    RangesSafeIff(ranges, n);
  }

  lemma RangesFit(clusters: seq<nat>, ranges: seq<Range>, n: nat)
    requires ValidClusters(clusters, n) && AreAllRanges(clusters, ranges)
    ensures forall r :: 0 <= r < |ranges| ==> ranges[r].start <= ranges[r].end <= n
  {
    forall r: nat | r < |ranges| ensures ranges[r].start <= ranges[r].end <= n {
      assert RangeIs(clusters, r, ranges[r]);
      BoundariesRise(clusters, r, |clusters| - 1);
    }
  }

  lemma BuiltCursorIsRanged(
    builder: Builder, n: nat, clusters: seq<nat>, ranges: seq<Range>, c: Cursor, term: nat)
    requires builder.Valid() && MapsFirst(builder.docToRange, clusters, |clusters|)
    requires ValidClusters(clusters, n) && AreAllRanges(clusters, ranges)
    requires term < |builder.lists| && IndexList(builder.lists[term], n) && OverTerm(c, builder, term, n)
    ensures Ranged(c, ranges)
  {
    hide Described, MapsFirst, ValidClusters, AreAllRanges, Increasing, ValidWand, RangesDominate, ValidList;
    RangesFit(clusters, ranges, n);
    ValidClustersRise(clusters, n);
    DescribedIsSound(builder.GetEnum(term), builder.lists[term], n, clusters, ranges, builder.docToRange);
  }

  ghost predicate OverTerm(c: Cursor, builder: Builder, term: nat, n: nat)
    requires builder.Shaped() && term < |builder.lists|
    reads builder
  {
    c.list == builder.lists[term] && c.universe == n && c.weight >= 1.0 && c.wand == builder.GetEnum(term)
  }
}
