/** The anytime queries: the collection is visited range by range, in a given order or in
    the order of BoundSum, and may stop early on a bound, a count or a clock.
 */
module RangeQueries {
  import opened Postings
  import opened TopK
  import opened Cursors
  import opened Traversal
  import opened PivotSearch
  import BlockMaxWand
  import MaxScore
  import Wand

  /** The documents start, ..., end-1. */
  datatype Range = Range(start: nat, end: nat)

  datatype Algorithm = WandTraversal | BlockMaxWandTraversal | MaxScoreTraversal

  ghost function RangeDocs(range: Range): set<nat> {
    Docs(range.start, range.end)
  }

  /** The list's range bounds dominate its postings in each range. */
  ghost predicate RangesDominate(l: PostingList, w: WandList, ranges: seq<Range>) {
    forall r, i :: 0 <= r < |ranges| && 0 <= i < |l.docs| && i < |l.scores| ==>
      (ranges[r].start <= l.docs[i] < ranges[r].end ==> l.scores[i] <= RangeBound(w, r))
  }

  ghost predicate Disjoint(ranges: seq<Range>) {
    forall r, s :: 0 <= r < s < |ranges| ==> RangeDocs(ranges[r]) !! RangeDocs(ranges[s])
  }

  /** What a range query needs to know about one cursor, whatever its position. */
  ghost predicate Ranged(c: Cursor, ranges: seq<Range>) {
    && c.WellFormed() && Increasing(c.wand.rangeIds)
    && RangesDominate(c.list, c.wand, ranges)
    && forall r :: 0 <= r < |ranges| ==> ranges[r].start <= ranges[r].end <= c.universe
  }

  ghost predicate AllRanged(cs: seq<Cursor>, ranges: seq<Range>) {
    forall i :: 0 <= i < |cs| ==> Ranged(cs[i], ranges)
  }

  /* ----- Visiting one range ----- */

  /** The list's bound for a range times the query weight. */
  ghost function WeightedBound(c: Cursor, r: nat): real {
    c.weight * RangeBound(c.wand, r)
  }

  /** What MaxScore adds up once it has prepared the range. */
  ghost function WeightedBounds(cs: seq<Cursor>, r: nat): (bounds: seq<real>)
    ensures |bounds| == |cs|
  {
    seq(|cs|, i requires 0 <= i < |cs| => WeightedBound(cs[i], r))
  }

  /** Positions one cursor for the range and lowers its bound to the range's. */
  method PrepareOne(algorithm: Algorithm, c: Cursor, ranges: seq<Range>, r: nat)
    requires c.Valid() && Ranged(c, ranges) && r < |ranges|
    modifies c
    ensures Prepared(algorithm, c, ranges[r], r)
  {
    hide RangeBound;
    RangedFacts(c, ranges, r);
    c.GlobalGeq(ranges[r].start);
    if algorithm.BlockMaxWandTraversal? {
      c.BlockMaxGlobalGeq(ranges[r].start);
    }
    c.UpdateRangeMaxScore(r);
    NowOk(c, ranges, r);
  }

  lemma RangedFacts(c: Cursor, ranges: seq<Range>, r: nat)
    requires Ranged(c, ranges) && r < |ranges|
    ensures Increasing(c.wand.rangeIds) && ranges[r].start <= ranges[r].end <= c.universe
  {
  }

  lemma NowOk(c: Cursor, ranges: seq<Range>, r: nat)
    requires c.Valid() && Ranged(c, ranges) && r < |ranges| && c.Behind(ranges[r].start)
    requires c.pos < |c.list.docs| ==> c.list.docs[c.pos] >= ranges[r].start
    requires c.maxScore >= RangeBound(c.wand, r)
    ensures CursorOk(c, ranges[r].start, ranges[r].end, ranges[r].start)
  {
    hide RangeBound;
  }

  ghost predicate Prepared(algorithm: Algorithm, c: Cursor, range: Range, r: nat)
    reads c
  {
    && CursorOk(c, range.start, range.end, range.start)
    && (algorithm.BlockMaxWandTraversal? ==> c.BlockBehind(range.start))
    && c.maxScore == WeightedBound(c, r)
  }

  method Prepare(algorithm: Algorithm, cs: seq<Cursor>, ranges: seq<Range>, r: nat)
    requires Distinct(cs) && AllValid(cs) && AllRanged(cs, ranges) && r < |ranges|
    modifies Group(cs)
    ensures AllOk(cs, ranges[r].start, ranges[r].end, ranges[r].start)
    ensures algorithm.BlockMaxWandTraversal? ==> BlockMaxWand.BlocksBehind(cs, ranges[r].start)
    ensures Maxes(cs) == WeightedBounds(cs, r)
  {
    hide CursorOk, Ranged, Prepared, WeightedBound;
    for i := 0 to |cs|
      invariant forall j :: 0 <= j < i ==> Prepared(algorithm, cs[j], ranges[r], r)
      invariant forall j :: i <= j < |cs| ==> cs[j].Valid()
    {
      assert cs[i] in Group(cs);
      DistinctFrom(cs, i);
      PrepareOne(algorithm, cs[i], ranges, r);
    }
    AllPrepared(algorithm, cs, ranges[r], r);
  }

  lemma AllPrepared(algorithm: Algorithm, cs: seq<Cursor>, range: Range, r: nat)
    requires forall j :: 0 <= j < |cs| ==> Prepared(algorithm, cs[j], range, r)
    ensures AllOk(cs, range.start, range.end, range.start) && Maxes(cs) == WeightedBounds(cs, r)
    ensures algorithm.BlockMaxWandTraversal? ==> BlockMaxWand.BlocksBehind(cs, range.start)
  {
    hide CursorOk, WeightedBound;
  }

  /** The traversal of one prepared range.  MaxScore tells a dead range, which it left at once. */
  method Traverse(
    algorithm: Algorithm, cs: seq<Cursor>, queue: TopkQueue, range: Range, ghost offered: multiset<Entry>)
    returns (dead: bool)
    requires |cs| > 0 && Distinct(cs) && AllOk(cs, range.start, range.end, range.start)
    requires algorithm.BlockMaxWandTraversal? ==> BlockMaxWand.BlocksBehind(cs, range.start)
    requires Starts(queue, offered)
    modifies queue, Group(cs)
    ensures queue.Valid() && queue.floor == old(queue.floor) && AllValid(cs)
    ensures queue.Exact(offered + EntriesOf(Lists(cs), RangeDocs(range)))
    ensures dead <==> algorithm.MaxScoreTraversal? && old(Sum(Maxes(cs))) <= old(queue.threshold)
    ensures dead ==> queue.q == old(queue.q)
  {
    hide AllOk, BlockMaxWand.BlocksBehind, AllValid;
    dead := false;
    match algorithm {
      case WandTraversal => Wand.Traverse(cs, queue, offered, range.start, range.end);
      case BlockMaxWandTraversal => BlockMaxWand.Traverse(cs, queue, offered, range.start, range.end);
      case MaxScoreTraversal =>
        var ub := MaxScore.CalcUpperBounds(cs);
        MaxScore.FirstBoundIsSum(cs, ub);
        dead := MaxScore.RunRange(cs, ub, queue, range.start, range.end, offered);
    }
  }

  /** One range of an anytime query, by any of the three traversals. */
  method VisitRange(
    algorithm: Algorithm, cs: seq<Cursor>, queue: TopkQueue, ranges: seq<Range>, r: nat, ghost offered: multiset<Entry>)
    returns (dead: bool)
    requires |cs| > 0 && Distinct(cs) && AllValid(cs) && AllRanged(cs, ranges) && r < |ranges|
    requires Starts(queue, offered)
    modifies queue, Group(cs)
    ensures queue.Valid() && queue.floor == old(queue.floor) && AllValid(cs)
    ensures queue.Exact(offered + EntriesOf(Lists(cs), RangeDocs(ranges[r])))
    ensures dead <==> algorithm.MaxScoreTraversal? && Sum(WeightedBounds(cs, r)) <= old(queue.threshold)
    ensures dead ==> queue.q == old(queue.q)
  {
    hide AllOk, BlockMaxWand.BlocksBehind, AllValid, AllRanged, WeightedBounds, Sum;
    Prepare(algorithm, cs, ranges, r);
    dead := Traverse(algorithm, cs, queue, ranges[r], offered);
  }

  /* ----- BoundSum ----- */

  /** The sum of the lists' bounds for a range, as the driver orders ranges by; the query
      weights do not enter it. */
  ghost function BoundSum(cs: seq<Cursor>, r: nat): real {
    Sum(seq(|cs|, i requires 0 <= i < |cs| => RangeBound(cs[i].wand, r)))
  }

  lemma BoundSumDominates(cs: seq<Cursor>, ranges: seq<Range>, r: nat, d: nat)
    requires AllRanged(cs, ranges) && r < |ranges| && d in RangeDocs(ranges[r])
    ensures Total(Lists(cs), d) <= BoundSum(cs, r)
  {
    var u := seq(|cs|, i requires 0 <= i < |cs| => RangeBound(cs[i].wand, r));
    forall i | 0 <= i < |cs| ensures ScoreAt(Lists(cs)[i], d) <= u[i] {
      assert Ranged(cs[i], ranges);
    }
    TotalAtMost(Lists(cs), d, u);
  }

  method ComputeBoundSum(cs: seq<Cursor>, ranges: seq<Range>, r: nat) returns (bound: real)
    requires AllValid(cs) && AllRanged(cs, ranges)
    ensures bound == BoundSum(cs, r)
  {
    ghost var u := seq(|cs|, i requires 0 <= i < |cs| => RangeBound(cs[i].wand, r));
    bound := 0.0;
    for i := 0 to |cs|
      invariant bound == Sum(u[..i])
    {
      assert Ranged(cs[i], ranges);
      var s := RangeScore(cs[i].wand, r);
      SumExtend(u, i);
      bound := bound + s;
    }
    assert u[..|cs|] == u;
  }

  lemma DistinctCount<T>(s: seq<T>, x: T)
    requires forall i, j :: 0 <= i < j < |s| ==> s[i] != s[j]
    ensures multiset(s)[x] <= 1
  {
    if x in s {
      var i :| 0 <= i < |s| && s[i] == x;
      assert s == s[..i] + [x] + s[i + 1..];
      assert x !in s[..i] && x !in s[i + 1..];
    }
  }

  lemma CountDistinct(es: seq<Entry>, i: nat, j: nat)
    requires i < j < |es| && multiset(es)[es[j]] <= 1
    ensures es[i] != es[j]
  {
    assert es == es[..j] + [es[j]] + es[j + 1..];
    assert es[..j][i] in multiset(es[..j]);
  }

  /** `order` lists every range once, best bound first. */
  ghost predicate IsOrder(order: seq<Entry>, cs: seq<Cursor>, n: nat) {
    && Descending(order)
    && (forall i :: 0 <= i < |order| ==> order[i].docid < n && order[i].score == BoundSum(cs, order[i].docid))
    && (forall i, j :: 0 <= i < j < |order| ==> order[i].docid != order[j].docid)
    && (forall r :: 0 <= r < n ==> Entry(BoundSum(cs, r), r) in order)
  }

  lemma SortedIsOrder(pairs: seq<Entry>, order: seq<Entry>, cs: seq<Cursor>)
    requires forall r :: 0 <= r < |pairs| ==> pairs[r] == Entry(BoundSum(cs, r), r)
    requires Descending(order) && multiset(order) == multiset(pairs)
    ensures IsOrder(order, cs, |pairs|)
  {
    forall i | 0 <= i < |order|
      ensures order[i].docid < |pairs| && order[i].score == BoundSum(cs, order[i].docid)
    {
      assert order[i] in multiset(pairs);
    }
    forall i, j | 0 <= i < j < |order| ensures order[i].docid != order[j].docid {
      DistinctCount(pairs, order[j]);
      CountDistinct(order, i, j);
    }
    forall r | 0 <= r < |pairs| ensures Entry(BoundSum(cs, r), r) in order {
      assert pairs[r] in multiset(order);
    }
  }

  method OrderByBoundSum(cs: seq<Cursor>, ranges: seq<Range>) returns (order: seq<Entry>)
    requires AllValid(cs) && AllRanged(cs, ranges)
    ensures IsOrder(order, cs, |ranges|)
  {
    hide BoundSum;
    var pairs: seq<Entry> := [];
    for r := 0 to |ranges|
      invariant |pairs| == r && forall j :: 0 <= j < r ==> pairs[j] == Entry(BoundSum(cs, j), j)
    {
      var bound := ComputeBoundSum(cs, ranges, r);
      pairs := pairs + [Entry(bound, r)];
    }
    order := SortHeap(pairs);
    SortedIsOrder(pairs, order, cs);
  }

  /* ----- What some ranges offer ----- */

  ghost predicate ValidIds(ids: seq<nat>, n: nat) {
    forall i :: 0 <= i < |ids| ==> ids[i] < n
  }

  /** The entries of the documents of the ranges named, those of a range as often as it is named. */
  ghost function EntriesIn(ls: seq<PostingList>, ranges: seq<Range>, ids: seq<nat>): multiset<Entry>
    requires ValidIds(ids, |ranges|)
  {
    if ids == [] then multiset{}
    else EntriesIn(ls, ranges, ids[..|ids| - 1]) + EntriesOf(ls, RangeDocs(ranges[ids[|ids| - 1]]))
  }

  lemma EntriesExtend(ls: seq<PostingList>, ranges: seq<Range>, ids: seq<nat>, v: nat)
    requires ValidIds(ids, |ranges|) && v < |ids|
    ensures EntriesIn(ls, ranges, ids[..v + 1])
            == EntriesIn(ls, ranges, ids[..v]) + EntriesOf(ls, RangeDocs(ranges[ids[v]]))
  {
    assert ids[..v + 1][..v] == ids[..v];
  }

  lemma {:induction false} EntriesConcat(ls: seq<PostingList>, ranges: seq<Range>, a: seq<nat>, b: seq<nat>)
    requires ValidIds(a, |ranges|) && ValidIds(b, |ranges|)
    ensures ValidIds(a + b, |ranges|)
    ensures EntriesIn(ls, ranges, a + b) == EntriesIn(ls, ranges, a) + EntriesIn(ls, ranges, b)
  {
    if b == [] {
      assert a + b == a;
    } else {
      EntriesConcat(ls, ranges, a, b[..|b| - 1]);
      assert (a + b)[..|a + b| - 1] == a + b[..|b| - 1];
    }
  }

  lemma SplitIds(ranges: seq<Range>, ids: seq<nat>, j: nat)
    requires ValidIds(ids, |ranges|) && j < |ids|
    ensures ValidIds(ids[..j], |ranges|) && ValidIds(ids[..j + 1], |ranges|) && ValidIds(ids[j + 1..], |ranges|)
    ensures ids == ids[..j + 1] + ids[j + 1..] && ids[j] < |ranges|
    ensures multiset(ids[..j] + ids[j + 1..]) == multiset(ids) - multiset{ids[j]}
  {
    assert ids == ids[..j] + [ids[j]] + ids[j + 1..];
  }

  /** Leaving out one range takes away what it offers. */
  lemma EntriesWithout(ls: seq<PostingList>, ranges: seq<Range>, ids: seq<nat>, j: nat) returns (rest: seq<nat>)
    requires ValidIds(ids, |ranges|) && j < |ids|
    ensures ValidIds(rest, |ranges|) && |rest| == |ids| - 1 && multiset(rest) == multiset(ids) - multiset{ids[j]}
    ensures EntriesIn(ls, ranges, ids) == EntriesIn(ls, ranges, rest) + EntriesOf(ls, RangeDocs(ranges[ids[j]]))
  {
    hide EntriesIn, RangeDocs, ValidIds;
    rest := ids[..j] + ids[j + 1..];
    SplitIds(ranges, ids, j);
    EntriesExtend(ls, ranges, ids, j);
    EntriesConcat(ls, ranges, ids[..j + 1], ids[j + 1..]);
    EntriesConcat(ls, ranges, ids[..j], ids[j + 1..]);
  }

  /** The order of the ranges does not matter. */
  lemma {:induction false} EntriesPermutation(ls: seq<PostingList>, ranges: seq<Range>, a: seq<nat>, b: seq<nat>)
    requires ValidIds(a, |ranges|) && ValidIds(b, |ranges|) && multiset(a) == multiset(b)
    ensures EntriesIn(ls, ranges, a) == EntriesIn(ls, ranges, b)
    decreases |a|
  {
    hide EntriesIn, RangeDocs;
    if a == [] {
      assert |multiset(b)| == |b|;
    } else {
      assert a[0] in multiset(b);
      var j :| 0 <= j < |b| && b[j] == a[0];
      var a' := EntriesWithout(ls, ranges, a, 0);
      var b' := EntriesWithout(ls, ranges, b, j);
      EntriesPermutation(ls, ranges, a', b');
    }
  }

  /** Whoever is offered has its true total and lies in one of the ranges. */
  lemma {:induction false} OfferedIn(ls: seq<PostingList>, ranges: seq<Range>, ids: seq<nat>, e: Entry) returns (i: nat)
    requires ValidIds(ids, |ranges|) && e in EntriesIn(ls, ranges, ids)
    ensures i < |ids| && e.docid in RangeDocs(ranges[ids[i]]) && e.score == Total(ls, e.docid)
  {
    i := |ids| - 1;
    if e !in EntriesOf(ls, RangeDocs(ranges[ids[i]])) {
      i := OfferedIn(ls, ranges, ids[..i], e);
    }
  }

  /** All ranges in their own order. */
  ghost function All(n: nat): (ids: seq<nat>)
    ensures |ids| == n && forall i :: 0 <= i < n ==> ids[i] == i
  {
    seq(n, i requires 0 <= i < n => i)
  }

  /** The entries of the documents of all ranges. */
  ghost function AllEntries(ls: seq<PostingList>, ranges: seq<Range>): multiset<Entry> {
    EntriesIn(ls, ranges, All(|ranges|))
  }

  /** A document of one of the first `v` ranges named. */
  ghost predicate Visits(ranges: seq<Range>, ids: seq<nat>, v: nat, d: nat) {
    exists i :: 0 <= i < v && i < |ids| && ids[i] < |ranges| && d in RangeDocs(ranges[ids[i]])
  }

  /** The documents of all ranges together. */
  ghost function AllDocs(ranges: seq<Range>): (s: set<nat>) {
    if ranges == [] then {} else AllDocs(ranges[..|ranges| - 1]) + RangeDocs(ranges[|ranges| - 1])
  }

  lemma {:induction false} InAllDocs(ranges: seq<Range>, d: nat)
    ensures d in AllDocs(ranges) <==> exists r :: 0 <= r < |ranges| && d in RangeDocs(ranges[r])
  {
    if ranges != [] {
      InAllDocs(ranges[..|ranges| - 1], d);
    }
  }

  /** What a range query takes for granted throughout: distinct cursors with sound range bounds. */
  ghost predicate Setting(cs: seq<Cursor>, ranges: seq<Range>) {
    Distinct(cs) && AllRanged(cs, ranges)
  }

  /** The state in which a range query may begin. */
  ghost predicate Opening(cs: seq<Cursor>, queue: TopkQueue, offered: multiset<Entry>)
    reads cs, queue
  {
    AllValid(cs) && queue.Valid() && queue.floor >= 0.0 && queue.Exact(offered)
  }

  /** The invariant of every range driver: exact over what the ranges visited so far offered. */
  ghost predicate Progress(
    cs: seq<Cursor>, queue: TopkQueue, ranges: seq<Range>, ids: seq<nat>, v: nat, offered: multiset<Entry>)
    reads cs, queue
  {
    && v <= |ids| && ValidIds(ids, |ranges|)
    && queue.Valid() && queue.floor >= 0.0 && AllValid(cs)
    && queue.Exact(offered + EntriesIn(Lists(cs), ranges, ids[..v]))
  }

  lemma NextProgress(
    cs: seq<Cursor>, queue: TopkQueue, ranges: seq<Range>, ids: seq<nat>, v: nat, offered: multiset<Entry>)
    requires v < |ids| && ValidIds(ids, |ranges|) && queue.Valid() && queue.floor >= 0.0 && AllValid(cs)
    requires queue.Exact(offered + EntriesIn(Lists(cs), ranges, ids[..v]) + EntriesOf(Lists(cs), RangeDocs(ranges[ids[v]])))
    ensures Progress(cs, queue, ranges, ids, v + 1, offered)
  {
    EntriesExtend(Lists(cs), ranges, ids, v);
    assert offered + EntriesIn(Lists(cs), ranges, ids[..v]) + EntriesOf(Lists(cs), RangeDocs(ranges[ids[v]]))
        == offered + EntriesIn(Lists(cs), ranges, ids[..v + 1]);
  }

  /** Visiting one more range extends the prefix over which the queue is exact. */
  method VisitNext(
    algorithm: Algorithm, cs: seq<Cursor>, queue: TopkQueue, ranges: seq<Range>, ghost ids: seq<nat>, ghost v: nat,
    r: nat, ghost offered: multiset<Entry>)
    returns (dead: bool)
    requires |cs| > 0 && Setting(cs, ranges) && Progress(cs, queue, ranges, ids, v, offered) && v < |ids| && r == ids[v]
    modifies queue, Group(cs)
    ensures queue.floor == old(queue.floor)
    ensures Progress(cs, queue, ranges, ids, v + 1, offered)
    ensures dead <==> algorithm.MaxScoreTraversal? && Sum(WeightedBounds(cs, r)) <= old(queue.threshold)
  {
    hide AllValid, AllRanged, WeightedBounds, Sum;
    dead := VisitRange(algorithm, cs, queue, ranges, r, offered + EntriesIn(Lists(cs), ranges, ids[..v]));
    NextProgress(cs, queue, ranges, ids, v, offered);
  }

  ghost function Ids(order: seq<Entry>): seq<nat> {
    seq(|order|, i requires 0 <= i < |order| => order[i].docid)
  }

  /** Whatever has not been visited scores at most the bound of the first unvisited range. */
  lemma UnvisitedBounded(cs: seq<Cursor>, ranges: seq<Range>, order: seq<Entry>, v: nat, d: nat)
    requires AllRanged(cs, ranges) && IsOrder(order, cs, |ranges|) && v < |order|
    requires d in AllDocs(ranges) && !Visits(ranges, Ids(order), v, d)
    ensures Total(Lists(cs), d) <= order[v].score
  {
    hide AllRanged, BoundSum, Total, AllDocs, RangeDocs;
    InAllDocs(ranges, d);
    var r :| 0 <= r < |ranges| && d in RangeDocs(ranges[r]);
    var e := Entry(BoundSum(cs, r), r);
    var i :| 0 <= i < |order| && order[i] == e;
    assert Ids(order)[i] == r;
    assert v <= i;
    BoundSumDominates(cs, ranges, r, d);
  }

  /** The order names every range once. */
  lemma OrderCovers(cs: seq<Cursor>, ranges: seq<Range>, order: seq<Entry>)
    requires IsOrder(order, cs, |ranges|)
    ensures ValidIds(Ids(order), |ranges|) && |order| == |ranges|
    ensures multiset(Ids(order)) == multiset(All(|ranges|))
  {
    OrderSize(cs, order, |ranges|);
    var ids, all := Ids(order), All(|ranges|);
    forall r ensures multiset(ids)[r] == multiset(all)[r] {
      DistinctCount(ids, r);
      DistinctCount(all, r);
      if 0 <= r < |ranges| {
        var i :| 0 <= i < |order| && order[i] == Entry(BoundSum(cs, r), r);
        assert ids[i] == r && all[r] == r;
        assert r in multiset(ids) && r in multiset(all);
      } else {
        assert r !in ids && r !in all;
      }
    }
  }

  /** Visiting every range offers all entries. */
  lemma AllVisited(ls: seq<PostingList>, cs: seq<Cursor>, ranges: seq<Range>, order: seq<Entry>)
    requires IsOrder(order, cs, |ranges|)
    ensures ValidIds(Ids(order), |ranges|) && |order| == |ranges|
    ensures EntriesIn(ls, ranges, Ids(order)) == AllEntries(ls, ranges)
  {
    OrderCovers(cs, ranges, order);
    EntriesPermutation(ls, ranges, Ids(order), All(|ranges|));
  }

  lemma OrderSize(cs: seq<Cursor>, order: seq<Entry>, n: nat)
    requires IsOrder(order, cs, n)
    ensures |order| == n
  {
    var ids := set i | 0 <= i < |order| :: order[i].docid;
    assert ids == Docs(0, n) by {
      forall r | r in Docs(0, n) ensures r in ids {
        var i :| 0 <= i < |order| && order[i] == Entry(BoundSum(cs, r), r);
      }
    }
    DocsSize(n);
    DistinctSize(order, ids);
  }

  lemma {:induction false} DocsSize(n: nat)
    ensures |Docs(0, n)| == n
  {
    if n > 0 {
      var rest := Docs(0, n - 1);
      DocsSize(n - 1);
      assert n - 1 !in rest && Docs(0, n) == rest + {n - 1};
      assert |rest + {n - 1}| == |rest| + 1;
    }
  }

  lemma {:induction false} DistinctSize(order: seq<Entry>, ids: set<nat>)
    requires forall i, j :: 0 <= i < j < |order| ==> order[i].docid != order[j].docid
    requires ids == set i | 0 <= i < |order| :: order[i].docid
    ensures |ids| == |order|
  {
    if order != [] {
      var m := |order| - 1;
      var rest := set i | 0 <= i < m :: order[..m][i].docid;
      DistinctSize(order[..m], rest);
      forall x | x in ids ensures x in rest + {order[m].docid} {
        var i :| 0 <= i < |order| && order[i].docid == x;
        if i < m {
          assert order[..m][i].docid == x;
        }
      }
      assert ids == rest + {order[m].docid};
    }
  }

  /** What the ranges from `v` on offer is within the bound of range `v`. */
  lemma RestBounded(cs: seq<Cursor>, ranges: seq<Range>, order: seq<Entry>, v: nat, e: Entry)
    requires AllRanged(cs, ranges) && IsOrder(order, cs, |ranges|) && v < |order|
    requires ValidIds(Ids(order)[v..], |ranges|) && e in EntriesIn(Lists(cs), ranges, Ids(order)[v..])
    ensures e.score <= order[v].score
  {
    hide EntriesIn, RangeDocs, BoundSum, AllRanged, Total;
    var i := OfferedIn(Lists(cs), ranges, Ids(order)[v..], e);
    assert Ids(order)[v..][i] == order[v + i].docid;
    BoundSumDominates(cs, ranges, order[v + i].docid, e.docid);
  }

  /** Stopping at a range whose bound cannot enter loses nothing: the queue is already exact
      over all ranges. */
  lemma StopIsSafe(
    cs: seq<Cursor>, queue: TopkQueue, ranges: seq<Range>, order: seq<Entry>, v: nat, offered: multiset<Entry>)
    requires Setting(cs, ranges) && IsOrder(order, cs, |ranges|) && v < |order|
    requires Progress(cs, queue, ranges, Ids(order), v, offered)
    requires order[v].score <= queue.threshold
    ensures queue.Exact(offered + AllEntries(Lists(cs), ranges))
  {
    hide IsBestOf, IsOrder, AllRanged, AllValid, QueueOk, EntriesIn, BoundSum, Total;
    var ids, ls := Ids(order), Lists(cs);
    AllVisited(ls, cs, ranges, order);
    assert ids == ids[..v] + ids[v..];
    EntriesConcat(ls, ranges, ids[..v], ids[v..]);
    var visited, all := offered + EntriesIn(ls, ranges, ids[..v]), offered + AllEntries(ls, ranges);
    ExactIffAccounted(queue.q, queue.threshold, queue.k, queue.floor, visited);
    forall e | visited[e] < all[e] ensures e.score <= queue.threshold {
      assert e in EntriesIn(ls, ranges, ids[v..]);
      RestBounded(cs, ranges, order, v, e);
    }
    AccountMore(multiset(queue.q), queue.threshold, visited, all);
    ExactIffAccounted(queue.q, queue.threshold, queue.k, queue.floor, all);
  }

  /* ----- How far an anytime query goes ----- */

  /** A query that visits the ranges `ids` in turn, from a queue exact over `offered`. */
  datatype Run = Run(
    algorithm: Algorithm, cs: seq<Cursor>, ranges: seq<Range>, ids: seq<nat>,
    k: nat, floor: real, offered: multiset<Entry>)
  {
    ghost predicate Ok() {
      0 < k && ValidIds(ids, |ranges|)
    }

    /** What the next range has to exceed after the first `v`, settled by what they offer. */
    ghost function Threshold(v: nat): real
      requires Ok() && v <= |ids|
    {
      ThresholdOf(k, floor, offered + EntriesIn(Lists(cs), ranges, ids[..v]))
    }

    ghost predicate Promises(v: nat)
      requires Ok() && v < |ids|
    {
      BoundSum(cs, ids[v]) > Threshold(v)
    }

    /** After its `v`-th range the query reads the clock, unless MaxScore found it dead: its
        weighted bounds together could not enter. */
    ghost predicate ReadAfter(v: nat)
      requires Ok() && v <= |ids|
    {
      v > 0 && !(algorithm.MaxScoreTraversal? && Sum(WeightedBounds(cs, ids[v - 1])) <= Threshold(v - 1))
    }

    /** The last reading up to the `v`-th range; 0 when there is none. */
    ghost function LastRead(v: nat): (read: nat)
      requires Ok() && v <= |ids|
      ensures read <= v
    {
      if v == 0 || ReadAfter(v) then v else LastRead(v - 1)
    }
  }

  /** The last reading was one, and none has been taken since. */
  lemma {:induction false} LastReadIs(run: Run, v: nat)
    requires run.Ok() && v <= |run.ids|
    ensures run.LastRead(v) > 0 ==> run.ReadAfter(run.LastRead(v))
    ensures forall u: nat :: run.LastRead(v) < u <= v ==> !run.ReadAfter(u)
  {
    hide Run.ReadAfter, Run.Ok;
    if v > 0 && !run.ReadAfter(v) {
      LastReadIs(run, v - 1);
    }
  }

  /** The first `v` ranges, when their turn came, had a sum that could still enter. */
  ghost predicate GoesTo(run: Run, v: nat)
    requires run.Ok()
  {
    v <= |run.ids| && forall u: nat :: u < v ==> BoundSum(run.cs, run.ids[u]) > run.Threshold(u)
  }

  /** Every reading before the `v`-th range, at which the query went on, was in time. */
  ghost predicate InTime(run: Run, v: nat, clock: nat -> nat, timeout: nat, riskFactor: real)
    requires run.Ok()
  {
    && v <= |run.ids|
    && forall u: nat :: u < v && run.ReadAfter(u) ==>
         clock(u) as real + riskFactor * (clock(u) as real / u as real) <= timeout as real
  }

  lemma EveryRangeIsTimed(run: Run, v: nat)
    requires run.Ok() && v <= |run.ids| && !run.algorithm.MaxScoreTraversal?
    ensures run.LastRead(v) == v
  {
  }

  /** The threshold of the queue after `v` ranges. */
  lemma RunThreshold(run: Run, queue: TopkQueue, v: nat)
    requires Progress(run.cs, queue, run.ranges, run.ids, v, run.offered)
    requires run.k == queue.k && run.floor == queue.floor
    ensures run.Ok() && v <= |run.ids| && queue.threshold == run.Threshold(v)
  {
    hide AllValid, EntriesIn;
    ThresholdSettled(queue.q, queue.threshold, queue.k, queue.floor, run.offered + EntriesIn(Lists(run.cs), run.ranges, run.ids[..v]));
  }

  /* ----- The three drivers, on cursors as the traversal wants them arranged ----- */

  /** BoundSum processing: best bound first, until the count is used up or a bound cannot
      enter.  It is exact over the visited prefix, and over everything unless the count cut
      it short. */
  method RunBoundSum(
    algorithm: Algorithm, cs: seq<Cursor>, queue: TopkQueue, ranges: seq<Range>, maxClusters: nat,
    ghost offered: multiset<Entry>)
    returns (ghost order: seq<Entry>, ghost visited: nat)
    requires |cs| > 0 && Setting(cs, ranges) && Opening(cs, queue, offered)
    modifies queue, Group(cs)
    ensures queue.floor == old(queue.floor)
    ensures IsOrder(order, cs, |ranges|) && visited <= maxClusters
    ensures Progress(cs, queue, ranges, Ids(order), visited, offered)
    ensures var run := Run(algorithm, cs, ranges, Ids(order), queue.k, queue.floor, offered);
            && run.Ok() && GoesTo(run, visited) && (visited < |order| && visited < maxClusters ==> !run.Promises(visited))
    ensures visited < maxClusters || |ranges| <= maxClusters ==> queue.Exact(offered + AllEntries(Lists(cs), ranges))
  {
    hide Progress, IsOrder, Setting, Opening, BoundSum, Run.Threshold, Run.Ok;
    var entries := BeginBoundSum(cs, queue, ranges, offered);
    order, visited := entries, 0;
    ghost var run := Run(algorithm, cs, ranges, Ids(order), queue.k, queue.floor, offered);
    RunThreshold(run, queue, 0);
    var processed := 0;
    while processed < |entries|
      invariant processed == visited <= |entries| && processed <= maxClusters
      invariant Progress(cs, queue, ranges, Ids(order), visited, offered)
      invariant queue.floor == old(queue.floor)
      invariant run.Ok() && queue.threshold == run.Threshold(visited)
      invariant GoesTo(run, visited)
    {
      OrderScore(cs, order, |ranges|, visited);
      if processed == maxClusters || !queue.WouldEnter(entries[processed].score) {
        if entries[visited].score <= queue.threshold {
          StopIsSafe(cs, queue, ranges, order, visited, offered);
        }
        OrderSize(cs, order, |ranges|);
        return;
      }
      var _ := VisitEntry(algorithm, cs, queue, ranges, entries, processed, offered);
      processed, visited := processed + 1, visited + 1;
      RunThreshold(run, queue, visited);
    }
    EndIsExact(cs, queue, ranges, order, offered);
  }

  /** Computes and orders the bounds of all ranges. */
  method BeginBoundSum(cs: seq<Cursor>, queue: TopkQueue, ranges: seq<Range>, ghost offered: multiset<Entry>)
    returns (order: seq<Entry>)
    requires |cs| > 0 && Setting(cs, ranges) && Opening(cs, queue, offered)
    ensures IsOrder(order, cs, |ranges|) && Progress(cs, queue, ranges, Ids(order), 0, offered)
  {
    order := OrderByBoundSum(cs, ranges);
    AllVisited(Lists(cs), cs, ranges, order);
    StartProgress(cs, queue, ranges, Ids(order), offered);
  }

  method VisitEntry(
    algorithm: Algorithm, cs: seq<Cursor>, queue: TopkQueue, ranges: seq<Range>, order: seq<Entry>, v: nat,
    ghost offered: multiset<Entry>)
    returns (dead: bool)
    requires |cs| > 0 && Setting(cs, ranges) && IsOrder(order, cs, |ranges|) && v < |order|
    requires Progress(cs, queue, ranges, Ids(order), v, offered)
    modifies queue, Group(cs)
    ensures queue.floor == old(queue.floor)
    ensures Progress(cs, queue, ranges, Ids(order), v + 1, offered)
    ensures dead <==> algorithm.MaxScoreTraversal? && Sum(WeightedBounds(cs, order[v].docid)) <= old(queue.threshold)
  {
    hide Progress, Setting, WeightedBounds, Sum;
    OrderId(order, cs, |ranges|, v);
    dead := VisitNext(algorithm, cs, queue, ranges, Ids(order), v, order[v].docid, offered);
  }

  /** Having visited every range, the queue is exact over all of them. */
  lemma EndIsExact(
    cs: seq<Cursor>, queue: TopkQueue, ranges: seq<Range>, order: seq<Entry>, offered: multiset<Entry>)
    requires IsOrder(order, cs, |ranges|) && Progress(cs, queue, ranges, Ids(order), |order|, offered)
    ensures queue.Exact(offered + AllEntries(Lists(cs), ranges))
  {
    AllVisited(Lists(cs), cs, ranges, order);
    assert Ids(order)[..|order|] == Ids(order);
  }

  lemma OrderScore(cs: seq<Cursor>, order: seq<Entry>, n: nat, v: nat)
    requires IsOrder(order, cs, n) && v < |order|
    ensures order[v].score == BoundSum(cs, Ids(order)[v])
  {
  }

  lemma OrderId(order: seq<Entry>, cs: seq<Cursor>, n: nat, v: nat)
    requires IsOrder(order, cs, n) && v < |order|
    ensures order[v].docid < n && Ids(order)[v] == order[v].docid
  {
  }

  lemma StartProgress(cs: seq<Cursor>, queue: TopkQueue, ranges: seq<Range>, ids: seq<nat>, offered: multiset<Entry>)
    requires ValidIds(ids, |ranges|) && Opening(cs, queue, offered)
    ensures Progress(cs, queue, ranges, ids, 0, offered)
  {
    assert offered + EntriesIn(Lists(cs), ranges, ids[..0]) == offered;
  }

  /** A given order of ranges, cut off after `maxClusters`; a range whose bounds cannot enter
      is skipped, which loses nothing. */
  method RunOrdered(
    algorithm: Algorithm, cs: seq<Cursor>, queue: TopkQueue, ranges: seq<Range>, selected: seq<nat>, maxClusters: nat,
    ghost offered: multiset<Entry>)
    returns (ghost visited: nat)
    requires |cs| > 0 && Setting(cs, ranges) && Opening(cs, queue, offered) && ValidIds(selected, |ranges|)
    modifies queue, Group(cs)
    ensures queue.floor == old(queue.floor)
    ensures visited == Min(|selected|, maxClusters)
    ensures Progress(cs, queue, ranges, selected, visited, offered)
  {
    hide Progress, Setting, Opening;
    visited := 0;
    StartProgress(cs, queue, ranges, selected, offered);
    var processed := 0;
    while processed < |selected|
      invariant processed == visited <= |selected| && processed <= maxClusters
      invariant Progress(cs, queue, ranges, selected, visited, offered)
      invariant queue.floor == old(queue.floor)
    {
      if processed == maxClusters {
        return;
      }
      VisitUnlessDead(algorithm, cs, queue, ranges, selected, visited, selected[processed], offered);
      processed, visited := processed + 1, visited + 1;
    }
  }

  /** Skips a range whose list bounds together cannot enter the queue. */
  method VisitUnlessDead(
    algorithm: Algorithm, cs: seq<Cursor>, queue: TopkQueue, ranges: seq<Range>, ghost ids: seq<nat>, ghost v: nat,
    r: nat, ghost offered: multiset<Entry>)
    requires |cs| > 0 && Setting(cs, ranges) && Progress(cs, queue, ranges, ids, v, offered) && v < |ids| && r == ids[v]
    modifies queue, Group(cs)
    ensures queue.floor == old(queue.floor)
    ensures Progress(cs, queue, ranges, ids, v + 1, offered)
  {
    hide AllValid, AllRanged, AllOk;
    Prepare(algorithm, cs, ranges, r);
    var rangeMaxScore := SumMaxes(cs);
    ghost var before := offered + EntriesIn(Lists(cs), ranges, ids[..v]);
    if !queue.WouldEnter(rangeMaxScore) {
      DeadRange(cs, queue, ranges[r], before);
    } else {
      var _ := Traverse(algorithm, cs, queue, ranges[r], before);
    }
    NextProgress(cs, queue, ranges, ids, v, offered);
  }

  method SumMaxes(cs: seq<Cursor>) returns (s: real)
    ensures s == Sum(Maxes(cs))
  {
    s := 0.0;
    for i := 0 to |cs|
      invariant s == Sum(Maxes(cs)[..i])
    {
      SumExtend(Maxes(cs), i);
      s := s + cs[i].maxScore;
    }
    assert Maxes(cs)[..|cs|] == Maxes(cs);
  }

  lemma DeadRange(cs: seq<Cursor>, queue: TopkQueue, range: Range, offered: multiset<Entry>)
    requires AllOk(cs, range.start, range.end, range.start)
    requires Starts(queue, offered)
    requires Sum(Maxes(cs)) <= queue.threshold
    ensures queue.Exact(offered + EntriesOf(Lists(cs), RangeDocs(range))) && AllValid(cs)
  {
    forall d | range.start <= d < range.end ensures Total(Lists(cs), d) <= queue.threshold {
      forall i | 0 <= i < |cs| ensures ScoreAt(Lists(cs)[i], d) <= Maxes(cs)[i] {
        assert CursorOk(cs[i], range.start, range.end, range.start);
        ScoreAtMostMax(cs[i], range.start, range.end, d);
      }
      TotalAtMost(Lists(cs), d, Maxes(cs));
    }
    StartTraversal(queue, Lists(cs), offered, range.start, range.end);
    FinishTraversal(queue, Lists(cs), offered, range.start, range.end, range.start);
    forall i | 0 <= i < |cs| ensures cs[i].Valid() {
      assert CursorOk(cs[i], range.start, range.end, range.start);
    }
  }

  /** Whether the clock, read after the `v`-th range, forbids starting another one. */
  ghost predicate ClockStops(clock: nat -> nat, v: nat, timeout: nat, riskFactor: real) {
    v > 0 && clock(v) as real + riskFactor * (clock(v) as real / v as real) > timeout as real
  }

  /** BoundSum processing against a clock, `clock(v)` being its reading after `v` ranges.
      Whatever it reads, the queue is exact over a prefix of the order; a missed document that
      could still enter scores at most the first unvisited bound; and the clock alone never
      prevents the first range.  No range is visited after a reading that forbids it.  MaxScore
      does not read the clock after a dead range, so its last reading may be older. */
  method RunBoundSumTimeout(
    algorithm: Algorithm, cs: seq<Cursor>, queue: TopkQueue, ranges: seq<Range>,
    clock: nat -> nat, timeout: nat, riskFactor: real, ghost offered: multiset<Entry>)
    returns (ghost order: seq<Entry>, ghost visited: nat)
    requires |cs| > 0 && Setting(cs, ranges) && Opening(cs, queue, offered)
    modifies queue, Group(cs)
    ensures queue.floor == old(queue.floor)
    ensures IsOrder(order, cs, |ranges|) && visited <= |order|
    ensures Progress(cs, queue, ranges, Ids(order), visited, offered)
    ensures var run := Run(algorithm, cs, ranges, Ids(order), queue.k, queue.floor, offered);
            && run.Ok() && GoesTo(run, visited) && InTime(run, visited, clock, timeout, riskFactor)
            && (visited < |order| && run.Promises(visited) ==> ClockStops(clock, run.LastRead(visited), timeout, riskFactor))
            && (queue.Exact(offered + AllEntries(Lists(cs), ranges)) || (visited < |order| && run.Promises(visited)))
    ensures visited < |order| ==> forall d :: d in AllDocs(ranges) && !Visits(ranges, Ids(order), visited, d) ==>
              Total(Lists(cs), d) <= order[visited].score
    ensures |order| > 0 && order[0].score > old(queue.threshold) ==> visited > 0
  {
    hide Progress, IsOrder, Setting, Opening, ClockStops, Visits, BoundSum, InTime, GoesTo, Run.Threshold, Run.Ok, Run.LastRead;
    hide Run.ReadAfter;
    var entries := BeginBoundSum(cs, queue, ranges, offered);
    order, visited := entries, 0;
    ghost var run, read := Run(algorithm, cs, ranges, Ids(order), queue.k, queue.floor, offered), 0;
    RunThreshold(run, queue, 0);
    var processed, elapsed, mean := 0, 0, 0.0;
    Punctual(run, clock, timeout, riskFactor);
    while processed < |entries|
      invariant processed == visited <= |entries| && run.Ok() && read == run.LastRead(visited)
      invariant Progress(cs, queue, ranges, Ids(order), visited, offered)
      invariant queue.floor == old(queue.floor) && queue.threshold == run.Threshold(visited)
      invariant visited == 0 ==> queue.threshold == old(queue.threshold)
      invariant elapsed as real + riskFactor * mean > timeout as real <==> ClockStops(clock, read, timeout, riskFactor)
      invariant GoesTo(run, visited) && InTime(run, visited, clock, timeout, riskFactor)
    {
      OrderScore(cs, order, |ranges|, visited);
      if elapsed as real + riskFactor * mean > timeout as real || !queue.WouldEnter(entries[processed].score) {
        Missed(cs, ranges, order, visited);
        if entries[visited].score <= queue.threshold {
          StopIsSafe(cs, queue, ranges, order, visited, offered);
        }
        NotFirst(run, visited, clock, timeout, riskFactor);
        return;
      }
      GoOn(run, visited, clock, timeout, riskFactor);
      var dead := VisitEntry(algorithm, cs, queue, ranges, entries, processed, offered);
      processed, visited := processed + 1, visited + 1;
      RunThreshold(run, queue, visited);
      DeadIs(run, visited, dead);
      if !dead {
        elapsed := clock(processed);
        mean := elapsed as real / processed as real;
        read := visited;
        ClockRead(clock, read, timeout, riskFactor);
      }
    }
    EndIsExact(cs, queue, ranges, order, offered);
  }

  lemma Punctual(run: Run, clock: nat -> nat, timeout: nat, riskFactor: real)
    requires run.Ok()
    ensures run.LastRead(0) == 0 && GoesTo(run, 0) && InTime(run, 0, clock, timeout, riskFactor)
    ensures !ClockStops(clock, 0, timeout, riskFactor)
    ensures !(0 as real + riskFactor * 0.0 > timeout as real)
  {
  }

  lemma NotFirst(run: Run, v: nat, clock: nat -> nat, timeout: nat, riskFactor: real)
    requires run.Ok() && v <= |run.ids|
    ensures ClockStops(clock, run.LastRead(v), timeout, riskFactor) ==> v > 0
  {
  }

  /** Going on for one more range, the last reading having been in time. */
  lemma GoOn(run: Run, v: nat, clock: nat -> nat, timeout: nat, riskFactor: real)
    requires run.Ok() && v < |run.ids| && run.Promises(v) && !ClockStops(clock, run.LastRead(v), timeout, riskFactor)
    requires GoesTo(run, v) && InTime(run, v, clock, timeout, riskFactor)
    ensures GoesTo(run, v + 1) && InTime(run, v + 1, clock, timeout, riskFactor)
  {
    hide Run.ReadAfter, Run.Threshold, BoundSum, Run.Ok;
    LastReadIs(run, v);
    ReadLater(run);
    forall u: nat | u < v + 1 && run.ReadAfter(u)
      ensures clock(u) as real + riskFactor * (clock(u) as real / u as real) <= timeout as real
    {
      assert u == v ==> run.LastRead(v) == u;
    }
  }

  lemma ReadLater(run: Run)
    requires run.Ok()
    ensures forall v: nat :: v <= |run.ids| && run.ReadAfter(v) ==> v > 0
  {
  }

  lemma DeadIs(run: Run, v: nat, dead: bool)
    requires run.Ok() && 0 < v <= |run.ids|
    requires dead <==> run.algorithm.MaxScoreTraversal? && Sum(WeightedBounds(run.cs, run.ids[v - 1])) <= run.Threshold(v - 1)
    ensures run.LastRead(v) == if dead then run.LastRead(v - 1) else v
  {
    hide Run.Threshold, Run.Ok, WeightedBounds, Sum;
  }

  /** A late clock ends the query: once a reading exceeds the timeout, nothing more is visited. */
  lemma LateReadingIsLast(run: Run, visited: nat, v: nat, clock: nat -> nat, timeout: nat, riskFactor: real)
    requires run.Ok() && InTime(run, visited, clock, timeout, riskFactor)
    requires v <= |run.ids| && run.ReadAfter(v) && clock(v) > timeout && riskFactor >= 0.0
    ensures visited <= v
  {
    hide Run.ReadAfter, Run.Ok;
    ReadLater(run);
    RiskAdds(clock(v), v, riskFactor);
  }

  lemma LateReadings(run: Run, visited: nat, clock: nat -> nat, timeout: nat, riskFactor: real)
    requires run.Ok() && InTime(run, visited, clock, timeout, riskFactor)
    ensures forall v: nat :: v <= |run.ids| && run.ReadAfter(v) && clock(v) > timeout && riskFactor >= 0.0 ==> visited <= v
  {
    hide Run.ReadAfter, Run.Ok, InTime;
    forall v: nat | v <= |run.ids| && run.ReadAfter(v) && clock(v) > timeout && riskFactor >= 0.0 ensures visited <= v {
      LateReadingIsLast(run, visited, v, clock, timeout, riskFactor);
    }
  }

  lemma RiskAdds(elapsed: nat, v: nat, riskFactor: real)
    requires v > 0 && riskFactor >= 0.0
    ensures riskFactor * (elapsed as real / v as real) >= 0.0
  {
  }

  lemma ClockRead(clock: nat -> nat, v: nat, timeout: nat, riskFactor: real)
    requires v > 0
    ensures ClockStops(clock, v, timeout, riskFactor)
            <==> clock(v) as real + riskFactor * (clock(v) as real / v as real) > timeout as real
  {
  }

  lemma Missed(cs: seq<Cursor>, ranges: seq<Range>, order: seq<Entry>, v: nat)
    requires Setting(cs, ranges) && IsOrder(order, cs, |ranges|) && v < |order|
    ensures forall d :: d in AllDocs(ranges) && !Visits(ranges, Ids(order), v, d) ==>
              Total(Lists(cs), d) <= order[v].score
  {
    forall d | d in AllDocs(ranges) && !Visits(ranges, Ids(order), v, d)
      ensures Total(Lists(cs), d) <= order[v].score
    {
      UnvisitedBounded(cs, ranges, order, v, d);
    }
  }

  /* ----- The queries ----- */

  /** MaxScore orders its cursors by their list bounds once, before any range; the other
      traversals take them as they come. */
  method Arrange(
    algorithm: Algorithm, cursors: seq<Cursor>, queue: TopkQueue, ghost ranges: seq<Range>, ghost offered: multiset<Entry>)
    returns (cs: seq<Cursor>)
    requires Setting(cursors, ranges) && Opening(cursors, queue, offered)
    ensures Arranges(cs, cursors) && |cs| == |cursors| && Group(cs) == Group(cursors)
    ensures Setting(cs, ranges) && Opening(cs, queue, offered)
    ensures forall d: nat :: Total(Lists(cs), d) == Total(Lists(cursors), d)
  {
    hide Total, Ranged;
    if algorithm.MaxScoreTraversal? {
      cs := MaxScore.Sorted(cursors);
    } else {
      cs := cursors;
    }
    ArrangedMembers(cs, cursors);
    ArrangedTotals(cs, cursors);
    forall i | 0 <= i < |cs| ensures cs[i].Valid() && Ranged(cs[i], ranges) {
      assert cs[i] in Group(cursors);
    }
  }

  /** Without cursors every total is 0, which cannot enter. */
  lemma NoCursors(cs: seq<Cursor>, queue: TopkQueue, offered: multiset<Entry>, ranges: seq<Range>, ids: seq<nat>)
    requires cs == [] && Opening(cs, queue, offered) && ValidIds(ids, |ranges|)
    ensures queue.Exact(offered + EntriesIn(Lists(cs), ranges, ids))
  {
    var more := offered + EntriesIn(Lists(cs), ranges, ids);
    QueueThreshold(queue);
    ExactIffAccounted(queue.q, queue.threshold, queue.k, queue.floor, offered);
    forall e | offered[e] < more[e] ensures e.score <= queue.threshold {
      var _ := OfferedIn(Lists(cs), ranges, ids, e);
    }
    AccountMore(multiset(queue.q), queue.threshold, offered, more);
    ExactIffAccounted(queue.q, queue.threshold, queue.k, queue.floor, more);
  }

  lemma {:induction false} SameEntriesIn(a: seq<PostingList>, b: seq<PostingList>, ranges: seq<Range>, ids: seq<nat>)
    requires ValidIds(ids, |ranges|) && forall d: nat :: Total(a, d) == Total(b, d)
    ensures EntriesIn(a, ranges, ids) == EntriesIn(b, ranges, ids)
  {
    if ids != [] {
      SameEntriesIn(a, b, ranges, ids[..|ids| - 1]);
      SameEntries(a, b, RangeDocs(ranges[ids[|ids| - 1]]));
    }
  }

  lemma ProgressExact(
    cs: seq<Cursor>, cursors: seq<Cursor>, queue: TopkQueue, ranges: seq<Range>, ids: seq<nat>, v: nat, offered: multiset<Entry>)
    requires Progress(cs, queue, ranges, ids, v, offered)
    requires forall d: nat :: Total(Lists(cs), d) == Total(Lists(cursors), d)
    ensures queue.Valid() && v <= |ids| && ValidIds(ids, |ranges|)
    ensures queue.Exact(offered + EntriesIn(Lists(cursors), ranges, ids[..v]))
    ensures AllEntries(Lists(cs), ranges) == AllEntries(Lists(cursors), ranges)
  {
    SameEntriesIn(Lists(cs), Lists(cursors), ranges, ids[..v]);
    SameEntriesIn(Lists(cs), Lists(cursors), ranges, All(|ranges|));
  }

  method OrderedRangeQuery(
    algorithm: Algorithm, cursors: seq<Cursor>, queue: TopkQueue, ranges: seq<Range>, selected: seq<nat>,
    maxClusters: nat, ghost offered: multiset<Entry>)
    requires Setting(cursors, ranges) && Opening(cursors, queue, offered) && ValidIds(selected, |ranges|)
    modifies queue, Group(cursors)
    ensures queue.Valid() && queue.floor == old(queue.floor)
    ensures queue.Exact(offered + EntriesIn(Lists(cursors), ranges, selected[..Min(|selected|, maxClusters)]))
  {
    hide Setting, Total, Progress;
    if |cursors| == 0 {
      NoCursors(cursors, queue, offered, ranges, selected[..Min(|selected|, maxClusters)]);
      return;
    }
    var cs := Arrange(algorithm, cursors, queue, ranges, offered);
    ghost var visited := RunOrdered(algorithm, cs, queue, ranges, selected, maxClusters, offered);
    ProgressExact(cs, cursors, queue, ranges, selected, visited, offered);
  }

  /** `ids` is the order the ranges were visited in: every range once, and no range before
      one with a better BoundSum.  The sums are over the cursors in the order `cs`. */
  ghost predicate BoundSumOrder(ids: seq<nat>, cs: seq<Cursor>, n: nat) {
    && ValidIds(ids, n) && multiset(ids) == multiset(All(n))
    && forall i, j :: 0 <= i < j < |ids| ==> BoundSum(cs, ids[i]) >= BoundSum(cs, ids[j])
  }

  lemma OrderGivesIds(order: seq<Entry>, cs: seq<Cursor>, ranges: seq<Range>)
    requires IsOrder(order, cs, |ranges|)
    ensures BoundSumOrder(Ids(order), cs, |ranges|) && |order| == |ranges|
    ensures forall v :: 0 <= v < |order| ==> order[v].score == BoundSum(cs, Ids(order)[v])
  {
    OrderCovers(cs, ranges, order);
  }

  /** The count, or the first range whose sum cannot enter any more, ends the query. */
  method BoundSumQuery(
    algorithm: Algorithm, cursors: seq<Cursor>, queue: TopkQueue, ranges: seq<Range>, maxClusters: nat,
    ghost offered: multiset<Entry>)
    returns (ghost cs: seq<Cursor>, ghost ids: seq<nat>, ghost visited: nat)
    requires Setting(cursors, ranges) && Opening(cursors, queue, offered)
    modifies queue, Group(cursors)
    ensures queue.Valid() && queue.floor == old(queue.floor) && Arranges(cs, cursors)
    ensures cursors != [] ==> BoundSumOrder(ids, cs, |ranges|) && |ids| == |ranges| && visited <= Min(|ids|, maxClusters)
    ensures cursors != [] ==> queue.Exact(offered + EntriesIn(Lists(cursors), ranges, ids[..visited]))
    ensures cursors == [] || visited < maxClusters || |ranges| <= maxClusters ==>
              queue.Exact(offered + AllEntries(Lists(cursors), ranges))
    ensures var run := Run(algorithm, cs, ranges, ids, queue.k, queue.floor, offered);
            && run.Ok() && visited <= |ids|
            && (forall v: nat :: v < visited ==> BoundSum(cs, ids[v]) > run.Threshold(v))
            && (visited < |ids| && visited < maxClusters ==> BoundSum(cs, ids[visited]) <= run.Threshold(visited))
  {
    hide Setting, Total, Progress, IsOrder, BoundSumOrder, BoundSum, Run.Threshold;
    cs, ids, visited := cursors, [], 0;
    if |cursors| == 0 {
      NoCursors(cursors, queue, offered, ranges, All(|ranges|));
      return;
    }
    var arranged := Arrange(algorithm, cursors, queue, ranges, offered);
    cs := arranged;
    ghost var order;
    order, visited := RunBoundSum(algorithm, arranged, queue, ranges, maxClusters, offered);
    ids := Ids(order);
    OrderGivesIds(order, cs, ranges);
    ProgressExact(cs, cursors, queue, ranges, ids, visited, offered);
  }

  /** Among ranges whose sum can still enter, only a reading of the clock ends the query: it
      goes on after every reading that allows it and never after one that forbids it. */
  method BoundSumTimeoutQuery(
    algorithm: Algorithm, cursors: seq<Cursor>, queue: TopkQueue, ranges: seq<Range>,
    clock: nat -> nat, timeout: nat, riskFactor: real, ghost offered: multiset<Entry>)
    returns (ghost cs: seq<Cursor>, ghost ids: seq<nat>, ghost visited: nat)
    requires Setting(cursors, ranges) && Opening(cursors, queue, offered)
    modifies queue, Group(cursors)
    ensures queue.Valid() && queue.floor == old(queue.floor) && Arranges(cs, cursors)
    ensures cursors != [] ==> BoundSumOrder(ids, cs, |ranges|) && |ids| == |ranges|
    ensures visited <= |ids| && ValidIds(ids, |ranges|)
    ensures cursors != [] ==> queue.Exact(offered + EntriesIn(Lists(cursors), ranges, ids[..visited]))
    ensures var run := Run(algorithm, cs, ranges, ids, queue.k, queue.floor, offered);
            && run.Ok()
            && (forall v: nat :: v < visited ==> BoundSum(cs, ids[v]) > run.Threshold(v))
            && (forall v: nat :: v < visited && run.ReadAfter(v) ==>
                  clock(v) as real + riskFactor * (clock(v) as real / v as real) <= timeout as real)
            && (forall v: nat :: v <= |ids| && run.ReadAfter(v) && clock(v) > timeout && riskFactor >= 0.0 ==> visited <= v)
            && (visited < |ids| && BoundSum(cs, ids[visited]) > run.Threshold(visited) ==>
                  var read := run.LastRead(visited);
                  read > 0 && clock(read) as real + riskFactor * (clock(read) as real / read as real) > timeout as real)
            && (queue.Exact(offered + AllEntries(Lists(cursors), ranges))
                || (visited < |ids| && BoundSum(cs, ids[visited]) > run.Threshold(visited)))
    ensures cursors != [] && visited < |ranges| ==>
              forall d :: d in AllDocs(ranges) && !Visits(ranges, ids, visited, d) ==>
                Total(Lists(cursors), d) <= BoundSum(cs, ids[visited])
    ensures cursors != [] && |ranges| > 0 && BoundSum(cs, ids[0]) > old(queue.threshold) ==> visited > 0
  {
    hide Setting, Total, Progress, IsOrder, BoundSumOrder, Visits, BoundSum, Run.Threshold, Run.LastRead;
    hide Sum, WeightedBounds, AllDocs, EntriesIn;
    cs, ids, visited := cursors, [], 0;
    if |cursors| == 0 {
      NoCursors(cursors, queue, offered, ranges, All(|ranges|));
      return;
    }
    var arranged := Arrange(algorithm, cursors, queue, ranges, offered);
    cs := arranged;
    ghost var order;
    order, visited := RunBoundSumTimeout(algorithm, arranged, queue, ranges, clock, timeout, riskFactor, offered);
    ids := Ids(order);
    OrderGivesIds(order, cs, ranges);
    ProgressExact(cs, cursors, queue, ranges, ids, visited, offered);
    LateReadings(Run(algorithm, cs, ranges, ids, queue.k, queue.floor, offered), visited, clock, timeout, riskFactor);
  }

  /* ----- Ranges that offer a document more than once ----- */

  /** How many of the ranges named hold the document. */
  ghost function Hits(ranges: seq<Range>, ids: seq<nat>, d: nat): nat
    requires ValidIds(ids, |ranges|)
  {
    if ids == [] then 0
    else Hits(ranges, ids[..|ids| - 1], d) + if d in RangeDocs(ranges[ids[|ids| - 1]]) then 1 else 0
  }

  lemma {:induction false} EntriesCount(ls: seq<PostingList>, ranges: seq<Range>, ids: seq<nat>, e: Entry)
    requires ValidIds(ids, |ranges|)
    ensures EntriesIn(ls, ranges, ids)[e] == if e.score == Total(ls, e.docid) then Hits(ranges, ids, e.docid) else 0
  {
    if ids != [] {
      EntriesCount(ls, ranges, ids[..|ids| - 1], e);
    }
  }

  ghost predicate InBoth(ranges: seq<Range>, ids: seq<nat>, i: nat, j: nat, d: nat)
    requires ValidIds(ids, |ranges|)
  {
    i < j < |ids| && d in RangeDocs(ranges[ids[i]]) && d in RangeDocs(ranges[ids[j]])
  }

  lemma {:induction false} HitsOnce(ranges: seq<Range>, ids: seq<nat>, d: nat)
    requires ValidIds(ids, |ranges|)
    ensures Hits(ranges, ids, d) > 0 <==> Visits(ranges, ids, |ids|, d)
  {
    if ids != [] {
      var n := |ids| - 1;
      HitsOnce(ranges, ids[..n], d);
      if i :| 0 <= i < n && d in RangeDocs(ranges[ids[i]]) {
        assert ids[..n][i] == ids[i];
      }
    }
  }

  lemma {:induction false} HitsTwice(ranges: seq<Range>, ids: seq<nat>, d: nat)
    requires ValidIds(ids, |ranges|)
    ensures Hits(ranges, ids, d) > 1 <==> exists i: nat, j: nat :: InBoth(ranges, ids, i, j, d)
  {
    if ids != [] {
      var n := |ids| - 1;
      HitsTwice(ranges, ids[..n], d);
      HitsOnce(ranges, ids[..n], d);
      if i: nat, j: nat :| InBoth(ranges, ids[..n], i, j, d) {
        assert InBoth(ranges, ids, i, j, d);
      }
      if Visits(ranges, ids[..n], n, d) && d in RangeDocs(ranges[ids[n]]) {
        var i :| 0 <= i < n && d in RangeDocs(ranges[ids[..n][i]]);
        assert InBoth(ranges, ids, i, n, d);
      }
      if i: nat, j: nat :| InBoth(ranges, ids, i, j, d) {
        assert ids[..n][i] == ids[i];
        if j < n {
          assert InBoth(ranges, ids[..n], i, j, d);
        }
      }
    }
  }

  /** The documents of the ranges named. */
  ghost function DocsIn(ranges: seq<Range>, ids: seq<nat>): (s: set<nat>)
    requires ValidIds(ids, |ranges|)
    ensures forall d :: d in s <==> Visits(ranges, ids, |ids|, d)
  {
    if ids == [] then {}
    else
      var n := |ids| - 1;
      var s := DocsIn(ranges, ids[..n]) + RangeDocs(ranges[ids[n]]);
      assert forall d :: Visits(ranges, ids, |ids|, d) <==> Visits(ranges, ids[..n], n, d) || d in RangeDocs(ranges[ids[n]]);
      s
  }

  /** On a fresh queue, whatever its size, the selected ranges give their best documents if and
      only if no document above the floor lies in two of them. */
  lemma SelectionExactIff(ls: seq<PostingList>, ranges: seq<Range>, ids: seq<nat>, floor: real)
    requires ValidIds(ids, |ranges|)
    ensures (forall k: nat, m :: 0 < k && IsBestOf(m, k, floor, EntriesIn(ls, ranges, ids)) ==>
              IsTopK(m, k, floor, ls, DocsIn(ranges, ids)))
            <==> forall i: nat, j: nat, d :: InBoth(ranges, ids, i, j, d) ==> Total(ls, d) <= floor
  {
    hide RangeDocs, IsBestOf, IsTopK, Total, DocsIn, EntriesIn, Hits, InBoth, Visits;
    var offered, docs := EntriesIn(ls, ranges, ids), DocsIn(ranges, ids);
    forall e ensures e in offered <==> e in EntriesOf(ls, docs) {
      EntriesCount(ls, ranges, ids, e);
      HitsOnce(ranges, ids, e.docid);
    }
    OfferedOnceIff(offered, floor, ls, docs);
    OfferedTwiceIff(ls, ranges, ids, floor);
  }

  lemma OfferedTwiceIff(ls: seq<PostingList>, ranges: seq<Range>, ids: seq<nat>, floor: real)
    requires ValidIds(ids, |ranges|)
    ensures (forall e :: EntriesIn(ls, ranges, ids)[e] > 1 ==> e.score <= floor)
            <==> forall i: nat, j: nat, d :: InBoth(ranges, ids, i, j, d) ==> Total(ls, d) <= floor
  {
    hide RangeDocs, Total, EntriesIn, Hits, InBoth, Visits;
    var offered := EntriesIn(ls, ranges, ids);
    forall e | offered[e] > 1
      ensures e.score == Total(ls, e.docid) && exists i: nat, j: nat :: InBoth(ranges, ids, i, j, e.docid)
    {
      EntriesCount(ls, ranges, ids, e);
      HitsTwice(ranges, ids, e.docid);
    }
    if forall e :: offered[e] > 1 ==> e.score <= floor {
      forall i: nat, j: nat, d: nat | InBoth(ranges, ids, i, j, d) ensures Total(ls, d) <= floor {
        EntriesCount(ls, ranges, ids, Entry(Total(ls, d), d));
        HitsTwice(ranges, ids, d);
      }
    }
  }

  /** Of disjoint ranges, a document lies in two of those selected exactly when its range was
      selected twice. */
  lemma InBothIffTwice(ranges: seq<Range>, ids: seq<nat>, i: nat, j: nat, d: nat)
    requires ValidIds(ids, |ranges|) && Disjoint(ranges)
    ensures InBoth(ranges, ids, i, j, d) <==> i < j < |ids| && ids[i] == ids[j] && d in RangeDocs(ranges[ids[i]])
  {
  }

  /** Ranges of which no two hold the same document offer each of theirs once. */
  lemma EntriesOnce(ls: seq<PostingList>, ranges: seq<Range>, ids: seq<nat>)
    requires ValidIds(ids, |ranges|) && forall i: nat, j: nat, d :: !InBoth(ranges, ids, i, j, d)
    ensures EntriesIn(ls, ranges, ids) == EntriesOf(ls, DocsIn(ranges, ids))
  {
    hide RangeDocs, Total, DocsIn, EntriesIn, Hits, InBoth, Visits;
    var a, b := EntriesIn(ls, ranges, ids), EntriesOf(ls, DocsIn(ranges, ids));
    forall e ensures a[e] == b[e] {
      EntriesCount(ls, ranges, ids, e);
      HitsOnce(ranges, ids, e.docid);
      HitsTwice(ranges, ids, e.docid);
    }
  }

  /** All ranges, when disjoint, offer their documents once: exact over all entries means the
      best documents of all ranges. */
  lemma DisjointOnce(ls: seq<PostingList>, ranges: seq<Range>)
    requires Disjoint(ranges)
    ensures AllEntries(ls, ranges) == EntriesOf(ls, AllDocs(ranges))
  {
    var ids := All(|ranges|);
    forall i: nat, j: nat, d ensures !InBoth(ranges, ids, i, j, d) {
      InBothIffTwice(ranges, ids, i, j, d);
    }
    EntriesOnce(ls, ranges, ids);
    forall d ensures d in DocsIn(ranges, ids) <==> d in AllDocs(ranges) {
      InAllDocs(ranges, d);
      if r :| 0 <= r < |ranges| && d in RangeDocs(ranges[r]) {
        assert ids[r] == r;
      }
    }
    assert DocsIn(ranges, ids) == AllDocs(ranges);
  }

  lemma OneDocument(l: PostingList)
    requires l == PostingList([0], [1.0])
    ensures Total([l], 0) == 1.0
  {
    ScoreAtIndex(l, 1, 0);
    assert Total([l][..0], 0) == 0.0;
    TotalExtend([l], 0, 0);
    assert [l][..1] == [l];
  }

  lemma TwoHits(ranges: seq<Range>, ids: seq<nat>)
    requires ranges == [Range(0, 1)] && ids == [0, 0]
    ensures forall d :: Hits(ranges, ids, d) == if d == 0 then 2 else 0
  {
    assert ids[..1] == [0] && ids[..1][..0] == [];
    forall d ensures Hits(ranges, ids[..1], d) == if d == 0 then 1 else 0 {
    }
  }

  /** One document in one list, its range selected twice: both places of the queue go to it. */
  lemma SelectedTwiceIsQueuedTwice()
    ensures var ls, ranges, ids, e := [PostingList([0], [1.0])], [Range(0, 1)], [0, 0], Entry(1.0, 0);
            && ValidIds(ids, |ranges|) && Disjoint(ranges)
            && IsBestOf(multiset{e, e}, 2, 0.0, EntriesIn(ls, ranges, ids))
            && !IsTopK(multiset{e, e}, 2, 0.0, ls, DocsIn(ranges, ids))
  {
    var l, ranges: seq<Range>, ids: seq<nat>, e := PostingList([0], [1.0]), [Range(0, 1)], [0, 0], Entry(1.0, 0);
    OneDocument(l);
    TwoHits(ranges, ids);
    hide Total, Hits, EntriesIn;
    forall x ensures EntriesIn([l], ranges, ids)[x] == multiset{e, e}[x] {
      EntriesCount([l], ranges, ids, x);
    }
    assert EntriesIn([l], ranges, ids) == multiset{e, e};
    assert multiset{e, e}[e] == 2;
  }

  /* ----- Ranges that end past the collection ----- */

  /** Whatever the bounds and the threshold, a traversal that ends at `hi` scores no cursor that
      has no posting: neither as a pivot nor as a candidate of MaxScore. */
  ghost predicate ScoresPostingsOnly(universe: nat, hi: nat) {
    && (forall docids, bounds, threshold: real, p: nat ::
          threshold >= 0.0 && Selects(docids, bounds, threshold, hi, p) && docids[p] <= universe ==> docids[p] < universe)
    && (forall docids, i: nat :: MaxScore.Proposes(docids, hi, i) && docids[i] <= universe ==> docids[i] < universe)
  }

  /** Traversing some ranges scores postings only if and only if none of them ends past the
      collection. */
  lemma RangesSafeIff(ranges: seq<Range>, universe: nat)
    ensures (forall r :: 0 <= r < |ranges| ==> ScoresPostingsOnly(universe, ranges[r].end))
            <==> forall r :: 0 <= r < |ranges| ==> ranges[r].end <= universe
  {
    forall r | 0 <= r < |ranges| ensures ScoresPostingsOnly(universe, ranges[r].end) <==> ranges[r].end <= universe {
      PivotHasPostingIff(universe, ranges[r].end);
      MaxScore.CandidateHasPostingIff(universe, ranges[r].end);
    }
  }

  /** The steps WAND takes over one document in a range that ends one past the collection: the
      document is scored, its cursor reaches the end of the list and is chosen as the pivot. */
  method RunsPastTheEnd() returns (c: Cursor, queue: TopkQueue, found: bool, pivot: nat)
    ensures c.universe == 1 && queue.k == 2 && Descending(queue.q) && queue.q == [Entry(1.0, 0)]
    ensures found && pivot == 0 && c.pos == |c.list.docs|
  {
    hide ValidWand, Selects, RangeBound;
    var l, wand := PostingList([0], [1.0]), WandList([0], [1.0], [0], [1.0], 1.0);
    OneWand(l, wand);
    c := new Cursor(l, 1, 1.0, wand);
    queue := new TopkQueue(2);
    c.GlobalGeq(0);
    c.UpdateRangeMaxScore(0);
    var entered := queue.Insert(c.Score(), c.Docid());
    QueuedOne(queue.q, 1.0, 0);
    c.Next();
    ExhaustedIsSelected(c);
    found, pivot := FindPivot([c], queue, 2);
  }

  lemma OneWand(l: PostingList, wand: WandList)
    requires l == PostingList([0], [1.0]) && wand == WandList([0], [1.0], [0], [1.0], 1.0)
    ensures ValidList(l, 1) && ValidWand(l, wand) && RangeBound(wand, 0) == 1.0
  {
    assert RangeAt(wand, 0, 0);
  }

  lemma QueuedOne(q: seq<Entry>, score: real, docid: nat)
    requires multiset(q) == multiset{} + multiset{Entry(score, docid)}
    ensures q == [Entry(score, docid)]
  {
    assert |multiset(q)| == |q| == 1;
    assert q[0] in multiset(q);
  }
}
