/** Block-Max MaxScore: the bound of the non-essential lists is refined by their block
    maxima, and then by their true scores, before a document is offered.
 */
module BlockMaxMaxScore {
  import opened Postings
  import opened TopK
  import opened Cursors
  import opened Traversal
  import opened PivotSearch
  import opened BlockMaxWand
  import MaxScore
  import RankedOr

  /** The running bound while refining from the last list down: list bounds below `i`,
      something sharper, summing to `rest`, from there on. */
  ghost predicate Refined(h: seq<Cursor>, i: nat, d: nat, bound: real, rest: real)
    reads h
  {
    && i <= |h| && bound == Sum(Maxes(h)[..i]) + rest
    && 0.0 <= rest && Total(Lists(h)[i..], d) <= rest
  }

  ghost predicate LookupsOk(h: seq<Cursor>, lo: nat, hi: nat, d: nat)
    reads h
  {
    Distinct(h) && AllOk(h, lo, hi, d) && BlocksBehind(h, d)
  }

  /** Whatever stage the refinement has reached, the bound dominates what the lists add. */
  lemma RefinedDominates(h: seq<Cursor>, i: nat, d: nat, bound: real, rest: real, lo: nat, hi: nat)
    requires AllOk(h, lo, hi, d) && lo <= d < hi && Refined(h, i, d, bound, rest)
    ensures Total(Lists(h), d) <= bound && 0.0 <= bound
  {
    var ls, u := Lists(h)[..i], Maxes(h)[..i];
    forall j | 0 <= j < i ensures ScoreAt(ls[j], d) <= u[j] && 0.0 <= u[j] {
      assert CursorOk(h[j], lo, hi, d);
      ScoreAtMostMax(h[j], lo, hi, d);
    }
    TotalAtMost(ls, d, u);
    SumNonNegative(u);
    MaxScore.SplitTotal(h, i, d);
  }

  lemma SuffixStep(ls: seq<PostingList>, i: nat, d: nat)
    requires i < |ls|
    ensures Total(ls[i..], d) == ScoreAt(ls[i], d) + Total(ls[i + 1..], d)
  {
    assert ls[i..] == [ls[i]] + ls[i + 1..];
    TotalConcat([ls[i]], ls[i + 1..], d);
    assert [ls[i]][..0] == [];
  }

  /** The block pointers refined so far, and the snapshot of their bounds. */
  ghost predicate SuffixBounds(h: seq<Cursor>, i: nat, u: seq<real>, d: nat)
    reads h
  {
    && i <= |h| && |u| == |h| - i
    && forall j :: i <= j < |h| ==> BlockAt(h[j], d, d) && u[j - i] == h[j].BlockBound()
  }

  method RefineOne(h: seq<Cursor>, i: nat, d: nat, ghost u: seq<real>, ghost lo: nat, ghost hi: nat) returns (x: real)
    requires LookupsOk(h, lo, hi, d) && i < |h| && SuffixBounds(h, i + 1, u, d) && d < hi
    modifies Group(h)`blockPos
    ensures LookupsOk(h, lo, hi, d) && SuffixBounds(h, i, [x] + u, d) && Maxes(h) == old(Maxes(h))
    ensures ScoreAt(h[i].list, d) <= x && 0.0 <= x
  {
    hide CursorOk, BlockAt;
    assert CursorOk(h[i], lo, hi, d);
    assert h[i] in Group(h);
    DistinctFrom(h, i);
    assert forall j :: 0 <= j < |h| ==> CursorOk(h[j], lo, hi, d);
    MoveBlock(h[i], d, lo, hi, d);
    x := BoundOf(h[i], d, d);
    BlockCoversDocument(h[i], d, d, d);
  }

  /** Replaces list bounds by block bounds, from the last list down, until the document is
      refused or all are replaced. */
  method RefineByBlocks(
    h: seq<Cursor>, d: nat, score: real, bound0: real, queue: TopkQueue, ghost lo: nat, ghost hi: nat)
    returns (bound: real, ghost u: seq<real>)
    requires LookupsOk(h, lo, hi, d) && lo <= d < hi && bound0 == Sum(Maxes(h))
    modifies Group(h)`blockPos
    ensures LookupsOk(h, lo, hi, d)
    ensures Total(Lists(h), d) <= bound && 0.0 <= bound
    ensures score + bound > queue.threshold ==> SuffixBounds(h, 0, u, d) && bound == Sum(u)
  {
    hide LookupsOk, SuffixBounds, Total, Sum;
    bound, u := bound0, [];
    StartRefining(h, d);
    var i: nat := |h|;
    while i > 0
      invariant LookupsOk(h, lo, hi, d) && i <= |h| && SuffixBounds(h, i, u, d)
      invariant Refined(h, i, d, bound, Sum(u))
    {
      i := i - 1;
      var x := RefineOne(h, i, d, u, lo, hi);
      SumExtend(Maxes(h), i);
      SuffixStep(Lists(h), i, d);
      SumPrepend(x, u);
      bound := bound - (h[i].maxScore - x);
      u := [x] + u;
      if !queue.WouldEnter(score + bound) {
        LookupsOpen(h, lo, hi, d);
        RefinedDominates(h, i, d, bound, Sum(u), lo, hi);
        return;
      }
    }
    LookupsOpen(h, lo, hi, d);
    RefinedDominates(h, i, d, bound, Sum(u), lo, hi);
    EmptySum(Maxes(h));
  }

  lemma EmptySum(u: seq<real>)
    ensures Sum(u[..0]) == 0.0
  {
  }

  lemma SumPrepend(x: real, u: seq<real>)
    ensures Sum([x] + u) == x + Sum(u)
  {
    SumSplitFirst([x] + u);
    assert ([x] + u)[1..] == u;
  }

  lemma StartRefining(h: seq<Cursor>, d: nat)
    ensures SuffixBounds(h, |h|, [], d) && Refined(h, |h|, d, Sum(Maxes(h)), Sum([]))
  {
    assert Maxes(h)[..|h|] == Maxes(h) && Lists(h)[|h|..] == [];
  }

  lemma LookupsOpen(h: seq<Cursor>, lo: nat, hi: nat, d: nat)
    requires LookupsOk(h, lo, hi, d)
    ensures AllOk(h, lo, hi, d)
  {
  }

  /* ----- Replacing block bounds by true scores ----- */

  ghost predicate BoundsKnown(h: seq<Cursor>, u: seq<real>)
    reads h`blockPos
  {
    && |u| == |h|
    && forall j :: 0 <= j < |h| ==>
         h[j].WellFormed() && h[j].blockPos < |h[j].wand.blockDocids| && u[j] == h[j].BlockBound()
  }

  lemma KnownBounds(h: seq<Cursor>, u: seq<real>, d: nat)
    requires SuffixBounds(h, 0, u, d)
    ensures BoundsKnown(h, u) && forall j :: 0 <= j < |h| ==> ScoreAt(h[j].list, d) <= u[j]
  {
    forall j | 0 <= j < |h| ensures ScoreAt(h[j].list, d) <= u[j] && h[j].Valid() {
      assert BlockAt(h[j], d, d);
      BlockCoversDocument(h[j], d, d, d);
    }
  }

  /** What is left of the bound dominates what the lists add. */
  lemma PartlyScored(ls: seq<PostingList>, i: nat, u: seq<real>, d: nat)
    requires i <= |ls| == |u| && forall j :: 0 <= j < |ls| ==> ScoreAt(ls[j], d) <= u[j]
    ensures Total(ls, d) <= Sum(u[..i]) + Total(ls[i..], d)
  {
    assert ls == ls[..i] + ls[i..];
    TotalConcat(ls[..i], ls[i..], d);
    TotalAtMost(ls[..i], d, u[..i]);
  }

  /** Looks the document up in the lists, from the last down, until it is refused or its
      score is complete. */
  method CompleteLookups(
    h: seq<Cursor>, d: nat, score: real, bound0: real, queue: TopkQueue, ghost u: seq<real>, ghost lo: nat, ghost hi: nat)
    returns (bound: real)
    requires LookupsOk(h, lo, hi, d) && lo <= d < hi && BoundsKnown(h, u) && bound0 == Sum(u)
    requires forall j :: 0 <= j < |h| ==> ScoreAt(h[j].list, d) <= u[j]
    modifies Group(h)`pos
    ensures LookupsOk(h, lo, hi, d)
    ensures bound == Total(Lists(h), d) || (score + bound <= queue.threshold && Total(Lists(h), d) <= bound)
  {
    hide LookupsOk, BoundsKnown, Total, Sum;
    bound := bound0;
    var i: nat := |h|;
    NothingScored(Lists(h), u, d);
    KnownSize(h, u);
    while i > 0
      invariant LookupsOk(h, lo, hi, d) && i <= |h| && BoundsKnown(h, u)
      invariant bound == Sum(u[..i]) + Total(Lists(h)[i..], d)
    {
      i := i - 1;
      var s := LookUpOne(h, i, d, lo, hi);
      SumExtend(u, i);
      SuffixStep(Lists(h), i, d);
      KnownAt(h, u, i);
      bound := bound + s;
      bound := bound - h[i].BlockBound();
      if !queue.WouldEnter(score + bound) {
        PartlyScored(Lists(h), i, u, d);
        return;
      }
    }
    EmptySum(u);
    assert Lists(h)[0..] == Lists(h);
  }

  method LookUpOne(h: seq<Cursor>, i: nat, d: nat, ghost lo: nat, ghost hi: nat) returns (score: real)
    requires LookupsOk(h, lo, hi, d) && i < |h| && d < hi
    modifies Group(h)`pos
    ensures LookupsOk(h, lo, hi, d) && score == ScoreAt(Lists(h)[i], d)
  {
    hide CursorOk, BlockAt;
    assert CursorOk(h[i], lo, hi, d);
    assert h[i] in Group(h);
    DistinctFrom(h, i);
    assert forall j :: 0 <= j < |h| ==> CursorOk(h[j], lo, hi, d);
    score := MaxScore.LookUp(h[i], d, lo, hi);
  }

  lemma NothingScored(ls: seq<PostingList>, u: seq<real>, d: nat)
    ensures Total(ls[|ls|..], d) == 0.0 && Sum(u[..|u|]) == Sum(u)
  {
    assert u[..|u|] == u;
  }

  lemma KnownSize(h: seq<Cursor>, u: seq<real>)
    requires BoundsKnown(h, u)
    ensures |u| == |h|
  {
  }

  lemma KnownAt(h: seq<Cursor>, u: seq<real>, i: nat)
    requires BoundsKnown(h, u) && i < |h|
    ensures h[i].WellFormed() && h[i].blockPos < |h[i].wand.blockDocids| && u[i] == h[i].BlockBound()
  {
  }

  /** Adds the lookups' share to the essential score: afterwards the score is the total, or
      it is refused and the total could not enter either. */
  method ScoreLookups(
    h: seq<Cursor>, d: nat, essential: real, bound0: real, queue: TopkQueue, ghost lo: nat, ghost hi: nat)
    returns (score: real)
    requires LookupsOk(h, lo, hi, d) && lo <= d < hi && bound0 == Sum(Maxes(h))
    modifies Group(h)`pos, Group(h)`blockPos
    ensures LookupsOk(h, lo, hi, d)
    ensures score == essential + Total(Lists(h), d)
            || (score <= queue.threshold && essential + Total(Lists(h), d) <= queue.threshold)
  {
    hide LookupsOk, SuffixBounds, BoundsKnown, Total, Sum;
    score := essential;
    var bound, u := RefineByBlocks(h, d, score, bound0, queue, lo, hi);
    if queue.WouldEnter(score + bound) {
      KnownBounds(h, u, d);
      bound := CompleteLookups(h, d, score, bound, queue, u, lo, hi);
      score := score + bound;
    }
  }

  /* ----- The loop ----- */

  /** Sums of list bounds up to and including each list. */
  ghost predicate PrefixBounds(cs: seq<Cursor>, ub: seq<real>)
    reads cs
  {
    |ub| == |cs| && forall i :: 0 <= i < |ub| ==> ub[i] == Sum(Maxes(cs)[..i + 1])
  }

  method CalcUpperBounds(cs: seq<Cursor>) returns (ub: seq<real>)
    requires |cs| > 0
    ensures PrefixBounds(cs, ub)
  {
    SumExtend(Maxes(cs), 0);
    ub := [cs[0].maxScore];
    for i := 1 to |cs|
      invariant |ub| == i && forall j :: 0 <= j < i ==> ub[j] == Sum(Maxes(cs)[..j + 1])
    {
      SumExtend(Maxes(cs), i);
      ub := ub + [ub[i - 1] + cs[i].maxScore];
    }
  }

  ghost predicate EssentialTail(cs: seq<Cursor>, ne: nat, b: nat)
    reads cs`pos
  {
    ne <= |cs| && forall i :: ne <= i < |cs| ==> b <= cs[i].Docid()
  }

  /** The first `ne` lists together cannot enter the queue. */
  ghost predicate HeadWeak(ub: seq<real>, ne: nat, threshold: real) {
    0 < ne <= |ub| ==> ub[ne - 1] <= threshold
  }

  ghost predicate Scanning(
    cs: seq<Cursor>, ub: seq<real>, ne: nat, queue: TopkQueue, offered: multiset<Entry>, lo: nat, hi: nat, b: nat)
    reads cs, queue
  {
    && Distinct(cs) && AllOk(cs, lo, hi, b) && BlocksBehind(cs, b) && EssentialTail(cs, ne, b)
    && PrefixBounds(cs, ub) && HeadWeak(ub, ne, queue.threshold)
    && QueueReady(queue, Lists(cs), offered, lo, hi, b)
  }

  method UpdateNonEssential(ub: seq<real>, ne0: nat, queue: TopkQueue) returns (ne: nat)
    requires ne0 <= |ub| && HeadWeak(ub, ne0, queue.threshold)
    ensures ne0 <= ne <= |ub| && HeadWeak(ub, ne, queue.threshold)
    ensures ne < |ub| ==> ub[ne] > queue.threshold
  {
    ne := ne0;
    while ne < |ub| && !queue.WouldEnter(ub[ne])
      invariant ne0 <= ne <= |ub| && HeadWeak(ub, ne, queue.threshold)
    {
      ne := ne + 1;
    }
  }

  lemma SplitCursors(cs: seq<Cursor>, ne: nat, lo: nat, hi: nat, b: nat)
    requires Distinct(cs) && AllOk(cs, lo, hi, b) && BlocksBehind(cs, b) && EssentialTail(cs, ne, b)
    ensures LookupsOk(cs[..ne], lo, hi, b) && Distinct(cs[ne..]) && AllPassed(cs[ne..], b, b, hi)
    ensures Group(cs[..ne]) <= Group(cs) && Group(cs[ne..]) <= Group(cs) && Group(cs[..ne]) !! Group(cs[ne..])
    ensures forall i :: 0 <= i < |cs| ==> Dominates(cs[i], lo, hi)
  {
    SplitDistinct(cs, ne);
    hide Distinct, Group;
    forall i | 0 <= i < |cs|
      ensures CursorOk(cs[i], lo, hi, b) && Dominates(cs[i], lo, hi) && (ne <= i ==> Passed(cs[ne..][i - ne], b, b, hi))
    {
    }
  }

  lemma SplitDistinct(cs: seq<Cursor>, ne: nat)
    requires Distinct(cs) && ne <= |cs|
    ensures Distinct(cs[..ne]) && Distinct(cs[ne..])
    ensures Group(cs[..ne]) <= Group(cs) && Group(cs[ne..]) <= Group(cs) && Group(cs[..ne]) !! Group(cs[ne..])
  {
    assert cs == cs[..ne] + cs[ne..];
    forall i, j | ne <= i < |cs| && 0 <= j < ne ensures cs[i] != cs[j] {
      DistinctIndices(cs, j, i);
    }
    forall c | c in multiset(cs[..ne]) ensures multiset(cs[..ne])[c] == 1 {
      assert c in multiset(cs);
    }
    forall c | c in multiset(cs[ne..]) ensures multiset(cs[ne..])[c] == 1 {
      assert c in multiset(cs);
    }
  }

  lemma JoinCursors(cs: seq<Cursor>, ne: nat, lo: nat, hi: nat, d: nat, next: nat)
    requires lo <= d < next && ne <= |cs| && LookupsOk(cs[..ne], lo, hi, d) && AllPassed(cs[ne..], d + 1, next, hi)
    requires forall i :: 0 <= i < |cs| ==> Dominates(cs[i], lo, hi)
    requires forall i :: ne <= i < |cs| ==> cs[i].BlockBehind(d)
    ensures AllOk(cs, lo, hi, next) && BlocksBehind(cs, next) && EssentialTail(cs, ne, next)
  {
    forall i | 0 <= i < |cs|
      ensures CursorOk(cs[i], lo, hi, next) && cs[i].BlockBehind(next) && (ne <= i ==> next <= cs[i].Docid())
    {
      if i < ne {
        assert CursorOk(cs[..ne][i], lo, hi, d) && cs[..ne][i].BlockBehind(d);
      } else {
        assert Passed(cs[ne..][i - ne], d + 1, next, hi);
      }
    }
  }

  /** A document between candidates is in the non-essential lists only. */
  lemma OnlyLookups(
    cs: seq<Cursor>, ub: seq<real>, ne: nat, threshold: real, lo: nat, hi: nat, b: nat, next: nat, d: nat)
    requires ne <= |cs| && LookupsOk(cs[..ne], lo, hi, b) && PrefixBounds(cs, ub) && HeadWeak(ub, ne, threshold)
    requires threshold >= 0.0 && AllPassed(cs[ne..], b + 1, next, hi) && b < d < next && lo <= d < hi
    ensures Total(Lists(cs), d) <= threshold
  {
    AbsentBetween(cs[ne..], b + 1, next, hi, d);
    assert Lists(cs[ne..]) == Lists(cs)[ne..];
    MaxScore.SplitTotal(cs, ne, d);
    HeadBounded(cs, ne, lo, hi, b, d);
    if ne == 0 {
      assert Lists(cs)[..0] == [];
    }
  }

  lemma HeadBounded(cs: seq<Cursor>, ne: nat, lo: nat, hi: nat, b: nat, d: nat)
    requires ne <= |cs| && AllOk(cs[..ne], lo, hi, b) && lo <= d < hi
    ensures Total(Lists(cs)[..ne], d) <= Sum(Maxes(cs)[..ne])
  {
    var ls, u := Lists(cs)[..ne], Maxes(cs)[..ne];
    forall j | 0 <= j < ne ensures ScoreAt(ls[j], d) <= u[j] {
      assert CursorOk(cs[..ne][j], lo, hi, b);
      ScoreAtMostMax(cs[j], lo, hi, d);
    }
    TotalAtMost(ls, d, u);
  }

  /** Scores one candidate, as far as it can still enter, and finds the next one. */
  method Examine(
    cs: seq<Cursor>, ub: seq<real>, ne: nat, queue: TopkQueue, d: nat, hi: nat, ghost offered: multiset<Entry>, ghost lo: nat)
    returns (score: real, next: nat)
    requires Scanning(cs, ub, ne, queue, offered, lo, hi, d) && lo <= d < hi
    modifies Group(cs)`pos, Group(cs)`blockPos
    ensures d < next <= hi && AllOk(cs, lo, hi, next) && BlocksBehind(cs, next) && EssentialTail(cs, ne, next)
    ensures PrefixBounds(cs, ub)
    ensures score == Total(Lists(cs), d) || (score <= queue.threshold && Total(Lists(cs), d) <= queue.threshold)
    ensures forall x :: d < x < next ==> Total(Lists(cs), x) <= queue.threshold
  {
    hide AllOk, LookupsOk, AllPassed, Dominates, QueueReady, Total, Sum;
    ReadyQueue(queue, Lists(cs), offered, lo, hi, d);
    SplitCursors(cs, ne, lo, hi, d);
    score, next := RankedOr.ScoreAndAdvance(cs[ne..], d, hi);
    assert Lists(cs[ne..]) == Lists(cs)[ne..] && Lists(cs[..ne]) == Lists(cs)[..ne];
    assert Maxes(cs[..ne]) == Maxes(cs)[..ne] == old(Maxes(cs))[..ne];
    NoBound(cs[..ne]);
    score := ScoreLookups(cs[..ne], d, score, if ne > 0 then ub[ne - 1] else 0.0, queue, lo, hi);
    assert Maxes(cs) == old(Maxes(cs));
    MaxScore.SplitTotal(cs, ne, d);
    forall x | d < x < next ensures Total(Lists(cs), x) <= queue.threshold {
      OnlyLookups(cs, ub, ne, queue.threshold, lo, hi, d, next, x);
    }
    JoinCursors(cs, ne, lo, hi, d, next);
  }

  lemma NoBound(h: seq<Cursor>)
    ensures h == [] ==> Sum(Maxes(h)) == 0.0
  {
  }

  method Step(
    cs: seq<Cursor>, ub: seq<real>, ne0: nat, queue: TopkQueue, d: nat, hi: nat, ghost offered: multiset<Entry>, ghost lo: nat)
    returns (ne: nat, next: nat)
    requires Scanning(cs, ub, ne0, queue, offered, lo, hi, d) && lo <= d < hi
    modifies queue, Group(cs)`pos, Group(cs)`blockPos
    ensures queue.floor == old(queue.floor)
    ensures Scanning(cs, ub, ne, queue, offered, lo, hi, next) && d < next
  {
    hide AllOk, BlocksBehind, PrefixBounds, QueueReady, Total;
    var score;
    score, next := Examine(cs, ub, ne0, queue, d, hi, offered, lo);
    var entered := Offer(queue, score, d, Lists(cs), offered, lo, hi, d);
    RaiseFrontier(queue, Lists(cs), offered, lo, hi, d + 1, next);
    BoundsSize(cs, ub);
    ne := ne0;
    if entered {
      ne := UpdateNonEssential(ub, ne0, queue);
    }
  }

  lemma BoundsSize(cs: seq<Cursor>, ub: seq<real>)
    requires PrefixBounds(cs, ub)
    ensures |ub| == |cs|
  {
  }

  lemma FinishScan(
    cs: seq<Cursor>, ub: seq<real>, ne: nat, queue: TopkQueue, offered: multiset<Entry>, lo: nat, hi: nat, b: nat)
    requires Scanning(cs, ub, ne, queue, offered, lo, hi, b) && |cs| > 0 && (ne == |cs| || hi <= b)
    ensures queue.Valid() && queue.Exact(offered + EntriesOf(Lists(cs), Docs(lo, hi))) && AllValid(cs)
  {
    hide Total, Sum;
    forall d | lo <= d < hi && b <= d ensures Total(Lists(cs), d) <= queue.threshold {
      assert cs[..ne] == cs && Lists(cs)[..ne] == Lists(cs);
      HeadBounded(cs, ne, lo, hi, b, d);
    }
    FinishTraversal(queue, Lists(cs), offered, lo, hi, b);
    forall i | 0 <= i < |cs| ensures cs[i].Valid() {
      assert CursorOk(cs[i], lo, hi, b);
    }
  }

  /** Increasing order of list bounds. */
  method Sorted(cs: seq<Cursor>) returns (o: seq<Cursor>)
    ensures Arranges(o, cs)
    ensures forall i, j :: 0 <= i < j < |o| ==> o[i].maxScore <= o[j].maxScore
  {
    var keys := seq(|cs|, i requires 0 <= i < |cs| reads cs => cs[i].maxScore);
    ghost var ks;
    o, ks := SortByKey(cs, keys);
    forall i | 0 <= i < |o| ensures ks[i] == o[i].maxScore {
      assert Keyed(o[i], ks[i], cs, keys);
    }
  }

  /** The whole collection, on cursors in the order of their list bounds. */
  method RunSorted(cs: seq<Cursor>, queue: TopkQueue, maxDocid: nat, ghost offered: multiset<Entry>)
    requires |cs| > 0 && AtStart(cs, queue, offered, 0, maxDocid) && BlocksBehind(cs, 0)
    modifies queue, Group(cs)`pos, Group(cs)`blockPos
    ensures queue.Valid() && queue.floor == old(queue.floor) && AllValid(cs)
    ensures queue.Exact(offered + EntriesOf(Lists(cs), Docs(0, maxDocid)))
  {
    hide Scanning, AtStart, PrefixBounds;
    var ub := CalcUpperBounds(cs);
    var curDoc := RankedOr.MinDocid(cs);
    var ne: nat := 0;
    BeginScan(cs, ub, queue, offered, 0, maxDocid, curDoc);
    while ne < |cs| && curDoc < maxDocid
      invariant Scanning(cs, ub, ne, queue, offered, 0, maxDocid, curDoc) && ne <= |cs|
      invariant queue.floor == old(queue.floor)
      decreases maxDocid - curDoc
    {
      ne, curDoc := Step(cs, ub, ne, queue, curDoc, maxDocid, offered, 0);
      TailSize(cs, ub, ne, queue, offered, 0, maxDocid, curDoc);
    }
    FinishScan(cs, ub, ne, queue, offered, 0, maxDocid, curDoc);
  }

  lemma TailSize(
    cs: seq<Cursor>, ub: seq<real>, ne: nat, queue: TopkQueue, offered: multiset<Entry>, lo: nat, hi: nat, b: nat)
    requires Scanning(cs, ub, ne, queue, offered, lo, hi, b)
    ensures ne <= |cs|
  {
  }

  lemma BeginScan(
    cs: seq<Cursor>, ub: seq<real>, queue: TopkQueue, offered: multiset<Entry>, lo: nat, hi: nat, next: nat)
    requires AtStart(cs, queue, offered, lo, hi) && BlocksBehind(cs, lo) && PrefixBounds(cs, ub)
    requires forall i :: 0 <= i < |cs| ==> next <= cs[i].Docid()
    requires exists i :: 0 <= i < |cs| && next == cs[i].Docid()
    ensures Scanning(cs, ub, 0, queue, offered, lo, hi, next)
  {
    hide QueueReady, Starts, PrefixBounds;
    StartTraversal(queue, Lists(cs), offered, lo, hi);
    MaxScore.PassAbsent(cs, queue, offered, lo, hi, next);
  }

  method Query(cursors: seq<Cursor>, queue: TopkQueue, maxDocid: nat, ghost offered: multiset<Entry>)
    requires AtStart(cursors, queue, offered, 0, maxDocid) && BlocksBehind(cursors, 0)
    modifies queue, Group(cursors)`pos, Group(cursors)`blockPos
    ensures queue.Valid() && queue.floor == old(queue.floor) && AllValid(cursors)
    ensures queue.Exact(offered + EntriesOf(Lists(cursors), Docs(0, maxDocid)))
  {
    hide AtStart, AllValid, BlocksBehind, Total;
    if |cursors| == 0 {
      MaxScore.AtStartOpens(cursors, queue, offered, 0, maxDocid);
      EmptyQuery(cursors, queue, offered, 0, maxDocid);
      MaxScore.EmptyValid(cursors);
      return;
    }
    var cs := Sorted(cursors);
    MaxScore.ArrangedStart(cs, cursors, queue, offered, 0, maxDocid);
    ArrangedBlocks(cs, cursors, 0, 0);
    RunSorted(cs, queue, maxDocid, offered);
    SameEntries(Lists(cs), Lists(cursors), Docs(0, maxDocid));
    MaxScore.ArrangedValid(cs, cursors);
  }
}
