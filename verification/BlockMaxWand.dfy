/** Block-Max WAND: the pivot must also pass a bound made of block maxima; when it does
    not, the strongest list jumps to the end of the current block configuration.
 */
module BlockMaxWand {
  import opened Postings
  import opened TopK
  import opened Cursors
  import opened Traversal
  import opened PivotSearch
  import Wand

  ghost predicate BlocksBehind(cs: seq<Cursor>, b: nat)
    reads cs`blockPos
  {
    forall i :: 0 <= i < |cs| ==> cs[i].BlockBehind(b)
  }

  lemma ArrangedBlocks(a: seq<Cursor>, c: seq<Cursor>, b: nat, b': nat)
    requires Arranges(a, c) && BlocksBehind(c, b) && b <= b'
    ensures BlocksBehind(a, b')
  {
    ArrangedMembers(a, c);
    forall i | 0 <= i < |a| ensures a[i].BlockBehind(b') {
      assert a[i] in Group(c);
      var j :| 0 <= j < |c| && c[j] == a[i];
      assert c[j].BlockBehind(b);
    }
  }

  /** Extends the pivot over the cursors standing on the same document. */
  method LastOnPivot(ordered: seq<Cursor>, pivot0: nat) returns (pivot: nat)
    requires SortedByDocid(ordered) && pivot0 < |ordered|
    ensures pivot0 <= pivot < |ordered| && ordered[pivot].Docid() == ordered[pivot0].Docid()
    ensures forall i :: pivot < i < |ordered| ==> ordered[pivot].Docid() < ordered[i].Docid()
  {
    pivot := pivot0;
    while pivot + 1 < |ordered| && ordered[pivot + 1].Docid() == ordered[pivot0].Docid()
      invariant pivot0 <= pivot < |ordered| && ordered[pivot].Docid() == ordered[pivot0].Docid()
    {
      pivot := pivot + 1;
    }
  }

  /** The block of `c` is the right one for documents from `p` on: it ends at `p` or later,
      or it is the list's last. */
  ghost predicate BlockAt(c: Cursor, b: nat, p: nat)
    reads c
  {
    && c.Valid() && c.BlockBehind(b)
    && (p <= c.BlockMaxDocid() || c.blockPos + 1 == |c.wand.blockDocids|)
  }

  /** Brings one block pointer up to the pivot. */
  method MoveBlock(c: Cursor, p: nat, ghost lo: nat, ghost hi: nat, ghost b: nat)
    requires CursorOk(c, lo, hi, b) && c.BlockBehind(b) && p <= b
    modifies c`blockPos
    ensures CursorOk(c, lo, hi, b) && BlockAt(c, b, p)
  {
    if c.BlockMaxDocid() < p {
      c.BlockMaxNextGeq(p);
    }
  }

  /** The block bounds of the cursors, as a snapshot. */
  ghost predicate BlockBounds(ordered: seq<Cursor>, n: nat, u: seq<real>, b: nat, p: nat)
    reads ordered
  {
    && |u| == n <= |ordered|
    && forall i :: 0 <= i < n ==> BlockAt(ordered[i], b, p) && u[i] == ordered[i].BlockBound()
  }

  method BoundOne(ordered: seq<Cursor>, n: nat, p: nat, ghost u: seq<real>, ghost lo: nat, ghost hi: nat, ghost b: nat)
    returns (bound: real)
    requires Distinct(ordered) && AllOk(ordered, lo, hi, b) && BlocksBehind(ordered, b)
    requires n < |ordered| && p <= b && BlockBounds(ordered, n, u, b, p)
    modifies Group(ordered)`blockPos
    ensures AllOk(ordered, lo, hi, b) && BlocksBehind(ordered, b)
    ensures Left(ordered) == old(Left(ordered))
    ensures BlockBounds(ordered, n + 1, u + [bound], b, p)
  {
    hide CursorOk, BlockAt;
    assert CursorOk(ordered[n], lo, hi, b);
    assert ordered[n] in Group(ordered);
    DistinctFrom(ordered, n);
    assert forall i :: 0 <= i < |ordered| ==> CursorOk(ordered[i], lo, hi, b);
    MoveBlock(ordered[n], p, lo, hi, b);
    bound := BoundOf(ordered[n], b, p);
  }

  function BoundOf(c: Cursor, ghost b: nat, ghost p: nat): (r: real)
    requires BlockAt(c, b, p)
    reads c
    ensures r == c.BlockBound() >= 0.0
  {
    assert c.WellFormed();
    BlockBoundNonNegative(c);
    c.BlockBound()
  }

  /** Sums the block bounds of the cursors up to the pivot. */
  method BlockUpperBound(ordered: seq<Cursor>, pivot: nat, p: nat, ghost lo: nat, ghost hi: nat, ghost b: nat)
    returns (bound: real, ghost u: seq<real>)
    requires Distinct(ordered) && AllOk(ordered, lo, hi, b) && BlocksBehind(ordered, b)
    requires pivot < |ordered| && p <= b
    modifies Group(ordered)`blockPos
    ensures AllOk(ordered, lo, hi, b) && BlocksBehind(ordered, b)
    ensures Left(ordered) == old(Left(ordered))
    ensures BlockBounds(ordered, pivot + 1, u, b, p) && bound == Sum(u)
  {
    hide AllOk, BlocksBehind, BlockBounds;
    bound, u := 0.0, [];
    NoBounds(ordered, b, p);
    for i := 0 to pivot + 1
      invariant AllOk(ordered, lo, hi, b) && BlocksBehind(ordered, b)
      invariant Left(ordered) == old(Left(ordered))
      invariant BlockBounds(ordered, i, u, b, p) && bound == Sum(u)
    {
      var x := BoundOne(ordered, i, p, u, lo, hi, b);
      assert (u + [x])[..|u|] == u;
      u := u + [x];
      bound := bound + x;
    }
  }

  lemma NoBounds(ordered: seq<Cursor>, b: nat, p: nat)
    ensures BlockBounds(ordered, 0, [], b, p)
  {
  }

  /** One list's block bound covers a document from the frontier to the block's end; at the
      pivot itself it does so even when the list has no block reaching that far. */
  lemma BlockCoversDocument(c: Cursor, b: nat, p: nat, d: nat)
    requires BlockAt(c, b, p) && b <= d && (d <= c.BlockMaxDocid() || d == p)
    ensures ScoreAt(c.list, d) <= c.BlockBound()
  {
    BlockBoundNonNegative(c);
    if d <= c.BlockMaxDocid() {
      BlockBoundsScore(c, b, d);
    } else {
      PastBlocksMeansAbsent(c, d);
    }
  }

  /** A document held only by the first cursors, and within the reach of their blocks,
      totals at most the sum of their block bounds. */
  lemma BoundedByBlocks(
    ordered: seq<Cursor>, cursors: seq<Cursor>, n: nat, u: seq<real>, lo: nat, hi: nat, b: nat, p: nat, d: nat)
    requires Arranges(ordered, cursors) && AllOk(ordered, lo, hi, b) && BlockBounds(ordered, n, u, b, p)
    requires b <= d && forall i :: n <= i < |ordered| ==> d < ordered[i].Docid()
    requires forall i :: 0 <= i < n ==> d <= ordered[i].BlockMaxDocid() || d == p
    ensures Total(Lists(cursors), d) <= Sum(u)
  {
    forall i | 0 <= i < |ordered|
      ensures i < n ==> ScoreAt(ordered[i].list, d) <= u[i]
      ensures n <= i ==> ScoreAt(ordered[i].list, d) == 0.0
    {
      assert CursorOk(ordered[i], lo, hi, b);
      if i < n {
        assert BlockAt(ordered[i], b, p);
        BlockCoversDocument(ordered[i], b, p, d);
      } else {
        PastMeansAbsent(ordered[i], d);
      }
    }
    BoundedByPrefix(ordered, cursors, u, d);
  }

  /* ----- The block bound admits the pivot, and the first cursor stands on it ----- */

  ghost function Splice(ls: seq<PostingList>, n: nat, u: seq<real>, d: nat): real
    requires n <= |ls| && n <= |u|
  {
    Total(ls[..n], d) + Sum(u[n..])
  }

  /** Replacing one block bound by the list's true score moves the splice point on. */
  lemma SpliceStep(ls: seq<PostingList>, n: nat, u: seq<real>, d: nat)
    requires n < |ls| && n < |u|
    ensures Splice(ls, n + 1, u, d) == Splice(ls, n, u, d) - (u[n] - ScoreAt(ls[n], d))
  {
    TotalExtend(ls, n, d);
    SumSplitFirst(u[n..]);
    assert u[n..][1..] == u[n + 1..];
  }

  /** The part already summed never exceeds the running bound. */
  lemma PartBelowSplice(ls: seq<PostingList>, n: nat, u: seq<real>, d: nat)
    requires n <= |ls| && n <= |u| && forall i :: 0 <= i < |u| ==> u[i] >= 0.0
    ensures Total(ls[..n], d) <= Splice(ls, n, u, d)
  {
    SumNonNegative(u[n..]);
  }

  /** The running bound still bounds the total, when each block bound does. */
  lemma TotalBelowSplice(ls: seq<PostingList>, n: nat, u: seq<real>, d: nat)
    requires n <= |u| <= |ls|
    requires forall i :: n <= i < |u| ==> ScoreAt(ls[i], d) <= u[i]
    requires forall i :: |u| <= i < |ls| ==> ScoreAt(ls[i], d) == 0.0
    ensures Total(ls, d) <= Splice(ls, n, u, d)
  {
    TotalPrefix(ls, |u|, d);
    assert ls[..|u|] == ls[..n] + ls[n..|u|];
    TotalConcat(ls[..n], ls[n..|u|], d);
    TotalAtMost(ls[n..|u|], d, u[n..]);
  }

  /** Sums the pivot's scores, giving up as soon as score plus remaining block bounds can no
      longer enter the queue.  The result is then refused, and rightly so: either it is the
      sum over all cursors on the pivot, or no total of the pivot can enter. */
  method ScoreBounded(
    ordered: seq<Cursor>, pivot: nat, p: nat, bound0: real, queue: TopkQueue,
    ghost u: seq<real>, ghost lo: nat, ghost hi: nat, ghost b: nat)
    returns (score: real)
    requires AllOk(ordered, lo, hi, b) && BlockBounds(ordered, pivot + 1, u, b, p) && p < hi
    requires forall i :: 0 <= i <= pivot ==> ordered[i].Docid() == p
    requires forall i :: pivot < i < |ordered| ==> p < ordered[i].Docid()
    requires bound0 == Sum(u) > queue.threshold
    ensures score == Total(Lists(ordered)[..pivot + 1], p)
            || (score <= queue.threshold && (b <= p ==> Total(Lists(ordered), p) <= queue.threshold))
  {
    hide Total, Sum;
    ghost var ls := Lists(ordered);
    score := 0.0;
    var bound := bound0;
    var i := 0;
    SpliceStart(ls, u, p);
    while i < |ordered| && ordered[i].Docid() == p
      invariant i <= pivot + 1
      invariant score == Total(ls[..i], p) && bound == Splice(ls, i, u, p)
    {
      BoundFacts(ordered, i, pivot, u, lo, hi, b, p);
      SpliceStep(ls, i, u, p);
      TotalExtend(ls, i, p);
      var part := ordered[i].Score();
      score := score + part;
      bound := bound - (ordered[i].BlockBound() - part);
      i := i + 1;
      if !queue.WouldEnter(bound) {
        GiveUp(ordered, i, pivot, u, lo, hi, b, p);
        return;
      }
    }
  }

  lemma SpliceStart(ls: seq<PostingList>, u: seq<real>, d: nat)
    ensures Total(ls[..0], d) == 0.0 && Splice(ls, 0, u, d) == Sum(u)
  {
    assert u[0..] == u;
  }

  lemma BoundFacts(
    ordered: seq<Cursor>, i: nat, pivot: nat, u: seq<real>, lo: nat, hi: nat, b: nat, p: nat)
    requires AllOk(ordered, lo, hi, b) && BlockBounds(ordered, pivot + 1, u, b, p)
    requires i <= pivot && ordered[i].Docid() == p < hi
    ensures ordered[i].Valid() && ordered[i].pos < |ordered[i].list.docs|
    ensures ordered[i].Score() == ScoreAt(ordered[i].list, p) && ordered[i].BlockBound() == u[i]
  {
    assert CursorOk(ordered[i], lo, hi, b) && BlockAt(ordered[i], b, p);
    ScoreHere(ordered[i]);
  }

  lemma GiveUp(
    ordered: seq<Cursor>, n: nat, pivot: nat, u: seq<real>, lo: nat, hi: nat, b: nat, p: nat)
    requires AllOk(ordered, lo, hi, b) && BlockBounds(ordered, pivot + 1, u, b, p) && n <= pivot + 1
    requires forall i :: pivot < i < |ordered| ==> p < ordered[i].Docid()
    ensures Total(Lists(ordered)[..n], p) <= Splice(Lists(ordered), n, u, p)
    ensures b <= p ==> Total(Lists(ordered), p) <= Splice(Lists(ordered), n, u, p)
  {
    forall i | 0 <= i < |ordered|
      ensures i <= pivot ==> u[i] >= 0.0 && (b <= p ==> ScoreAt(ordered[i].list, p) <= u[i])
      ensures pivot < i && b <= p ==> ScoreAt(ordered[i].list, p) == 0.0
    {
      assert CursorOk(ordered[i], lo, hi, b);
      if i <= pivot {
        assert BlockAt(ordered[i], b, p);
        BlockBoundNonNegative(ordered[i]);
        if b <= p {
          BlockCoversDocument(ordered[i], b, p, p);
        }
      } else if b <= p {
        PastMeansAbsent(ordered[i], p);
      }
    }
    PartBelowSplice(Lists(ordered), n, u, p);
    if b <= p {
      TotalBelowSplice(Lists(ordered), n, u, p);
    }
  }

  method StepLeading(ordered: seq<Cursor>, p: nat, ghost lo: nat, ghost hi: nat, ghost b: nat)
    requires Distinct(ordered) && SortedByDocid(ordered) && AllOk(ordered, lo, hi, b)
    requires |ordered| > 0 && ordered[0].Docid() == p < hi && p <= b
    modifies Group(ordered)`pos
    ensures AllStepped(ordered, lo, hi, b, p)
    ensures SumLeft(Left(ordered)) < old(SumLeft(Left(ordered)))
  {
    hide PartlyStepped, AllStepped, AllOk, SortedByDocid, SumLeft;
    var i := 0;
    ghost var left, docids := Left(ordered), Docids(ordered);
    NoneStepped(ordered, lo, hi, b, p);
    while i < |ordered| && ordered[i].Docid() == p
      invariant i <= |ordered| && (i == 0 ==> ordered[0].Docid() == p)
      invariant PartlyStepped(ordered, i, left, docids, lo, hi, b, p)
    {
      StepOne(ordered, i, left, docids, p, lo, hi, b);
      i := i + 1;
    }
    FinishSteps(ordered, i, left, docids, p, lo, hi, b);
  }

  /** What may be offered for the pivot: its true total when it stands at the frontier, or a
      refused score when it was passed or cannot enter. */
  ghost predicate Offerable(score: real, p: nat, threshold: real, total: real, b: nat) {
    && (score > threshold ==> p == b && score == total)
    && (score <= threshold ==> p < b || total <= threshold)
  }

  lemma ScoreOfferable(
    ordered: seq<Cursor>, cursors: seq<Cursor>, queue: TopkQueue, offered: multiset<Entry>, pivot: nat, p: nat, score: real,
    lo: nat, hi: nat, b: nat)
    requires Running(ordered, cursors, queue, offered, lo, hi, b) && pivot < |ordered| && lo <= p < hi && p <= b
    requires forall i :: pivot < i < |ordered| ==> p < ordered[i].Docid()
    requires ordered[0].Docid() == p
    requires score == Total(Lists(ordered)[..pivot + 1], p)
             || (score <= queue.threshold && (b <= p ==> Total(Lists(ordered), p) <= queue.threshold))
    ensures Offerable(score, p, queue.threshold, Total(Lists(cursors), p), b)
  {
    hide QueueReady, PassedWeak;
    ArrangedTotals(ordered, cursors);
    LeadingSum(ordered, pivot + 1, p, lo, hi, b);
    WeakFromHere(ordered, Lists(cursors), queue, lo, hi, b);
  }

  /** The block bound admits the pivot and the first cursor stands on it. */
  method EvaluatePivot(
    ordered: seq<Cursor>, ghost cursors: seq<Cursor>, queue: TopkQueue, pivot: nat, p: nat, bound: real,
    ghost u: seq<real>, ghost offered: multiset<Entry>, ghost lo: nat, ghost hi: nat, ghost b: nat)
    returns (o: seq<Cursor>)
    requires Running(ordered, cursors, queue, offered, lo, hi, b) && BlocksBehind(ordered, b)
    requires pivot < |ordered| && ordered[0].Docid() == ordered[pivot].Docid() == p && lo <= p < hi && p <= b
    requires forall i :: pivot < i < |ordered| ==> p < ordered[i].Docid()
    requires BlockBounds(ordered, pivot + 1, u, b, p) && bound == Sum(u) > queue.threshold
    modifies queue, Group(ordered)`pos
    ensures queue.floor == old(queue.floor)
    ensures Running(o, cursors, queue, offered, lo, hi, Max(b, p + 1)) && BlocksBehind(o, Max(b, p + 1))
    ensures SumLeft(Left(o)) < old(SumLeft(Left(ordered)))
  {
    hide AllOk, PassedWeak, QueueReady, BlockBounds, BlocksBehind, AllStepped, SumLeft, Total, Offerable, Sum;
    OnPivot(ordered, pivot, p);
    var score := ScoreBounded(ordered, pivot, p, bound, queue, u, lo, hi, b);
    ScoreOfferable(ordered, cursors, queue, offered, pivot, p, score, lo, hi, b);
    WeakFromHere(ordered, Lists(cursors), queue, lo, hi, b);
    StepLeading(ordered, p, lo, hi, b);
    OpenOffer(score, p, queue.threshold, Total(Lists(cursors), p), b);
    o := OfferPivot(ordered, cursors, queue, p, score, offered, lo, hi, b);
    ArrangedBlocks(o, ordered, b, Max(b, p + 1));
  }

  lemma OpenOffer(score: real, p: nat, threshold: real, total: real, b: nat)
    requires Offerable(score, p, threshold, total, b)
    ensures score > threshold ==> p == b && score == total
    ensures score <= threshold ==> p < b || total <= threshold
  {
  }

  lemma OnPivot(ordered: seq<Cursor>, pivot: nat, p: nat)
    requires SortedByDocid(ordered) && pivot < |ordered| && ordered[0].Docid() == ordered[pivot].Docid() == p
    ensures forall i :: 0 <= i <= pivot ==> ordered[i].Docid() == p
  {
  }

  /* ----- The block bound rejects the pivot ----- */

  /** The cursor with the largest list bound among those up to the pivot. */
  method StrongestList(ordered: seq<Cursor>, pivot: nat) returns (n: nat)
    requires pivot < |ordered|
    ensures n <= pivot
  {
    n := pivot;
    var maxWeight := ordered[pivot].maxScore;
    for i := 0 to pivot
      invariant n <= pivot
    {
      if ordered[i].maxScore > maxWeight {
        n, maxWeight := i, ordered[i].maxScore;
      }
    }
  }

  /** Documents before `next` and after `p` lie within the current block of `c`. */
  ghost predicate InReach(c: Cursor, next: nat, p: nat)
    reads c
  {
    c.blockPos < |c.wand.blockDocids| && (next <= c.BlockMaxDocid() + 1 || next <= p + 1)
  }

  /** The first document at which the current block configuration may change, and never at
      or before the pivot. */
  method NextCandidate(ordered: seq<Cursor>, pivot: nat, p: nat, hi: nat, ghost b: nat) returns (next: nat)
    requires pivot < |ordered| && forall i :: 0 <= i <= pivot ==> BlockAt(ordered[i], b, p)
    requires forall i :: pivot < i < |ordered| ==> p < ordered[i].Docid()
    requires SortedByDocid(ordered)
    ensures p < next
    ensures forall i :: pivot < i < |ordered| ==> next <= ordered[i].Docid()
    ensures forall i :: 0 <= i <= pivot ==> InReach(ordered[i], next, p)
  {
    next := hi;
    for i := 0 to pivot + 1
      invariant forall j :: 0 <= j < i ==> BlockAt(ordered[j], b, p) && next <= ordered[j].BlockMaxDocid()
    {
      assert BlockAt(ordered[i], b, p);
      if ordered[i].BlockMaxDocid() < next {
        next := ordered[i].BlockMaxDocid();
      }
    }
    next := next + 1;
    if pivot + 1 < |ordered| && ordered[pivot + 1].Docid() < next {
      next := ordered[pivot + 1].Docid();
    }
    if next <= p {
      next := p + 1;
    }
  }

  /** No document before `next` can enter the queue. */
  lemma SkippedSettled(
    ordered: seq<Cursor>, cursors: seq<Cursor>, queue: TopkQueue, offered: multiset<Entry>, pivot: nat, u: seq<real>,
    lo: nat, hi: nat, b: nat, p: nat, next: nat)
    requires Running(ordered, cursors, queue, offered, lo, hi, b) && pivot < |ordered| && p <= b
    requires BlockBounds(ordered, pivot + 1, u, b, p) && Sum(u) <= queue.threshold
    requires forall i :: pivot < i < |ordered| ==> next <= ordered[i].Docid()
    requires forall i :: 0 <= i <= pivot ==> InReach(ordered[i], next, p)
    ensures Running(ordered, cursors, queue, offered, lo, hi, Max(b, next))
  {
    hide QueueReady, PassedWeak, Total, Sum;
    forall d | b <= d < next && lo <= d < hi ensures Total(Lists(cursors), d) <= queue.threshold {
      forall i | 0 <= i <= pivot ensures BlockAt(ordered[i], b, p) && (d <= ordered[i].BlockMaxDocid() || d == p) {
        assert InReach(ordered[i], next, p);
      }
      BoundedByBlocks(ordered, cursors, pivot + 1, u, lo, hi, b, p, d);
    }
    RaiseRunning(ordered, cursors, queue, offered, lo, hi, b, next);
  }

  lemma BoundsDefined(ordered: seq<Cursor>, pivot: nat, u: seq<real>, b: nat, p: nat)
    requires pivot < |ordered| && BlockBounds(ordered, pivot + 1, u, b, p)
    ensures forall i :: 0 <= i <= pivot ==> BlockAt(ordered[i], b, p)
  {
  }

  method SkipBlocks(
    ordered: seq<Cursor>, ghost cursors: seq<Cursor>, queue: TopkQueue, pivot: nat, p: nat,
    ghost u: seq<real>, ghost offered: multiset<Entry>, ghost lo: nat, hi: nat, ghost b: nat)
    returns (o: seq<Cursor>, ghost b': nat)
    requires Running(ordered, cursors, queue, offered, lo, hi, b) && BlocksBehind(ordered, b)
    requires pivot < |ordered| && ordered[pivot].Docid() == p < hi && p <= b && SortedByDocid(ordered)
    requires forall i :: pivot < i < |ordered| ==> p < ordered[i].Docid()
    requires BlockBounds(ordered, pivot + 1, u, b, p) && Sum(u) <= queue.threshold
    modifies Group(ordered)`pos
    ensures b <= b' && Running(o, cursors, queue, offered, lo, hi, b') && BlocksBehind(o, b')
    ensures SumLeft(Left(o)) < old(SumLeft(Left(ordered)))
  {
    hide Running, BlockAt, BlocksBehind, Sum, SumLeft;
    var n := StrongestList(ordered, pivot);
    BoundsDefined(ordered, pivot, u, b, p);
    var next := NextCandidate(ordered, pivot, p, hi, b);
    SkippedSettled(ordered, cursors, queue, offered, pivot, u, lo, hi, b, p, next);
    b' := Max(b, next);
    o := AdvanceList(ordered, n, next, false, cursors, queue, offered, lo, hi, b');
    ArrangedBlocks(o, ordered, b, b');
  }

  /* ----- The loop ----- */

  /** The block bound of the pivot, leaving the traversal as it was. */
  method BoundPivot(
    ordered: seq<Cursor>, ghost cursors: seq<Cursor>, queue: TopkQueue, pivot: nat, p: nat,
    ghost offered: multiset<Entry>, ghost lo: nat, ghost hi: nat, ghost b: nat)
    returns (bound: real, ghost u: seq<real>)
    requires Running(ordered, cursors, queue, offered, lo, hi, b) && BlocksBehind(ordered, b)
    requires pivot < |ordered| && p <= b
    modifies Group(ordered)`blockPos
    ensures Running(ordered, cursors, queue, offered, lo, hi, b) && BlocksBehind(ordered, b)
    ensures Left(ordered) == old(Left(ordered))
    ensures BlockBounds(ordered, pivot + 1, u, b, p) && bound == Sum(u)
  {
    hide PassedWeak, AllOk, QueueReady, BlocksBehind, BlockBounds, Sum;
    bound, u := BlockUpperBound(ordered, pivot, p, lo, hi, b);
  }

  /** The pivot is chosen: bound it by blocks, then skip, evaluate or advance. */
  method StepPivot(
    ordered: seq<Cursor>, ghost cursors: seq<Cursor>, queue: TopkQueue, pivot: nat, p: nat,
    ghost offered: multiset<Entry>, ghost lo: nat, hi: nat, ghost b: nat)
    returns (o: seq<Cursor>, ghost b': nat)
    requires Running(ordered, cursors, queue, offered, lo, hi, b) && BlocksBehind(ordered, b)
    requires SortedByDocid(ordered)
    requires pivot < |ordered| && p == ordered[pivot].Docid() && lo <= p < hi && p <= b
    requires forall i :: pivot < i < |ordered| ==> p < ordered[i].Docid()
    modifies queue, Group(ordered)`pos, Group(ordered)`blockPos
    ensures queue.floor == old(queue.floor)
    ensures Running(o, cursors, queue, offered, lo, hi, b') && BlocksBehind(o, b') && b <= b'
    ensures SumLeft(Left(o)) < old(SumLeft(Left(ordered)))
  {
    hide Running, SumLeft, BlocksBehind, BlockBounds, Sum;
    b' := b;
    var bound, u := BoundPivot(ordered, cursors, queue, pivot, p, offered, lo, hi, b);
    if !queue.WouldEnter(bound) {
      o, b' := SkipBlocks(ordered, cursors, queue, pivot, p, u, offered, lo, hi, b);
    } else if p == ordered[0].Docid() {
      o := EvaluatePivot(ordered, cursors, queue, pivot, p, bound, u, offered, lo, hi, b);
      b' := Max(b, p + 1);
    } else {
      var n := Wand.LastBefore(ordered, pivot, p);
      o := AdvanceList(ordered, n, p, true, cursors, queue, offered, lo, hi, b);
      ArrangedBlocks(o, ordered, b, b);
    }
  }

  /** One iteration of the loop. */
  method Step(
    ordered: seq<Cursor>, ghost cursors: seq<Cursor>, queue: TopkQueue,
    ghost offered: multiset<Entry>, ghost lo: nat, hi: nat, ghost b: nat)
    returns (stop: bool, o: seq<Cursor>, ghost b': nat)
    requires Running(ordered, cursors, queue, offered, lo, hi, b) && BlocksBehind(ordered, b) && lo <= b
    modifies queue, Group(ordered)`pos, Group(ordered)`blockPos
    ensures queue.floor == old(queue.floor)
    ensures Running(o, cursors, queue, offered, lo, hi, b') && BlocksBehind(o, b') && b <= b'
    ensures stop ==> hi <= b'
    ensures !stop ==> SumLeft(Left(o)) < old(SumLeft(Left(ordered)))
  {
    hide SumLeft, BlocksBehind, AllOk, QueueReady, PassedWeak;
    var found, pivot;
    found, pivot, b' := ChoosePivot(ordered, cursors, queue, offered, lo, hi, b);
    stop, o := !found, ordered;
    ArrangedBlocks(ordered, ordered, b, b');
    if found {
      pivot := LastOnPivot(ordered, pivot);
      o, b' := StepPivot(ordered, cursors, queue, pivot, ordered[pivot].Docid(), offered, lo, hi, b');
    }
  }

  /** Block-Max WAND over the documents [lo, hi): afterwards the queue is exact over them
      too, however much was skipped. */
  method Traverse(cursors: seq<Cursor>, queue: TopkQueue, ghost offered: multiset<Entry>, ghost lo: nat, hi: nat)
    requires AtStart(cursors, queue, offered, lo, hi) && BlocksBehind(cursors, lo)
    modifies queue, Group(cursors)`pos, Group(cursors)`blockPos
    ensures queue.Valid() && queue.floor == old(queue.floor) && AllValid(cursors)
    ensures queue.Exact(offered + EntriesOf(Lists(cursors), Docs(lo, hi)))
  {
    hide Running, AtStart, SumLeft, BlocksBehind;
    var ordered := Begin(cursors, queue, offered, lo, hi);
    RunningArranges(ordered, cursors, queue, offered, lo, hi, lo);
    ArrangedBlocks(ordered, cursors, lo, lo);
    ghost var b := lo;
    var stop := false;
    while !stop
      invariant Running(ordered, cursors, queue, offered, lo, hi, b) && BlocksBehind(ordered, b) && lo <= b
      invariant Arranges(ordered, cursors)
      invariant queue.floor == old(queue.floor)
      invariant stop ==> hi <= b
      decreases !stop, SumLeft(Left(ordered))
    {
      ArrangedMembers(ordered, cursors);
      stop, ordered, b := Step(ordered, cursors, queue, offered, lo, hi, b);
      RunningArranges(ordered, cursors, queue, offered, lo, hi, b);
    }
    Finish(ordered, cursors, queue, offered, lo, hi, b);
  }

  /** The whole collection at once. */
  method Query(cursors: seq<Cursor>, queue: TopkQueue, maxDocid: nat, ghost offered: multiset<Entry>)
    requires AtStart(cursors, queue, offered, 0, maxDocid) && BlocksBehind(cursors, 0)
    modifies queue, Group(cursors)`pos, Group(cursors)`blockPos
    ensures queue.Valid() && queue.floor == old(queue.floor) && AllValid(cursors)
    ensures queue.Exact(offered + EntriesOf(Lists(cursors), Docs(0, maxDocid)))
  {
    if |cursors| == 0 {
      EmptyQuery(cursors, queue, offered, 0, maxDocid);
      return;
    }
    Traverse(cursors, queue, offered, 0, maxDocid);
  }
}
