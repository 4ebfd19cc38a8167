/** WAND: the pivot is evaluated when the first cursor stands on it, otherwise the last
    list before it is advanced.
 */
module Wand {
  import opened Postings
  import opened TopK
  import opened Cursors
  import opened Traversal
  import opened PivotSearch

  /** Sums the pivot's scores over the leading cursors standing on it, stepping each over it.
      When no cursor has skipped it, that sum is its total. */
  method ScorePivot(ordered: seq<Cursor>, p: nat, ghost lo: nat, ghost hi: nat, ghost b: nat)
    returns (score: real)
    requires Distinct(ordered) && SortedByDocid(ordered) && AllOk(ordered, lo, hi, b)
    requires |ordered| > 0 && ordered[0].Docid() == p && lo <= p < hi && p <= b
    modifies Group(ordered)`pos
    ensures score <= Total(Lists(ordered), p)
    ensures b == p ==> score == Total(Lists(ordered), p)
    ensures AllStepped(ordered, lo, hi, b, p)
    ensures SumLeft(Left(ordered)) < old(SumLeft(Left(ordered)))
  {
    hide PartlyStepped, AllStepped, AllOk, SortedByDocid, SumLeft, Leading, Total;
    score := 0.0;
    NoScore(ordered, p);
    var i := 0;
    ghost var left, docids := Left(ordered), Docids(ordered);
    NoneStepped(ordered, lo, hi, b, p);
    SumOverLeading(ordered, p, lo, hi, b);
    while i < |ordered| && ordered[i].Docid() == p
      invariant i <= |ordered| && (i == 0 ==> ordered[0].Docid() == p)
      invariant PartlyStepped(ordered, i, left, docids, lo, hi, b, p)
      invariant i <= Leading(docids, p)
      invariant score == Total(Lists(ordered)[..i], p)
    {
      TotalExtend(Lists(ordered), i, p);
      Standing(ordered, i, left, docids, lo, hi, b, p);
      score := score + ordered[i].Score();
      StepOne(ordered, i, left, docids, p, lo, hi, b);
      i := i + 1;
    }
    StoodPast(ordered, i, left, docids, lo, hi, b, p);
    FinishSteps(ordered, i, left, docids, p, lo, hi, b);
  }

  lemma NoScore(ordered: seq<Cursor>, p: nat)
    ensures Total(Lists(ordered)[..0], p) == 0.0
  {
  }

  lemma Standing(
    ordered: seq<Cursor>, n: nat, left: seq<int>, docids: seq<nat>, lo: nat, hi: nat, b: nat, p: nat)
    requires n < |ordered| && PartlyStepped(ordered, n, left, docids, lo, hi, b, p)
    requires ordered[n].Docid() == p < hi && n <= Leading(docids, p)
    ensures ordered[n].Valid() && ordered[n].pos < |ordered[n].list.docs|
    ensures ordered[n].Score() == ScoreAt(ordered[n].list, p) && n < Leading(docids, p)
  {
    assert CursorOk(ordered[n], lo, hi, b);
    ScoreHere(ordered[n]);
  }

  lemma StoodPast(
    ordered: seq<Cursor>, n: nat, left: seq<int>, docids: seq<nat>, lo: nat, hi: nat, b: nat, p: nat)
    requires n <= |ordered| && PartlyStepped(ordered, n, left, docids, lo, hi, b, p)
    requires n < |ordered| ==> ordered[n].Docid() != p
    requires n <= Leading(docids, p)
    ensures n == Leading(docids, p)
  {
  }

  /** The pivot is where the first cursor stands: score it and offer it. */
  method EvaluatePivot(
    ordered: seq<Cursor>, ghost cursors: seq<Cursor>, queue: TopkQueue, p: nat,
    ghost offered: multiset<Entry>, ghost lo: nat, ghost hi: nat, ghost b: nat)
    returns (o: seq<Cursor>)
    requires Running(ordered, cursors, queue, offered, lo, hi, b)
    requires |ordered| > 0 && ordered[0].Docid() == p && lo <= p < hi && p <= b
    modifies queue, Group(ordered)`pos
    ensures queue.floor == old(queue.floor)
    ensures Running(o, cursors, queue, offered, lo, hi, Max(b, p + 1))
    ensures SumLeft(Left(o)) < old(SumLeft(Left(ordered)))
  {
    hide AllStepped, SumLeft, AllOk, PassedWeak, QueueReady, SortedByDocid;
    WeakFromHere(ordered, Lists(cursors), queue, lo, hi, b);
    ArrangedTotals(ordered, cursors);
    var score := ScorePivot(ordered, p, lo, hi, b);
    o := OfferPivot(ordered, cursors, queue, p, score, offered, lo, hi, b);
  }

  /** The last cursor before the pivot that does not stand on it. */
  method LastBefore(ordered: seq<Cursor>, pivot: nat, p: nat) returns (n: nat)
    requires SortedByDocid(ordered) && pivot < |ordered|
    requires ordered[0].Docid() != p == ordered[pivot].Docid()
    ensures n < pivot && ordered[n].Docid() < p
  {
    n := pivot;
    while ordered[n].Docid() == p
      invariant n <= pivot
      decreases n
    {
      n := n - 1;
    }
  }

  /** One iteration of the WAND loop: stops, evaluates the pivot or advances a list. */
  method Step(
    ordered: seq<Cursor>, ghost cursors: seq<Cursor>, queue: TopkQueue,
    ghost offered: multiset<Entry>, ghost lo: nat, hi: nat, ghost b: nat)
    returns (stop: bool, o: seq<Cursor>, ghost b': nat)
    requires Running(ordered, cursors, queue, offered, lo, hi, b) && lo <= b
    modifies queue, Group(ordered)`pos
    ensures queue.floor == old(queue.floor)
    ensures Running(o, cursors, queue, offered, lo, hi, b') && b <= b'
    ensures stop ==> hi <= b'
    ensures !stop ==> SumLeft(Left(o)) < old(SumLeft(Left(ordered)))
  {
    hide PassedWeak, AllOk, SumLeft, QueueReady;
    var found, pivot;
    found, pivot, b' := ChoosePivot(ordered, cursors, queue, offered, lo, hi, b);
    stop, o := !found, ordered;
    if found {
      var p := ordered[pivot].Docid();
      if p == ordered[0].Docid() {
        o := EvaluatePivot(ordered, cursors, queue, p, offered, lo, hi, b');
        b' := Max(b', p + 1);
      } else {
        var n := LastBefore(ordered, pivot, p);
        o := AdvanceList(ordered, n, p, false, cursors, queue, offered, lo, hi, b');
      }
    }
  }

  /** WAND over the documents [lo, hi): afterwards the queue is exact over them too. */
  method Traverse(cursors: seq<Cursor>, queue: TopkQueue, ghost offered: multiset<Entry>, ghost lo: nat, hi: nat)
    requires AtStart(cursors, queue, offered, lo, hi)
    modifies queue, Group(cursors)`pos
    ensures queue.Valid() && queue.floor == old(queue.floor) && AllValid(cursors)
    ensures queue.Exact(offered + EntriesOf(Lists(cursors), Docs(lo, hi)))
  {
    hide Running, AtStart, SumLeft;
    var ordered := Begin(cursors, queue, offered, lo, hi);
    RunningArranges(ordered, cursors, queue, offered, lo, hi, lo);
    ghost var b := lo;
    var stop := false;
    while !stop
      invariant Running(ordered, cursors, queue, offered, lo, hi, b) && lo <= b
      invariant Arranges(ordered, cursors)
      invariant queue.floor == old(queue.floor)
      invariant stop ==> hi <= b
      decreases !stop, SumLeft(Left(ordered))
    {
      ArrangedMembers(ordered, cursors);
      stop, ordered, b := Step(ordered, cursors, queue, offered, lo, hi, b);
      RunningArranges(ordered, cursors, queue, offered, lo, hi, b);
    }
    Finish(ordered, cursors, queue, offered, lo, hi, b);
  }

  /** The whole collection at once. */
  method Query(cursors: seq<Cursor>, queue: TopkQueue, maxDocid: nat, ghost offered: multiset<Entry>)
    requires AtStart(cursors, queue, offered, 0, maxDocid)
    modifies queue, Group(cursors)`pos
    ensures queue.Valid() && queue.floor == old(queue.floor) && AllValid(cursors)
    ensures queue.Exact(offered + EntriesOf(Lists(cursors), Docs(0, maxDocid)))
  {
    if |cursors| == 0 {
      EmptyQuery(cursors, queue, offered, 0, maxDocid);
      return;
    }
    Traverse(cursors, queue, offered, 0, maxDocid);
  }
}
