/** What every document-at-a-time traversal keeps, whichever rule it prunes by.

    A traversal of the documents [lo, hi) has a frontier `b`: every document below it is
    settled, that is, in the queue or unable to enter it, and no cursor has skipped a posting at or above it.
 */
module Traversal {
  import opened Postings
  import opened TopK
  import opened Cursors

  function Max(a: nat, b: nat): nat { if a < b then b else a }
  function Min(a: nat, b: nat): nat { if a < b then a else b }

  ghost predicate AllValid(cs: seq<Cursor>)
    reads cs
  {
    forall i :: 0 <= i < |cs| ==> cs[i].Valid()
  }

  /** The cursor has skipped nothing from `b` on and shows `next` or later. */
  ghost predicate Passed(c: Cursor, b: nat, next: nat, limit: nat)
    reads c
  {
    c.Valid() && c.Behind(b) && next <= c.Docid() && limit <= c.universe
  }

  ghost predicate AllPassed(cs: seq<Cursor>, b: nat, next: nat, limit: nat)
    reads cs
  {
    forall i :: 0 <= i < |cs| ==> Passed(cs[i], b, next, limit)
  }

  /** Nothing but what was offered before and the documents of [lo, b) is in the queue, and
      what of them is not cannot enter it. */
  ghost predicate Ready(
    q: seq<Entry>, threshold: real, k: nat, floor: real,
    ls: seq<PostingList>, offered: multiset<Entry>, lo: nat, hi: nat, b: nat)
  {
    && QueueOk(q, threshold, k, floor) && floor >= 0.0
    && Accounted(multiset(q), threshold, offered + EntriesOf(ls, Docs(lo, Min(b, hi))))
  }

  ghost predicate QueueReady(
    queue: TopkQueue, ls: seq<PostingList>, offered: multiset<Entry>, lo: nat, hi: nat, b: nat)
    reads queue
  {
    Ready(queue.q, queue.threshold, queue.k, queue.floor, ls, offered, lo, hi, b)
  }

  /** The queue is exact over what was offered so far. */
  ghost predicate Starts(queue: TopkQueue, offered: multiset<Entry>)
    reads queue
  {
    queue.Valid() && queue.floor >= 0.0 && queue.Exact(offered)
  }

  lemma StartTraversal(queue: TopkQueue, ls: seq<PostingList>, offered: multiset<Entry>, lo: nat, hi: nat)
    requires Starts(queue, offered)
    ensures QueueReady(queue, ls, offered, lo, hi, lo)
  {
    ExactIffAccounted(queue.q, queue.threshold, queue.k, queue.floor, offered);
    assert offered + EntriesOf(ls, Docs(lo, Min(lo, hi))) == offered;
  }

  lemma FinishTraversal(queue: TopkQueue, ls: seq<PostingList>, offered: multiset<Entry>, lo: nat, hi: nat, b: nat)
    requires QueueReady(queue, ls, offered, lo, hi, b)
    requires forall d :: lo <= d < hi && b <= d ==> Total(ls, d) <= queue.threshold
    ensures queue.Exact(offered + EntriesOf(ls, Docs(lo, hi)))
  {
    var all := offered + EntriesOf(ls, Docs(lo, hi));
    AccountMore(multiset(queue.q), queue.threshold, offered + EntriesOf(ls, Docs(lo, Min(b, hi))), all);
    ExactIffAccounted(queue.q, queue.threshold, queue.k, queue.floor, all);
  }

  /** The frontier may pass documents whose totals cannot enter the queue. */
  lemma RaiseFrontier(queue: TopkQueue, ls: seq<PostingList>, offered: multiset<Entry>, lo: nat, hi: nat, b: nat, b': nat)
    requires QueueReady(queue, ls, offered, lo, hi, b)
    requires forall d :: b <= d < b' && lo <= d < hi ==> Total(ls, d) <= queue.threshold
    ensures QueueReady(queue, ls, offered, lo, hi, Max(b, b'))
  {
    AccountMore(
      multiset(queue.q), queue.threshold, offered + EntriesOf(ls, Docs(lo, Min(b, hi))),
      offered + EntriesOf(ls, Docs(lo, Min(Max(b, b'), hi))));
  }

  lemma ReadyQueue(queue: TopkQueue, ls: seq<PostingList>, offered: multiset<Entry>, lo: nat, hi: nat, b: nat)
    requires QueueReady(queue, ls, offered, lo, hi, b)
    ensures queue.Valid() && queue.floor >= 0.0 && queue.threshold >= 0.0
  {
    QueueThreshold(queue);
  }

  lemma QueueThreshold(queue: TopkQueue)
    requires queue.Valid() && queue.floor >= 0.0
    ensures queue.threshold >= 0.0
  {
    if |queue.q| == queue.k {
      assert queue.q[0] in multiset(queue.q);
    }
  }

  /** Offering the document at the frontier adds its entry to what was offered. */
  lemma NextEntry(ls: seq<PostingList>, lo: nat, hi: nat, d: nat)
    requires lo <= d < hi
    ensures EntriesOf(ls, Docs(lo, Min(d + 1, hi))) == EntriesOf(ls, Docs(lo, Min(d, hi))) + multiset{Entry(Total(ls, d), d)}
  {
    hide Total;
    var a, b := EntriesOf(ls, Docs(lo, Min(d + 1, hi))), EntriesOf(ls, Docs(lo, Min(d, hi))) + multiset{Entry(Total(ls, d), d)};
    forall e ensures a[e] == b[e] {
    }
  }

  /** What one call to `Insert` does for the traversal: either `score` is the true total of
      the document at the frontier, or it was refused and the document cannot enter. */
  lemma InsertStep(
    queue: TopkQueue, q: seq<Entry>, threshold: real, score: real, d: nat,
    ls: seq<PostingList>, offered: multiset<Entry>, lo: nat, hi: nat, b: nat)
    requires queue.Valid() && Ready(q, threshold, queue.k, queue.floor, ls, offered, lo, hi, b)
    requires lo <= d < hi && d <= b
    requires score > threshold ==> d == b && score == Total(ls, d)
    requires score <= threshold ==> d < b || Total(ls, d) <= threshold
    requires score <= threshold ==> queue.q == q && queue.threshold == threshold
    requires score > threshold ==> InsertedInto(multiset(q), Entry(score, d), queue.k, multiset(queue.q))
    ensures QueueReady(queue, ls, offered, lo, hi, Max(b, d + 1))
    ensures threshold <= queue.threshold
  {
    if d == b {
      var e, so := Entry(Total(ls, d), d), offered + EntriesOf(ls, Docs(lo, Min(d, hi)));
      NextEntry(ls, lo, hi, d);
      assert offered + EntriesOf(ls, Docs(lo, Min(d + 1, hi))) == so + multiset{e};
      ExactIffAccounted(q, threshold, queue.k, queue.floor, so);
      if score > threshold {
        InsertionKeepsExact(q, threshold, e, queue.q, queue.threshold, queue.k, queue.floor, so);
      } else {
        RefusalKeepsExact(q, threshold, e, queue.k, queue.floor, so);
      }
      ExactIffAccounted(queue.q, queue.threshold, queue.k, queue.floor, so + multiset{e});
    }
  }

  /** Offers `d` to the queue: with its true total when it stands at the frontier, or with a
      refused score when it cannot enter or was offered before. */
  method Offer(
    queue: TopkQueue, score: real, d: nat,
    ghost ls: seq<PostingList>, ghost offered: multiset<Entry>, ghost lo: nat, ghost hi: nat, ghost b: nat)
    returns (entered: bool)
    requires QueueReady(queue, ls, offered, lo, hi, b)
    requires lo <= d < hi && d <= b
    requires score > queue.threshold ==> d == b && score == Total(ls, d)
    requires score <= queue.threshold ==> d < b || Total(ls, d) <= queue.threshold
    modifies queue
    ensures queue.floor == old(queue.floor)
    ensures entered == (score > old(queue.threshold))
    ensures queue.threshold >= old(queue.threshold)
    ensures QueueReady(queue, ls, offered, lo, hi, Max(b, d + 1))
  {
    hide Ready;
    ReadyQueue(queue, ls, offered, lo, hi, b);
    ghost var q, t := queue.q, queue.threshold;
    entered := queue.Insert(score, d);
    InsertStep(queue, q, t, score, d, ls, offered, lo, hi, b);
  }

  /** Documents that no cursor has reached and none stands before are in no list. */
  lemma AbsentBetween(cursors: seq<Cursor>, b: nat, next: nat, limit: nat, d: nat)
    requires AllPassed(cursors, b, next, limit) && b <= d < next
    ensures Total(Lists(cursors), d) == 0.0
  {
    forall i | 0 <= i < |cursors| ensures ScoreAt(Lists(cursors)[i], d) == 0.0 {
      assert Passed(cursors[i], b, next, limit);
      PastMeansAbsent(cursors[i], d);
    }
    TotalPrefix(Lists(cursors), 0, d);
  }

  /** A document that only the first `p` cursors can hold totals at most their bounds. */
  lemma BoundedByPrefix(ordered: seq<Cursor>, cursors: seq<Cursor>, u: seq<real>, d: nat)
    requires Arranges(ordered, cursors) && |u| <= |ordered|
    requires forall i :: 0 <= i < |u| ==> ScoreAt(ordered[i].list, d) <= u[i]
    requires forall i :: |u| <= i < |ordered| ==> ScoreAt(ordered[i].list, d) == 0.0
    ensures Total(Lists(cursors), d) <= Sum(u)
  {
    ArrangedTotals(ordered, cursors);
    var ls := Lists(ordered);
    TotalPrefix(ls, |u|, d);
    TotalAtMost(ls[..|u|], d, u);
  }

  /* ----- Keeping cursors sorted by their current document ----- */

  ghost predicate SortedByDocid(cs: seq<Cursor>)
    reads cs`pos
  {
    forall i, j :: 0 <= i < j < |cs| ==> cs[i].Docid() <= cs[j].Docid()
  }

  method SortByDocid(cs: seq<Cursor>) returns (o: seq<Cursor>)
    ensures SortedByDocid(o) && Arranges(o, cs)
  {
    var keys := seq(|cs|, i requires 0 <= i < |cs| reads cs => cs[i].Docid() as real);
    ghost var ks;
    o, ks := SortByKey(cs, keys);
    forall i | 0 <= i < |o| ensures ks[i] == o[i].Docid() as real {
      assert Keyed(o[i], ks[i], cs, keys);
    }
  }

  /** All but the cursor at `n` are in order, and that one belongs at `n` or later. */
  ghost predicate SortedButFor(cs: seq<Cursor>, n: nat)
    reads cs
  {
    && n < |cs|
    && (forall i, j :: 0 <= i < j < |cs| && i != n && j != n ==> cs[i].Docid() <= cs[j].Docid())
    && (forall i :: 0 <= i < n ==> cs[i].Docid() <= cs[n].Docid())
  }

  /** `cs` with the neighbours at i - 1 and i exchanged. */
  function Swapped(cs: seq<Cursor>, i: nat): (o: seq<Cursor>)
    requires 0 < i < |cs|
    ensures Arranges(o, cs)
  {
    cs[i := cs[i - 1]][i - 1 := cs[i]]
  }

  lemma SwapMovesDown(cs: seq<Cursor>, i: nat)
    requires 0 < i < |cs| && SortedButFor(cs, i - 1) && cs[i].Docid() <= cs[i - 1].Docid()
    ensures SortedButFor(Swapped(cs, i), i)
  {
    var o := Swapped(cs, i);
    forall j, k | 0 <= j < k < |o| && j != i && k != i ensures o[j].Docid() <= o[k].Docid() {
      assert o[j] == if j == i - 1 then cs[i] else cs[j];
      assert o[k] == if k == i - 1 then cs[i] else cs[k];
    }
  }

  /** Moves the advanced cursor at `n` down to its place by neighbour swaps. */
  method BubbleDown(cs: seq<Cursor>, n: nat, swapTies: bool) returns (o: seq<Cursor>)
    requires SortedButFor(cs, n)
    ensures SortedByDocid(o) && Arranges(o, cs)
  {
    hide SortedButFor, SortedByDocid, Swapped;
    o := cs;
    var i := n + 1;
    SortedBounds(o, n);
    while i < |o| && (o[i].Docid() < o[i - 1].Docid() || (swapTies && o[i].Docid() == o[i - 1].Docid()))
      invariant n < i <= |o| == |cs| && Arranges(o, cs)
      invariant SortedButFor(o, i - 1)
      decreases |o| - i
    {
      SwapMovesDown(o, i);
      o := Swapped(o, i);
      ArrangedMembers(o, cs);
      i := i + 1;
    }
    BubbleEnds(o, i);
  }

  lemma SortedBounds(cs: seq<Cursor>, n: nat)
    requires SortedButFor(cs, n)
    ensures n < |cs|
  {
  }

  lemma BubbleEnds(cs: seq<Cursor>, i: nat)
    requires 0 < i <= |cs| && SortedButFor(cs, i - 1)
    requires i < |cs| ==> cs[i - 1].Docid() <= cs[i].Docid()
    ensures SortedByDocid(cs)
  {
    forall j, k | 0 <= j < k < |cs| ensures cs[j].Docid() <= cs[k].Docid() {
      if j == i - 1 && k > i {
        assert cs[i].Docid() <= cs[k].Docid();
      }
    }
  }
}
