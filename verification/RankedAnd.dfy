/** The exhaustive conjunctive query: only documents in every list are scored. */
module RankedAnd {
  import opened Postings
  import opened TopK
  import opened Cursors
  import opened Traversal

  /** A cursor that has skipped nothing from `b` on. */
  ghost predicate Sound(c: Cursor, hi: nat, b: nat)
    reads c
  {
    c.Valid() && c.Behind(b) && hi <= c.universe
  }

  ghost predicate AllSound(cs: seq<Cursor>, hi: nat, b: nat)
    reads cs
  {
    forall i :: 0 <= i < |cs| ==> Sound(cs[i], hi, b)
  }

  /** Nothing but what was offered before and the common documents below `b` is in the queue,
      and what of them is not cannot enter it. */
  ghost predicate AndReady(
    q: seq<Entry>, threshold: real, k: nat, floor: real, ls: seq<PostingList>, offered: multiset<Entry>, hi: nat, b: nat)
  {
    QueueOk(q, threshold, k, floor) && Accounted(multiset(q), threshold, offered + EntriesOf(ls, CommonDocs(ls, Min(b, hi))))
  }

  ghost predicate QueueAndReady(queue: TopkQueue, ls: seq<PostingList>, offered: multiset<Entry>, hi: nat, b: nat)
    reads queue
  {
    AndReady(queue.q, queue.threshold, queue.k, queue.floor, ls, offered, hi, b)
  }

  /** The frontier may pass documents that are not common or cannot enter. */
  lemma PassDocs(queue: TopkQueue, ls: seq<PostingList>, offered: multiset<Entry>, hi: nat, b: nat, b': nat)
    requires QueueAndReady(queue, ls, offered, hi, b) && b <= b'
    requires forall d :: b <= d < b' && d < hi && InAll(ls, d) ==> Total(ls, d) <= queue.threshold
    ensures QueueAndReady(queue, ls, offered, hi, b')
  {
    hide InAll, Total;
    AccountMore(
      multiset(queue.q), queue.threshold, offered + EntriesOf(ls, CommonDocs(ls, Min(b, hi))),
      offered + EntriesOf(ls, CommonDocs(ls, Min(b', hi))));
  }

  lemma NextCommon(ls: seq<PostingList>, hi: nat, d: nat)
    requires d < hi && InAll(ls, d)
    ensures EntriesOf(ls, CommonDocs(ls, Min(d + 1, hi)))
            == EntriesOf(ls, CommonDocs(ls, Min(d, hi))) + multiset{Entry(Total(ls, d), d)}
  {
    hide InAll, Total;
  }

  lemma AndInsertStep(
    queue: TopkQueue, q: seq<Entry>, threshold: real, d: nat, ls: seq<PostingList>, offered: multiset<Entry>, hi: nat)
    requires queue.Valid() && AndReady(q, threshold, queue.k, queue.floor, ls, offered, hi, d)
    requires d < hi && InAll(ls, d)
    requires Total(ls, d) <= threshold ==> queue.q == q && queue.threshold == threshold
    requires Total(ls, d) > threshold ==>
               InsertedInto(multiset(q), Entry(Total(ls, d), d), queue.k, multiset(queue.q))
    ensures QueueAndReady(queue, ls, offered, hi, d + 1)
  {
    hide InAll, Total, QueueOk, InsertedInto, Accounted, IsBestOf;
    var e, so := Entry(Total(ls, d), d), offered + EntriesOf(ls, CommonDocs(ls, Min(d, hi)));
    NextCommon(ls, hi, d);
    assert offered + EntriesOf(ls, CommonDocs(ls, Min(d + 1, hi))) == so + multiset{e};
    ExactIffAccounted(q, threshold, queue.k, queue.floor, so);
    if Total(ls, d) > threshold {
      InsertionKeepsExact(q, threshold, e, queue.q, queue.threshold, queue.k, queue.floor, so);
    } else {
      RefusalKeepsExact(q, threshold, e, queue.k, queue.floor, so);
    }
    ExactIffAccounted(queue.q, queue.threshold, queue.k, queue.floor, so + multiset{e});
  }

  /** Offers a common document's total. */
  method OfferCommon(
    queue: TopkQueue, score: real, d: nat, ghost ls: seq<PostingList>, ghost offered: multiset<Entry>, ghost hi: nat)
    requires QueueAndReady(queue, ls, offered, hi, d) && d < hi && InAll(ls, d) && score == Total(ls, d)
    modifies queue
    ensures queue.floor == old(queue.floor)
    ensures QueueAndReady(queue, ls, offered, hi, d + 1)
  {
    hide Total, InAll, Accounted;
    ghost var q, t := queue.q, queue.threshold;
    var _ := queue.Insert(score, d);
    AndInsertStep(queue, q, t, d, ls, offered, hi);
  }

  /** A list whose cursor stands past `d` without having skipped it does not contain `d`. */
  lemma NotContained(c: Cursor, hi: nat, b: nat, d: nat)
    requires Sound(c, hi, b) && b <= d < c.Docid() && d < hi
    ensures !Contains(c.list, d)
  {
  }

  lemma NotCommon(cs: seq<Cursor>, i: nat, hi: nat, b: nat, d: nat)
    requires i < |cs| && Sound(cs[i], hi, b) && b <= d < cs[i].Docid() && d < hi
    ensures !InAll(Lists(cs), d)
  {
    NotContained(cs[i], hi, b, d);
    assert Lists(cs)[i] == cs[i].list;
  }

  ghost predicate OnCandidate(cs: seq<Cursor>, n: nat, candidate: nat)
    reads cs`pos
  {
    n <= |cs| && forall i :: 0 <= i < n ==> cs[i].Docid() == candidate
  }

  method MoveTo(cs: seq<Cursor>, i: nat, candidate: nat, ghost hi: nat)
    requires Distinct(cs) && i < |cs| && AllSound(cs, hi, candidate) && OnCandidate(cs, i, candidate)
    modifies Group(cs)`pos
    ensures AllSound(cs, hi, candidate) && OnCandidate(cs, i, candidate)
    ensures candidate <= cs[i].Docid() || hi <= cs[i].Docid()
  {
    hide ValidList, ValidWand;
    assert Sound(cs[i], hi, candidate);
    assert cs[i] in Group(cs);
    DistinctFrom(cs, i);
    assert forall j :: 0 <= j < |cs| ==> Sound(cs[j], hi, candidate);
    cs[i].NextGeq(candidate);
  }

  /** Brings the cursors from `i0` on to the candidate, as far as they contain it; the first
      that does not proposes the next candidate. */
  method Align(cs: seq<Cursor>, i0: nat, candidate: nat, ghost hi: nat) returns (i: nat, next: nat)
    requires Distinct(cs) && AllSound(cs, hi, candidate) && OnCandidate(cs, i0, candidate) && candidate < hi
    modifies Group(cs)`pos
    ensures AllSound(cs, hi, candidate)
    ensures i == |cs| ==> OnCandidate(cs, i, candidate) && next == candidate
    ensures i != |cs| ==> i == 0 && candidate < next
    ensures i != |cs| ==> forall d :: candidate <= d < next && d < hi ==> !InAll(Lists(cs), d)
  {
    hide AllSound;
    i, next := i0, candidate;
    while i < |cs|
      invariant AllSound(cs, hi, candidate) && OnCandidate(cs, i, candidate) && next == candidate
    {
      MoveTo(cs, i, candidate, hi);
      if cs[i].Docid() != candidate {
        next := cs[i].Docid();
        SoundAt(cs, i, hi, candidate);
        forall d | candidate <= d < next && d < hi ensures !InAll(Lists(cs), d) {
          NotCommon(cs, i, hi, candidate, d);
        }
        i := 0;
        return;
      }
      i := i + 1;
    }
  }

  lemma SoundAt(cs: seq<Cursor>, i: nat, hi: nat, b: nat)
    requires AllSound(cs, hi, b) && i < |cs|
    ensures Sound(cs[i], hi, b)
  {
  }

  /** The total of a document all cursors stand on. */
  method ScoreAll(cs: seq<Cursor>, candidate: nat, ghost hi: nat) returns (score: real)
    requires AllSound(cs, hi, candidate) && OnCandidate(cs, |cs|, candidate) && candidate < hi
    ensures score == Total(Lists(cs), candidate) && InAll(Lists(cs), candidate)
  {
    hide AllSound, OnCandidate, Contains;
    score := 0.0;
    for i := 0 to |cs|
      invariant score == Total(Lists(cs)[..i], candidate)
      invariant forall j :: 0 <= j < i ==> Contains(Lists(cs)[j], candidate)
    {
      ScoredAt(cs, i, candidate, hi);
      TotalExtend(Lists(cs), i, candidate);
      score := score + cs[i].Score();
    }
    assert Lists(cs)[..|cs|] == Lists(cs);
  }

  lemma ScoredAt(cs: seq<Cursor>, i: nat, candidate: nat, hi: nat)
    requires AllSound(cs, hi, candidate) && OnCandidate(cs, |cs|, candidate) && candidate < hi && i < |cs|
    ensures cs[i].WellFormed() && cs[i].pos < |cs[i].list.docs|
    ensures cs[i].Score() == ScoreAt(Lists(cs)[i], candidate) && Contains(Lists(cs)[i], candidate)
  {
    assert Sound(cs[i], hi, candidate);
    ScoreHere(cs[i]);
    assert HasAt(cs[i].list, candidate, cs[i].pos);
  }

  lemma RaiseSound(cs: seq<Cursor>, hi: nat, b: nat, b': nat)
    requires AllSound(cs, hi, b) && b <= b'
    ensures AllSound(cs, hi, b')
  {
    forall i | 0 <= i < |cs| ensures Sound(cs[i], hi, b') {
      assert Sound(cs[i], hi, b);
    }
  }

  /** Scores and offers the candidate, then steps the first cursor on. */
  method ScoreCandidate(
    cs: seq<Cursor>, queue: TopkQueue, candidate: nat, ghost offered: multiset<Entry>, ghost hi: nat) returns (next: nat)
    requires |cs| > 0 && Distinct(cs) && AllSound(cs, hi, candidate) && OnCandidate(cs, |cs|, candidate)
    requires candidate < hi && QueueAndReady(queue, Lists(cs), offered, hi, candidate)
    modifies queue, Group(cs)`pos
    ensures queue.floor == old(queue.floor)
    ensures candidate < next && AllSound(cs, hi, next) && OnCandidate(cs, 1, next)
    ensures QueueAndReady(queue, Lists(cs), offered, hi, next)
  {
    hide Total, InAll, AllSound, QueueAndReady;
    var score := ScoreAll(cs, candidate, hi);
    OfferCommon(queue, score, candidate, Lists(cs), offered, hi);
    next := StepFirst(cs, candidate, hi);
    PassDocs(queue, Lists(cs), offered, hi, candidate + 1, next);
  }

  method StepFirst(cs: seq<Cursor>, candidate: nat, ghost hi: nat) returns (next: nat)
    requires |cs| > 0 && Distinct(cs) && AllSound(cs, hi, candidate) && cs[0].Docid() == candidate < hi
    modifies Group(cs)`pos
    ensures candidate < next == cs[0].Docid() && AllSound(cs, hi, next)
    ensures forall d :: candidate + 1 <= d < next && d < hi ==> !InAll(Lists(cs), d)
  {
    assert Sound(cs[0], hi, candidate);
    assert cs[0] in Group(cs);
    DistinctFrom(cs, 0);
    RaiseSound(cs, hi, candidate, candidate + 1);
    cs[0].Next();
    next := cs[0].Docid();
    forall i | 0 <= i < |cs| ensures Sound(cs[i], hi, candidate + 1) {
    }
    forall d | candidate + 1 <= d < next && d < hi ensures !InAll(Lists(cs), d) {
      NotCommon(cs, 0, hi, candidate + 1, d);
    }
    RaiseSound(cs, hi, candidate + 1, next);
  }

  /** Shorter lists first. */
  method SortBySize(cs: seq<Cursor>) returns (o: seq<Cursor>)
    ensures Arranges(o, cs)
    ensures forall i, j :: 0 <= i < j < |o| ==> |o[i].list.docs| <= |o[j].list.docs|
  {
    var keys := seq(|cs|, i requires 0 <= i < |cs| => |cs[i].list.docs| as real);
    ghost var ks;
    o, ks := SortByKey(cs, keys);
    forall i | 0 <= i < |o| ensures ks[i] == |o[i].list.docs| as real {
      assert Keyed(o[i], ks[i], cs, keys);
    }
  }

  lemma ArrangedCommon(o: seq<Cursor>, cs: seq<Cursor>, n: nat)
    requires Arranges(o, cs)
    ensures CommonDocs(Lists(o), n) == CommonDocs(Lists(cs), n)
  {
    ArrangedLists(o, cs);
    forall d: nat ensures InAll(Lists(o), d) <==> InAll(Lists(cs), d) {
      InAllBag(Lists(o), Lists(cs), d);
      InAllBag(Lists(cs), Lists(o), d);
    }
  }

  lemma InAllBag(a: seq<PostingList>, b: seq<PostingList>, d: nat)
    requires multiset(a) == multiset(b)
    ensures InAll(a, d) ==> InAll(b, d)
  {
    forall i | 0 <= i < |b| ensures b[i] in a {
      assert b[i] in multiset(a);
    }
  }

  /** The queue is exact over what was offered, and no cursor has moved. */
  ghost predicate AndStart(cs: seq<Cursor>, queue: TopkQueue, offered: multiset<Entry>, hi: nat)
    reads cs, queue
  {
    && Distinct(cs) && AllSound(cs, hi, 0)
    && queue.Valid() && queue.Exact(offered)
  }

  lemma ArrangedAndStart(o: seq<Cursor>, cs: seq<Cursor>, queue: TopkQueue, offered: multiset<Entry>, hi: nat)
    requires Arranges(o, cs) && AndStart(cs, queue, offered, hi)
    ensures AndStart(o, queue, offered, hi) && |o| == |cs| && Group(o) == Group(cs)
    ensures CommonDocs(Lists(o), hi) == CommonDocs(Lists(cs), hi)
    ensures forall d: nat :: Total(Lists(o), d) == Total(Lists(cs), d)
  {
    hide Total, InAll;
    ArrangedMembers(o, cs);
    ArrangedTotals(o, cs);
    ArrangedCommon(o, cs, hi);
    forall i | 0 <= i < |o| ensures Sound(o[i], hi, 0) {
      assert o[i] in Group(cs);
    }
  }

  lemma BeginAnd(cs: seq<Cursor>, queue: TopkQueue, offered: multiset<Entry>, hi: nat)
    requires |cs| > 0 && AndStart(cs, queue, offered, hi)
    ensures QueueAndReady(queue, Lists(cs), offered, hi, cs[0].Docid()) && AllSound(cs, hi, cs[0].Docid())
  {
    var ls, first := Lists(cs), cs[0].Docid();
    ExactIffAccounted(queue.q, queue.threshold, queue.k, queue.floor, offered);
    assert Sound(cs[0], hi, 0);
    assert offered + EntriesOf(ls, CommonDocs(ls, Min(0, hi))) == offered;
    forall d | 0 <= d < first && d < hi ensures !InAll(ls, d) {
      NotCommon(cs, 0, hi, 0, d);
    }
    PassDocs(queue, ls, offered, hi, 0, first);
    RaiseSound(cs, hi, 0, first);
  }

  lemma EndAnd(queue: TopkQueue, ls: seq<PostingList>, offered: multiset<Entry>, hi: nat, b: nat)
    requires QueueAndReady(queue, ls, offered, hi, b) && hi <= b
    ensures queue.Valid() && queue.Exact(offered + EntriesOf(ls, CommonDocs(ls, hi)))
  {
    ExactIffAccounted(queue.q, queue.threshold, queue.k, queue.floor, offered + EntriesOf(ls, CommonDocs(ls, hi)));
  }

  method Run(cs: seq<Cursor>, queue: TopkQueue, maxDocid: nat, ghost offered: multiset<Entry>)
    requires |cs| > 0 && AndStart(cs, queue, offered, maxDocid)
    modifies queue, Group(cs)`pos
    ensures queue.Valid() && queue.floor == old(queue.floor)
    ensures queue.Exact(offered + EntriesOf(Lists(cs), CommonDocs(Lists(cs), maxDocid)))
  {
    hide AllSound, QueueAndReady, Total, InAll;
    BeginAnd(cs, queue, offered, maxDocid);
    var candidate, i := cs[0].Docid(), 1;
    while candidate < maxDocid
      invariant AllSound(cs, maxDocid, candidate) && OnCandidate(cs, i, candidate)
      invariant QueueAndReady(queue, Lists(cs), offered, maxDocid, candidate)
      invariant queue.floor == old(queue.floor)
      decreases maxDocid - candidate
    {
      var next;
      i, next := Align(cs, i, candidate, maxDocid);
      if i == |cs| {
        next := ScoreCandidate(cs, queue, candidate, offered, maxDocid);
        i := 1;
      } else {
        PassDocs(queue, Lists(cs), offered, maxDocid, candidate, next);
        RaiseSound(cs, maxDocid, candidate, next);
      }
      candidate := next;
    }
    EndAnd(queue, Lists(cs), offered, maxDocid, candidate);
  }

  method Query(cursors: seq<Cursor>, queue: TopkQueue, maxDocid: nat, ghost offered: multiset<Entry>)
    requires AndStart(cursors, queue, offered, maxDocid)
    modifies queue, Group(cursors)`pos
    ensures queue.Valid() && queue.floor == old(queue.floor)
    ensures cursors != [] ==> queue.Exact(offered + EntriesOf(Lists(cursors), CommonDocs(Lists(cursors), maxDocid)))
    ensures cursors == [] ==> queue.q == old(queue.q)
  {
    hide AllSound, Total, InAll;
    if |cursors| == 0 {
      return;
    }
    var cs := SortBySize(cursors);
    ArrangedAndStart(cs, cursors, queue, offered, maxDocid);
    Run(cs, queue, maxDocid, offered);
    SameEntries(Lists(cs), Lists(cursors), CommonDocs(Lists(cs), maxDocid));
  }
}
