/** The exhaustive disjunctive query: every document of every list is scored. */
module RankedOr {
  import opened Postings
  import opened TopK
  import opened Cursors
  import opened Traversal

  /** The least current document; the cursors are non-empty. */
  method MinDocid(cs: seq<Cursor>) returns (d: nat)
    requires |cs| > 0
    ensures exists i :: 0 <= i < |cs| && d == cs[i].Docid()
    ensures forall i :: 0 <= i < |cs| ==> d <= cs[i].Docid()
  {
    d := cs[0].Docid();
    for i := 1 to |cs|
      invariant exists j :: 0 <= j < i && d == cs[j].Docid()
      invariant forall j :: 0 <= j < i ==> d <= cs[j].Docid()
    {
      if cs[i].Docid() < d { d := cs[i].Docid(); }
    }
  }

  /** The score of `curDoc` in one list, stepping over it when the cursor stands on it. */
  method StepOver(c: Cursor, curDoc: nat, limit: nat) returns (score: real)
    requires Passed(c, curDoc, curDoc, limit) && curDoc < limit
    modifies c`pos
    ensures score == ScoreAt(c.list, curDoc)
    ensures Passed(c, curDoc + 1, curDoc + 1, limit)
  {
    score := 0.0;
    if c.Docid() == curDoc {
      ScoreHere(c);
      score := c.Score();
      c.Next();
    } else {
      PastMeansAbsent(c, curDoc);
    }
  }

  /** Adds up the scores of `curDoc` over the cursors standing on it, steps those cursors
      over it and finds the next document any of them shows. */
  method ScoreAndAdvance(cs: seq<Cursor>, curDoc: nat, limit: nat) returns (score: real, nextDoc: nat)
    requires Distinct(cs) && curDoc < limit && AllPassed(cs, curDoc, curDoc, limit)
    modifies Group(cs)`pos
    ensures score == Total(Lists(cs), curDoc)
    ensures curDoc < nextDoc <= limit && AllPassed(cs, curDoc + 1, nextDoc, limit)
  {
    hide Total, ScoreAt, ValidList, ValidWand;
    score, nextDoc := 0.0, limit;
    NoTotal(Lists(cs), curDoc);
    for i := 0 to |cs|
      invariant forall j :: 0 <= j < i ==> Passed(cs[j], curDoc + 1, nextDoc, limit)
      invariant forall j :: i <= j < |cs| ==> Passed(cs[j], curDoc, curDoc, limit)
      invariant score == Total(Lists(cs)[..i], curDoc)
      invariant curDoc < nextDoc <= limit
    {
      assert cs[i] in Group(cs);
      DistinctFrom(cs, i);
      TotalExtend(Lists(cs), i, curDoc);
      var s := StepOver(cs[i], curDoc, limit);
      score := score + s;
      if cs[i].Docid() < nextDoc {
        nextDoc := cs[i].Docid();
      }
    }
    assert Lists(cs)[..|cs|] == Lists(cs);
  }

  lemma NoTotal(ls: seq<PostingList>, d: nat)
    ensures Total(ls[..0], d) == 0.0
  {
  }

  lemma PassAbsent(cursors: seq<Cursor>, queue: TopkQueue, offered: multiset<Entry>, limit: nat, b: nat, next: nat)
    requires QueueReady(queue, Lists(cursors), offered, 0, limit, b) && b <= next
    requires AllPassed(cursors, b, next, limit)
    ensures QueueReady(queue, Lists(cursors), offered, 0, limit, next)
    ensures AllPassed(cursors, next, next, limit)
  {
    QueueThreshold(queue);
    forall d | b <= d < next ensures Total(Lists(cursors), d) <= queue.threshold {
      AbsentBetween(cursors, b, next, limit, d);
    }
    RaiseFrontier(queue, Lists(cursors), offered, 0, limit, b, next);
  }

  /** Scores one document completely and offers it to the queue. */
  method Step(cursors: seq<Cursor>, queue: TopkQueue, curDoc: nat, maxDocid: nat, ghost offered: multiset<Entry>)
    returns (nextDoc: nat)
    requires Distinct(cursors) && curDoc < maxDocid && AllPassed(cursors, curDoc, curDoc, maxDocid)
    requires QueueReady(queue, Lists(cursors), offered, 0, maxDocid, curDoc)
    modifies queue, Group(cursors)`pos
    ensures queue.floor == old(queue.floor)
    ensures curDoc < nextDoc <= maxDocid && AllPassed(cursors, nextDoc, nextDoc, maxDocid)
    ensures QueueReady(queue, Lists(cursors), offered, 0, maxDocid, nextDoc)
  {
    hide QueueReady, AllPassed;
    var score;
    score, nextDoc := ScoreAndAdvance(cursors, curDoc, maxDocid);
    var _ := Offer(queue, score, curDoc, Lists(cursors), offered, 0, maxDocid, curDoc);
    PassAbsent(cursors, queue, offered, maxDocid, curDoc + 1, nextDoc);
  }

  method Query(cursors: seq<Cursor>, queue: TopkQueue, maxDocid: nat, ghost offered: multiset<Entry>)
    requires Distinct(cursors) && AllPassed(cursors, 0, 0, maxDocid)
    requires Starts(queue, offered)
    modifies queue, Group(cursors)`pos
    ensures queue.Valid() && queue.floor == old(queue.floor)
    ensures queue.Exact(offered + EntriesOf(Lists(cursors), Docs(0, maxDocid)))
  {
    ghost var ls := Lists(cursors);
    StartTraversal(queue, ls, offered, 0, maxDocid);
    QueueThreshold(queue);
    if |cursors| == 0 {
      FinishTraversal(queue, ls, offered, 0, maxDocid, 0);
      return;
    }
    var curDoc := MinDocid(cursors);
    PassAbsent(cursors, queue, offered, maxDocid, 0, curDoc);
    while curDoc < maxDocid
      invariant AllPassed(cursors, curDoc, curDoc, maxDocid)
      invariant QueueReady(queue, ls, offered, 0, maxDocid, curDoc)
      invariant queue.floor == old(queue.floor)
    {
      curDoc := Step(cursors, queue, curDoc, maxDocid, offered);
    }
    FinishTraversal(queue, ls, offered, 0, maxDocid, curDoc);
  }
}
