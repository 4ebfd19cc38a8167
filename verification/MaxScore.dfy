/** MaxScore: lists whose bounds together cannot enter the queue are only looked up for
    documents that the other, essential, lists propose.
 */
module MaxScore {
  import opened Postings
  import opened TopK
  import opened Cursors
  import opened Traversal
  import opened PivotSearch
  import RankedOr

  /** The sum of the list bounds from `i` on. */
  ghost predicate BoundsFrom(cs: seq<Cursor>, ub: seq<real>)
    reads cs
  {
    |ub| == |cs| && forall i :: 0 <= i < |ub| ==> ub[i] == Sum(Maxes(cs)[i..])
  }

  method CalcUpperBounds(cs: seq<Cursor>) returns (ub: seq<real>)
    ensures BoundsFrom(cs, ub)
  {
    ub := [];
    var bound := 0.0;
    var i: nat := |cs|;
    while i > 0
      invariant i <= |cs| && |ub| == |cs| - i
      invariant bound == Sum(Maxes(cs)[i..])
      invariant forall k :: 0 <= k < |ub| ==> ub[k] == Sum(Maxes(cs)[i + k..])
    {
      i := i - 1;
      SumSplitFirst(Maxes(cs)[i..]);
      assert Maxes(cs)[i..][1..] == Maxes(cs)[i + 1..];
      bound := bound + cs[i].maxScore;
      ub := [bound] + ub;
    }
  }

  ghost predicate Essential(cs: seq<Cursor>, f: nat, b: nat)
    reads cs`pos
  {
    f <= |cs| && forall i :: 0 <= i < f ==> b <= cs[i].Docid()
  }

  /** The lists from `f` on cannot enter the queue by themselves. */
  ghost predicate LookupsWeak(ub: seq<real>, f: nat, threshold: real) {
    f < |ub| ==> ub[f] <= threshold
  }

  /** The invariant of the MaxScore loop with next document `b`. */
  ghost predicate Scanning(
    cs: seq<Cursor>, ub: seq<real>, f: nat, queue: TopkQueue, offered: multiset<Entry>, lo: nat, hi: nat, b: nat)
    reads cs, queue
  {
    && Distinct(cs) && AllOk(cs, lo, hi, b) && Essential(cs, f, b)
    && BoundsFrom(cs, ub) && LookupsWeak(ub, f, queue.threshold)
    && QueueReady(queue, Lists(cs), offered, lo, hi, b)
  }

  /** Moves lists to the lookups while their bounds cannot enter; stops the query when none
      is left. */
  method UpdateNonEssential(ub: seq<real>, f: nat, queue: TopkQueue) returns (f': nat, shortCircuit: bool)
    requires 0 < f <= |ub| && LookupsWeak(ub, f, queue.threshold)
    ensures f' <= f && LookupsWeak(ub, f', queue.threshold)
    ensures shortCircuit <==> f' == 0
    ensures f' > 0 ==> ub[f' - 1] > queue.threshold
  {
    f' := f;
    while f' != 0 && !queue.WouldEnter(ub[f' - 1])
      invariant 0 < f' <= f && LookupsWeak(ub, f', queue.threshold)
    {
      f' := f' - 1;
      if f' == 0 {
        return f', true;
      }
    }
    return f', false;
  }

  ghost predicate TailOk(cs: seq<Cursor>, f: nat, lo: nat, hi: nat, b: nat)
    reads if f <= |cs| then cs[f..] else cs
  {
    f <= |cs| && forall i :: f <= i < |cs| ==> cs[i] == cs[f..][i - f] && CursorOk(cs[i], lo, hi, b)
  }

  lemma TailFrom(cs: seq<Cursor>, f: nat, i: nat, lo: nat, hi: nat, b: nat)
    requires TailOk(cs, f, lo, hi, b) && f <= i <= |cs|
    ensures TailOk(cs, i, lo, hi, b)
  {
  }

  /** What the lists from `i` on add to any document is within their bound. */
  lemma SuffixBounded(cs: seq<Cursor>, i: nat, lo: nat, hi: nat, b: nat, d: nat)
    requires TailOk(cs, i, lo, hi, b) && lo <= d < hi
    ensures Total(Lists(cs)[i..], d) <= Sum(Maxes(cs)[i..])
  {
    var ls, u := Lists(cs)[i..], Maxes(cs)[i..];
    forall j | 0 <= j < |ls| ensures ScoreAt(ls[j], d) <= u[j] {
      assert CursorOk(cs[i + j], lo, hi, b);
      ScoreAtMostMax(cs[i + j], lo, hi, d);
    }
    TotalAtMost(ls, d, u);
  }

  lemma SplitTotal(cs: seq<Cursor>, i: nat, d: nat)
    requires i <= |cs|
    ensures Total(Lists(cs), d) == Total(Lists(cs)[..i], d) + Total(Lists(cs)[i..], d)
  {
    assert Lists(cs) == Lists(cs)[..i] + Lists(cs)[i..];
    TotalConcat(Lists(cs)[..i], Lists(cs)[i..], d);
  }

  /** A document that no essential list holds cannot enter the queue. */
  lemma OnlyLookups(
    cs: seq<Cursor>, ub: seq<real>, f: nat, threshold: real, lo: nat, hi: nat, b: nat, next: nat, d: nat)
    requires TailOk(cs, f, lo, hi, b) && BoundsFrom(cs, ub) && LookupsWeak(ub, f, threshold) && threshold >= 0.0
    requires AllPassed(cs[..f], b + 1, next, hi) && b < d < next && lo <= d < hi
    ensures Total(Lists(cs), d) <= threshold
  {
    AbsentBetween(cs[..f], b + 1, next, hi, d);
    assert Lists(cs[..f]) == Lists(cs)[..f];
    SplitTotal(cs, f, d);
    if f < |cs| {
      SuffixBounded(cs, f, lo, hi, b, d);
    } else {
      assert Lists(cs)[f..] == [];
    }
  }

  /** The cursor at `i` shows the next candidate: the least document shown, if below the end. */
  ghost predicate Proposes(docids: seq<nat>, hi: nat, i: nat) {
    i < |docids| && docids[i] < hi && forall j :: 0 <= j < |docids| ==> docids[i] <= docids[j]
  }

  /** No exhausted cursor proposes a candidate if and only if the end is at or below the
      universe. */
  lemma CandidateHasPostingIff(universe: nat, hi: nat)
    ensures (forall docids, i: nat :: Proposes(docids, hi, i) && docids[i] <= universe ==> docids[i] < universe)
            <==> hi <= universe
  {
    if universe < hi {
      assert Proposes([universe], hi, 0);
    }
  }

  /** A lookup in an exhausted list asks past its last document, where a list cursor stays
      exhausted. */
  lemma ExhaustedBehind(c: Cursor, d: nat)
    requires c.Valid() && c.Behind(d) && c.pos == |c.list.docs| > 0
    ensures c.list.docs[|c.list.docs| - 1] < d
  {
  }

  /* ----- One candidate document ----- */

  /** Looks one document up in one list. */
  method LookUp(c: Cursor, d: nat, ghost lo: nat, ghost hi: nat) returns (score: real)
    requires CursorOk(c, lo, hi, d) && d < hi
    modifies c`pos
    ensures CursorOk(c, lo, hi, d)
    ensures score == ScoreAt(c.list, d)
  {
    c.NextGeq(d);
    score := 0.0;
    if c.Docid() == d {
      ScoreHere(c);
      score := c.Score();
    } else {
      PastMeansAbsent(c, d);
    }
  }

  method LookUpAt(cs: seq<Cursor>, i: nat, d: nat, ghost f: nat, ghost lo: nat, ghost hi: nat) returns (score: real)
    requires Distinct(cs) && f <= i < |cs| && TailOk(cs, f, lo, hi, d) && d < hi
    modifies Group(cs[f..])`pos
    ensures TailOk(cs, f, lo, hi, d) && Maxes(cs) == old(Maxes(cs))
    ensures score == ScoreAt(Lists(cs)[i], d)
  {
    hide CursorOk;
    assert CursorOk(cs[i], lo, hi, d);
    assert cs[f..][i - f] in Group(cs[f..]);
    DistinctFrom(cs, i);
    assert forall j :: f <= j < |cs| ==> CursorOk(cs[j], lo, hi, d);
    score := LookUp(cs[i], d, lo, hi);
  }

  /** Completes the score of `d` from the lookups, giving up when score plus remaining bound
      can no longer enter. */
  method ScoreLookups(
    cs: seq<Cursor>, ub: seq<real>, f: nat, d: nat, score0: real, queue: TopkQueue, ghost lo: nat, ghost hi: nat)
    returns (insert: bool, score: real)
    requires Distinct(cs) && TailOk(cs, f, lo, hi, d) && BoundsFrom(cs, ub) && lo <= d < hi
    requires score0 == Total(Lists(cs)[..f], d)
    modifies Group(cs[f..])`pos
    ensures TailOk(cs, f, lo, hi, d) && Maxes(cs) == old(Maxes(cs))
    ensures insert ==> score == Total(Lists(cs), d)
    ensures !insert ==> Total(Lists(cs), d) <= queue.threshold
  {
    hide TailOk, Total, Sum;
    TailSize(cs, f, lo, hi, d);
    score := score0;
    insert := true;
    var i := f;
    while i < |cs|
      invariant f <= i <= |cs| && TailOk(cs, f, lo, hi, d) && Maxes(cs) == old(Maxes(cs))
      invariant score == Total(Lists(cs)[..i], d)
    {
      if !queue.WouldEnter(score + ub[i]) {
        SplitTotal(cs, i, d);
        TailFrom(cs, f, i, lo, hi, d);
        SuffixBounded(cs, i, lo, hi, d, d);
        return false, score;
      }
      var s := LookUpAt(cs, i, d, f, lo, hi);
      TotalExtend(Lists(cs), i, d);
      score := score + s;
      i := i + 1;
    }
    assert Lists(cs)[..|cs|] == Lists(cs);
  }

  lemma TailSize(cs: seq<Cursor>, f: nat, lo: nat, hi: nat, b: nat)
    requires TailOk(cs, f, lo, hi, b)
    ensures f <= |cs|
  {
  }

  /** Splits the cursors into the essential lists and the lookups. */
  lemma SplitCursors(cs: seq<Cursor>, f: nat, lo: nat, hi: nat, b: nat)
    requires Distinct(cs) && AllOk(cs, lo, hi, b) && Essential(cs, f, b)
    ensures Distinct(cs[..f]) && AllPassed(cs[..f], b, b, hi) && TailOk(cs, f, lo, hi, b)
    ensures Group(cs[..f]) <= Group(cs) && Group(cs[f..]) <= Group(cs)
    ensures Group(cs[..f]) !! Group(cs[f..])
    ensures forall i :: 0 <= i < |cs| ==> Dominates(cs[i], lo, hi)
  {
    assert cs == cs[..f] + cs[f..];
    forall i | 0 <= i < |cs| ensures Dominates(cs[i], lo, hi) && (i < f ==> Passed(cs[..f][i], b, b, hi)) {
      assert CursorOk(cs[i], lo, hi, b);
    }
    forall i, j | f <= i < |cs| && 0 <= j < f ensures cs[i] != cs[j] {
      DistinctIndices(cs, j, i);
    }
    forall c | c in multiset(cs[..f]) ensures multiset(cs[..f])[c] == 1 {
      assert c in multiset(cs);
    }
  }

  /** After the essential lists have moved on, every cursor is sound for the next document. */
  lemma JoinCursors(cs: seq<Cursor>, f: nat, lo: nat, hi: nat, d: nat, next: nat)
    requires lo <= d < next && TailOk(cs, f, lo, hi, d) && AllPassed(cs[..f], d + 1, next, hi)
    requires forall i :: 0 <= i < |cs| ==> Dominates(cs[i], lo, hi)
    ensures AllOk(cs, lo, hi, next) && Essential(cs, f, next)
  {
    forall i | 0 <= i < |cs| ensures CursorOk(cs[i], lo, hi, next) && (i < f ==> next <= cs[i].Docid()) {
      if i < f {
        assert Passed(cs[..f][i], d + 1, next, hi);
      } else {
        assert CursorOk(cs[i], lo, hi, d);
      }
    }
  }

  /** Scores the candidate over the essential lists, then over the lookups. */
  method Examine(
    cs: seq<Cursor>, ub: seq<real>, f: nat, queue: TopkQueue, d: nat, hi: nat, ghost offered: multiset<Entry>, ghost lo: nat)
    returns (insert: bool, score: real, next: nat)
    requires Scanning(cs, ub, f, queue, offered, lo, hi, d) && lo <= d < hi
    modifies Group(cs)`pos
    ensures d < next <= hi && AllOk(cs, lo, hi, next) && Essential(cs, f, next) && BoundsFrom(cs, ub)
    ensures insert ==> score == Total(Lists(cs), d)
    ensures !insert ==> Total(Lists(cs), d) <= queue.threshold
    ensures forall x :: d < x < next ==> Total(Lists(cs), x) <= queue.threshold
  {
    hide AllOk, TailOk, AllPassed, Dominates, QueueReady, Total, Sum;
    ReadyQueue(queue, Lists(cs), offered, lo, hi, d);
    SplitCursors(cs, f, lo, hi, d);
    score, next := RankedOr.ScoreAndAdvance(cs[..f], d, hi);
    assert Lists(cs[..f]) == Lists(cs)[..f];
    assert Maxes(cs) == old(Maxes(cs));
    insert, score := ScoreLookups(cs, ub, f, d, score, queue, lo, hi);
    forall x | d < x < next ensures Total(Lists(cs), x) <= queue.threshold {
      OnlyLookups(cs, ub, f, queue.threshold, lo, hi, d, next, x);
    }
    JoinCursors(cs, f, lo, hi, d, next);
  }

  /* ----- The loops ----- */

  /** A fully scored candidate `d`, not yet offered, with `next` the document to go on from. */
  ghost predicate Candidate(
    cs: seq<Cursor>, ub: seq<real>, f: nat, queue: TopkQueue, offered: multiset<Entry>, lo: nat, hi: nat,
    d: nat, score: real, next: nat)
    reads cs, queue
  {
    && lo <= d < next <= hi && score == Total(Lists(cs), d)
    && Distinct(cs) && AllOk(cs, lo, hi, next) && Essential(cs, f, next)
    && BoundsFrom(cs, ub) && LookupsWeak(ub, f, queue.threshold)
    && QueueReady(queue, Lists(cs), offered, lo, hi, d)
    && forall x :: d < x < next ==> Total(Lists(cs), x) <= queue.threshold
  }

  /** Examines documents until one is completely scored or the interval is exhausted. */
  method NextCandidate(
    cs: seq<Cursor>, ub: seq<real>, f: nat, queue: TopkQueue, next0: nat, hi: nat, ghost offered: multiset<Entry>, ghost lo: nat)
    returns (found: bool, d: nat, score: real, next: nat)
    requires Scanning(cs, ub, f, queue, offered, lo, hi, next0) && lo <= next0
    modifies Group(cs)`pos
    ensures found ==> Candidate(cs, ub, f, queue, offered, lo, hi, d, score, next) && next0 <= d
    ensures !found ==> Scanning(cs, ub, f, queue, offered, lo, hi, next) && hi <= next && next0 <= next
  {
    hide AllOk, Essential, BoundsFrom, QueueReady, Total;
    next, d, score := next0, 0, 0.0;
    found := false;
    while next < hi
      invariant Scanning(cs, ub, f, queue, offered, lo, hi, next) && lo <= next0 <= next
      decreases hi - next
    {
      d := next;
      found, score, next := Examine(cs, ub, f, queue, d, hi, offered, lo);
      if found {
        return;
      }
      RaiseFrontier(queue, Lists(cs), offered, lo, hi, d, next);
    }
  }

  /** Offers the candidate; an accepted one may turn further lists into lookups. */
  method OfferAndUpdate(
    cs: seq<Cursor>, ub: seq<real>, f: nat, queue: TopkQueue, d: nat, score: real, next: nat,
    ghost offered: multiset<Entry>, ghost lo: nat, ghost hi: nat)
    returns (f': nat, shortCircuit: bool)
    requires 0 < f && Candidate(cs, ub, f, queue, offered, lo, hi, d, score, next)
    modifies queue
    ensures queue.floor == old(queue.floor)
    ensures Scanning(cs, ub, f', queue, offered, lo, hi, next)
    ensures shortCircuit <==> f' == 0
  {
    hide AllOk, BoundsFrom, QueueReady, Total;
    var entered := Offer(queue, score, d, Lists(cs), offered, lo, hi, d);
    RaiseFrontier(queue, Lists(cs), offered, lo, hi, d + 1, next);
    BoundsSize(cs, ub);
    f', shortCircuit := f, false;
    if entered {
      f', shortCircuit := UpdateNonEssential(ub, f, queue);
    }
  }

  lemma BoundsSize(cs: seq<Cursor>, ub: seq<real>)
    requires BoundsFrom(cs, ub)
    ensures |ub| == |cs|
  {
  }

  lemma FinishScan(
    cs: seq<Cursor>, ub: seq<real>, f: nat, queue: TopkQueue, offered: multiset<Entry>, lo: nat, hi: nat, b: nat)
    requires Scanning(cs, ub, f, queue, offered, lo, hi, b) && |cs| > 0 && (f == 0 || hi <= b)
    ensures queue.Valid() && queue.Exact(offered + EntriesOf(Lists(cs), Docs(lo, hi))) && AllValid(cs)
  {
    forall d | lo <= d < hi && b <= d ensures Total(Lists(cs), d) <= queue.threshold {
      SuffixBounded(cs, 0, lo, hi, b, d);
      assert Lists(cs)[0..] == Lists(cs) && Maxes(cs)[0..] == Maxes(cs);
    }
    FinishTraversal(queue, Lists(cs), offered, lo, hi, b);
    forall i | 0 <= i < |cs| ensures cs[i].Valid() {
      assert CursorOk(cs[i], lo, hi, b);
    }
  }

  /** The start of a scan: bounds, the first document and the first split into essential
      lists and lookups. */
  method BeginScan(cs: seq<Cursor>, ub: seq<real>, queue: TopkQueue, ghost offered: multiset<Entry>, ghost lo: nat, ghost hi: nat)
    returns (f: nat, next: nat, shortCircuit: bool)
    requires |cs| > 0 && AtStart(cs, queue, offered, lo, hi) && BoundsFrom(cs, ub)
    ensures Scanning(cs, ub, f, queue, offered, lo, hi, next) && lo <= next
    ensures shortCircuit <==> f == 0
    ensures f > 0 ==> f <= |ub| && ub[f - 1] > queue.threshold
  {
    hide QueueReady, Starts, BoundsFrom;
    StartTraversal(queue, Lists(cs), offered, lo, hi);
    next := RankedOr.MinDocid(cs);
    PassAbsent(cs, queue, offered, lo, hi, next);
    BoundsSize(cs, ub);
    f, shortCircuit := UpdateNonEssential(ub, |cs|, queue);
  }

  lemma PassAbsent(cs: seq<Cursor>, queue: TopkQueue, offered: multiset<Entry>, lo: nat, hi: nat, next: nat)
    requires QueueReady(queue, Lists(cs), offered, lo, hi, lo)
    requires AllOk(cs, lo, hi, lo) && forall i :: 0 <= i < |cs| ==> next <= cs[i].Docid()
    requires exists i :: 0 <= i < |cs| && next == cs[i].Docid()
    ensures QueueReady(queue, Lists(cs), offered, lo, hi, next)
    ensures AllOk(cs, lo, hi, next) && lo <= next
  {
    hide QueueReady, Total;
    ReadyQueue(queue, Lists(cs), offered, lo, hi, lo);
    forall i | 0 <= i < |cs| ensures CursorOk(cs[i], lo, hi, lo) && Passed(cs[i], lo, next, hi) {
    }
    forall d | lo <= d < next && lo <= d < hi ensures Total(Lists(cs), d) <= queue.threshold {
      AbsentBetween(cs, lo, next, hi, d);
    }
    RaiseFrontier(queue, Lists(cs), offered, lo, hi, lo, next);
  }

  /** MaxScore over the whole collection, on cursors in the order of their list bounds. */
  method RunSorted(cs: seq<Cursor>, queue: TopkQueue, maxDocid: nat, ghost offered: multiset<Entry>)
    requires |cs| > 0 && AtStart(cs, queue, offered, 0, maxDocid)
    modifies queue, Group(cs)`pos
    ensures queue.Valid() && queue.floor == old(queue.floor) && AllValid(cs)
    ensures queue.Exact(offered + EntriesOf(Lists(cs), Docs(0, maxDocid)))
  {
    hide Scanning, Candidate, AtStart;
    var ub := CalcUpperBounds(cs);
    var f, next, shortCircuit := BeginScan(cs, ub, queue, offered, 0, maxDocid);
    if shortCircuit {
      FinishScan(cs, ub, f, queue, offered, 0, maxDocid, next);
      return;
    }
    while true
      invariant Scanning(cs, ub, f, queue, offered, 0, maxDocid, next) && f > 0
      invariant queue.floor == old(queue.floor)
      decreases maxDocid - next
    {
      var found, d, score;
      found, d, score, next := NextCandidate(cs, ub, f, queue, next, maxDocid, offered, 0);
      if !found {
        FinishScan(cs, ub, f, queue, offered, 0, maxDocid, next);
        return;
      }
      CandidateAdvances(cs, ub, f, queue, offered, 0, maxDocid, d, score, next);
      f, shortCircuit := OfferAndUpdate(cs, ub, f, queue, d, score, next, offered, 0, maxDocid);
      if shortCircuit {
        FinishScan(cs, ub, f, queue, offered, 0, maxDocid, next);
        return;
      }
    }
  }

  lemma CandidateAdvances(
    cs: seq<Cursor>, ub: seq<real>, f: nat, queue: TopkQueue, offered: multiset<Entry>, lo: nat, hi: nat,
    d: nat, score: real, next: nat)
    requires Candidate(cs, ub, f, queue, offered, lo, hi, d, score, next)
    ensures lo <= d < next <= hi
  {
  }

  /** The bounds fall from list to list, so the first is the largest. */
  lemma {:induction false} SuffixSmaller(u: seq<real>, i: nat)
    requires i <= |u| && forall j :: 0 <= j < |u| ==> u[j] >= 0.0
    ensures Sum(u[i..]) <= Sum(u)
  {
    if i == 0 {
      assert u[0..] == u;
    } else {
      SuffixSmaller(u, i - 1);
      SumSplitFirst(u[i - 1..]);
      assert u[i - 1..][1..] == u[i..];
    }
  }

  lemma FirstBoundLargest(cs: seq<Cursor>, ub: seq<real>, i: nat)
    requires AllValid(cs) && BoundsFrom(cs, ub) && i < |cs|
    ensures ub[i] <= ub[0]
  {
    assert Maxes(cs)[0..] == Maxes(cs);
    SuffixSmaller(Maxes(cs), i);
  }

  lemma FirstBoundIsSum(cs: seq<Cursor>, ub: seq<real>)
    requires BoundsFrom(cs, ub) && |cs| > 0
    ensures |ub| > 0 && ub[0] == Sum(Maxes(cs))
  {
    assert Maxes(cs)[0..] == Maxes(cs);
  }

  lemma StartValid(cs: seq<Cursor>, queue: TopkQueue, offered: multiset<Entry>, lo: nat, hi: nat)
    requires AtStart(cs, queue, offered, lo, hi)
    ensures AllValid(cs)
  {
    forall i | 0 <= i < |cs| ensures cs[i].Valid() {
      assert CursorOk(cs[i], lo, hi, lo);
    }
  }

  /** MaxScore over one range, with bounds computed for it; a range none of whose documents can
      enter is dead and ends at once.  Running off its end offers the sentinel score 0 at `hi`,
      which the queue always refuses. */
  method RunRange(cs: seq<Cursor>, ub: seq<real>, queue: TopkQueue, ghost lo: nat, hi: nat, ghost offered: multiset<Entry>)
    returns (dead: bool)
    requires |cs| > 0 && AtStart(cs, queue, offered, lo, hi) && BoundsFrom(cs, ub)
    modifies queue, Group(cs)`pos
    ensures queue.Valid() && queue.floor == old(queue.floor) && AllValid(cs)
    ensures queue.Exact(offered + EntriesOf(Lists(cs), Docs(lo, hi)))
    ensures |ub| > 0 && (dead <==> ub[0] <= old(queue.threshold))
    ensures dead ==> queue.q == old(queue.q)
  {
    hide Scanning, Candidate, AtStart, BoundsFrom, AllValid;
    StartValid(cs, queue, offered, lo, hi);
    BoundsSize(cs, ub);
    var f, next, shortCircuit := BeginScan(cs, ub, queue, offered, lo, hi);
    dead := shortCircuit;
    if shortCircuit {
      WeakFirst(cs, ub, f, queue, offered, lo, hi, next);
      FinishScan(cs, ub, f, queue, offered, lo, hi, next);
      return;
    }
    FirstBoundLargest(cs, ub, f - 1);
    var currentDoc := 0;
    while currentDoc < hi
      invariant Scanning(cs, ub, f, queue, offered, lo, hi, next) && f > 0 && lo <= next
      invariant hi <= currentDoc ==> hi <= next
      invariant queue.floor == old(queue.floor)
      decreases currentDoc < hi, hi - next
    {
      var found, d, score;
      found, d, score, next := NextCandidate(cs, ub, f, queue, next, hi, offered, lo);
      if found {
        CandidateAdvances(cs, ub, f, queue, offered, lo, hi, d, score, next);
        currentDoc := d;
        f, shortCircuit := OfferAndUpdate(cs, ub, f, queue, d, score, next, offered, lo, hi);
        if shortCircuit {
          break;
        }
      } else {
        currentDoc := hi;
        ScanningQueue(cs, ub, f, queue, offered, lo, hi, next);
        var entered := queue.Insert(0.0, currentDoc);
        assert !entered;
      }
    }
    FinishScan(cs, ub, f, queue, offered, lo, hi, next);
  }

  lemma WeakFirst(
    cs: seq<Cursor>, ub: seq<real>, f: nat, queue: TopkQueue, offered: multiset<Entry>, lo: nat, hi: nat, b: nat)
    requires Scanning(cs, ub, f, queue, offered, lo, hi, b) && f == 0 && |cs| > 0
    ensures |ub| > 0 && ub[0] <= queue.threshold
  {
  }

  lemma ScanningQueue(
    cs: seq<Cursor>, ub: seq<real>, f: nat, queue: TopkQueue, offered: multiset<Entry>, lo: nat, hi: nat, b: nat)
    requires Scanning(cs, ub, f, queue, offered, lo, hi, b)
    ensures queue.Valid() && queue.threshold >= 0.0
  {
    ReadyQueue(queue, Lists(cs), offered, lo, hi, b);
  }

  /* ----- Ordering the cursors by their list bounds ----- */

  ghost predicate SortedByMaxScore(cs: seq<Cursor>)
    reads cs`maxScore
  {
    forall i, j :: 0 <= i < j < |cs| ==> cs[i].maxScore >= cs[j].maxScore
  }

  method Sorted(cs: seq<Cursor>) returns (o: seq<Cursor>)
    ensures SortedByMaxScore(o) && Arranges(o, cs)
  {
    var keys := seq(|cs|, i requires 0 <= i < |cs| reads cs => -cs[i].maxScore);
    ghost var ks;
    o, ks := SortByKey(cs, keys);
    forall i | 0 <= i < |o| ensures ks[i] == -o[i].maxScore {
      assert Keyed(o[i], ks[i], cs, keys);
    }
  }

  lemma ArrangedStart(o: seq<Cursor>, cs: seq<Cursor>, queue: TopkQueue, offered: multiset<Entry>, lo: nat, hi: nat)
    requires Arranges(o, cs) && AtStart(cs, queue, offered, lo, hi)
    ensures AtStart(o, queue, offered, lo, hi) && |o| == |cs| && Group(o) == Group(cs)
    ensures forall d: nat :: Total(Lists(o), d) == Total(Lists(cs), d)
  {
    hide Total;
    ArrangedMembers(o, cs);
    ArrangedTotals(o, cs);
    ArrangedOk(o, cs, lo, hi, lo);
  }

  lemma ArrangedValid(o: seq<Cursor>, cs: seq<Cursor>)
    requires Arranges(o, cs) && AllValid(o)
    ensures AllValid(cs)
  {
    ArrangedMembers(o, cs);
    forall i | 0 <= i < |cs| ensures cs[i].Valid() {
      assert cs[i] in Group(o);
    }
  }

  /** The whole collection at once. */
  method Query(cursors: seq<Cursor>, queue: TopkQueue, maxDocid: nat, ghost offered: multiset<Entry>)
    requires AtStart(cursors, queue, offered, 0, maxDocid)
    modifies queue, Group(cursors)`pos
    ensures queue.Valid() && queue.floor == old(queue.floor) && AllValid(cursors)
    ensures queue.Exact(offered + EntriesOf(Lists(cursors), Docs(0, maxDocid)))
  {
    hide AtStart, AllValid, Total;
    if |cursors| == 0 {
      AtStartOpens(cursors, queue, offered, 0, maxDocid);
      EmptyQuery(cursors, queue, offered, 0, maxDocid);
      EmptyValid(cursors);
      return;
    }
    var cs := Sorted(cursors);
    ArrangedStart(cs, cursors, queue, offered, 0, maxDocid);
    RunSorted(cs, queue, maxDocid, offered);
    SameEntries(Lists(cs), Lists(cursors), Docs(0, maxDocid));
    ArrangedValid(cs, cursors);
  }

  lemma AtStartOpens(cs: seq<Cursor>, queue: TopkQueue, offered: multiset<Entry>, lo: nat, hi: nat)
    requires AtStart(cs, queue, offered, lo, hi)
    ensures Starts(queue, offered)
  {
  }

  lemma EmptyValid(cs: seq<Cursor>)
    requires cs == []
    ensures AllValid(cs)
  {
  }
}
