/** The steps that WAND and Block-Max WAND share: cursors kept sorted by their current
    document, a pivot chosen by list upper bounds, one list advanced at a time.
 */
module PivotSearch {
  import opened Postings
  import opened TopK
  import opened Cursors
  import opened Traversal

  ghost predicate CursorOk(c: Cursor, lo: nat, hi: nat, b: nat)
    reads c
  {
    c.Valid() && Dominates(c, lo, hi) && hi <= c.universe && c.Behind(b) && lo <= c.Docid()
  }

  ghost predicate AllOk(cs: seq<Cursor>, lo: nat, hi: nat, b: nat)
    reads cs
  {
    forall i :: 0 <= i < |cs| ==> CursorOk(cs[i], lo, hi, b)
  }

  /** A cursor whose documents up to `p` have been consumed. */
  ghost predicate Stepped(c: Cursor, lo: nat, hi: nat, b: nat, p: nat)
    reads c
  {
    CursorOk(c, lo, hi, Max(b, p + 1)) && p < c.Docid()
  }

  ghost predicate AllStepped(cs: seq<Cursor>, lo: nat, hi: nat, b: nat, p: nat)
    reads cs
  {
    forall i :: 0 <= i < |cs| ==> Stepped(cs[i], lo, hi, b, p)
  }

  lemma SteppedLeft(cs: seq<Cursor>, before: seq<int>, lo: nat, hi: nat, b: nat, p: nat)
    requires AllStepped(cs, lo, hi, b, p) && |cs| == |before| > 0
    requires forall i :: 0 <= i < |cs| ==> Left(cs)[i] <= before[i]
    requires Left(cs)[0] < before[0]
    ensures 0 <= SumLeft(Left(cs)) < SumLeft(before)
  {
    assert forall i :: 0 <= i < |cs| ==> Stepped(cs[i], lo, hi, b, p);
    SumLeftDecreases(before, Left(cs));
  }

  ghost function Docids(cs: seq<Cursor>): seq<nat>
    reads cs
  {
    seq(|cs|, i requires 0 <= i < |cs| reads cs => cs[i].Docid())
  }

  /** A document the frontier has passed but some cursor has not cannot enter the queue. */
  ghost predicate PassedWeak(cs: seq<Cursor>, ls: seq<PostingList>, queue: TopkQueue, lo: nat, hi: nat, b: nat)
    reads cs`pos, queue`threshold
  {
    forall d, i :: 0 <= i < |cs| && lo <= d < b && d < hi && cs[i].Docid() <= d ==> Total(ls, d) <= queue.threshold
  }

  /** The invariant of the pivot loop with frontier `b`. */
  ghost predicate Running(
    ordered: seq<Cursor>, cursors: seq<Cursor>, queue: TopkQueue, offered: multiset<Entry>, lo: nat, hi: nat, b: nat)
    reads ordered, queue
  {
    && Arranges(ordered, cursors) && Distinct(ordered)
    && SortedByDocid(ordered)
    && AllOk(ordered, lo, hi, b)
    && QueueReady(queue, Lists(cursors), offered, lo, hi, b)
    && PassedWeak(ordered, Lists(cursors), queue, lo, hi, b)
  }

  lemma ArrangedOk(a: seq<Cursor>, b: seq<Cursor>, lo: nat, hi: nat, f: nat)
    requires Arranges(a, b) && AllOk(b, lo, hi, f)
    ensures AllOk(a, lo, hi, f)
  {
    ArrangedMembers(a, b);
    forall i | 0 <= i < |a| ensures CursorOk(a[i], lo, hi, f) {
      assert a[i] in Group(b);
    }
  }

  lemma ArrangedPassed(a: seq<Cursor>, b: seq<Cursor>, ls: seq<PostingList>, queue: TopkQueue, lo: nat, hi: nat, f: nat)
    requires Arranges(a, b) && PassedWeak(b, ls, queue, lo, hi, f)
    ensures PassedWeak(a, ls, queue, lo, hi, f)
  {
    ArrangedMembers(a, b);
    forall d, i | 0 <= i < |a| && lo <= d < f && d < hi && a[i].Docid() <= d ensures Total(ls, d) <= queue.threshold {
      assert a[i] in Group(b);
      var j :| 0 <= j < |b| && b[j] == a[i];
    }
  }

  /** The pivot is at `p`: the bounds up to there can enter, those up to any earlier cursor
      cannot, and all these cursors show documents below the end. */
  ghost predicate Selects(docids: seq<nat>, bounds: seq<real>, threshold: real, hi: nat, p: nat) {
    && p < |docids| == |bounds|
    && (forall i :: 0 <= i <= p ==> docids[i] < hi)
    && (forall i :: 0 <= i <= p ==> Sum(bounds[..i]) <= threshold)
    && Sum(bounds[..p + 1]) > threshold
  }

  /** The search has come to cursor `n`. */
  ghost predicate Searched(docids: seq<nat>, bounds: seq<real>, threshold: real, hi: nat, n: nat) {
    && n <= |docids| == |bounds|
    && (forall i :: 0 <= i < n ==> docids[i] < hi)
    && (forall i :: 0 <= i <= n ==> Sum(bounds[..i]) <= threshold)
  }

  lemma SearchStep(docids: seq<nat>, bounds: seq<real>, threshold: real, hi: nat, n: nat)
    requires n < |docids| && Searched(docids, bounds, threshold, hi, n) && docids[n] < hi
    ensures if Sum(bounds[..n + 1]) > threshold then Selects(docids, bounds, threshold, hi, n)
            else Searched(docids, bounds, threshold, hi, n + 1)
  {
  }

  lemma SearchFails(docids: seq<nat>, bounds: seq<real>, threshold: real, hi: nat, n: nat)
    requires Searched(docids, bounds, threshold, hi, n) && (n < |docids| ==> hi <= docids[n])
    ensures forall p: nat :: !Selects(docids, bounds, threshold, hi, p)
  {
  }

  lemma SearchedSum(docids: seq<nat>, bounds: seq<real>, threshold: real, hi: nat, n: nat)
    requires Searched(docids, bounds, threshold, hi, n)
    ensures n <= |bounds| && Sum(bounds[..n]) <= threshold
  {
  }

  lemma SelectedSum(docids: seq<nat>, bounds: seq<real>, threshold: real, hi: nat, p: nat)
    requires Selects(docids, bounds, threshold, hi, p)
    ensures p < |bounds| && Sum(bounds[..p]) <= threshold < Sum(bounds[..p + 1])
  {
  }

  /** The first cursor at which the accumulated list bounds could enter the queue. */
  method FindPivot(ordered: seq<Cursor>, queue: TopkQueue, hi: nat) returns (found: bool, pivot: nat)
    requires SortedByDocid(ordered) && queue.threshold >= 0.0
    ensures found ==> Selects(Docids(ordered), Maxes(ordered), queue.threshold, hi, pivot)
    ensures !found ==> forall p: nat :: !Selects(Docids(ordered), Maxes(ordered), queue.threshold, hi, p)
    ensures pivot <= |ordered| && Sum(Maxes(ordered)[..pivot]) <= queue.threshold
    ensures found ==> pivot < |ordered| && ordered[pivot].Docid() < hi
    ensures found ==> Sum(Maxes(ordered)[..pivot + 1]) > queue.threshold
    ensures !found ==> forall i :: pivot <= i < |ordered| ==> hi <= ordered[i].Docid()
  {
    hide Selects, Searched, Sum;
    var upperBound := 0.0;
    pivot := 0;
    ghost var docids, bounds := Docids(ordered), Maxes(ordered);
    NothingSearched(docids, bounds, queue.threshold, hi);
    while pivot < |ordered|
      invariant pivot <= |ordered| && upperBound == Sum(bounds[..pivot])
      invariant Searched(docids, bounds, queue.threshold, hi, pivot)
    {
      if ordered[pivot].Docid() >= hi {
        break;
      }
      SumExtend(bounds, pivot);
      SearchStep(docids, bounds, queue.threshold, hi, pivot);
      upperBound := upperBound + ordered[pivot].maxScore;
      if queue.WouldEnter(upperBound) {
        SelectedSum(docids, bounds, queue.threshold, hi, pivot);
        return true, pivot;
      }
      pivot := pivot + 1;
    }
    SearchedSum(docids, bounds, queue.threshold, hi, pivot);
    SearchFails(docids, bounds, queue.threshold, hi, pivot);
    return false, pivot;
  }

  lemma NothingSearched(docids: seq<nat>, bounds: seq<real>, threshold: real, hi: nat)
    requires |docids| == |bounds| && threshold >= 0.0
    ensures Searched(docids, bounds, threshold, hi, 0) && Sum(bounds[..0]) == 0.0
  {
  }

  /* ----- Cursors that have reached the end of their list ----- */

  /** An exhausted cursor, and no other, shows the universe. */
  lemma ShownDocid(c: Cursor)
    requires c.Valid()
    ensures c.Docid() <= c.universe && (c.Docid() == c.universe <==> c.pos == |c.list.docs|)
  {
  }

  /** An exhausted cursor shows a document before the end exactly when the end lies past the
      universe. */
  lemma ExhaustedShowsIff(c: Cursor, hi: nat)
    requires c.Valid() && c.pos == |c.list.docs|
    ensures c.Docid() < hi <==> c.universe < hi
  {
  }

  /** No exhausted cursor becomes the pivot, whatever the bounds and the threshold, if and only
      if the end is at or below the universe. */
  lemma PivotHasPostingIff(universe: nat, hi: nat)
    ensures (forall docids, bounds, threshold: real, p: nat ::
              threshold >= 0.0 && Selects(docids, bounds, threshold, hi, p) && docids[p] <= universe ==> docids[p] < universe)
            <==> hi <= universe
  {
    if universe < hi {
      assert Sum([1.0][..0]) == 0.0 && [1.0][..1] == [1.0];
      assert Sum([1.0]) == 1.0;
      assert Selects([universe], [1.0], 0.0, hi, 0);
    }
  }

  /** An exhausted cursor of a collection of one document, in a range that ends at 2. */
  lemma ExhaustedIsSelected(c: Cursor)
    requires c.Valid() && c.pos == |c.list.docs| && c.universe == 1 && c.maxScore == 1.0
    ensures Selects(Docids([c]), Maxes([c]), 0.0, 2, 0)
  {
    assert Maxes([c])[..0] == [] && Maxes([c])[..1] == [1.0] && [1.0][..0] == [];
    assert Sum([1.0]) == 1.0;
  }

  /** Documents below the pivot can only be in the lists before it, whose bounds together
      cannot enter the queue. */
  lemma BelowPivot(
    ordered: seq<Cursor>, cursors: seq<Cursor>, threshold: real, pivot: nat, lo: nat, hi: nat, b: nat, d: nat)
    requires Arranges(ordered, cursors) && AllOk(ordered, lo, hi, b)
    requires pivot <= |ordered| && Sum(Maxes(ordered)[..pivot]) <= threshold
    requires forall i :: pivot <= i < |ordered| ==> d < ordered[i].Docid()
    requires lo <= d < hi && b <= d
    ensures Total(Lists(cursors), d) <= threshold
  {
    forall i | 0 <= i < |ordered|
      ensures i < pivot ==> ScoreAt(ordered[i].list, d) <= Maxes(ordered)[..pivot][i]
      ensures pivot <= i ==> ScoreAt(ordered[i].list, d) == 0.0
    {
      assert CursorOk(ordered[i], lo, hi, b);
      if i < pivot {
        ScoreAtMostMax(ordered[i], lo, hi, d);
      } else {
        PastMeansAbsent(ordered[i], d);
      }
    }
    BoundedByPrefix(ordered, cursors, Maxes(ordered)[..pivot], d);
  }

  /** Chooses the pivot and raises the frontier to its document, or to the end when no
      combination of the remaining lists can still enter the queue. */
  method ChoosePivot(
    ordered: seq<Cursor>, ghost cursors: seq<Cursor>, queue: TopkQueue,
    ghost offered: multiset<Entry>, ghost lo: nat, hi: nat, ghost b: nat)
    returns (found: bool, pivot: nat, ghost b': nat)
    requires Running(ordered, cursors, queue, offered, lo, hi, b)
    ensures Running(ordered, cursors, queue, offered, lo, hi, b') && b <= b'
    ensures found ==> pivot < |ordered| && lo <= ordered[pivot].Docid() < hi && ordered[pivot].Docid() <= b'
    ensures found ==> lo <= ordered[0].Docid() <= ordered[pivot].Docid()
    ensures !found ==> hi <= b'
  {
    hide PassedWeak, Sum, Ready;
    ReadyQueue(queue, Lists(cursors), offered, lo, hi, b);
    found, pivot := FindPivot(ordered, queue, hi);
    var p := if found then ordered[pivot].Docid() else hi;
    RaiseToPivot(ordered, cursors, queue, offered, lo, hi, b, pivot, p);
    b' := Max(b, p);
  }

  /** Documents that cannot enter the queue may be passed by the frontier. */
  lemma RaiseRunning(
    ordered: seq<Cursor>, cursors: seq<Cursor>, queue: TopkQueue, offered: multiset<Entry>, lo: nat, hi: nat, b: nat, b': nat)
    requires Running(ordered, cursors, queue, offered, lo, hi, b)
    requires forall d :: b <= d < b' && lo <= d < hi ==> Total(Lists(cursors), d) <= queue.threshold
    ensures Running(ordered, cursors, queue, offered, lo, hi, Max(b, b'))
  {
    RaiseFrontier(queue, Lists(cursors), offered, lo, hi, b, b');
    forall i | 0 <= i < |ordered| ensures CursorOk(ordered[i], lo, hi, Max(b, b')) {
      assert CursorOk(ordered[i], lo, hi, b);
    }
  }

  /** Having chosen a pivot, everything below its document is settled. */
  lemma RaiseToPivot(
    ordered: seq<Cursor>, cursors: seq<Cursor>, queue: TopkQueue, offered: multiset<Entry>,
    lo: nat, hi: nat, b: nat, pivot: nat, b': nat)
    requires Running(ordered, cursors, queue, offered, lo, hi, b)
    requires pivot <= |ordered| && Sum(Maxes(ordered)[..pivot]) <= queue.threshold
    requires forall i :: pivot <= i < |ordered| ==> b' <= ordered[i].Docid()
    ensures Running(ordered, cursors, queue, offered, lo, hi, Max(b, b'))
    ensures forall d :: b <= d < b' && lo <= d < hi ==> Total(Lists(cursors), d) <= queue.threshold
  {
    forall d | b <= d < b' && lo <= d < hi ensures Total(Lists(cursors), d) <= queue.threshold {
      BelowPivot(ordered, cursors, queue.threshold, pivot, lo, hi, b, d);
    }
    RaiseRunning(ordered, cursors, queue, offered, lo, hi, b, b');
  }

  /** `Running`, except that the cursor at `n` may have moved past its place. */
  ghost predicate Disordered(
    ordered: seq<Cursor>, ls: seq<PostingList>, n: nat, queue: TopkQueue, lo: nat, hi: nat, b: nat)
    reads ordered, queue
  {
    && SortedButFor(ordered, n)
    && AllOk(ordered, lo, hi, b)
    && PassedWeak(ordered, ls, queue, lo, hi, b)
  }

  method MoveOne(c: Cursor, x: nat, ghost lo: nat, ghost hi: nat, ghost b: nat)
    requires CursorOk(c, lo, hi, b) && x <= b
    modifies c`pos
    ensures CursorOk(c, lo, hi, b) && old(c.Docid()) <= c.Docid() && old(c.pos) <= c.pos
    ensures old(c.Docid()) < Min(x, hi) ==> c.pos > old(c.pos)
  {
    c.NextGeq(x);
  }

  method MoveCursor(
    ordered: seq<Cursor>, ghost ls: seq<PostingList>, n: nat, x: nat, queue: TopkQueue,
    ghost lo: nat, ghost hi: nat, ghost b: nat)
    requires Distinct(ordered) && SortedByDocid(ordered)
    requires AllOk(ordered, lo, hi, b) && PassedWeak(ordered, ls, queue, lo, hi, b)
    requires n < |ordered| && x <= b
    modifies Group(ordered)`pos
    ensures Disordered(ordered, ls, n, queue, lo, hi, b)
    ensures forall i :: 0 <= i < |ordered| && i != n ==> ordered[i].pos == old(ordered[i].pos)
    ensures ordered[n].pos >= old(ordered[n].pos)
    ensures old(ordered[n].Docid()) < Min(x, hi) ==> ordered[n].pos > old(ordered[n].pos)
  {
    hide CursorOk;
    assert CursorOk(ordered[n], lo, hi, b);
    assert ordered[n] in Group(ordered);
    DistinctFrom(ordered, n);
    assert forall i :: 0 <= i < |ordered| ==> CursorOk(ordered[i], lo, hi, b);
    MoveOne(ordered[n], x, lo, hi, b);
  }

  /** Advances one list to `x` and restores the order of the cursors. */
  method AdvanceList(
    ordered: seq<Cursor>, n: nat, x: nat, swapTies: bool,
    ghost cursors: seq<Cursor>, queue: TopkQueue, ghost offered: multiset<Entry>, ghost lo: nat, ghost hi: nat, ghost b: nat)
    returns (o: seq<Cursor>)
    requires Running(ordered, cursors, queue, offered, lo, hi, b)
    requires n < |ordered| && ordered[n].Docid() < x <= b && ordered[n].Docid() < hi
    modifies Group(ordered)`pos
    ensures Running(o, cursors, queue, offered, lo, hi, b) && Arranges(o, ordered)
    ensures SumLeft(Left(o)) < old(SumLeft(Left(ordered)))
  {
    hide CursorOk, QueueReady, PassedWeak, SortedByDocid, SumLeft;
    ghost var left := Left(ordered);
    MoveCursor(ordered, Lists(cursors), n, x, queue, lo, hi, b);
    PositionsLeft(ordered, left, n, lo, hi, b);
    o := BubbleDown(ordered, n, swapTies);
    ArrangedOk(o, ordered, lo, hi, b);
    ArrangedPassed(o, ordered, Lists(cursors), queue, lo, hi, b);
    ArrangedLeft(o, ordered);
  }

  lemma PositionsLeft(ordered: seq<Cursor>, before: seq<int>, n: nat, lo: nat, hi: nat, b: nat)
    requires AllOk(ordered, lo, hi, b) && n < |ordered| == |before|
    requires forall i :: 0 <= i < |ordered| ==> Left(ordered)[i] <= before[i]
    requires Left(ordered)[n] < before[n]
    ensures 0 <= SumLeft(Left(ordered)) < SumLeft(before)
  {
    assert forall i :: 0 <= i < |ordered| ==> CursorOk(ordered[i], lo, hi, b);
    SumLeftDecreases(before, Left(ordered));
  }

  /* ----- Stepping the leading cursors over the pivot ----- */

  /** The first `n` cursors have stepped over `p`; the others still stand where they stood. */
  ghost predicate PartlyStepped(
    ordered: seq<Cursor>, n: nat, left: seq<int>, docids: seq<nat>, lo: nat, hi: nat, b: nat, p: nat)
    reads ordered
  {
    && n <= |ordered| == |left| == |docids|
    && (forall j :: 0 <= j < n ==> Stepped(ordered[j], lo, hi, b, p) && Left(ordered)[j] < left[j])
    && (forall j :: n <= j < |ordered| ==>
          CursorOk(ordered[j], lo, hi, b) && Left(ordered)[j] == left[j] && ordered[j].Docid() == docids[j])
  }

  lemma NoneStepped(ordered: seq<Cursor>, lo: nat, hi: nat, b: nat, p: nat)
    requires AllOk(ordered, lo, hi, b) && SortedByDocid(ordered)
    ensures PartlyStepped(ordered, 0, Left(ordered), Docids(ordered), lo, hi, b, p)
    ensures forall i, j :: 0 <= i < j < |ordered| ==> Docids(ordered)[i] <= Docids(ordered)[j]
  {
  }

  method StepOver(c: Cursor, p: nat, ghost lo: nat, ghost hi: nat, ghost b: nat)
    requires CursorOk(c, lo, hi, b) && c.Docid() == p < hi && p <= b
    modifies c`pos
    ensures Stepped(c, lo, hi, b, p) && c.pos == old(c.pos) + 1
  {
    c.Next();
  }

  method StepOne(
    ordered: seq<Cursor>, n: nat, ghost left: seq<int>, ghost docids: seq<nat>,
    p: nat, ghost lo: nat, ghost hi: nat, ghost b: nat)
    requires Distinct(ordered) && n < |ordered| && PartlyStepped(ordered, n, left, docids, lo, hi, b, p)
    requires ordered[n].Docid() == p < hi && p <= b
    modifies Group(ordered)`pos
    ensures PartlyStepped(ordered, n + 1, left, docids, lo, hi, b, p)
  {
    hide CursorOk, Stepped;
    assert CursorOk(ordered[n], lo, hi, b);
    DistinctFrom(ordered, n);
    assert ordered[n] in Group(ordered);
    StepOver(ordered[n], p, lo, hi, b);
    assert Left(ordered)[n] == left[n] - 1;
  }

  /** Once the cursors standing on `p` have stepped over it, all of them are past it. */
  lemma FinishSteps(
    ordered: seq<Cursor>, n: nat, left: seq<int>, docids: seq<nat>, p: nat, lo: nat, hi: nat, b: nat)
    requires 0 < n <= |ordered| && PartlyStepped(ordered, n, left, docids, lo, hi, b, p)
    requires forall i, j :: 0 <= i < j < |docids| ==> docids[i] <= docids[j]
    requires docids[0] == p && (n < |ordered| ==> ordered[n].Docid() != p)
    ensures AllStepped(ordered, lo, hi, b, p)
    ensures SumLeft(Left(ordered)) < SumLeft(left)
  {
    hide SumLeft;
    forall j | n <= j < |ordered| ensures Stepped(ordered[j], lo, hi, b, p) {
      assert CursorOk(ordered[j], lo, hi, b);
      assert docids[0] <= docids[n] <= docids[j];
    }
    SteppedLeft(ordered, left, lo, hi, b, p);
  }

  /** The total of `p` as a sum over the first `n` cursors, the others standing past it. */
  lemma LeadingSum(ordered: seq<Cursor>, n: nat, p: nat, lo: nat, hi: nat, b: nat)
    requires AllOk(ordered, lo, hi, b) && n <= |ordered|
    requires forall j :: n <= j < |ordered| ==> p < ordered[j].Docid()
    ensures Total(Lists(ordered)[..n], p) <= Total(Lists(ordered), p)
    ensures b <= p ==> Total(Lists(ordered)[..n], p) == Total(Lists(ordered), p)
  {
    var ls := Lists(ordered);
    forall j | 0 <= j < |ls| ensures NonNegative(ls[j]) && (b <= p && n <= j ==> ScoreAt(ls[j], p) == 0.0) {
      assert CursorOk(ordered[j], lo, hi, b);
      if b <= p && n <= j {
        PastMeansAbsent(ordered[j], p);
      }
    }
    TotalOfPrefixAtMost(ls, n, p);
    if b <= p {
      TotalPrefix(ls, n, p);
    }
  }

  /** How many leading cursors stand on `p`. */
  ghost function Leading(docids: seq<nat>, p: nat): (n: nat)
    ensures n <= |docids|
    ensures forall i :: 0 <= i < n ==> docids[i] == p
    ensures n < |docids| ==> docids[n] != p
  {
    if docids == [] || docids[0] != p then 0 else 1 + Leading(docids[1..], p)
  }

  lemma SumOverLeading(ordered: seq<Cursor>, p: nat, lo: nat, hi: nat, b: nat)
    requires AllOk(ordered, lo, hi, b) && SortedByDocid(ordered)
    requires |ordered| > 0 && ordered[0].Docid() == p
    ensures var n := Leading(Docids(ordered), p);
      && 0 < n <= |ordered|
      && (forall j :: n <= j < |ordered| ==> p < ordered[j].Docid())
      && Total(Lists(ordered)[..n], p) <= Total(Lists(ordered), p)
      && (b <= p ==> Total(Lists(ordered)[..n], p) == Total(Lists(ordered), p))
  {
    var n := Leading(Docids(ordered), p);
    forall j | n <= j < |ordered| ensures p < ordered[j].Docid() {
      assert ordered[0].Docid() <= ordered[n].Docid() <= ordered[j].Docid();
    }
    LeadingSum(ordered, n, p, lo, hi, b);
  }

  /* ----- Offering the evaluated pivot ----- */

  /** Documents from where some cursor stands up to the frontier cannot enter the queue. */
  lemma WeakFromHere(
    ordered: seq<Cursor>, ls: seq<PostingList>, queue: TopkQueue, lo: nat, hi: nat, b: nat)
    requires |ordered| > 0 && PassedWeak(ordered, ls, queue, lo, hi, b)
    ensures forall d :: ordered[0].Docid() <= d < b && lo <= d < hi ==> Total(ls, d) <= queue.threshold
  {
  }

  lemma SteppedPassed(
    ordered: seq<Cursor>, ls: seq<PostingList>, queue: TopkQueue, lo: nat, hi: nat, b: nat, p: nat)
    requires AllStepped(ordered, lo, hi, b, p)
    requires forall d :: p <= d < b && lo <= d < hi ==> Total(ls, d) <= queue.threshold
    ensures AllOk(ordered, lo, hi, Max(b, p + 1)) && PassedWeak(ordered, ls, queue, lo, hi, Max(b, p + 1))
  {
    forall i | 0 <= i < |ordered| ensures CursorOk(ordered[i], lo, hi, Max(b, p + 1)) && p < ordered[i].Docid() {
      assert Stepped(ordered[i], lo, hi, b, p);
    }
  }

  /** Offers the evaluated pivot to the queue and sorts the cursors again. */
  method OfferPivot(
    ordered: seq<Cursor>, ghost cursors: seq<Cursor>, queue: TopkQueue, p: nat, score: real,
    ghost offered: multiset<Entry>, ghost lo: nat, ghost hi: nat, ghost b: nat)
    returns (o: seq<Cursor>)
    requires Arranges(ordered, cursors) && Distinct(ordered) && AllStepped(ordered, lo, hi, b, p)
    requires QueueReady(queue, Lists(cursors), offered, lo, hi, b)
    requires forall d :: p <= d < b && lo <= d < hi ==> Total(Lists(cursors), d) <= queue.threshold
    requires lo <= p < hi && p <= b
    requires score > queue.threshold ==> p == b && score == Total(Lists(cursors), p)
    requires score <= queue.threshold ==> p < b || Total(Lists(cursors), p) <= queue.threshold
    modifies queue
    ensures queue.floor == old(queue.floor)
    ensures Running(o, cursors, queue, offered, lo, hi, Max(b, p + 1))
    ensures SumLeft(Left(o)) == SumLeft(Left(ordered))
  {
    hide AllStepped, SumLeft, AllOk, PassedWeak, SortedByDocid, QueueReady, Total;
    var _ := Offer(queue, score, p, Lists(cursors), offered, lo, hi, b);
    SteppedPassed(ordered, Lists(cursors), queue, lo, hi, b, p);
    o := SortByDocid(ordered);
    ArrangedOk(o, ordered, lo, hi, Max(b, p + 1));
    ArrangedPassed(o, ordered, Lists(cursors), queue, lo, hi, Max(b, p + 1));
    ArrangedLeft(o, ordered);
  }

  /** The state in which a traversal of [lo, hi) may begin. */
  ghost predicate AtStart(cursors: seq<Cursor>, queue: TopkQueue, offered: multiset<Entry>, lo: nat, hi: nat)
    reads cursors, queue
  {
    Distinct(cursors) && AllOk(cursors, lo, hi, lo) && Starts(queue, offered)
  }

  method Begin(cursors: seq<Cursor>, queue: TopkQueue, ghost offered: multiset<Entry>, ghost lo: nat, ghost hi: nat)
    returns (ordered: seq<Cursor>)
    requires AtStart(cursors, queue, offered, lo, hi)
    ensures Running(ordered, cursors, queue, offered, lo, hi, lo)
  {
    hide SortedByDocid, QueueReady, Starts;
    StartTraversal(queue, Lists(cursors), offered, lo, hi);
    ordered := SortByDocid(cursors);
    ArrangedOk(ordered, cursors, lo, hi, lo);
  }

  lemma Finish(
    ordered: seq<Cursor>, cursors: seq<Cursor>, queue: TopkQueue, offered: multiset<Entry>, lo: nat, hi: nat, b: nat)
    requires Running(ordered, cursors, queue, offered, lo, hi, b) && hi <= b
    ensures queue.Valid() && queue.Exact(offered + EntriesOf(Lists(cursors), Docs(lo, hi)))
    ensures AllValid(cursors)
  {
    FinishTraversal(queue, Lists(cursors), offered, lo, hi, b);
    ArrangedOk(cursors, ordered, lo, hi, b);
    forall i | 0 <= i < |cursors| ensures cursors[i].Valid() {
      assert CursorOk(cursors[i], lo, hi, b);
    }
  }

  lemma RunningArranges(
    ordered: seq<Cursor>, cursors: seq<Cursor>, queue: TopkQueue, offered: multiset<Entry>, lo: nat, hi: nat, b: nat)
    requires Running(ordered, cursors, queue, offered, lo, hi, b)
    ensures Arranges(ordered, cursors) && SumLeft(Left(ordered)) >= 0
  {
    assert forall i :: 0 <= i < |ordered| ==> CursorOk(ordered[i], lo, hi, b);
    SumLeftDecreases(Left(ordered), Left(ordered));
  }

  lemma EmptyQuery(cursors: seq<Cursor>, queue: TopkQueue, offered: multiset<Entry>, lo: nat, hi: nat)
    requires |cursors| == 0 && Starts(queue, offered)
    ensures queue.Valid() && queue.Exact(offered + EntriesOf(Lists(cursors), Docs(lo, hi)))
  {
    StartTraversal(queue, Lists(cursors), offered, lo, hi);
    QueueThreshold(queue);
    FinishTraversal(queue, Lists(cursors), offered, lo, hi, lo);
  }
}
