/** Variable-sized blocks chosen by an approximate shortest path, with windows that keep
    their maximum in a monotone queue.
 */
module ScoreOptPartition {
  import opened Postings
  import opened Blocks

  /* ----- The window and its queue ----- */

  ghost function SumOf(s: seq<real>, lo: nat, hi: nat): real
    requires lo <= hi <= |s|
  {
    if lo == hi then 0.0 else SumOf(s, lo, hi - 1) + s[hi - 1]
  }

  lemma {:induction false} SumDropFirst(s: seq<real>, lo: nat, hi: nat)
    requires lo < hi <= |s|
    ensures SumOf(s, lo + 1, hi) == SumOf(s, lo, hi) - s[lo]
    decreases hi
  {
    if lo + 1 < hi {
      SumDropFirst(s, lo, hi - 1);
    } else {
      assert SumOf(s, lo, lo) == 0.0;
    }
  }

  lemma {:induction false} SumAtMost(s: seq<real>, lo: nat, hi: nat, m: real)
    requires lo <= hi <= |s| && forall i :: lo <= i < hi ==> s[i] <= m
    ensures SumOf(s, lo, hi) <= (hi - lo) as real * m
    decreases hi
  {
    if lo < hi {
      SumAtMost(s, lo, hi - 1, m);
      assert (hi - lo) as real == (hi - 1 - lo) as real + 1.0;
    }
  }

  /** The elements that no later element of the window exceeds, first to last. */
  ghost function Tops(s: seq<real>, lo: nat, hi: nat): (q: seq<real>)
    requires lo <= hi <= |s|
    decreases hi - lo
  {
    if lo == hi then [] else (if IsTop(s, lo, hi) then [s[lo]] else []) + Tops(s, lo + 1, hi)
  }

  ghost predicate IsTop(s: seq<real>, i: nat, hi: nat)
    requires i < hi <= |s|
  {
    forall j :: i <= j < hi ==> s[j] <= s[i]
  }

  /** The first of them is the maximum of the window. */
  lemma {:induction false} TopsStartWithMax(s: seq<real>, lo: nat, hi: nat)
    requires lo < hi <= |s| && forall i :: 0 <= i < |s| ==> s[i] >= 0.0
    ensures |Tops(s, lo, hi)| > 0 && Tops(s, lo, hi)[0] == MaxOf(s, lo, hi)
    decreases hi - lo
  {
    if IsTop(s, lo, hi) {
      MaxIs(s, lo, hi, s[lo]);
    } else {
      var j :| lo <= j < hi && s[j] > s[lo];
      TopsStartWithMax(s, lo + 1, hi);
      MaxIs(s, lo, hi, MaxOf(s, lo + 1, hi));
    }
  }

  /** What pushing a value leaves of the queue: smaller values go from the back. */
  function PopSmaller(q: seq<real>, v: real): (r: seq<real>)
    ensures |r| <= |q| && r == q[..|r|]
    ensures r != [] ==> r[|r| - 1] >= v
    ensures forall i :: |r| <= i < |q| ==> q[i] < v
  {
    if q != [] && q[|q| - 1] < v then PopSmaller(q[..|q| - 1], v) else q
  }

  lemma {:induction false} PopSmallerCons(x: real, q: seq<real>, v: real)
    requires forall i :: 0 <= i < |q| ==> q[i] <= x
    ensures PopSmaller([x] + q, v) == (if x >= v then [x] + PopSmaller(q, v) else [])
    ensures x < v ==> PopSmaller(q, v) == []
    decreases |q|
  {
    if q == [] {
      assert [x] + q == [x] && [x][..0] == [];
    } else {
      assert ([x] + q)[..|q|] == [x] + q[..|q| - 1];
      assert ([x] + q)[|q|] == q[|q| - 1];
      if q[|q| - 1] < v {
        PopSmallerCons(x, q[..|q| - 1], v);
      }
    }
  }

  lemma {:induction false} TopsInWindow(s: seq<real>, lo: nat, hi: nat, m: real)
    requires lo <= hi <= |s| && forall i :: lo <= i < hi ==> s[i] <= m
    ensures forall i :: 0 <= i < |Tops(s, lo, hi)| ==> Tops(s, lo, hi)[i] <= m
    decreases hi - lo
  {
    if lo < hi {
      TopsInWindow(s, lo + 1, hi, m);
    }
  }

  lemma TopsUnfold(s: seq<real>, lo: nat, hi: nat)
    requires lo < hi <= |s|
    ensures Tops(s, lo, lo) == []
    ensures Tops(s, lo, hi) == (if IsTop(s, lo, hi) then [s[lo]] + Tops(s, lo + 1, hi) else Tops(s, lo + 1, hi))
    ensures Tops(s, hi, hi) == []
  {
  }

  lemma IsTopExtend(s: seq<real>, lo: nat, hi: nat)
    requires lo <= hi < |s|
    ensures lo < hi ==> (IsTop(s, lo, hi + 1) <==> IsTop(s, lo, hi) && s[lo] >= s[hi])
    ensures IsTop(s, hi, hi + 1)
    ensures lo < hi && IsTop(s, lo, hi) ==> forall i :: lo + 1 <= i < hi ==> s[i] <= s[lo]
  {
  }

  lemma PushBelow(x: real, q: seq<real>, v: real)
    requires forall i :: 0 <= i < |q| ==> q[i] <= x
    ensures PopSmaller([x] + q, v) + [v] == (if x >= v then [x] + (PopSmaller(q, v) + [v]) else PopSmaller(q, v) + [v])
  {
    PopSmallerCons(x, q, v);
  }

  /** Moving the end of the window: pop what is smaller, then push. */
  lemma {:induction false} TopsExtend(s: seq<real>, lo: nat, hi: nat)
    requires lo <= hi < |s|
    ensures Tops(s, lo, hi + 1) == PopSmaller(Tops(s, lo, hi), s[hi]) + [s[hi]]
    decreases hi - lo
  {
    hide IsTop, Tops, PopSmaller;
    TopsUnfold(s, lo, hi + 1);
    IsTopExtend(s, lo, hi);
    if lo == hi {
      TopsUnfold(s, hi, hi + 1);
      NothingToPop(s[hi]);
    } else {
      TopsExtend(s, lo + 1, hi);
      TopsUnfold(s, lo, hi);
      if IsTop(s, lo, hi) {
        TopsInWindow(s, lo + 1, hi, s[lo]);
        PushBelow(s[lo], Tops(s, lo + 1, hi), s[hi]);
        assert Tops(s, lo + 1, hi + 1) == PopSmaller(Tops(s, lo + 1, hi), s[hi]) + [s[hi]];
      } else {
        assert Tops(s, lo, hi + 1) == Tops(s, lo + 1, hi + 1);
      }
    }
  }

  lemma NothingToPop(v: real)
    ensures PopSmaller([], v) + [v] == [v] && [v] + [] == [v]
  {
  }

  /** Moving the start of the window: its value leaves the queue when it is the front. */
  lemma TopsDropFirst(s: seq<real>, lo: nat, hi: nat)
    requires lo < hi <= |s| && forall i :: 0 <= i < |s| ==> s[i] >= 0.0
    ensures |Tops(s, lo, hi)| > 0
    ensures Tops(s, lo + 1, hi) == (if s[lo] == Tops(s, lo, hi)[0] then Tops(s, lo, hi)[1..] else Tops(s, lo, hi))
  {
    TopsStartWithMax(s, lo, hi);
  }

  /** What a block costs: how far its scores fall short of its maximum, and a fixed part. */
  ghost function Cost(s: seq<real>, lo: nat, hi: nat, fixedCost: real): real
    requires lo <= hi <= |s|
  {
    (hi - lo) as real * MaxOf(s, lo, hi) - SumOf(s, lo, hi) + fixedCost
  }

  lemma CostAtLeastFixed(s: seq<real>, lo: nat, hi: nat, fixedCost: real)
    requires lo <= hi <= |s|
    ensures Cost(s, lo, hi, fixedCost) >= fixedCost
  {
    SumAtMost(s, lo, hi, MaxOf(s, lo, hi));
  }

  lemma CostOfOne(s: seq<real>, i: nat, fixedCost: real)
    requires i < |s| && s[i] >= 0.0
    ensures Cost(s, i, i + 1, fixedCost) == fixedCost
  {
    MaxIs(s, i, i + 1, s[i]);
    assert SumOf(s, i, i) == 0.0;
  }

  lemma {:induction false} MaxDropFirst(s: seq<real>, lo: nat, hi: nat)
    requires lo < hi <= |s|
    ensures MaxOf(s, lo + 1, hi) <= MaxOf(s, lo, hi) && s[lo] <= MaxOf(s, lo, hi)
  {
  }

  /** Leaving out its first posting does not make a block dearer. */
  lemma CostDropFirst(s: seq<real>, lo: nat, hi: nat, fixedCost: real)
    requires lo < hi <= |s|
    ensures Cost(s, lo + 1, hi, fixedCost) <= Cost(s, lo, hi, fixedCost)
  {
    hide MaxOf, SumOf;
    MaxDropFirst(s, lo, hi);
    SumDropFirst(s, lo, hi);
    var first := lo + 1;
    OneLess(hi - lo, MaxOf(s, lo, hi), MaxOf(s, first, hi), s[lo]);
  }

  lemma OneLess(n: nat, m: real, m': real, first: real)
    requires n > 0 && m' <= m && first <= m
    ensures (n - 1) as real * m' <= n as real * m - first
  {
    var k, all := (n - 1) as real, n as real;
    assert all == k + 1.0;
    OneLessTimes(k, all, m, m', first);
  }

  lemma OneLessTimes(k: real, n: real, m: real, m': real, first: real)
    requires k >= 0.0 && n == k + 1.0 && m' <= m && first <= m
    ensures k * m' <= n * m - first
  {
    assert k * m' <= k * m;
    assert n * m == k * m + m;
  }

  ghost predicate CostsLess(s: seq<real>, fixedCost: real, bound: real, lo: nat, v: nat) {
    lo <= v <= |s| && Cost(s, lo, v, fixedCost) < bound
  }

  /** Blocks from `lo` that end before `hi` cost less than the bound. */
  ghost predicate CheapBefore(s: seq<real>, fixedCost: real, bound: real, lo: nat, hi: nat) {
    forall v: nat :: lo < v < hi && v <= |s| ==> CostsLess(s, fixedCost, bound, lo, v)
  }

  lemma CheapDropFirst(s: seq<real>, fixedCost: real, bound: real, lo: nat, hi: nat)
    requires CheapBefore(s, fixedCost, bound, lo, hi)
    ensures CheapBefore(s, fixedCost, bound, lo + 1, hi)
  {
    hide Cost;
    var first := lo + 1;
    forall v: nat | first < v < hi && v <= |s| ensures CostsLess(s, fixedCost, bound, first, v) {
      assert CostsLess(s, fixedCost, bound, lo, v);
      CostDropFirst(s, lo, v, fixedCost);
    }
  }

  lemma CheapExtend(s: seq<real>, fixedCost: real, bound: real, lo: nat, hi: nat)
    requires CheapBefore(s, fixedCost, bound, lo, hi) && hi <= |s|
    requires lo < hi ==> Cost(s, lo, hi, fixedCost) < bound
    ensures CheapBefore(s, fixedCost, bound, lo, hi + 1)
  {
    hide Cost;
  }

  lemma CheapLarger(s: seq<real>, fixedCost: real, a: real, b: real, lo: nat, hi: nat)
    requires CheapBefore(s, fixedCost, a, lo, hi) && a <= b
    ensures CheapBefore(s, fixedCost, b, lo, hi)
  {
    hide Cost;
    forall v: nat | lo < v < hi && v <= |s| ensures CostsLess(s, fixedCost, b, lo, v) {
      assert CostsLess(s, fixedCost, a, lo, v);
    }
  }

  lemma CheapEarlier(s: seq<real>, fixedCost: real, bound: real, lo: nat, mid: nat, hi: nat)
    requires CheapBefore(s, fixedCost, bound, lo, hi) && mid <= hi
    ensures CheapBefore(s, fixedCost, bound, lo, mid)
  {
    hide Cost;
  }

  /** A block from `lo` may end at `hi` at the farthest: every shorter one costs less than the
      bound, and this one does not, or the list ends. */
  ghost predicate Admits(s: seq<real>, fixedCost: real, bound: real, lo: nat, hi: nat) {
    && lo < hi <= |s| && CheapBefore(s, fixedCost, bound, lo, hi)
    && (hi == |s| || Cost(s, lo, hi, fixedCost) >= bound)
  }

  lemma AdmitsOne(s: seq<real>, fixedCost: real, bound: real, lo: nat, a: nat, b: nat)
    requires Admits(s, fixedCost, bound, lo, a) && Admits(s, fixedCost, bound, lo, b)
    ensures a == b
  {
    hide Cost;
    assert a < b ==> CostsLess(s, fixedCost, bound, lo, a);
    assert b < a ==> CostsLess(s, fixedCost, bound, lo, b);
  }

  class ScoreWindow {
    const scores: seq<real>
    const fixedCost: real
    const costUpperBound: real
    var start: nat
    var end: nat
    var maxQueue: seq<real>
    var sum: real

    ghost predicate Valid()
      reads this
    {
      && start <= end <= |scores|
      && (forall i :: 0 <= i < |scores| ==> scores[i] >= 0.0)
      && maxQueue == Tops(scores, start, end)
      && sum == SumOf(scores, start, end)
    }

    constructor (scores: seq<real>, costUpperBound: real, fixedCost: real)
      requires forall i :: 0 <= i < |scores| ==> scores[i] >= 0.0
      ensures Valid() && start == 0 && end == 0
      ensures this.scores == scores && this.fixedCost == fixedCost && this.costUpperBound == costUpperBound
    {
      this.scores, this.costUpperBound, this.fixedCost := scores, costUpperBound, fixedCost;
      start, end, maxQueue, sum := 0, 0, [], 0.0;
    }

    method AdvanceEnd()
      requires Valid() && end < |scores|
      modifies this
      ensures Valid() && start == old(start) && end == old(end) + 1
    {
      TopsExtend(scores, start, end);
      var v := scores[end];
      sum := sum + v;
      PopBack(v);
      maxQueue := maxQueue + [v];
      end := end + 1;
    }

    method PopBack(v: real)
      modifies this`maxQueue
      ensures maxQueue == PopSmaller(old(maxQueue), v)
    {
      while maxQueue != [] && maxQueue[|maxQueue| - 1] < v
        invariant PopSmaller(maxQueue, v) == PopSmaller(old(maxQueue), v)
        decreases |maxQueue|
      {
        maxQueue := maxQueue[..|maxQueue| - 1];
      }
    }

    method AdvanceStart()
      requires Valid() && start < end
      modifies this
      ensures Valid() && start == old(start) + 1 && end == old(end)
    {
      TopsDropFirst(scores, start, end);
      SumDropFirst(scores, start, end);
      var v := scores[start];
      if v == maxQueue[0] {
        maxQueue := maxQueue[1..];
      }
      sum := sum - v;
      start := start + 1;
    }

    method WindowCost() returns (cost: real)
      requires Valid() && start < end
      ensures cost == Cost(scores, start, end, fixedCost)
    {
      hide Tops, MaxOf, SumOf;
      TopsStartWithMax(scores, start, end);
      if end - start < 2 {
        CostOfOne(scores, start, fixedCost);
        return fixedCost;
      }
      return (end - start) as real * maxQueue[0] - sum + fixedCost;
    }

    method Max() returns (m: real)
      requires Valid() && start < end
      ensures m == MaxOf(scores, start, end)
    {
      TopsStartWithMax(scores, start, end);
      return maxQueue[0];
    }
  }

  /* ----- Shortest paths ----- */

  /** Node v was reached from an earlier node by a block whose maximum and cost are on record. */
  ghost predicate Reached(
    s: seq<real>, fixedCost: real, single: real, i: nat, minCost: seq<real>, path: seq<nat>, maxs: seq<real>, v: nat)
  {
    && v <= |s| && |minCost| == |path| == |maxs| == |s| + 1
    && path[v] < v && path[v] <= i
    && maxs[v] == MaxOf(s, path[v], v)
    && minCost[v] == minCost[path[v]] + Cost(s, path[v], v, fixedCost)
    && (path[v] == 0 || minCost[path[v]] < single)
  }

  /** The tables while edges leave node `i`.  Every node starts at the cost of a single block,
      so whatever is cheaper was reached; the end is described by a single block until it is. */
  ghost predicate Tables(
    s: seq<real>, fixedCost: real, single: real, i: nat, minCost: seq<real>, path: seq<nat>, maxs: seq<real>)
  {
    && |minCost| == |path| == |maxs| == |s| + 1
    && minCost[0] == 0.0
    && (forall v :: 0 < v <= |s| ==> minCost[v] <= single)
    && (forall v :: 0 < v <= |s| && minCost[v] < single ==> Reached(s, fixedCost, single, i, minCost, path, maxs, v))
    && (minCost[|s|] == single ==> path[|s|] == 0 && maxs[|s|] == MaxOf(s, 0, |s|))
  }

  lemma Relax(
    s: seq<real>, fixedCost: real, single: real, i: nat, minCost: seq<real>, path: seq<nat>, maxs: seq<real>, end: nat)
    requires Tables(s, fixedCost, single, i, minCost, path, maxs) && fixedCost >= 0.0
    requires i < end <= |s| && minCost[i] + Cost(s, i, end, fixedCost) < minCost[end]
    ensures Tables(s, fixedCost, single, i,
              minCost[end := minCost[i] + Cost(s, i, end, fixedCost)], path[end := i], maxs[end := MaxOf(s, i, end)])
  {
    var minCost', path', maxs' :=
      minCost[end := minCost[i] + Cost(s, i, end, fixedCost)], path[end := i], maxs[end := MaxOf(s, i, end)];
    CostAtLeastFixed(s, i, end, fixedCost);
    hide Cost, MaxOf, Tables, Reached;
    TablesAt(s, fixedCost, single, i, minCost, path, maxs, end);
    TablesAt(s, fixedCost, single, i, minCost, path, maxs, i);
    NewlyReached(s, fixedCost, single, i, minCost, path, maxs, end);
    forall v | 0 < v <= |s| && minCost'[v] < single
      ensures Reached(s, fixedCost, single, i, minCost', path', maxs', v)
    {
      if v != end {
        TablesAt(s, fixedCost, single, i, minCost, path, maxs, v);
        StillReached(s, fixedCost, single, i, minCost, path, maxs, v, end);
      }
    }
    IntoTables(s, fixedCost, single, i, minCost, path, maxs, minCost', path', maxs', end);
  }

  lemma NewlyReached(
    s: seq<real>, fixedCost: real, single: real, i: nat, minCost: seq<real>, path: seq<nat>, maxs: seq<real>, end: nat)
    requires |minCost| == |path| == |maxs| == |s| + 1 && i < end <= |s|
    requires i == 0 || minCost[i] < single
    ensures Reached(s, fixedCost, single, i, minCost[end := minCost[i] + Cost(s, i, end, fixedCost)],
              path[end := i], maxs[end := MaxOf(s, i, end)], end)
  {
    hide Cost, MaxOf;
  }

  lemma StillReached(
    s: seq<real>, fixedCost: real, single: real, i: nat, minCost: seq<real>, path: seq<nat>, maxs: seq<real>,
    v: nat, end: nat)
    requires Reached(s, fixedCost, single, i, minCost, path, maxs, v) && v != end && i < end <= |s|
    ensures Reached(s, fixedCost, single, i, minCost[end := minCost[i] + Cost(s, i, end, fixedCost)],
              path[end := i], maxs[end := MaxOf(s, i, end)], v)
  {
    hide Cost, MaxOf;
  }

  lemma TablesAt(
    s: seq<real>, fixedCost: real, single: real, i: nat, minCost: seq<real>, path: seq<nat>, maxs: seq<real>, v: nat)
    requires Tables(s, fixedCost, single, i, minCost, path, maxs) && v <= |s|
    ensures |minCost| == |path| == |maxs| == |s| + 1
    ensures v == 0 ==> minCost[v] == 0.0
    ensures v > 0 ==> minCost[v] <= single
    ensures v > 0 && minCost[v] < single ==> Reached(s, fixedCost, single, i, minCost, path, maxs, v)
  {
  }

  lemma IntoTables(
    s: seq<real>, fixedCost: real, single: real, i: nat, minCost: seq<real>, path: seq<nat>, maxs: seq<real>,
    minCost': seq<real>, path': seq<nat>, maxs': seq<real>, end: nat)
    requires Tables(s, fixedCost, single, i, minCost, path, maxs) && 0 < end <= |s|
    requires |minCost'| == |path'| == |maxs'| == |s| + 1 && minCost'[end] < single
    requires forall v :: 0 <= v <= |s| && v != end ==>
               minCost'[v] == minCost[v] && path'[v] == path[v] && maxs'[v] == maxs[v]
    requires forall v :: 0 < v <= |s| && minCost'[v] < single ==>
               Reached(s, fixedCost, single, i, minCost', path', maxs', v)
    ensures Tables(s, fixedCost, single, i, minCost', path', maxs')
  {
    hide Cost, MaxOf, Reached;
  }

  lemma NextNode(
    s: seq<real>, fixedCost: real, single: real, i: nat, minCost: seq<real>, path: seq<nat>, maxs: seq<real>)
    requires Tables(s, fixedCost, single, i, minCost, path, maxs)
    ensures Tables(s, fixedCost, single, i + 1, minCost, path, maxs)
  {
    hide Cost, MaxOf;
    forall v | 0 < v <= |s| && minCost[v] < single
      ensures Reached(s, fixedCost, single, i + 1, minCost, path, maxs, v)
    {
      assert Reached(s, fixedCost, single, i, minCost, path, maxs, v);
    }
  }

  lemma TableSizes(
    s: seq<real>, fixedCost: real, single: real, i: nat, minCost: seq<real>, path: seq<nat>, maxs: seq<real>)
    requires Tables(s, fixedCost, single, i, minCost, path, maxs)
    ensures |minCost| == |path| == |maxs| == |s| + 1
  {
  }

  ghost predicate WindowAt(w: ScoreWindow, s: seq<real>, fixedCost: real, i: nat)
    reads w
  {
    && w.Valid() && w.scores == s && w.fixedCost == fixedCost && w.start == i
    && CheapBefore(s, fixedCost, w.costUpperBound, i, w.end)
  }

  /** The costs on record only fell, and those up to node i stand. */
  ghost predicate Cheaper(before: seq<real>, after: seq<real>, i: nat) {
    && |before| == |after| && (forall v :: 0 <= v < |before| ==> after[v] <= before[v])
    && forall v :: 0 <= v <= i && v < |before| ==> after[v] == before[v]
  }

  /** No node costs more than over the edge that leads from i to it as far as the bound admits. */
  ghost predicate EdgeUsed(s: seq<real>, fixedCost: real, bound: real, minCost: seq<real>, i: nat) {
    |minCost| == |s| + 1 && forall v: nat :: Admits(s, fixedCost, bound, i, v) ==> minCost[v] <= minCost[i] + Cost(s, i, v, fixedCost)
  }

  lemma CheaperZero(before: seq<real>, after: seq<real>, i: nat)
    requires Cheaper(before, after, i) && before != []
    ensures after != [] && after[0] == before[0]
  {
  }

  lemma StillUsed(s: seq<real>, fixedCost: real, bound: real, before: seq<real>, after: seq<real>, i: nat, k: nat)
    requires EdgeUsed(s, fixedCost, bound, before, i) && Cheaper(before, after, k) && i <= k
    ensures EdgeUsed(s, fixedCost, bound, after, i)
  {
    hide Cost, CheapBefore;
  }

  lemma CheaperStill(a: seq<real>, b: seq<real>, c: seq<real>, i: nat)
    requires Cheaper(a, b, i) && Cheaper(b, c, i)
    ensures Cheaper(a, c, i)
  {
  }

  lemma NowUsed(s: seq<real>, fixedCost: real, bound: real, minCost: seq<real>, i: nat, end: nat)
    requires |minCost| == |s| + 1 && Admits(s, fixedCost, bound, i, end)
    requires minCost[end] <= minCost[i] + Cost(s, i, end, fixedCost)
    ensures EdgeUsed(s, fixedCost, bound, minCost, i)
  {
    hide Cost, CheapBefore;
    forall v: nat | Admits(s, fixedCost, bound, i, v) ensures v == end {
      AdmitsOne(s, fixedCost, bound, i, v, end);
    }
  }

  /** Records the edge from node i to the end of the window when it is an improvement. */
  method RelaxEdge(
    w: ScoreWindow, ghost single: real, i: nat, cost: real, minCost: seq<real>, path: seq<nat>, maxs: seq<real>)
    returns (minCost': seq<real>, path': seq<nat>, maxs': seq<real>)
    requires w.Valid() && w.start == i < w.end && w.fixedCost >= 0.0
    requires cost == Cost(w.scores, i, w.end, w.fixedCost)
    requires Tables(w.scores, w.fixedCost, single, i, minCost, path, maxs)
    ensures Tables(w.scores, w.fixedCost, single, i, minCost', path', maxs')
    ensures Cheaper(minCost, minCost', i)
    ensures |minCost'| == |w.scores| + 1 && minCost'[w.end] <= minCost'[i] + cost
  {
    hide Tables, Cost, MaxOf, Tops, SumOf;
    minCost', path', maxs' := minCost, path, maxs;
    TableSizes(w.scores, w.fixedCost, single, i, minCost, path, maxs);
    if minCost[i] + cost < minCost[w.end] {
      var m := w.Max();
      Relax(w.scores, w.fixedCost, single, i, minCost, path, maxs, w.end);
      minCost', path', maxs' := minCost[w.end := minCost[i] + cost], path[w.end := w.start], maxs[w.end := m];
    }
  }

  /** Brings the end of the window up to where the previous window stopped. */
  method CatchUp(w: ScoreWindow, ghost s: seq<real>, ghost fixedCost: real, i: nat, lastEnd: nat)
    requires WindowAt(w, s, fixedCost, i) && i < lastEnd <= |s|
    requires CheapBefore(s, fixedCost, w.costUpperBound, i, lastEnd)
    modifies w
    ensures WindowAt(w, s, fixedCost, i) && lastEnd <= w.end
  {
    hide Cost, Tops, SumOf, CheapBefore;
    while w.end < lastEnd
      invariant WindowAt(w, s, fixedCost, i)
    {
      w.AdvanceEnd();
      CheapEarlier(s, fixedCost, w.costUpperBound, i, w.end, lastEnd);
    }
  }

  /** Lets one window sweep the edges that leave node i, up to the farthest its bound admits,
      then moves its start past i. */
  method RelaxWindow(
    w: ScoreWindow, ghost s: seq<real>, ghost fixedCost: real, ghost single: real, i: nat, lastEnd: nat,
    minCost: seq<real>, path: seq<nat>, maxs: seq<real>)
    returns (lastEnd': nat, minCost': seq<real>, path': seq<nat>, maxs': seq<real>)
    requires WindowAt(w, s, fixedCost, i) && i < lastEnd <= |s| && fixedCost >= 0.0
    requires CheapBefore(s, fixedCost, w.costUpperBound, i, lastEnd)
    requires Tables(s, fixedCost, single, i, minCost, path, maxs)
    modifies w
    ensures WindowAt(w, s, fixedCost, i + 1) && i < lastEnd' <= |s|
    ensures CheapBefore(s, fixedCost, w.costUpperBound, i, lastEnd')
    ensures Tables(s, fixedCost, single, i, minCost', path', maxs')
    ensures Cheaper(minCost, minCost', i) && EdgeUsed(s, fixedCost, w.costUpperBound, minCost', i)
  {
    hide Tables, Cost, MaxOf, Tops, SumOf, CheapBefore, Cheaper;
    minCost', path', maxs' := minCost, path, maxs;
    CheaperSelf(minCost, i);
    CatchUp(w, s, fixedCost, i, lastEnd);
    var windowCost := 0.0;
    while true
      invariant WindowAt(w, s, fixedCost, i) && i < w.end
      invariant Tables(s, fixedCost, single, i, minCost', path', maxs')
      invariant Cheaper(minCost, minCost', i)
      decreases |s| - w.end
    {
      windowCost := w.WindowCost();
      ghost var before := minCost';
      minCost', path', maxs' := RelaxEdge(w, single, i, windowCost, minCost', path', maxs');
      CheaperStill(minCost, before, minCost', i);
      lastEnd' := w.end;
      if w.end == |w.scores| || windowCost >= w.costUpperBound {
        break;
      }
      CheapExtend(s, fixedCost, w.costUpperBound, i, w.end);
      w.AdvanceEnd();
    }
    NowUsed(s, fixedCost, w.costUpperBound, minCost', i, w.end);
    CheapDropFirst(s, fixedCost, w.costUpperBound, i, w.end);
    w.AdvanceStart();
  }

  lemma CheaperSelf(minCost: seq<real>, i: nat)
    ensures Cheaper(minCost, minCost, i)
  {
  }

  ghost predicate DistinctWindows(windows: seq<ScoreWindow>) {
    forall j, k :: 0 <= j < k < |windows| ==> windows[j] != windows[k]
  }

  ghost predicate AllAt(windows: seq<ScoreWindow>, s: seq<real>, fixedCost: real, lo: nat, hi: nat, i: nat)
    requires lo <= hi <= |windows|
    reads windows
  {
    forall k :: lo <= k < hi ==> WindowAt(windows[k], s, fixedCost, i)
  }

  ghost function Bounds(windows: seq<ScoreWindow>): seq<real> {
    seq(|windows|, j requires 0 <= j < |windows| => windows[j].costUpperBound)
  }

  ghost predicate Rising(bounds: seq<real>) {
    forall j, k :: 0 <= j <= k < |bounds| ==> bounds[j] <= bounds[k]
  }

  /** The edges of the first `n` nodes have been used, those of node n by the first `j` bounds. */
  ghost predicate AllUsed(s: seq<real>, fixedCost: real, bounds: seq<real>, minCost: seq<real>, n: nat, j: nat) {
    forall i: nat, k :: i <= n && 0 <= k < |bounds| && (i < n || k < j) ==> EdgeUsed(s, fixedCost, bounds[k], minCost, i)
  }

  lemma OneMoreUsed(
    s: seq<real>, fixedCost: real, bounds: seq<real>, before: seq<real>, after: seq<real>, n: nat, j: nat)
    requires AllUsed(s, fixedCost, bounds, before, n, j) && j < |bounds|
    requires Cheaper(before, after, n) && EdgeUsed(s, fixedCost, bounds[j], after, n)
    ensures AllUsed(s, fixedCost, bounds, after, n, j + 1)
  {
    hide EdgeUsed, Cheaper;
    forall i: nat, k | i <= n && 0 <= k < |bounds| && (i < n || k < j + 1)
      ensures EdgeUsed(s, fixedCost, bounds[k], after, i)
    {
      if i < n || k < j {
        StillUsed(s, fixedCost, bounds[k], before, after, i, n);
      }
    }
  }

  lemma NodeUsed(s: seq<real>, fixedCost: real, bounds: seq<real>, minCost: seq<real>, n: nat)
    requires AllUsed(s, fixedCost, bounds, minCost, n, |bounds|)
    ensures AllUsed(s, fixedCost, bounds, minCost, n + 1, 0)
  {
    hide EdgeUsed;
  }

  /** All windows in turn, each starting from where the previous one ended. */
  method RelaxNode(
    windows: seq<ScoreWindow>, ghost s: seq<real>, ghost fixedCost: real, ghost single: real, i: nat,
    minCost: seq<real>, path: seq<nat>, maxs: seq<real>)
    returns (minCost': seq<real>, path': seq<nat>, maxs': seq<real>)
    requires DistinctWindows(windows) && AllAt(windows, s, fixedCost, 0, |windows|, i) && i < |s| && fixedCost >= 0.0
    requires Tables(s, fixedCost, single, i, minCost, path, maxs)
    requires Rising(Bounds(windows)) && AllUsed(s, fixedCost, Bounds(windows), minCost, i, 0)
    modifies windows
    ensures AllAt(windows, s, fixedCost, 0, |windows|, i + 1)
    ensures Tables(s, fixedCost, single, i + 1, minCost', path', maxs')
    ensures AllUsed(s, fixedCost, Bounds(windows), minCost', i + 1, 0)
  {
    hide Tables, WindowAt, AllUsed, Cheaper, EdgeUsed, CheapBefore;
    minCost', path', maxs' := minCost, path, maxs;
    var lastEnd := i + 1;
    ghost var reach := if windows == [] then 0.0 else windows[0].costUpperBound;
    NothingBetween(s, fixedCost, reach, i);
    for j := 0 to |windows|
      invariant AllAt(windows, s, fixedCost, 0, j, i + 1)
      invariant AllAt(windows, s, fixedCost, j, |windows|, i)
      invariant i < lastEnd <= |s| && CheapBefore(s, fixedCost, reach, i, lastEnd)
      invariant j < |windows| ==> reach <= windows[j].costUpperBound
      invariant Tables(s, fixedCost, single, i, minCost', path', maxs')
      invariant AllUsed(s, fixedCost, Bounds(windows), minCost', i, j)
    {
      CheapLarger(s, fixedCost, reach, windows[j].costUpperBound, i, lastEnd);
      ghost var before := minCost';
      lastEnd, minCost', path', maxs' :=
        RelaxWindow(windows[j], s, fixedCost, single, i, lastEnd, minCost', path', maxs');
      OneMoreUsed(s, fixedCost, Bounds(windows), before, minCost', i, j);
      reach := windows[j].costUpperBound;
      assert j + 1 < |windows| ==> Bounds(windows)[j] <= Bounds(windows)[j + 1];
    }
    NextNode(s, fixedCost, single, i, minCost', path', maxs');
    NodeUsed(s, fixedCost, Bounds(windows), minCost', i);
  }

  lemma NothingBetween(s: seq<real>, fixedCost: real, bound: real, i: nat)
    ensures CheapBefore(s, fixedCost, bound, i, i + 1)
  {
  }

  function Grown(bound: real, eps2: real): real { bound * (1.0 + eps2) }

  /** Whether a window with this bound is wanted. */
  ghost predicate Wanted(bound: real, fixedCost: real, eps1: real) {
    eps1 == 0.0 || bound < fixedCost / eps1
  }

  /** The bounds start at the fixed cost and grow by the factor as long as they are wanted and
      none has reached the single block's cost. */
  ghost predicate Rungs(bounds: seq<real>, fixedCost: real, eps1: real, eps2: real, single: real) {
    forall j: nat :: j < |bounds| ==> Rung(bounds, j, fixedCost, eps1, eps2, single)
  }

  ghost predicate Rung(bounds: seq<real>, j: nat, fixedCost: real, eps1: real, eps2: real, single: real)
    requires j < |bounds|
  {
    && Wanted(bounds[j], fixedCost, eps1)
    && if j == 0 then bounds[0] == fixedCost else bounds[j - 1] < single && bounds[j] == Grown(bounds[j - 1], eps2)
  }

  /** And no bound is missing. */
  ghost predicate IsLadder(bounds: seq<real>, fixedCost: real, eps1: real, eps2: real, single: real) {
    && Rungs(bounds, fixedCost, eps1, eps2, single)
    && if bounds == [] then !Wanted(fixedCost, fixedCost, eps1)
       else bounds[|bounds| - 1] >= single || !Wanted(Grown(bounds[|bounds| - 1], eps2), fixedCost, eps1)
  }

  lemma {:induction false} SameRungs(
    a: seq<real>, b: seq<real>, fixedCost: real, eps1: real, eps2: real, single: real, j: nat)
    requires Rungs(a, fixedCost, eps1, eps2, single) && Rungs(b, fixedCost, eps1, eps2, single)
    requires j < |a| && j < |b|
    ensures a[j] == b[j]
  {
    hide Grown;
    assert Rung(a, j, fixedCost, eps1, eps2, single) && Rung(b, j, fixedCost, eps1, eps2, single);
    if j > 0 {
      SameRungs(a, b, fixedCost, eps1, eps2, single, j - 1);
    }
  }

  /** The bounds are determined. */
  lemma LadderUnique(a: seq<real>, b: seq<real>, fixedCost: real, eps1: real, eps2: real, single: real)
    requires IsLadder(a, fixedCost, eps1, eps2, single) && IsLadder(b, fixedCost, eps1, eps2, single)
    ensures a == b
  {
    forall j: nat | j < |a| && j < |b| ensures a[j] == b[j] {
      SameRungs(a, b, fixedCost, eps1, eps2, single, j);
    }
    NotLonger(a, b, fixedCost, eps1, eps2, single);
    NotLonger(b, a, fixedCost, eps1, eps2, single);
  }

  lemma NotLonger(a: seq<real>, b: seq<real>, fixedCost: real, eps1: real, eps2: real, single: real)
    requires IsLadder(a, fixedCost, eps1, eps2, single) && Rungs(b, fixedCost, eps1, eps2, single)
    requires forall j: nat :: j < |a| && j < |b| ==> a[j] == b[j]
    ensures |b| <= |a|
  {
    hide Wanted, Grown;
    assert |a| < |b| ==> Rung(b, |a|, fixedCost, eps1, eps2, single);
  }

  lemma {:induction false} LadderRises(bounds: seq<real>, fixedCost: real, eps1: real, eps2: real, single: real, k: nat)
    requires Rungs(bounds, fixedCost, eps1, eps2, single) && fixedCost >= 0.0 && eps2 >= 0.0 && k < |bounds|
    ensures bounds[k] >= 0.0 && forall j :: 0 <= j <= k ==> bounds[j] <= bounds[k]
  {
    hide Wanted;
    assert Rung(bounds, k, fixedCost, eps1, eps2, single);
    if k > 0 {
      LadderRises(bounds, fixedCost, eps1, eps2, single, k - 1);
      assert bounds[k] == bounds[k - 1] + bounds[k - 1] * eps2;
      assert bounds[k - 1] * eps2 >= 0.0;
    }
  }

  lemma AddAt(windows: seq<ScoreWindow>, w: ScoreWindow, s: seq<real>, fixedCost: real)
    requires DistinctWindows(windows) && AllAt(windows, s, fixedCost, 0, |windows|, 0)
    requires w !in windows && WindowAt(w, s, fixedCost, 0)
    ensures DistinctWindows(windows + [w]) && AllAt(windows + [w], s, fixedCost, 0, |windows| + 1, 0)
  {
  }

  /** One window for each power of 1 + eps2 between the fixed cost and the single block's cost. */
  method CreateWindows(s: seq<real>, fixedCost: real, single: real, eps1: real, eps2: real)
    returns (windows: seq<ScoreWindow>)
    requires forall i :: 0 <= i < |s| ==> s[i] >= 0.0
    requires eps1 >= 0.0 && eps2 > 0.0 && fixedCost >= 0.0 && (fixedCost > 0.0 || eps1 > 0.0)
    ensures DistinctWindows(windows) && AllAt(windows, s, fixedCost, 0, |windows|, 0)
    ensures fresh(windows)
    ensures eps1 == 0.0 ==> windows != [] && windows[|windows| - 1].costUpperBound >= single
    ensures IsLadder(Bounds(windows), fixedCost, eps1, eps2, single)
  {
    hide StepsLeft, Larger, AllAt, DistinctWindows, Tops, SumOf, Rungs, Wanted;
    windows := [];
    NoWindows(s, fixedCost);
    var costBound := fixedCost;
    ghost var limit := if eps1 == 0.0 then Larger(single, fixedCost) else fixedCost / eps1;
    NoRungs(fixedCost, eps1, eps2, single);
    assert Bounds([]) == [];
    while eps1 == 0.0 || costBound < fixedCost / eps1
      invariant costBound >= fixedCost && DistinctWindows(windows)
      invariant fresh(windows) && AllAt(windows, s, fixedCost, 0, |windows|, 0)
      invariant |windows| == 0 ==> costBound == fixedCost
      invariant |windows| > 0 ==> var last := Bounds(windows)[|windows| - 1];
                                  costBound == Grown(last, eps2) && last < single
      invariant Rungs(Bounds(windows), fixedCost, eps1, eps2, single)
      decreases StepsLeft(limit, costBound, fixedCost, eps2)
    {
      var w := new ScoreWindow(s, costBound, fixedCost);
      AddAt(windows, w, s, fixedCost);
      AddRung(Bounds(windows), costBound, fixedCost, eps1, eps2, single);
      assert Bounds(windows + [w]) == Bounds(windows) + [costBound];
      windows := windows + [w];
      if costBound >= single {
        break;
      }
      WithinLimit(limit, costBound, fixedCost, single, eps1);
      Grows(limit, costBound, fixedCost, eps2);
      costBound := Grown(costBound, eps2);
    }
    EndOfLadder(Bounds(windows), costBound, fixedCost, eps1, eps2, single);
  }

  lemma NoRungs(fixedCost: real, eps1: real, eps2: real, single: real)
    ensures Rungs([], fixedCost, eps1, eps2, single)
  {
  }

  lemma AddRung(bounds: seq<real>, bound: real, fixedCost: real, eps1: real, eps2: real, single: real)
    requires Rungs(bounds, fixedCost, eps1, eps2, single) && (eps1 == 0.0 || bound < fixedCost / eps1)
    requires if bounds == [] then bound == fixedCost
             else bounds[|bounds| - 1] < single && bound == Grown(bounds[|bounds| - 1], eps2)
    ensures Rungs(bounds + [bound], fixedCost, eps1, eps2, single)
  {
    hide Grown;
    var more := bounds + [bound];
    forall j: nat | j < |more| ensures Rung(more, j, fixedCost, eps1, eps2, single) {
      if j < |bounds| {
        assert Rung(bounds, j, fixedCost, eps1, eps2, single);
      }
    }
  }

  lemma EndOfLadder(bounds: seq<real>, next: real, fixedCost: real, eps1: real, eps2: real, single: real)
    requires Rungs(bounds, fixedCost, eps1, eps2, single)
    requires (bounds != [] && bounds[|bounds| - 1] >= single) ||
             (!(eps1 == 0.0 || next < fixedCost / eps1)
              && next == if bounds == [] then fixedCost else Grown(bounds[|bounds| - 1], eps2))
    ensures IsLadder(bounds, fixedCost, eps1, eps2, single)
  {
  }

  lemma NoWindows(s: seq<real>, fixedCost: real)
    ensures DistinctWindows([]) && AllAt([], s, fixedCost, 0, 0, 0)
  {
  }

  lemma WithinLimit(limit: real, bound: real, fixedCost: real, single: real, eps1: real)
    requires limit == (if eps1 == 0.0 then Larger(single, fixedCost) else fixedCost / eps1)
    requires bound < single && (eps1 == 0.0 || bound < fixedCost / eps1)
    ensures bound < limit
  {
  }

  /** How many more steps of the smallest growth fit below the limit. */
  ghost function StepsLeft(limit: real, bound: real, fixedCost: real, eps2: real): nat {
    if fixedCost * eps2 > 0.0 && bound < limit then ((limit - bound) / (fixedCost * eps2)).Floor + 1 else 0
  }

  lemma Grows(limit: real, bound: real, fixedCost: real, eps2: real)
    requires fixedCost > 0.0 && eps2 > 0.0 && fixedCost <= bound < limit
    ensures StepsLeft(limit, Grown(bound, eps2), fixedCost, eps2) < StepsLeft(limit, bound, fixedCost, eps2)
  {
    hide Grown;
    var step, next := fixedCost * eps2, Grown(bound, eps2);
    GrowsBy(bound, fixedCost, eps2);
    IsPositiveProduct(fixedCost, eps2);
    DivStep(limit - bound, limit - next, step);
  }

  lemma GrowsBy(bound: real, fixedCost: real, eps2: real)
    requires eps2 > 0.0 && fixedCost <= bound
    ensures Grown(bound, eps2) >= bound + fixedCost * eps2
  {
    assert bound * eps2 >= fixedCost * eps2;
  }

  lemma DivStep(a: real, b: real, step: real)
    requires step > 0.0 && b + step <= a
    ensures b / step + 1.0 <= a / step
  {
    var x := Quotient(a, step);
    var y := Quotient(b, step);
    QuotientsApart(x, y, a, b, step);
  }

  lemma Quotient(a: real, step: real) returns (q: real)
    requires step > 0.0
    ensures q == a / step && q * step == a
  {
    q := a / step;
  }

  lemma QuotientsApart(x: real, y: real, a: real, b: real, step: real)
    requires step > 0.0 && x * step == a && y * step == b && b + step <= a
    ensures y + 1.0 <= x
  {
    assert (x - y) * step == a - b;
    AtLeastOne(x - y, step, a - b);
  }

  lemma AtLeastOne(d: real, step: real, product: real)
    requires step > 0.0 && d * step == product && product >= step
    ensures d >= 1.0
  {
  }

  /* ----- Tracing the path back ----- */

  /** What the parts between consecutive boundaries cost together. */
  ghost function PartCost(s: seq<real>, chain: seq<nat>, fixedCost: real): real
    requires forall b :: 0 <= b < |chain| ==> chain[b] <= |s|
  {
    if |chain| < 2 || chain[0] > chain[1] then 0.0
    else Cost(s, chain[0], chain[1], fixedCost) + PartCost(s, chain[1..], fixedCost)
  }

  /** What a partition is kept for: a single block carries no fixed part. */
  ghost function Kept(s: seq<real>, chain: seq<nat>, fixedCost: real, single: real): real
    requires forall b :: 0 <= b < |chain| ==> chain[b] <= |s|
  {
    if |chain| == 2 then single else PartCost(s, chain, fixedCost)
  }

  /** Some bound lets a block from `lo` end at `hi` at the farthest. */
  ghost predicate SomeAdmits(s: seq<real>, fixedCost: real, bounds: seq<real>, lo: nat, hi: nat) {
    exists j :: 0 <= j < |bounds| && Admits(s, fixedCost, bounds[j], lo, hi)
  }

  /** Blocks up to the end of the list, each as long as some bound admits. */
  ghost predicate AdmittedChain(s: seq<real>, fixedCost: real, bounds: seq<real>, chain: seq<nat>) {
    && chain != [] && chain[|chain| - 1] == |s|
    && (forall b :: 0 <= b < |chain| ==> chain[b] <= |s|)
    && forall b: nat, c: nat :: c == b + 1 && c < |chain| ==> SomeAdmits(s, fixedCost, bounds, chain[b], chain[c])
  }

  lemma {:induction false} ChainCosts(s: seq<real>, fixedCost: real, bounds: seq<real>, minCost: seq<real>, chain: seq<nat>)
    requires AllUsed(s, fixedCost, bounds, minCost, |s|, 0) && AdmittedChain(s, fixedCost, bounds, chain)
    requires |minCost| == |s| + 1
    ensures minCost[|s|] <= minCost[chain[0]] + PartCost(s, chain, fixedCost)
    decreases |chain|
  {
    hide Cost, CheapBefore;
    if |chain| > 1 {
      assert SomeAdmits(s, fixedCost, bounds, chain[0], chain[1]);
      var j :| 0 <= j < |bounds| && Admits(s, fixedCost, bounds[j], chain[0], chain[1]);
      assert EdgeUsed(s, fixedCost, bounds[j], minCost, chain[0]);
      RestAdmitted(s, fixedCost, bounds, chain);
      ChainCosts(s, fixedCost, bounds, minCost, chain[1..]);
    }
  }

  lemma RestAdmitted(s: seq<real>, fixedCost: real, bounds: seq<real>, chain: seq<nat>)
    requires AdmittedChain(s, fixedCost, bounds, chain) && |chain| > 1
    ensures AdmittedChain(s, fixedCost, bounds, chain[1..])
  {
    hide SomeAdmits;
    var rest := chain[1..];
    forall b: nat, c: nat | c == b + 1 && c < |rest| ensures SomeAdmits(s, fixedCost, bounds, rest[b], rest[c]) {
      var b', c' := b + 1, c + 1;
      assert SomeAdmits(s, fixedCost, bounds, chain[b'], chain[c']);
    }
  }

  /** The partition costs at most any chain of blocks that the windows admit. */
  ghost predicate Cheapest(s: seq<real>, fixedCost: real, eps1: real, eps2: real, cuts: seq<nat>) {
    && (forall b :: 0 <= b < |cuts| ==> cuts[b] <= |s|)
    && var single := Cost(s, 0, |s|, 0.0);
       forall bounds, chain ::
         IsLadder(bounds, fixedCost, eps1, eps2, single) && AdmittedChain(s, fixedCost, bounds, chain) && chain[0] == 0 ==>
           Kept(s, cuts, fixedCost, single) <= PartCost(s, chain, fixedCost)
  }

  lemma IsCheapest(
    s: seq<real>, fixedCost: real, eps1: real, eps2: real, bounds: seq<real>, minCost: seq<real>, cuts: seq<nat>)
    requires forall b :: 0 <= b < |cuts| ==> cuts[b] <= |s|
    requires IsLadder(bounds, fixedCost, eps1, eps2, Cost(s, 0, |s|, 0.0))
    requires AllUsed(s, fixedCost, bounds, minCost, |s|, 0) && |minCost| == |s| + 1 && minCost[0] == 0.0
    requires minCost[|s|] == Kept(s, cuts, fixedCost, Cost(s, 0, |s|, 0.0))
    ensures Cheapest(s, fixedCost, eps1, eps2, cuts)
  {
    hide IsLadder, AdmittedChain, Cost, AllUsed, PartCost, Kept;
    var single := Cost(s, 0, |s|, 0.0);
    forall other, chain |
      IsLadder(other, fixedCost, eps1, eps2, single) && AdmittedChain(s, fixedCost, other, chain)
      && chain != [] && chain[0] == 0 && forall b :: 0 <= b < |chain| ==> chain[b] <= |s|
      ensures minCost[|s|] <= PartCost(s, chain, fixedCost)
    {
      LadderUnique(other, bounds, fixedCost, eps1, eps2, single);
      ChainCosts(s, fixedCost, bounds, minCost, chain);
    }
    IntoCheapest(s, fixedCost, eps1, eps2, minCost[|s|], cuts);
  }

  lemma IntoCheapest(s: seq<real>, fixedCost: real, eps1: real, eps2: real, kept: real, cuts: seq<nat>)
    requires forall b :: 0 <= b < |cuts| ==> cuts[b] <= |s|
    requires kept == Kept(s, cuts, fixedCost, Cost(s, 0, |s|, 0.0))
    requires forall bounds, chain ::
               IsLadder(bounds, fixedCost, eps1, eps2, Cost(s, 0, |s|, 0.0)) && AdmittedChain(s, fixedCost, bounds, chain)
               && chain != [] && chain[0] == 0 && (forall b :: 0 <= b < |chain| ==> chain[b] <= |s|) ==>
                 kept <= PartCost(s, chain, fixedCost)
    ensures Cheapest(s, fixedCost, eps1, eps2, cuts)
  {
    hide IsLadder, Cost, PartCost, Kept, SomeAdmits;
  }

  /** Part b of the chain is not empty and carries its true maximum. */
  ghost predicate PartIs(s: seq<real>, chain: seq<nat>, b: nat, max: real) {
    b + 1 < |chain| && chain[b] < chain[b + 1] <= |s| && max == MaxOf(s, chain[b], chain[b + 1])
  }

  /** `chain` runs from the current node of the traced path to the end of the list. */
  ghost predicate Chain(s: seq<real>, chain: seq<nat>, maxValues: seq<real>) {
    && |chain| == |maxValues| + 1 && chain[|chain| - 1] == |s|
    && (forall b :: 0 <= b < |chain| ==> chain[b] <= |s|)
    && forall b: nat :: b < |maxValues| ==> PartIs(s, chain, b, maxValues[b])
  }

  lemma ChainGrows(s: seq<real>, chain: seq<nat>, maxValues: seq<real>, from: nat, m: real)
    requires Chain(s, chain, maxValues) && from < chain[0] && m == MaxOf(s, from, chain[0])
    ensures Chain(s, [from] + chain, [m] + maxValues)
  {
    forall b: nat | b < |maxValues| + 1 ensures PartIs(s, [from] + chain, b, ([m] + maxValues)[b]) {
      if b > 0 {
        assert PartIs(s, chain, b - 1, maxValues[b - 1]);
      }
    }
  }

  lemma {:induction false} ChainIsCuts(s: seq<real>, chain: seq<nat>, maxValues: seq<real>)
    requires Chain(s, chain, maxValues) && |chain| > 1 && chain[0] == 0
    ensures Cuts(chain, |s|)
  {
    forall a, b | 0 <= a < b < |chain| ensures chain[a] < chain[b] {
      ChainRises(s, chain, maxValues, a, b);
    }
  }

  lemma {:induction false} ChainRises(s: seq<real>, chain: seq<nat>, maxValues: seq<real>, a: nat, b: nat)
    requires Chain(s, chain, maxValues) && a < b < |chain|
    ensures chain[a] < chain[b]
    decreases b
  {
    assert PartIs(s, chain, b - 1, maxValues[b - 1]);
    if a < b - 1 {
      ChainRises(s, chain, maxValues, a, b - 1);
    }
  }

  /** Follows `path` from the end to the start.  A node on the way other than the end was
      reached, because block costs are not negative and so it is cheaper than a single block. */
  method Trace(
    ghost s: seq<real>, ghost fixedCost: real, ghost single: real, size: nat,
    ghost minCost: seq<real>, path: seq<nat>, maxs: seq<real>)
    returns (partition: seq<nat>, maxValues: seq<real>)
    requires size == |s| > 0 && fixedCost >= 0.0 && single == Cost(s, 0, |s|, 0.0)
    requires Tables(s, fixedCost, single, size, minCost, path, maxs)
    ensures Chain(s, [0] + partition, maxValues) && partition != []
    ensures partition == [size] || PartCost(s, [0] + partition, fixedCost) < single
    ensures |minCost| == size + 1 && minCost[size] == Kept(s, [0] + partition, fixedCost, single)
  {
    hide Tables, Cost, MaxOf, Chain;
    var currPos := size;
    partition, maxValues := [], [];
    TraceStart(s, fixedCost, single, minCost, path, maxs);
    ghost var reached := minCost[size] < single;
    while currPos != 0
      invariant Chain(s, [currPos] + partition, maxValues)
      invariant OnPath(s, fixedCost, single, minCost, path, maxs, reached, currPos, partition)
    {
      TraceStep(s, fixedCost, single, minCost, path, maxs, reached, currPos, partition, maxValues);
      partition, maxValues := [currPos] + partition, [maxs[currPos]] + maxValues;
      currPos := path[currPos];
    }
    TraceEnd(s, fixedCost, single, minCost, path, maxs, reached, partition, maxValues);
  }

  /** Where the trace stands: if the end was reached, every node on the way was, and the costs
      of the parts passed make up the difference. */
  ghost predicate OnPath(
    s: seq<real>, fixedCost: real, single: real, minCost: seq<real>, path: seq<nat>, maxs: seq<real>,
    reached: bool, currPos: nat, partition: seq<nat>)
  {
    && currPos <= |s| && |minCost| == |path| == |maxs| == |s| + 1
    && (forall b :: 0 <= b < |partition| ==> partition[b] <= |s|)
    && (partition == [] <==> currPos == |s|)
    && (reached <==> minCost[|s|] < single)
    && (reached ==> currPos == 0 || minCost[currPos] < single)
    && (reached ==> minCost[|s|] == minCost[currPos] + PartCost(s, [currPos] + partition, fixedCost))
    && (!reached ==> (currPos == |s| && partition == []) || (currPos == 0 && partition == [|s|]))
  }

  lemma TraceStart(
    s: seq<real>, fixedCost: real, single: real, minCost: seq<real>, path: seq<nat>, maxs: seq<real>)
    requires |s| > 0 && Tables(s, fixedCost, single, |s|, minCost, path, maxs)
    ensures Chain(s, [|s|] + [], [])
    ensures |minCost| == |s| + 1
    ensures OnPath(s, fixedCost, single, minCost, path, maxs, minCost[|s|] < single, |s|, [])
  {
    hide Cost, MaxOf;
  }

  lemma TraceStep(
    s: seq<real>, fixedCost: real, single: real, minCost: seq<real>, path: seq<nat>, maxs: seq<real>,
    reached: bool, currPos: nat, partition: seq<nat>, maxValues: seq<real>)
    requires |s| > 0 && Tables(s, fixedCost, single, |s|, minCost, path, maxs)
    requires Chain(s, [currPos] + partition, maxValues) && currPos != 0
    requires OnPath(s, fixedCost, single, minCost, path, maxs, reached, currPos, partition)
    ensures currPos < |path| == |maxs| && path[currPos] < currPos
    ensures Chain(s, [path[currPos]] + ([currPos] + partition), [maxs[currPos]] + maxValues)
    ensures OnPath(s, fixedCost, single, minCost, path, maxs, reached, path[currPos], [currPos] + partition)
  {
    hide Cost, MaxOf, Chain;
    var chain := [currPos] + partition;
    if reached {
      assert Reached(s, fixedCost, single, |s|, minCost, path, maxs, currPos);
      assert ([path[currPos]] + chain)[1..] == chain;
    }
    ChainGrows(s, chain, maxValues, path[currPos], maxs[currPos]);
  }

  lemma TraceEnd(
    s: seq<real>, fixedCost: real, single: real, minCost: seq<real>, path: seq<nat>, maxs: seq<real>,
    reached: bool, partition: seq<nat>, maxValues: seq<real>)
    requires |s| > 0 && Tables(s, fixedCost, single, |s|, minCost, path, maxs)
    requires fixedCost >= 0.0 && single == Cost(s, 0, |s|, 0.0)
    requires Chain(s, [0] + partition, maxValues)
    requires OnPath(s, fixedCost, single, minCost, path, maxs, reached, 0, partition)
    ensures partition != [] && forall b :: 0 <= b < |[0] + partition| ==> ([0] + partition)[b] <= |s|
    ensures partition == [|s|] || PartCost(s, [0] + partition, fixedCost) < single
    ensures |minCost| == |s| + 1 && minCost[|s|] == Kept(s, [0] + partition, fixedCost, single)
  {
    assert partition != [] ==> ([0] + partition)[|partition|] == partition[|partition| - 1];
    if reached {
      OnlyOneDear(s, fixedCost, single, minCost, path, maxs, partition);
    }
    hide Cost, MaxOf;
  }

  /** The edge over the whole list is no improvement on the single block. */
  lemma OnlyOneDear(
    s: seq<real>, fixedCost: real, single: real, minCost: seq<real>, path: seq<nat>, maxs: seq<real>, partition: seq<nat>)
    requires |s| > 0 && fixedCost >= 0.0 && single == Cost(s, 0, |s|, 0.0)
    requires OnPath(s, fixedCost, single, minCost, path, maxs, true, 0, partition) && minCost[0] == 0.0
    requires partition != [] ==> partition[|partition| - 1] == |s|
    ensures |partition| > 1
  {
    hide Cost, MaxOf;
    OnePartCost(s, fixedCost);
    CostWithout(s, fixedCost);
    ShortChain(partition, |s|);
  }

  lemma ShortChain(partition: seq<nat>, n: nat)
    ensures |partition| == 1 && partition[0] == n ==> [0] + partition == [0, n]
  {
  }

  lemma OnePartCost(s: seq<real>, fixedCost: real)
    requires s != []
    ensures PartCost(s, [0, |s|], fixedCost) == Cost(s, 0, |s|, fixedCost)
  {
    hide Cost;
    assert [0, |s|][1..] == [|s|];
  }

  lemma CostWithout(s: seq<real>, fixedCost: real)
    ensures Cost(s, 0, |s|, fixedCost) == Cost(s, 0, |s|, 0.0) + fixedCost
  {
    hide MaxOf, SumOf;
  }

  /* ----- The partition ----- */

  /** Blocks that tile the list, chosen as the windows for these parameters allow. */
  ghost predicate OptimisedCuts(
    l: PostingList, fixedCost: real, eps1: real, eps2: real, blockDocids: seq<nat>, blockMaxs: seq<real>, cuts: seq<nat>)
  {
    && Tiles(l, cuts, blockDocids, blockMaxs) && (forall b :: 0 <= b < |cuts| ==> cuts[b] <= |l.scores|)
    && Cheapest(l.scores, fixedCost, eps1, eps2, cuts)
    && var single := Cost(l.scores, 0, |l.scores|, 0.0);
       && (|cuts| == 2 || PartCost(l.scores, cuts, fixedCost) < single)
       && (eps1 == 0.0 || (fixedCost > 0.0 && eps1 < 1.0) ==>
             Kept(l.scores, cuts, fixedCost, single) <= |l.scores| as real * fixedCost)
  }

  ghost predicate OptimisedBlocks(
    l: PostingList, fixedCost: real, eps1: real, eps2: real, blockDocids: seq<nat>, blockMaxs: seq<real>)
  {
    exists cuts :: OptimisedCuts(l, fixedCost, eps1, eps2, blockDocids, blockMaxs, cuts)
  }

  /** What a whole list falls short of its maximum; the running maximum starts at 0. */
  method SingleBlockCost(s: seq<real>) returns (cost: real, max: real)
    ensures max == MaxOf(s, 0, |s|) && cost == Cost(s, 0, |s|, 0.0)
  {
    var sum := 0.0;
    max := 0.0;
    for i := 0 to |s|
      invariant max == MaxOf(s, 0, i) && sum == SumOf(s, 0, i)
    {
      max := Larger(max, s[i]);
      sum := sum + s[i];
    }
    cost := |s| as real * max - sum;
  }

  /** Variable-sized blocks: they tile the list, each with the true maximum of its postings,
      and unless a single block was kept they cost less than a single block falls short. */
  method Partition(l: PostingList, eps1: real, eps2: real, fixedCost: real)
    returns (docids: seq<nat>, maxValues: seq<real>, ghost cuts: seq<nat>)
    requires 0 < |l.docs| == |l.scores| && Increasing(l.docs) && NonNegative(l)
    requires eps1 >= 0.0 && eps2 > 0.0 && fixedCost >= 0.0 && (fixedCost > 0.0 || eps1 > 0.0)
    ensures Tiles(l, cuts, docids, maxValues) && TrueBlocks(l, docids, maxValues)
    ensures forall b :: 0 <= b < |cuts| ==> cuts[b] <= |l.scores|
    ensures |cuts| == 2 || PartCost(l.scores, cuts, fixedCost) < Cost(l.scores, 0, |l.scores|, 0.0)
    ensures Cheapest(l.scores, fixedCost, eps1, eps2, cuts)
    ensures eps1 == 0.0 || (fixedCost > 0.0 && eps1 < 1.0) ==>
              Kept(l.scores, cuts, fixedCost, Cost(l.scores, 0, |l.scores|, 0.0)) <= |l.scores| as real * fixedCost
    ensures OptimisedBlocks(l, fixedCost, eps1, eps2, docids, maxValues)
  {
    hide Tables, Cost, MaxOf, Chain, WindowAt, Increasing, Tiles, DistinctWindows, AllAt, PartCost, AllUsed, IsLadder,
      Cheapest, Kept;
    var n := |l.docs|;
    var single, max := SingleBlockCost(l.scores);
    var windows := CreateWindows(l.scores, fixedCost, single, eps1, eps2);
    var minCost := seq(n + 1, i => if i == 0 then 0.0 else single);
    var path: seq<nat> := seq(n + 1, i => 0);
    var maxs := seq(n + 1, i => if i == n then max else 0.0);
    InitialTables(l.scores, fixedCost, single, minCost, path, maxs);
    ghost var bounds := Bounds(windows);
    LadderIsRising(bounds, fixedCost, eps1, eps2, single);
    NoneUsed(l.scores, fixedCost, bounds, minCost);
    for i := 0 to n
      invariant fresh(windows) && DistinctWindows(windows)
      invariant AllAt(windows, l.scores, fixedCost, 0, |windows|, i)
      invariant Tables(l.scores, fixedCost, single, i, minCost, path, maxs)
      invariant AllUsed(l.scores, fixedCost, bounds, minCost, i, 0)
    {
      minCost, path, maxs := RelaxNode(windows, l.scores, fixedCost, single, i, minCost, path, maxs);
    }
    var partition: seq<nat>;
    partition, maxValues := Trace(l.scores, fixedCost, single, n, minCost, path, maxs);
    cuts := [0] + partition;
    ChainFacts(l.scores, cuts, maxValues);
    TablesAt(l.scores, fixedCost, single, n, minCost, path, maxs, 0);
    IsCheapest(l.scores, fixedCost, eps1, eps2, bounds, minCost, cuts);
    if eps1 == 0.0 || (fixedCost > 0.0 && eps1 < 1.0) {
      AtMostSingles(l.scores, fixedCost, eps1, eps2, bounds, cuts);
    }
    docids := [];
    for i := 0 to |partition| - 1
      invariant |docids| == i
      invariant forall b :: 0 <= b < i ==> partition[b] < n && docids[b] + 1 == l.docs[partition[b]]
    {
      assert partition[i] == cuts[i + 1];
      PositiveDoc(l, partition[i]);
      docids := docids + [l.docs[partition[i]] - 1];
    }
    docids := docids + [l.docs[n - 1]];
    ChainTiles(l, partition, docids, maxValues);
    assert OptimisedCuts(l, fixedCost, eps1, eps2, docids, maxValues, cuts);
  }

  /** Every posting by itself. */
  ghost function Singles(n: nat): (chain: seq<nat>)
    ensures |chain| == n + 1 && forall i :: 0 <= i <= n ==> chain[i] == i
  {
    seq(n + 1, i requires 0 <= i <= n => i)
  }

  lemma {:induction false} SinglesCost(s: seq<real>, fixedCost: real, chain: seq<nat>, from: nat)
    requires from <= |s| && |chain| == |s| - from + 1 && forall i :: 0 <= i < |chain| ==> chain[i] == from + i
    requires forall i :: 0 <= i < |s| ==> s[i] >= 0.0
    ensures PartCost(s, chain, fixedCost) == (|s| - from) as real * fixedCost
    decreases |chain|
  {
    hide Cost;
    if from < |s| {
      SinglesCost(s, fixedCost, chain[1..], from + 1);
      CostOfOne(s, from, fixedCost);
      assert (|s| - from) as real == (|s| - (from + 1)) as real + 1.0;
    }
  }

  /** The first window admits single postings, whose cost is the fixed one. */
  lemma SinglesAdmitted(s: seq<real>, fixedCost: real, bounds: seq<real>)
    requires bounds != [] && bounds[0] == fixedCost && forall i :: 0 <= i < |s| ==> s[i] >= 0.0
    ensures AdmittedChain(s, fixedCost, bounds, Singles(|s|))
  {
    hide Cost;
    var chain := Singles(|s|);
    forall b: nat, c: nat | c == b + 1 && c < |chain| ensures SomeAdmits(s, fixedCost, bounds, chain[b], chain[c]) {
      CostOfOne(s, b, fixedCost);
      assert Admits(s, fixedCost, bounds[0], b, c);
    }
  }

  /** Whenever there is a window, the partition costs at most as much as every posting in a
      block of its own: a single block is kept only when it falls short by no more than that. */
  lemma AtMostSingles(s: seq<real>, fixedCost: real, eps1: real, eps2: real, bounds: seq<real>, cuts: seq<nat>)
    requires Cheapest(s, fixedCost, eps1, eps2, cuts) && forall i :: 0 <= i < |s| ==> s[i] >= 0.0
    requires IsLadder(bounds, fixedCost, eps1, eps2, Cost(s, 0, |s|, 0.0))
    requires eps1 == 0.0 || (fixedCost > 0.0 && 0.0 < eps1 < 1.0)
    ensures Kept(s, cuts, fixedCost, Cost(s, 0, |s|, 0.0)) <= |s| as real * fixedCost
  {
    hide Cost, Kept, PartCost, Admits;
    FirstWanted(fixedCost, eps1);
    assert bounds != [] ==> Rung(bounds, 0, fixedCost, eps1, eps2, Cost(s, 0, |s|, 0.0));
    SinglesAdmitted(s, fixedCost, bounds);
    SinglesCost(s, fixedCost, Singles(|s|), 0);
  }

  lemma FirstWanted(fixedCost: real, eps1: real)
    requires eps1 == 0.0 || (fixedCost > 0.0 && 0.0 < eps1 < 1.0)
    ensures Wanted(fixedCost, fixedCost, eps1)
  {
    if eps1 != 0.0 {
      var q := Quotient(fixedCost, eps1);
      QuotientGrows(q, fixedCost, eps1, 1.0 - eps1);
    }
  }

  lemma QuotientGrows(q: real, a: real, step: real, rest: real)
    requires q * step == a && a > 0.0 && 0.0 < step < 1.0 && rest == 1.0 - step
    ensures q > a
  {
    IsPositive(q, step);
    IsPositiveProduct(q, rest);
    Splits(q, step, rest);
    MoreThanPart(q, a, q * step, q * rest);
  }

  lemma MoreThanPart(whole: real, a: real, x: real, y: real)
    requires x + y == whole && y > 0.0 && x == a
    ensures whole > a
  {
  }

  lemma Splits(q: real, a: real, b: real)
    requires a + b == 1.0
    ensures q * a + q * b == q
  {
    assert q * (a + b) == q * a + q * b;
  }

  lemma IsPositiveProduct(q: real, r: real)
    requires q > 0.0 && r > 0.0
    ensures q * r > 0.0
  {
  }

  lemma IsPositive(q: real, step: real)
    requires q * step > 0.0 && step > 0.0
    ensures q > 0.0
  {
  }

  lemma LadderIsRising(bounds: seq<real>, fixedCost: real, eps1: real, eps2: real, single: real)
    requires IsLadder(bounds, fixedCost, eps1, eps2, single) && fixedCost >= 0.0 && eps2 >= 0.0
    ensures Rising(bounds)
  {
    forall k: nat | k < |bounds| ensures forall j :: 0 <= j <= k ==> bounds[j] <= bounds[k] {
      LadderRises(bounds, fixedCost, eps1, eps2, single, k);
    }
  }

  lemma NoneUsed(s: seq<real>, fixedCost: real, bounds: seq<real>, minCost: seq<real>)
    ensures AllUsed(s, fixedCost, bounds, minCost, 0, 0)
  {
  }

  lemma PositiveDoc(l: PostingList, i: nat)
    requires Increasing(l.docs) && 0 < i < |l.docs|
    ensures l.docs[i] > 0
  {
    assert l.docs[0] < l.docs[i];
  }

  lemma InitialTables(
    s: seq<real>, fixedCost: real, single: real, minCost: seq<real>, path: seq<nat>, maxs: seq<real>)
    requires s != [] && minCost == seq(|s| + 1, i => if i == 0 then 0.0 else single)
    requires path == seq(|s| + 1, i => 0) && maxs == seq(|s| + 1, i => if i == |s| then MaxOf(s, 0, |s|) else 0.0)
    ensures Tables(s, fixedCost, single, 0, minCost, path, maxs)
  {
  }

  lemma ChainFacts(s: seq<real>, chain: seq<nat>, maxValues: seq<real>)
    requires Chain(s, chain, maxValues) && |chain| > 1 && chain[0] == 0
    ensures |chain| == |maxValues| + 1
    ensures forall b :: 0 <= b < |chain| ==> chain[b] <= |s|
    ensures forall b :: 0 < b < |chain| - 1 ==> 0 < chain[b] < |s|
  {
    forall b | 0 < b < |chain| - 1 ensures 0 < chain[b] < |s| {
      ChainRises(s, chain, maxValues, 0, b);
      ChainRises(s, chain, maxValues, b, |chain| - 1);
    }
  }

  lemma ChainTiles(l: PostingList, partition: seq<nat>, docids: seq<nat>, maxValues: seq<real>)
    requires 0 < |l.docs| == |l.scores| && Chain(l.scores, [0] + partition, maxValues)
    requires |docids| == |partition| > 0 && docids[|docids| - 1] == l.docs[|l.docs| - 1]
    requires forall b :: 0 <= b < |docids| - 1 ==> partition[b] < |l.docs| && docids[b] + 1 == l.docs[partition[b]]
    ensures Tiles(l, [0] + partition, docids, maxValues)
  {
    var cuts := [0] + partition;
    ChainIsCuts(l.scores, cuts, maxValues);
    forall b: nat | b < |docids| ensures BlockIs(l, cuts, b, docids[b], maxValues[b]) {
      assert PartIs(l.scores, cuts, b, maxValues[b]);
      assert cuts[b + 1] == partition[b];
    }
  }
}
