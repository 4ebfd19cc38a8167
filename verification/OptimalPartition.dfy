/** Endpoints for partitioned sequences: an approximate shortest path over windows whose cost
    is the size of the part they would become, superblock by superblock.
 */
module OptimalPartition {
  import opened Sequences
  import IndexedSequence
  import PartitionedSequence

  /** The size of a part with the given universe and length. */
  type CostFunction = (nat, nat) -> nat

  function Minus(x: nat, y: nat): nat { if x >= y then x - y else 0 }

  /** What the values lo, ..., hi-1 cost as one part, the first part starting from `base`. */
  ghost function PartCost(cost: CostFunction, vs: seq<nat>, base: nat, lo: nat, hi: nat): nat
    requires lo < hi <= |vs|
  {
    cost(Minus(vs[hi - 1] + 1, if lo == 0 then base else vs[lo - 1] + 1), hi - lo)
  }

  /* ----- Windows ----- */

  class CostWindow {
    const vs: seq<nat>
    const base: nat
    const costUpperBound: nat
    var start: nat
    var end: nat
    var minP: nat
    var maxP: nat

    ghost predicate Valid()
      reads this
    {
      && start <= end <= |vs|
      && minP == (if start == 0 then base else vs[start - 1] + 1)
      && (end > 0 ==> maxP == vs[end - 1])
    }

    constructor (vs: seq<nat>, base: nat, costUpperBound: nat)
      ensures Valid() && start == 0 && end == 0
      ensures this.vs == vs && this.base == base && this.costUpperBound == costUpperBound
    {
      this.vs, this.base, this.costUpperBound := vs, base, costUpperBound;
      start, end, minP, maxP := 0, 0, base, 0;
    }

    method AdvanceEnd()
      requires Valid() && end < |vs|
      modifies this
      ensures Valid() && end == old(end) + 1 && start == old(start)
    {
      maxP := vs[end];
      end := end + 1;
    }

    method AdvanceStart()
      requires Valid() && start < end
      modifies this
      ensures Valid() && start == old(start) + 1 && end == old(end)
    {
      minP := vs[start] + 1;
      start := start + 1;
    }

    method Cost(cost: CostFunction) returns (c: nat)
      requires Valid() && start < end
      ensures c == PartCost(cost, vs, base, start, end)
    {
      c := cost(Minus(maxP + 1, minP), end - start);
    }
  }

  ghost predicate WindowAt(w: CostWindow, vs: seq<nat>, base: nat, i: nat)
    reads w
  {
    w.Valid() && w.vs == vs && w.base == base && w.start == i
  }

  ghost predicate DistinctWindows(windows: seq<CostWindow>) {
    forall j, k :: 0 <= j < k < |windows| ==> windows[j] != windows[k]
  }

  ghost function Bounds(windows: seq<CostWindow>): seq<nat> {
    seq(|windows|, j requires 0 <= j < |windows| => windows[j].costUpperBound)
  }

  /** The next bound, cut to whole bits. */
  function Grown(bound: nat, eps2: real): int { (bound as real * (1.0 + eps2)).Floor }

  /** Whether a window with this bound is wanted. */
  ghost predicate Wanted(bound: int, least: nat, eps1: real) {
    eps1 == 0.0 || bound as real < least as real / eps1
  }

  ghost predicate Rung(bounds: seq<nat>, j: nat, least: nat, eps1: real, eps2: real, single: nat)
    requires j < |bounds|
  {
    && Wanted(bounds[j], least, eps1)
    && if j == 0 then bounds[0] == least else bounds[j - 1] < single && bounds[j] == Grown(bounds[j - 1], eps2)
  }

  /** The bounds start at the least cost and grow by the factor as long as they are wanted and
      none has reached the single part's cost. */
  ghost predicate Rungs(bounds: seq<nat>, least: nat, eps1: real, eps2: real, single: nat) {
    forall j: nat :: j < |bounds| ==> Rung(bounds, j, least, eps1, eps2, single)
  }

  /** And no bound is missing. */
  ghost predicate IsLadder(bounds: seq<nat>, least: nat, eps1: real, eps2: real, single: nat) {
    && Rungs(bounds, least, eps1, eps2, single)
    && if bounds == [] then !Wanted(least, least, eps1)
       else bounds[|bounds| - 1] >= single || !Wanted(Grown(bounds[|bounds| - 1], eps2), least, eps1)
  }

  lemma {:induction false} SameRungs(
    a: seq<nat>, b: seq<nat>, least: nat, eps1: real, eps2: real, single: nat, j: nat)
    requires Rungs(a, least, eps1, eps2, single) && Rungs(b, least, eps1, eps2, single)
    requires j < |a| && j < |b|
    ensures a[j] == b[j]
  {
    hide Grown, Wanted;
    assert Rung(a, j, least, eps1, eps2, single) && Rung(b, j, least, eps1, eps2, single);
    if j > 0 {
      SameRungs(a, b, least, eps1, eps2, single, j - 1);
    }
  }

  /** The bounds are determined. */
  lemma LadderUnique(a: seq<nat>, b: seq<nat>, least: nat, eps1: real, eps2: real, single: nat)
    requires IsLadder(a, least, eps1, eps2, single) && IsLadder(b, least, eps1, eps2, single)
    ensures a == b
  {
    forall j: nat | j < |a| && j < |b| ensures a[j] == b[j] {
      SameRungs(a, b, least, eps1, eps2, single, j);
    }
    NotLonger(a, b, least, eps1, eps2, single);
    NotLonger(b, a, least, eps1, eps2, single);
  }

  lemma NotLonger(a: seq<nat>, b: seq<nat>, least: nat, eps1: real, eps2: real, single: nat)
    requires IsLadder(a, least, eps1, eps2, single) && Rungs(b, least, eps1, eps2, single)
    requires forall j: nat :: j < |a| && j < |b| ==> a[j] == b[j]
    ensures |b| <= |a|
  {
    hide Wanted, Grown;
    assert |a| < |b| ==> Rung(b, |a|, least, eps1, eps2, single);
  }

  ghost predicate AtStart(windows: seq<CostWindow>, vs: seq<nat>, base: nat)
    reads windows
  {
    && DistinctWindows(windows)
    && forall k :: 0 <= k < |windows| ==> WindowAt(windows[k], vs, base, 0) && windows[k].end == 0
  }

  lemma AddAt(windows: seq<CostWindow>, w: CostWindow, vs: seq<nat>, base: nat)
    requires AtStart(windows, vs, base) && w !in windows && WindowAt(w, vs, base, 0) && w.end == 0
    ensures AtStart(windows + [w], vs, base) && Bounds(windows + [w]) == Bounds(windows) + [w.costUpperBound]
  {
  }

  /** One window for each power of 1 + eps2, cut to whole bits, between the least cost and the
      single part's; the growth must show in whole bits.  For eps1 = 0 only the single part's
      cost ends the row. */
  method CreateWindows(vs: seq<nat>, base: nat, least: nat, single: nat, eps1: real, eps2: real)
    returns (windows: seq<CostWindow>)
    requires eps1 >= 0.0 && least as real * eps2 >= 1.0
    ensures fresh(windows) && AtStart(windows, vs, base)
    ensures IsLadder(Bounds(windows), least, eps1, eps2, single)
    ensures eps1 == 0.0 ==> windows != [] && windows[|windows| - 1].costUpperBound >= single
  {
    hide AtStart, Rungs, Wanted;
    windows := [];
    NoWindows(vs, base, least, eps1, eps2, single);
    var bound := least;
    ghost var limit := if single > least then single else least;
    while eps1 == 0.0 || bound as real < least as real / eps1
      invariant bound >= least && fresh(windows) && AtStart(windows, vs, base)
      invariant Rungs(Bounds(windows), least, eps1, eps2, single)
      invariant if windows == [] then bound == least
                else var last := Bounds(windows)[|windows| - 1]; last < single && bound == Grown(last, eps2)
      decreases limit - bound
    {
      var w := new CostWindow(vs, base, bound);
      AddAt(windows, w, vs, base);
      AddRung(Bounds(windows), bound, least, eps1, eps2, single);
      windows := windows + [w];
      if bound >= single {
        break;
      }
      Grows(bound, least, eps2);
      bound := Grown(bound, eps2);
    }
    EndOfLadder(Bounds(windows), bound, least, eps1, eps2, single);
  }

  lemma NoWindows(vs: seq<nat>, base: nat, least: nat, eps1: real, eps2: real, single: nat)
    ensures AtStart([], vs, base) && Bounds([]) == [] && Rungs([], least, eps1, eps2, single)
  {
  }

  lemma AddRung(bounds: seq<nat>, bound: nat, least: nat, eps1: real, eps2: real, single: nat)
    requires Rungs(bounds, least, eps1, eps2, single) && (eps1 == 0.0 || bound as real < least as real / eps1)
    requires if bounds == [] then bound == least
             else bounds[|bounds| - 1] < single && bound == Grown(bounds[|bounds| - 1], eps2)
    ensures Rungs(bounds + [bound], least, eps1, eps2, single)
  {
    hide Grown;
    var more := bounds + [bound];
    forall j: nat | j < |more| ensures Rung(more, j, least, eps1, eps2, single) {
      if j < |bounds| {
        assert Rung(bounds, j, least, eps1, eps2, single);
      }
    }
  }

  lemma EndOfLadder(bounds: seq<nat>, next: nat, least: nat, eps1: real, eps2: real, single: nat)
    requires Rungs(bounds, least, eps1, eps2, single)
    requires (bounds != [] && bounds[|bounds| - 1] >= single) ||
             (!(eps1 == 0.0 || next as real < least as real / eps1)
              && next == if bounds == [] then least else Grown(bounds[|bounds| - 1], eps2))
    ensures IsLadder(bounds, least, eps1, eps2, single)
  {
  }

  lemma Grows(bound: nat, least: nat, eps2: real)
    requires bound >= least && least as real * eps2 >= 1.0
    ensures Grown(bound, eps2) > bound
  {
    assert eps2 > 0.0;
    assert bound as real * eps2 >= least as real * eps2;
    assert bound as real * (1.0 + eps2) == bound as real + bound as real * eps2;
  }

  /* ----- Which parts the windows try ----- */

  /** What is partitioned, and the bounds of the windows that sweep over it. */
  datatype Problem = Problem(cost: CostFunction, vs: seq<nat>, base: nat, single: nat, bounds: seq<nat>) {
    ghost function Part(lo: nat, hi: nat): nat
      requires lo < hi <= |vs|
    {
      PartCost(cost, vs, base, lo, hi)
    }

    /** Where a window with this bound stops when it sweeps on from `from`. */
    ghost function StopFrom(bound: nat, i: nat, from: nat): (v: nat)
      requires i < from <= |vs|
      ensures from <= v <= |vs|
      decreases |vs| - from
    {
      if from == |vs| || Part(i, from) >= bound then from else StopFrom(bound, i, from + 1)
    }

    /** Where window k stood when it came to node i. */
    ghost function Stood(i: nat, k: nat): (v: nat)
      requires i <= |vs| && k < |bounds|
      ensures v <= |vs|
      decreases i, k, 0
    {
      if i == 0 then 0 else SweepEnd(i - 1, k)
    }

    /** The window sweeps on from there or from where the window before it stopped. */
    ghost function SweepStart(i: nat, k: nat): (v: nat)
      requires i < |vs| && k < |bounds|
      ensures i < v <= |vs|
      decreases i, k, 1
    {
      Farther(Stood(i, k), if k == 0 then i + 1 else SweepEnd(i, k - 1))
    }

    ghost function SweepEnd(i: nat, k: nat): (v: nat)
      requires i < |vs| && k < |bounds|
      ensures i < v <= |vs|
      decreases i, k, 2
    {
      StopFrom(bounds[k], i, SweepStart(i, k))
    }

    ghost predicate Sweeps(i: nat, k: nat, v: nat) {
      i < |vs| && k < |bounds| && SweepStart(i, k) <= v <= SweepEnd(i, k)
    }

    /** Some window tries the values i, ..., v-1 as a part. */
    ghost predicate Tries(i: nat, v: nat) {
      exists k: nat :: Sweeps(i, k, v)
    }

    lemma TriesWithin(i: nat, v: nat)
      requires Tries(i, v)
      ensures i < v <= |vs|
    {
    }

    /** Node v was reached by a part tried from an earlier one, itself reached or the start. */
    ghost predicate Reached(i: nat, minCost: seq<nat>, path: seq<nat>, v: nat) {
      && v <= |vs| && |minCost| == |path| == |vs| + 1
      && path[v] < v && path[v] <= i && Tries(path[v], v)
      && minCost[v] == minCost[path[v]] + Part(path[v], v)
      && (path[v] == 0 || minCost[path[v]] < single)
    }

    /** The tables while edges leave node i: a node is reached or still costs a single part and
        points to the start. */
    ghost predicate Tables(i: nat, minCost: seq<nat>, path: seq<nat>) {
      && |minCost| == |path| == |vs| + 1 && minCost[0] == 0
      && forall v :: 0 < v <= |vs| ==>
           if minCost[v] < single then Reached(i, minCost, path, v) else minCost[v] == single && path[v] == 0
    }

    /** Node v costs no more than over node i. */
    ghost predicate EdgeUsed(minCost: seq<nat>, i: nat, v: nat) {
      |minCost| == |vs| + 1 && i < v <= |vs| && minCost[v] <= minCost[i] + Part(i, v)
    }

    /** The parts tried from the first `n` nodes have been used, those from node n by the first
        `j` windows. */
    ghost predicate AllUsed(minCost: seq<nat>, n: nat, j: nat) {
      forall i: nat, k: nat, v: nat :: Sweeps(i, k, v) && (i < n || (i == n && k < j)) ==> EdgeUsed(minCost, i, v)
    }
  }

  function Farther(a: nat, b: nat): nat { if a < b then b else a }

  /* ----- Shortest paths ----- */

  lemma Relax(p: Problem, i: nat, minCost: seq<nat>, path: seq<nat>, end: nat)
    requires p.Tables(i, minCost, path)
    requires i < end <= |p.vs| && p.Tries(i, end) && minCost[i] + p.Part(i, end) < minCost[end]
    ensures p.Tables(i, minCost[end := minCost[i] + p.Part(i, end)], path[end := i])
  {
    hide Problem.Part, Problem.Tries;
    var c := minCost[i] + p.Part(i, end);
    var minCost', path' := minCost[end := c], path[end := i];
    forall v | 0 < v <= |p.vs| && minCost'[v] < p.single ensures p.Reached(i, minCost', path', v) {
      assert v != end ==> p.Reached(i, minCost, path, v);
    }
  }

  lemma NextNode(p: Problem, i: nat, minCost: seq<nat>, path: seq<nat>)
    requires p.Tables(i, minCost, path)
    ensures p.Tables(i + 1, minCost, path)
  {
    hide Problem.Part, Problem.Tries;
    forall v | 0 < v <= |p.vs| && minCost[v] < p.single ensures p.Reached(i + 1, minCost, path, v) {
      assert p.Reached(i, minCost, path, v);
    }
  }

  /** The costs on record only fell, and those up to node i stand. */
  ghost predicate Cheaper(before: seq<nat>, after: seq<nat>, i: nat) {
    && |before| == |after| && (forall v :: 0 <= v < |before| ==> after[v] <= before[v])
    && forall v :: 0 <= v <= i && v < |before| ==> after[v] == before[v]
  }

  lemma CheaperSelf(minCost: seq<nat>, i: nat)
    ensures Cheaper(minCost, minCost, i)
  {
  }

  lemma CheaperStill(a: seq<nat>, b: seq<nat>, c: seq<nat>, i: nat)
    requires Cheaper(a, b, i) && Cheaper(b, c, i)
    ensures Cheaper(a, c, i)
  {
  }

  lemma StillUsed(p: Problem, before: seq<nat>, after: seq<nat>, i: nat, v: nat, n: nat)
    requires p.EdgeUsed(before, i, v) && Cheaper(before, after, n) && i <= n
    ensures p.EdgeUsed(after, i, v)
  {
  }

  lemma OneMoreUsed(p: Problem, before: seq<nat>, after: seq<nat>, n: nat, j: nat)
    requires p.AllUsed(before, n, j) && Cheaper(before, after, n)
    requires forall v: nat :: p.Sweeps(n, j, v) ==> p.EdgeUsed(after, n, v)
    ensures p.AllUsed(after, n, j + 1)
  {
    hide Problem.Sweeps, Problem.EdgeUsed, Cheaper;
    forall i: nat, k: nat, v: nat | p.Sweeps(i, k, v) && (i < n || (i == n && k < j + 1)) ensures p.EdgeUsed(after, i, v) {
      if i < n || k < j {
        StillUsed(p, before, after, i, v, n);
      }
    }
  }

  lemma NodeUsed(p: Problem, minCost: seq<nat>, n: nat)
    requires p.AllUsed(minCost, n, |p.bounds|)
    ensures p.AllUsed(minCost, n + 1, 0)
  {
    hide Problem.EdgeUsed;
  }

  /** Records the part in the window when it is an improvement. */
  method RelaxEdge(w: CostWindow, ghost p: Problem, i: nat, windowCost: nat, minCost: seq<nat>, path: seq<nat>)
    returns (minCost': seq<nat>, path': seq<nat>)
    requires WindowAt(w, p.vs, p.base, i) && i < w.end && p.Tries(i, w.end) && windowCost == p.Part(i, w.end)
    requires p.Tables(i, minCost, path)
    ensures p.Tables(i, minCost', path')
    ensures Cheaper(minCost, minCost', i) && p.EdgeUsed(minCost', i, w.end)
  {
    hide Problem.Tables, Problem.Part, Problem.Tries;
    minCost', path' := minCost, path;
    TableSizes(p, i, minCost, path);
    if minCost[i] + windowCost < minCost[w.end] {
      Relax(p, i, minCost, path, w.end);
      minCost', path' := minCost[w.end := minCost[i] + windowCost], path[w.end := i];
    }
  }

  lemma TableSizes(p: Problem, i: nat, minCost: seq<nat>, path: seq<nat>)
    requires p.Tables(i, minCost, path)
    ensures |minCost| == |path| == |p.vs| + 1
  {
  }

  /** Window k has come to node i. */
  ghost predicate Stands(w: CostWindow, p: Problem, k: nat, i: nat)
    reads w
  {
    && WindowAt(w, p.vs, p.base, i) && i <= |p.vs|
    && k < |p.bounds| && w.costUpperBound == p.bounds[k] && w.end == p.Stood(i, k)
  }

  method CatchUp(w: CostWindow, ghost vs: seq<nat>, ghost base: nat, i: nat, lastEnd: nat)
    requires WindowAt(w, vs, base, i) && lastEnd <= |vs|
    modifies w
    ensures WindowAt(w, vs, base, i) && w.end == Farther(old(w.end), lastEnd)
  {
    while w.end < lastEnd
      invariant WindowAt(w, vs, base, i) && (w.end == old(w.end) || old(w.end) < w.end <= lastEnd)
    {
      w.AdvanceEnd();
    }
  }

  lemma SweepOn(p: Problem, i: nat, k: nat, v: nat)
    requires i < v <= |p.vs| && k < |p.bounds|
    ensures var stop := p.StopFrom(p.bounds[k], i, v);
            if v == |p.vs| || p.Part(i, v) >= p.bounds[k] then stop == v else stop == p.StopFrom(p.bounds[k], i, v + 1)
  {
    hide Problem.Part;
  }

  lemma SweptIs(p: Problem, i: nat, k: nat, v: nat)
    requires i < |p.vs| && k < |p.bounds| && v <= |p.vs|
    requires p.SweepStart(i, k) <= v && p.SweepEnd(i, k) == p.StopFrom(p.bounds[k], i, v)
    ensures p.Sweeps(i, k, v) && p.Tries(i, v)
  {
    assert p.Sweeps(i, k, v);
  }

  /** Every part window k has tried from node i so far has been used. */
  ghost predicate SweptUsed(p: Problem, minCost: seq<nat>, i: nat, k: nat, upTo: nat) {
    forall v: nat :: v < upTo && p.Sweeps(i, k, v) ==> p.EdgeUsed(minCost, i, v)
  }

  lemma MoreUsed(p: Problem, before: seq<nat>, after: seq<nat>, i: nat, k: nat, v: nat)
    requires SweptUsed(p, before, i, k, v) && Cheaper(before, after, i) && p.EdgeUsed(after, i, v)
    ensures SweptUsed(p, after, i, k, v + 1)
  {
    hide Problem.EdgeUsed, Problem.Sweeps, Cheaper;
    forall u: nat | u < v + 1 && p.Sweeps(i, k, u) ensures p.EdgeUsed(after, i, u) {
      if u < v {
        StillUsed(p, before, after, i, u, i);
      }
    }
  }

  /** Lets one window sweep the edges that leave node i, then moves its start past i. */
  method RelaxWindow(
    cost: CostFunction, w: CostWindow, ghost p: Problem, ghost k: nat, i: nat, lastEnd: nat, minCost: seq<nat>, path: seq<nat>)
    returns (lastEnd': nat, minCost': seq<nat>, path': seq<nat>)
    requires Stands(w, p, k, i) && cost == p.cost && i < |p.vs|
    requires lastEnd == if k == 0 then i + 1 else p.SweepEnd(i, k - 1)
    requires p.Tables(i, minCost, path)
    modifies w
    ensures Stands(w, p, k, i + 1) && lastEnd' == p.SweepEnd(i, k)
    ensures p.Tables(i, minCost', path') && Cheaper(minCost, minCost', i)
    ensures SweptUsed(p, minCost', i, k, |p.vs| + 1)
  {
    hide Problem.Tables, PartCost, Problem.EdgeUsed, Problem.Tries, Cheaper, SweptUsed, Problem.StopFrom, Problem.SweepStart;
    minCost', path' := minCost, path;
    CheaperSelf(minCost, i);
    CatchUp(w, p.vs, p.base, i, lastEnd);
    SweepBegins(p, minCost, i, k);
    while true
      invariant WindowAt(w, p.vs, p.base, i) && i < w.end && p.SweepStart(i, k) <= w.end
      invariant p.SweepEnd(i, k) == p.StopFrom(p.bounds[k], i, w.end)
      invariant p.Tables(i, minCost', path') && Cheaper(minCost, minCost', i)
      invariant SweptUsed(p, minCost', i, k, w.end)
      decreases |p.vs| - w.end
    {
      var windowCost := w.Cost(cost);
      SweptIs(p, i, k, w.end);
      ghost var before := minCost';
      minCost', path' := RelaxEdge(w, p, i, windowCost, minCost', path');
      CheaperStill(minCost, before, minCost', i);
      MoreUsed(p, before, minCost', i, k, w.end);
      SweepOn(p, i, k, w.end);
      lastEnd' := w.end;
      if w.end == |w.vs| || windowCost >= w.costUpperBound {
        break;
      }
      w.AdvanceEnd();
    }
    NothingBeyond(p, minCost', i, k);
    w.AdvanceStart();
  }

  lemma SweepBegins(p: Problem, minCost: seq<nat>, i: nat, k: nat)
    requires i < |p.vs| && k < |p.bounds|
    ensures p.SweepStart(i, k) == Farther(p.Stood(i, k), if k == 0 then i + 1 else p.SweepEnd(i, k - 1))
    ensures p.SweepEnd(i, k) == p.StopFrom(p.bounds[k], i, p.SweepStart(i, k))
    ensures SweptUsed(p, minCost, i, k, p.SweepStart(i, k))
  {
  }

  lemma NothingBeyond(p: Problem, minCost: seq<nat>, i: nat, k: nat)
    requires i < |p.vs| && k < |p.bounds| && SweptUsed(p, minCost, i, k, p.SweepEnd(i, k) + 1)
    ensures SweptUsed(p, minCost, i, k, |p.vs| + 1)
  {
  }

  ghost predicate AllStand(windows: seq<CostWindow>, p: Problem, lo: nat, hi: nat, i: nat)
    requires lo <= hi <= |windows|
    reads windows
  {
    forall k :: lo <= k < hi ==> Stands(windows[k], p, k, i)
  }

  /** All windows in turn, each starting from where the previous one ended. */
  method RelaxNode(
    cost: CostFunction, windows: seq<CostWindow>, ghost p: Problem, i: nat, minCost: seq<nat>, path: seq<nat>)
    returns (minCost': seq<nat>, path': seq<nat>)
    requires DistinctWindows(windows) && |windows| == |p.bounds| && AllStand(windows, p, 0, |windows|, i)
    requires i < |p.vs| && cost == p.cost && p.Tables(i, minCost, path) && p.AllUsed(minCost, i, 0)
    modifies windows
    ensures AllStand(windows, p, 0, |windows|, i + 1)
    ensures p.Tables(i + 1, minCost', path') && p.AllUsed(minCost', i + 1, 0)
  {
    hide Problem.Tables, Problem.AllUsed, Stands, Problem.Sweeps, Problem.EdgeUsed, Cheaper, Problem.SweepEnd;
    minCost', path' := minCost, path;
    var lastEnd := i + 1;
    for k := 0 to |windows|
      invariant AllStand(windows, p, 0, k, i + 1)
      invariant AllStand(windows, p, k, |windows|, i)
      invariant lastEnd == if k == 0 then i + 1 else p.SweepEnd(i, k - 1)
      invariant p.Tables(i, minCost', path') && p.AllUsed(minCost', i, k)
    {
      ghost var before := minCost';
      lastEnd, minCost', path' := RelaxWindow(cost, windows[k], p, k, i, lastEnd, minCost', path');
      WindowUsed(p, before, minCost', i, k);
    }
    NextNode(p, i, minCost', path');
    NodeUsed(p, minCost', i);
  }

  lemma WindowUsed(p: Problem, before: seq<nat>, after: seq<nat>, i: nat, k: nat)
    requires p.AllUsed(before, i, k) && Cheaper(before, after, i) && SweptUsed(p, after, i, k, |p.vs| + 1)
    requires i < |p.vs| && k < |p.bounds|
    ensures p.AllUsed(after, i, k + 1)
  {
    hide Problem.AllUsed, Problem.EdgeUsed, Cheaper;
    OneMoreUsed(p, before, after, i, k);
  }

  /* ----- Tracing the path back ----- */

  /** `cuts` are endpoints after node `from`, rising to the end. */
  ghost predicate Rises(from: nat, cuts: seq<nat>, size: nat) {
    && (forall i, j :: 0 <= i < j < |cuts| ==> cuts[i] < cuts[j])
    && (cuts != [] ==> from < cuts[0] && cuts[|cuts| - 1] == size)
    && (cuts == [] ==> from == size)
    && forall i :: 0 <= i < |cuts| ==> cuts[i] <= size
  }

  /** What the parts between the endpoints cost together. */
  ghost function TotalCost(cost: CostFunction, vs: seq<nat>, base: nat, from: nat, cuts: seq<nat>): nat
    requires Rises(from, cuts, |vs|)
    decreases |cuts|
  {
    if cuts == [] then 0
    else
      RisesRest(from, cuts, |vs|);
      PartCost(cost, vs, base, from, cuts[0]) + TotalCost(cost, vs, base, cuts[0], cuts[1..])
  }

  /** Some window tries every one of the parts. */
  ghost predicate AllTried(p: Problem, from: nat, cuts: seq<nat>)
    decreases |cuts|
  {
    cuts == [] || (p.Tries(from, cuts[0]) && AllTried(p, cuts[0], cuts[1..]))
  }

  lemma RisesRest(from: nat, cuts: seq<nat>, size: nat)
    requires Rises(from, cuts, size) && cuts != []
    ensures Rises(cuts[0], cuts[1..], size) && cuts[0] <= size
  {
  }

  lemma RisesStep(from: nat, at: nat, cuts: seq<nat>, size: nat)
    requires Rises(at, cuts, size) && from < at <= size
    ensures Rises(from, [at] + cuts, size)
  {
  }

  /** No way to the end over parts that were tried is cheaper than what is on record. */
  lemma {:induction false} ChainCosts(p: Problem, minCost: seq<nat>, from: nat, cuts: seq<nat>)
    requires Rises(from, cuts, |p.vs|) && AllTried(p, from, cuts)
    requires p.AllUsed(minCost, |p.vs|, 0) && |minCost| == |p.vs| + 1 && from <= |p.vs|
    ensures minCost[|p.vs|] <= minCost[from] + TotalCost(p.cost, p.vs, p.base, from, cuts)
    decreases |cuts|
  {
    hide PartCost, Problem.SweepStart, Problem.SweepEnd;
    if cuts != [] {
      var k: nat :| p.Sweeps(from, k, cuts[0]);
      assert p.EdgeUsed(minCost, from, cuts[0]);
      RisesRest(from, cuts, |p.vs|);
      ChainCosts(p, minCost, cuts[0], cuts[1..]);
    }
  }

  /** Where the trace stands: the endpoints passed, and what is left of the cost if the end was
      reached at all. */
  ghost predicate OnPath(p: Problem, minCost: seq<nat>, at: nat, cuts: seq<nat>) {
    && |minCost| == |p.vs| + 1 && at <= |p.vs| && Rises(at, cuts, |p.vs|)
    && (if minCost[|p.vs|] < p.single then
          && minCost[|p.vs|] == minCost[at] + TotalCost(p.cost, p.vs, p.base, at, cuts)
          && (at == 0 || minCost[at] < p.single) && AllTried(p, at, cuts)
        else cuts == [] || (at == 0 && cuts == [|p.vs|]))
  }

  lemma PathStep(p: Problem, minCost: seq<nat>, path: seq<nat>, at: nat, cuts: seq<nat>)
    requires p.Tables(|p.vs|, minCost, path) && 0 < at && OnPath(p, minCost, at, cuts)
    ensures at < |path| && path[at] < at && OnPath(p, minCost, path[at], [at] + cuts)
  {
    hide PartCost, Problem.Tries;
    if minCost[at] < p.single {
      assert p.Reached(|p.vs|, minCost, path, at);
    }
    RisesStep(path[at], at, cuts, |p.vs|);
    assert ([at] + cuts)[1..] == cuts;
  }

  /** What the search over a problem's windows finds.  Unless a single part was kept they are
      parts the windows tried and cost less than a single part, and no other parts that the
      windows tried cost less than what was kept. */
  ghost predicate IsBest(
    p: Problem, cost: CostFunction, vs: seq<nat>, base: nat, universe: nat, eps1: real, eps2: real, partition: seq<nat>)
  {
    && base <= universe && p == Problem(cost, vs, base, cost(universe - base, |vs|), p.bounds)
    && IsLadder(p.bounds, cost(1, 1), eps1, eps2, p.single)
    && Rises(0, partition, |vs|)
    && (|partition| == 1 || (AllTried(p, 0, partition) && TotalCost(cost, vs, base, 0, partition) < p.single))
    && forall cuts :: Rises(0, cuts, |vs|) && AllTried(p, 0, cuts) ==>
         var total := TotalCost(cost, vs, base, 0, cuts);
         p.single <= total || TotalCost(cost, vs, base, 0, partition) <= total
  }

  /** The endpoints found, strictly rising to the end. */
  method Partition(cost: CostFunction, vs: seq<nat>, base: nat, universe: nat, eps1: real, eps2: real)
    returns (partition: seq<nat>, ghost p: Problem)
    requires vs != [] && base <= universe && eps1 >= 0.0 && cost(1, 1) as real * eps2 >= 1.0
    ensures PartitionedSequence.IsPartition(partition, |vs|)
    ensures IsBest(p, cost, vs, base, universe, eps1, eps2, partition)
  {
    hide Problem.Tables, AllStand, DistinctWindows, TotalCost, Problem.AllUsed, AllTried, AtStart, Rises, IsLadder, OnPath;
    var size := |vs|;
    var single := cost(universe - base, size);
    var windows := CreateWindows(vs, base, cost(1, 1), single, eps1, eps2);
    p := Problem(cost, vs, base, single, Bounds(windows));
    var minCost: seq<nat> := seq(size + 1, i => if i == 0 then 0 else single);
    var path: seq<nat> := seq(size + 1, i => 0);
    InitialTables(p, windows, minCost, path);
    for i := 0 to size
      invariant fresh(windows) && DistinctWindows(windows) && AllStand(windows, p, 0, |windows|, i)
      invariant p.Tables(i, minCost, path) && p.AllUsed(minCost, i, 0)
    {
      minCost, path := RelaxNode(cost, windows, p, i, minCost, path);
    }
    var at: nat := size;
    partition := [];
    StartPath(p, minCost, path);
    while at != 0
      invariant OnPath(p, minCost, at, partition)
    {
      PathStep(p, minCost, path, at, partition);
      partition := [at] + partition;
      at := path[at];
    }
    PathEnd(p, minCost, path, partition);
    KeptIsLeast(p, minCost, partition);
  }

  lemma InitialTables(p: Problem, windows: seq<CostWindow>, minCost: seq<nat>, path: seq<nat>)
    requires minCost == seq(|p.vs| + 1, i => if i == 0 then 0 else p.single) && path == seq(|p.vs| + 1, i => 0)
    requires AtStart(windows, p.vs, p.base) && p.bounds == Bounds(windows)
    ensures p.Tables(0, minCost, path) && p.AllUsed(minCost, 0, 0)
    ensures DistinctWindows(windows) && AllStand(windows, p, 0, |windows|, 0)
  {
  }

  lemma StartPath(p: Problem, minCost: seq<nat>, path: seq<nat>)
    requires p.vs != [] && p.Tables(|p.vs|, minCost, path)
    ensures OnPath(p, minCost, |p.vs|, [])
  {
    hide PartCost, Problem.Tries;
  }

  lemma PathEnd(p: Problem, minCost: seq<nat>, path: seq<nat>, cuts: seq<nat>)
    requires p.vs != [] && p.Tables(|p.vs|, minCost, path) && OnPath(p, minCost, 0, cuts)
    ensures PartitionedSequence.IsPartition(cuts, |p.vs|) && Rises(0, cuts, |p.vs|)
    ensures |minCost| == |p.vs| + 1 && minCost[0] == 0
    ensures if minCost[|p.vs|] < p.single
            then AllTried(p, 0, cuts) && TotalCost(p.cost, p.vs, p.base, 0, cuts) == minCost[|p.vs|]
            else |cuts| == 1 && minCost[|p.vs|] == p.single
  {
    hide PartCost, Problem.Tries;
  }

  lemma KeptIsLeast(p: Problem, minCost: seq<nat>, partition: seq<nat>)
    requires p.AllUsed(minCost, |p.vs|, 0) && |minCost| == |p.vs| + 1 && minCost[0] == 0
    requires Rises(0, partition, |p.vs|)
    requires minCost[|p.vs|] == p.single || minCost[|p.vs|] == TotalCost(p.cost, p.vs, p.base, 0, partition)
    ensures forall cuts :: Rises(0, cuts, |p.vs|) && AllTried(p, 0, cuts) ==>
              var total := TotalCost(p.cost, p.vs, p.base, 0, cuts);
              p.single <= total || TotalCost(p.cost, p.vs, p.base, 0, partition) <= total
  {
    hide Problem.AllUsed, AllTried, TotalCost, Rises;
    forall cuts | Rises(0, cuts, |p.vs|) && AllTried(p, 0, cuts)
      ensures minCost[|p.vs|] <= TotalCost(p.cost, p.vs, p.base, 0, cuts)
    {
      ChainCosts(p, minCost, 0, cuts);
    }
  }

  /* ----- Superblocks ----- */

  const FIX_COST: nat := 64
  const SUPERBLOCK_BOUND: nat := 6400

  /** The endpoints so far partition the values before `pos`. */
  ghost predicate PartitionsUpTo(partition: seq<nat>, pos: nat) {
    if pos == 0 then partition == [] else PartitionedSequence.IsPartition(partition, pos)
  }

  function Offset(cuts: seq<nat>, shift: nat): (r: seq<nat>)
    ensures |r| == |cuts| && forall i :: 0 <= i < |cuts| ==> r[i] == cuts[i] + shift
  {
    seq(|cuts|, i requires 0 <= i < |cuts| => cuts[i] + shift)
  }

  lemma AppendCuts(partition: seq<nat>, pos: nat, cuts: seq<nat>, size: nat)
    requires PartitionsUpTo(partition, pos) && PartitionedSequence.IsPartition(cuts, size) && size > 0
    ensures PartitionsUpTo(partition + Offset(cuts, pos), pos + size)
  {
    var all := partition + Offset(cuts, pos);
    forall i, j | 0 <= i < j < |all| ensures all[i] < all[j] {
      if i < |partition| <= j {
        assert i < |partition| - 1 ==> partition[i] < partition[|partition| - 1];
        assert j > |partition| ==> cuts[0] < cuts[j - |partition|];
      }
    }
  }

  function PartSize(params: IndexedSequence.Params, universe: nat, n: nat): nat
    requires universe > 0 && n > 0
  {
    IndexedSequence.BitSize(params, universe, n)
  }

  /** The cost of a part; parts of nothing do not arise. */
  function CostOf(params: IndexedSequence.Params): CostFunction {
    (universe, n) => if universe > 0 && n > 0 then PartSize(params, universe, n) + FIX_COST else FIX_COST
  }

  /** Superblocks have a fixed size; the last takes what would be left over. */
  function SuperSize(left: nat): nat {
    if left < 2 * SUPERBLOCK_BOUND then left else SUPERBLOCK_BOUND
  }

  /** One superblock: where it begins, from which value on, below which value, and the endpoints
      found for it. */
  datatype Superblock = Superblock(pos: nat, size: nat, base: nat, universe: nat, cuts: seq<nat>)

  ghost predicate SuperOk(s: Superblock, vs: seq<nat>, universe: nat, cost: CostFunction, eps1: real, eps2: real) {
    && s.pos < |vs| && s.size == SuperSize(|vs| - s.pos) && 0 < s.size <= |vs| - s.pos
    && s.universe == (if s.pos + s.size == |vs| then universe else vs[s.pos + s.size - 1] + 1)
    && Best(cost, vs[s.pos..s.pos + s.size], s.base, s.universe, eps1, eps2, s.cuts)
  }

  ghost predicate Best(
    cost: CostFunction, vs: seq<nat>, base: nat, universe: nat, eps1: real, eps2: real, partition: seq<nat>)
  {
    exists p :: IsBest(p, cost, vs, base, universe, eps1, eps2, partition)
  }

  /** The superblocks follow one another from the first value to `pos`, each based where the one
      before ends. */
  ghost predicate Follow(
    supers: seq<Superblock>, vs: seq<nat>, universe: nat, cost: CostFunction, eps1: real, eps2: real, pos: nat, base: nat)
  {
    if supers == [] then vs != [] && pos == 0 && base == vs[0]
    else
      var s := supers[|supers| - 1];
      && SuperOk(s, vs, universe, cost, eps1, eps2) && pos == s.pos + s.size && base == s.universe
      && Follow(supers[..|supers| - 1], vs, universe, cost, eps1, eps2, s.pos, s.base)
  }

  /** The endpoints of all superblocks, counted from the beginning. */
  ghost function Endpoints(supers: seq<Superblock>): seq<nat> {
    if supers == [] then []
    else
      var s := supers[|supers| - 1];
      Endpoints(supers[..|supers| - 1]) + Offset(s.cuts, s.pos)
  }

  lemma OneSuperMore(
    supers: seq<Superblock>, s: Superblock, p: Problem, vs: seq<nat>, universe: nat, cost: CostFunction, eps1: real, eps2: real)
    requires Follow(supers, vs, universe, cost, eps1, eps2, s.pos, s.base)
    requires s.pos < |vs| && s.size == SuperSize(|vs| - s.pos)
    requires s.universe == (if s.pos + s.size == |vs| then universe else vs[s.pos + s.size - 1] + 1)
    requires var part := vs[s.pos..s.pos + s.size]; IsBest(p, cost, part, s.base, s.universe, eps1, eps2, s.cuts)
    ensures Follow(supers + [s], vs, universe, cost, eps1, eps2, s.pos + s.size, s.universe)
    ensures Endpoints(supers + [s]) == Endpoints(supers) + Offset(s.cuts, s.pos)
  {
    hide IsBest;
    assert (supers + [s])[..|supers|] == supers;
    assert SuperOk(s, vs, universe, cost, eps1, eps2);
  }

  /** Endpoints for a whole sequence: a short one stays in one part, and of any other every
      superblock is cut into its best parts. */
  method ComputePartition(vs: seq<nat>, universe: nat, params: IndexedSequence.Params, eps1: real, eps2: real)
    returns (partition: seq<nat>, ghost supers: seq<Superblock>)
    requires vs != [] && Increasing(vs) && Below(vs, universe) && eps1 >= 0.0 && FIX_COST as real * eps2 >= 1.0
    ensures PartitionedSequence.Input(vs, universe, partition)
    ensures universe > 0 &&
            if IndexedSequence.BitSize(params, universe, |vs|) < 2 * FIX_COST then partition == [|vs|]
            else partition == Endpoints(supers) && Follow(supers, vs, universe, CostOf(params), eps1, eps2, |vs|, universe)
  {
    hide Increasing, Below, IndexedSequence.BitSize, IsBest, Follow, Endpoints;
    var n := |vs|;
    supers := [];
    NoSupers(vs, universe, CostOf(params), eps1, eps2);
    UniversePositive(vs, universe);
    if PartSize(params, universe, n) < 2 * FIX_COST {
      OnePart(vs, universe);
      partition := [n];
      return;
    }
    LeastCost(params, eps2);
    partition := [];
    var pos: nat, base: nat := 0, vs[0];
    while pos < n
      invariant pos <= n && PartitionsUpTo(partition, pos)
      invariant base <= universe && (pos < n ==> base <= vs[pos]) && (pos == n ==> base == universe)
      invariant partition == Endpoints(supers) && Follow(supers, vs, universe, CostOf(params), eps1, eps2, pos, base)
    {
      var size := if SUPERBLOCK_BOUND < n - pos then SUPERBLOCK_BOUND else n - pos;
      if n - (pos + size) < SUPERBLOCK_BOUND {
        size := n - pos;
      }
      RisingValues(vs, universe, pos, pos + size - 1);
      var superUniverse := if pos + size == n then universe else vs[pos + size - 1] + 1;
      var cuts, p := Partition(CostOf(params), vs[pos..pos + size], base, superUniverse, eps1, eps2);
      AppendCuts(partition, pos, cuts, size);
      ghost var s := Superblock(pos, size, base, superUniverse, cuts);
      OneSuperMore(supers, s, p, vs, universe, CostOf(params), eps1, eps2);
      supers := supers + [s];
      partition := partition + Offset(cuts, pos);
      pos, base := pos + size, superUniverse;
    }
  }

  lemma NoSupers(vs: seq<nat>, universe: nat, cost: CostFunction, eps1: real, eps2: real)
    requires vs != []
    ensures Follow([], vs, universe, cost, eps1, eps2, 0, vs[0]) && Endpoints([]) == []
  {
  }

  lemma OnePart(vs: seq<nat>, universe: nat)
    requires vs != [] && Increasing(vs) && Below(vs, universe)
    ensures PartitionedSequence.Input(vs, universe, [|vs|])
  {
  }

  lemma UniversePositive(vs: seq<nat>, universe: nat)
    requires vs != [] && Below(vs, universe)
    ensures vs[0] < universe
  {
  }

  lemma RisingValues(vs: seq<nat>, universe: nat, i: nat, j: nat)
    requires Increasing(vs) && Below(vs, universe) && i <= j < |vs|
    ensures vs[i] <= vs[j] < universe && (j + 1 < |vs| ==> vs[j] + 1 <= vs[j + 1])
  {
  }

  lemma LeastCost(params: IndexedSequence.Params, eps2: real)
    requires FIX_COST as real * eps2 >= 1.0
    ensures CostOf(params)(1, 1) as real * eps2 >= 1.0
  {
    hide IndexedSequence.BitSize;
    assert eps2 > 0.0;
    assert CostOf(params)(1, 1) >= FIX_COST;
  }
}
