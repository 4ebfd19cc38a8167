/** Scored cursors over posting lists, with the list, block and range upper bounds the
    pruning queries read.
 */
module Cursors {
  import opened Postings

  /** One list's share of the upper-bound data: the last document identifier and the
      largest score of each block, and the largest score in each document range. */
  datatype WandList = WandList(
    blockDocids: seq<nat>, blockMaxs: seq<real>,
    rangeIds: seq<nat>, rangeMaxs: seq<real>,
    listMax: real)

  /** Block `b` is the one that covers document `d`. */
  ghost predicate Covers(blockDocids: seq<nat>, b: nat, d: nat) {
    b < |blockDocids| && d <= blockDocids[b] && (b > 0 ==> blockDocids[b - 1] < d)
  }

  /** Every posting scores at most the maximum of the block covering it, and the blocks
      reach the end of the list. */
  ghost predicate ValidBlocks(l: PostingList, blockDocids: seq<nat>, blockMaxs: seq<real>) {
    && 0 < |blockDocids| == |blockMaxs|
    && Increasing(blockDocids)
    && (forall b :: 0 <= b < |blockMaxs| ==> blockMaxs[b] >= 0.0)
    && (forall i :: 0 <= i < |l.docs| ==> l.docs[i] <= blockDocids[|blockDocids| - 1])
    && (forall i, b: nat :: 0 <= i < |l.docs| && i < |l.scores| && Covers(blockDocids, b, l.docs[i]) ==>
          l.scores[i] <= blockMaxs[b])
  }

  ghost predicate ValidWand(l: PostingList, w: WandList) {
    && ValidBlocks(l, w.blockDocids, w.blockMaxs)
    && (forall i :: 0 <= i < |l.scores| ==> l.scores[i] <= w.listMax)
    && w.listMax >= 0.0
    && 0 < |w.rangeIds| == |w.rangeMaxs|
    && (forall i :: 0 <= i < |w.rangeMaxs| ==> w.rangeMaxs[i] >= 0.0)
  }

  ghost predicate RangeAt(w: WandList, range: nat, i: nat) {
    i < |w.rangeIds| && i < |w.rangeMaxs| && w.rangeIds[i] == range
  }

  /** The upper bound stored for a document range; 0 when the list has no posting there. */
  ghost function RangeBound(w: WandList, range: nat): real {
    if exists i: nat :: RangeAt(w, range, i) then var i: nat :| RangeAt(w, range, i); w.rangeMaxs[i] else 0.0
  }

  method RangeScore(w: WandList, range: nat) returns (score: real)
    requires 0 < |w.rangeIds| == |w.rangeMaxs| && Increasing(w.rangeIds)
    ensures score == RangeBound(w, range)
  {
    var i := 0;
    while i + 1 < |w.rangeIds| && w.rangeIds[i] < range
      invariant 0 <= i < |w.rangeIds|
      invariant forall j :: 0 <= j < i ==> w.rangeIds[j] < range
    {
      i := i + 1;
    }
    if w.rangeIds[i] == range {
      assert RangeAt(w, range, i);
      return w.rangeMaxs[i];
    }
    return 0.0;
  }

  class Cursor {
    const list: PostingList
    const universe: nat
    const weight: real
    const wand: WandList
    var pos: nat
    var blockPos: nat
    var maxScore: real

    /** What never changes about a cursor. */
    ghost predicate WellFormed() {
      && ValidList(list, universe)
      && ValidWand(list, wand)
      && weight >= 1.0
    }

    ghost predicate Valid()
      reads this
    {
      && WellFormed()
      && pos <= |list.docs|
      && blockPos < |wand.blockDocids|
      && maxScore >= 0.0
    }

    constructor (list: PostingList, universe: nat, weight: real, wand: WandList)
      requires ValidList(list, universe) && ValidWand(list, wand) && weight >= 1.0
      ensures Valid() && pos == 0 && blockPos == 0
      ensures this.list == list && this.universe == universe && this.weight == weight && this.wand == wand
      ensures forall lo, hi :: Dominates(this, lo, hi)
    {
      this.list, this.universe, this.weight, this.wand := list, universe, weight, wand;
      pos, blockPos := 0, 0;
      maxScore := weight * wand.listMax;
      WeightRaises(weight, wand.listMax);
    }

    /** The current document, or the universe once the list is exhausted. */
    function Docid(): nat
      reads this`pos
    {
      if pos < |list.docs| then list.docs[pos] else universe
    }

    function Score(): real
      requires WellFormed() && pos < |list.docs|
      reads this`pos
    {
      list.scores[pos]
    }

    function BlockMaxDocid(): nat
      requires blockPos < |wand.blockDocids|
      reads this`blockPos
    {
      wand.blockDocids[blockPos]
    }

    /** The block maximum times the query weight, the form every query uses it in. */
    function BlockBound(): real
      requires WellFormed() && blockPos < |wand.blockDocids|
      reads this`blockPos
    {
      wand.blockMaxs[blockPos] * weight
    }

    /** Every posting at `x` or later is still ahead of the cursor. */
    ghost predicate Behind(x: nat)
      reads this`pos
    {
      0 < pos <= |list.docs| ==> list.docs[pos - 1] < x
    }

    ghost predicate BlockBehind(x: nat)
      reads this`blockPos
    {
      0 < blockPos <= |wand.blockDocids| ==> wand.blockDocids[blockPos - 1] < x
    }

    method Next()
      requires Valid() && pos < |list.docs|
      modifies this`pos
      ensures Valid() && pos == old(pos) + 1 && Docid() > old(Docid())
    {
      pos := pos + 1;
    }

    /** Moves forward to the first posting at `x` or later; does nothing when already there. */
    method NextGeq(x: nat)
      requires Valid()
      modifies this`pos
      ensures Valid() && pos >= old(pos) && Docid() >= old(Docid())
      ensures forall i :: old(pos) <= i < pos ==> list.docs[i] < x
      ensures pos < |list.docs| ==> list.docs[pos] >= x
    {
      while pos < |list.docs| && list.docs[pos] < x
        invariant old(pos) <= pos <= |list.docs|
        invariant forall i :: old(pos) <= i < pos ==> list.docs[i] < x
      {
        pos := pos + 1;
      }
    }

    /** As `NextGeq`, but searches from the start, so it may move backwards. */
    method GlobalGeq(x: nat)
      requires Valid()
      modifies this`pos
      ensures Valid() && Behind(x)
      ensures pos < |list.docs| ==> list.docs[pos] >= x
    {
      pos := 0;
      NextGeq(x);
    }

    method BlockMaxNextGeq(x: nat)
      requires Valid()
      modifies this`blockPos
      ensures Valid() && blockPos >= old(blockPos)
      ensures forall b :: old(blockPos) <= b < blockPos ==> wand.blockDocids[b] < x
      ensures wand.blockDocids[blockPos] >= x || blockPos + 1 == |wand.blockDocids|
      ensures wand.blockDocids[old(blockPos)] >= x ==> blockPos == old(blockPos)
    {
      while blockPos + 1 < |wand.blockDocids| && wand.blockDocids[blockPos] < x
        invariant old(blockPos) <= blockPos < |wand.blockDocids|
        invariant forall b :: old(blockPos) <= b < blockPos ==> wand.blockDocids[b] < x
      {
        blockPos := blockPos + 1;
      }
    }

    method BlockMaxGlobalGeq(x: nat)
      requires Valid()
      modifies this`blockPos
      ensures Valid() && BlockBehind(x)
    {
      blockPos := 0;
      BlockMaxNextGeq(x);
    }

    method UpdateRangeMaxScore(range: nat)
      requires Valid() && Increasing(wand.rangeIds)
      modifies this`maxScore
      ensures Valid() && maxScore == weight * RangeBound(wand, range) >= RangeBound(wand, range)
    {
      var s := RangeScore(wand, range);
      assert s >= 0.0;
      WeightRaises(weight, s);
      maxScore := weight * s;
    }
  }

  lemma WeightRaises(weight: real, x: real)
    requires weight >= 1.0 && x >= 0.0
    ensures weight * x >= x && x * weight >= x
  {
  }

  /** The cursor's current list bound dominates its postings in [lo, hi). */
  ghost predicate Dominates(c: Cursor, lo: nat, hi: nat)
    reads c`maxScore
  {
    forall i :: 0 <= i < |c.list.docs| && i < |c.list.scores| && lo <= c.list.docs[i] < hi ==>
      c.list.scores[i] <= c.maxScore
  }

  lemma ScoreAtMostMax(c: Cursor, lo: nat, hi: nat, d: nat)
    requires c.Valid() && Dominates(c, lo, hi) && lo <= d < hi
    ensures ScoreAt(c.list, d) <= c.maxScore
  {
  }

  /** A cursor that stands past `d` without having skipped it shows `d` is not in the list. */
  lemma PastMeansAbsent(c: Cursor, d: nat)
    requires c.Valid() && c.Behind(d) && d < c.Docid()
    ensures ScoreAt(c.list, d) == 0.0
  {
  }

  lemma ScoreHere(c: Cursor)
    requires c.Valid() && c.pos < |c.list.docs|
    ensures ScoreAt(c.list, c.Docid()) == c.Score()
  {
    ScoreAtIndex(c.list, c.universe, c.pos);
  }

  /** The current block bounds every posting from `x` up to the block's end, when the block
      cursor has not run past `x`. */
  lemma BlockBoundsScore(c: Cursor, x: nat, d: nat)
    requires c.Valid() && c.BlockBehind(x) && x <= d <= c.BlockMaxDocid()
    ensures ScoreAt(c.list, d) <= c.BlockBound()
  {
    WeightRaises(c.weight, c.wand.blockMaxs[c.blockPos]);
    if ScoreAt(c.list, d) > 0.0 {
      var i: nat :| HasAt(c.list, d, i) && ScoreAt(c.list, d) == c.list.scores[i];
      assert Covers(c.wand.blockDocids, c.blockPos, c.list.docs[i]);
      assert c.list.scores[i] <= c.wand.blockMaxs[c.blockPos];
    }
  }

  /** A list whose last block ends before `d` does not contain `d`. */
  lemma PastBlocksMeansAbsent(c: Cursor, d: nat)
    requires c.Valid() && c.blockPos + 1 == |c.wand.blockDocids| && c.BlockMaxDocid() < d
    ensures ScoreAt(c.list, d) == 0.0
  {
  }

  lemma BlockBoundNonNegative(c: Cursor)
    requires c.Valid()
    ensures c.BlockBound() >= 0.0
  {
    WeightRaises(c.weight, c.wand.blockMaxs[c.blockPos]);
  }

  /* ----- Several cursors ----- */

  ghost function Group(cs: seq<Cursor>): set<Cursor> {
    set c | c in cs
  }

  ghost function Lists(cs: seq<Cursor>): seq<PostingList> {
    seq(|cs|, i requires 0 <= i < |cs| => cs[i].list)
  }

  /** `ordered` holds the same cursors as `cursors`, each once. */
  ghost predicate Arranges(ordered: seq<Cursor>, cursors: seq<Cursor>) {
    multiset(ordered) == multiset(cursors)
  }

  ghost predicate Distinct(cs: seq<Cursor>) {
    forall c :: c in multiset(cs) ==> multiset(cs)[c] == 1
  }

  lemma ArrangedMembers(ordered: seq<Cursor>, cursors: seq<Cursor>)
    requires Arranges(ordered, cursors)
    ensures |ordered| == |cursors| && Group(ordered) == Group(cursors)
    ensures forall i :: 0 <= i < |ordered| ==> ordered[i] in Group(cursors)
  {
    assert |multiset(ordered)| == |multiset(cursors)|;
    forall c ensures c in ordered <==> c in cursors {
      assert c in multiset(ordered) <==> c in multiset(cursors);
    }
  }

  lemma WithoutCursor(cs: seq<Cursor>, j: nat) returns (rest: seq<Cursor>)
    requires j < |cs|
    ensures rest == cs[..j] + cs[j + 1..]
    ensures |rest| == |cs| - 1 && multiset(rest) == multiset(cs) - multiset{cs[j]}
    ensures multiset(Lists(cs)) == multiset(Lists(rest)) + multiset{cs[j].list}
  {
    rest := cs[..j] + cs[j + 1..];
    assert cs == cs[..j] + [cs[j]] + cs[j + 1..];
    assert Lists(cs) == Lists(cs[..j]) + [cs[j].list] + Lists(cs[j + 1..]);
    assert Lists(rest) == Lists(cs[..j]) + Lists(cs[j + 1..]);
  }

  lemma {:induction false} ArrangedLists(a: seq<Cursor>, b: seq<Cursor>)
    requires Arranges(a, b)
    ensures multiset(Lists(a)) == multiset(Lists(b))
    decreases |a|
  {
    ArrangedMembers(a, b);
    if a != [] {
      assert a[0] in multiset(b);
      var j :| 0 <= j < |b| && b[j] == a[0];
      var a' := WithoutCursor(a, 0);
      var b' := WithoutCursor(b, j);
      ArrangedLists(a', b');
    }
  }

  lemma ArrangedTotals(a: seq<Cursor>, b: seq<Cursor>)
    requires Arranges(a, b)
    ensures forall d: nat :: Total(Lists(a), d) == Total(Lists(b), d)
  {
    ArrangedLists(a, b);
    forall d: nat ensures Total(Lists(a), d) == Total(Lists(b), d) {
      TotalPermutation(Lists(a), Lists(b), d);
    }
  }

  lemma DistinctIndices(cs: seq<Cursor>, i: nat, j: nat)
    requires Distinct(cs) && i < j < |cs|
    ensures cs[i] != cs[j]
  {
    assert cs == cs[..j] + [cs[j]] + cs[j + 1..];
    assert cs[j] in multiset(cs) && cs[..j][i] in multiset(cs[..j]);
  }

  lemma DistinctFrom(cs: seq<Cursor>, i: nat)
    requires Distinct(cs) && i < |cs|
    ensures forall j :: 0 <= j < |cs| && j != i ==> cs[j] != cs[i]
  {
    forall j | 0 <= j < |cs| && j != i ensures cs[j] != cs[i] {
      if j < i { DistinctIndices(cs, j, i); } else { DistinctIndices(cs, i, j); }
    }
  }

  /* ----- Sorting ----- */

  ghost predicate NonDecreasing(keys: seq<real>) {
    forall i, j :: 0 <= i < j < |keys| ==> keys[i] <= keys[j]
  }

  lemma InsertKey(keys: seq<real>, i: nat, k: real)
    requires NonDecreasing(keys) && i <= |keys|
    requires forall j :: 0 <= j < i ==> keys[j] <= k
    requires i < |keys| ==> k <= keys[i]
    ensures NonDecreasing(keys[..i] + [k] + keys[i..])
  {
    var ks := keys[..i] + [k] + keys[i..];
    forall m, n | 0 <= m < n < |ks| ensures ks[m] <= ks[n] {
      assert ks[m] == if m < i then keys[m] else if m == i then k else keys[m - 1];
      assert ks[n] == if n < i then keys[n] else if n == i then k else keys[n - 1];
    }
  }

  ghost predicate Keyed(c: Cursor, k: real, cs: seq<Cursor>, keys: seq<real>) {
    |cs| == |keys| && exists j :: 0 <= j < |cs| && cs[j] == c && keys[j] == k
  }

  method InsertByKey(o: seq<Cursor>, sorted: seq<real>, c: Cursor, k: real) returns (i: nat)
    requires |o| == |sorted| && NonDecreasing(sorted)
    ensures i <= |o| && NonDecreasing(sorted[..i] + [k] + sorted[i..])
  {
    i := 0;
    while i < |o| && sorted[i] <= k
      invariant 0 <= i <= |o| && forall j :: 0 <= j < i ==> sorted[j] <= k
    {
      i := i + 1;
    }
    InsertKey(sorted, i, k);
  }

  lemma InsertedKeyed(
    o: seq<Cursor>, sorted: seq<real>, i: nat, n: nat, cs: seq<Cursor>, keys: seq<real>)
    requires |o| == |sorted| && i <= |o| && n < |cs| == |keys|
    requires forall j :: 0 <= j < |o| ==> Keyed(o[j], sorted[j], cs, keys)
    ensures var o', sorted' := o[..i] + [cs[n]] + o[i..], sorted[..i] + [keys[n]] + sorted[i..];
      && multiset(o') == multiset(o) + multiset{cs[n]}
      && forall j :: 0 <= j < |o'| ==> Keyed(o'[j], sorted'[j], cs, keys)
  {
    var o', sorted' := o[..i] + [cs[n]] + o[i..], sorted[..i] + [keys[n]] + sorted[i..];
    assert o == o[..i] + o[i..];
    assert Keyed(cs[n], keys[n], cs, keys);
    forall j | 0 <= j < |o'| ensures Keyed(o'[j], sorted'[j], cs, keys) {
      if j < i {
        assert o'[j] == o[j] && sorted'[j] == sorted[j];
      } else if j > i {
        assert o'[j] == o[j - 1] && sorted'[j] == sorted[j - 1];
      }
    }
  }

  /** `std::sort` on cursors by a key: some sorted permutation. */
  method SortByKey(cs: seq<Cursor>, keys: seq<real>) returns (o: seq<Cursor>, ghost ks: seq<real>)
    requires |keys| == |cs|
    ensures Arranges(o, cs) && |ks| == |o| && NonDecreasing(ks)
    ensures forall i :: 0 <= i < |o| ==> Keyed(o[i], ks[i], cs, keys)
  {
    hide NonDecreasing, Keyed;
    o := [];
    var sorted: seq<real> := [];
    EmptyOrdered();
    for n := 0 to |cs|
      invariant |o| == |sorted| && NonDecreasing(sorted)
      invariant multiset(o) == multiset(cs[..n])
      invariant forall i :: 0 <= i < |o| ==> Keyed(o[i], sorted[i], cs, keys)
    {
      var i := InsertByKey(o, sorted, cs[n], keys[n]);
      InsertedKeyed(o, sorted, i, n, cs, keys);
      assert cs[..n + 1] == cs[..n] + [cs[n]];
      o, sorted := o[..i] + [cs[n]] + o[i..], sorted[..i] + [keys[n]] + sorted[i..];
    }
    assert cs[..|cs|] == cs;
    ks := sorted;
  }

  lemma EmptyOrdered()
    ensures NonDecreasing([])
  {
  }

  /* ----- Sums of bounds ----- */

  ghost function Sum(u: seq<real>): real {
    if u == [] then 0.0 else Sum(u[..|u| - 1]) + u[|u| - 1]
  }

  lemma SumExtend(u: seq<real>, n: nat)
    requires n < |u|
    ensures Sum(u[..n + 1]) == Sum(u[..n]) + u[n]
  {
    assert u[..n + 1][..n] == u[..n];
  }

  lemma {:induction false} SumNonNegative(u: seq<real>)
    requires forall i :: 0 <= i < |u| ==> u[i] >= 0.0
    ensures Sum(u) >= 0.0
  {
    if u != [] {
      SumNonNegative(u[..|u| - 1]);
    }
  }

  lemma {:induction false} SumSplitFirst(u: seq<real>)
    requires u != []
    ensures Sum(u) == u[0] + Sum(u[1..])
  {
    if |u| > 1 {
      SumSplitFirst(u[..|u| - 1]);
      assert u[..|u| - 1][1..] == u[1..][..|u| - 2];
    } else {
      assert u[..0] == [] && u[1..] == [];
    }
  }

  lemma {:induction false} TotalAtMost(ls: seq<PostingList>, d: nat, u: seq<real>)
    requires |ls| == |u| && forall i :: 0 <= i < |ls| ==> ScoreAt(ls[i], d) <= u[i]
    ensures Total(ls, d) <= Sum(u)
  {
    if ls != [] {
      TotalAtMost(ls[..|ls| - 1], d, u[..|u| - 1]);
    }
  }

  /** Lists without `d` add nothing to its total. */
  lemma {:induction false} TotalPrefix(ls: seq<PostingList>, p: nat, d: nat)
    requires p <= |ls| && forall i :: p <= i < |ls| ==> ScoreAt(ls[i], d) == 0.0
    ensures Total(ls, d) == Total(ls[..p], d)
  {
    if p == |ls| {
      assert ls[..p] == ls;
    } else {
      TotalPrefix(ls[..|ls| - 1], p, d);
      assert ls[..|ls| - 1][..p] == ls[..p];
    }
  }

  lemma {:induction false} TotalOfPrefixAtMost(ls: seq<PostingList>, p: nat, d: nat)
    requires p <= |ls| && forall i :: 0 <= i < |ls| ==> NonNegative(ls[i])
    ensures Total(ls[..p], d) <= Total(ls, d)
  {
    assert ls == ls[..p] + ls[p..];
    TotalConcat(ls[..p], ls[p..], d);
    TotalNonNegative(ls[p..], d);
  }

  ghost function Maxes(cs: seq<Cursor>): seq<real>
    reads cs
  {
    seq(|cs|, i requires 0 <= i < |cs| reads cs => cs[i].maxScore)
  }

  /* ----- Termination: the postings still ahead ----- */

  ghost function Left(cs: seq<Cursor>): seq<int>
    reads cs
  {
    seq(|cs|, i requires 0 <= i < |cs| reads cs => |cs[i].list.docs| - cs[i].pos)
  }

  ghost function SumLeft(u: seq<int>): int {
    if u == [] then 0 else SumLeft(u[..|u| - 1]) + u[|u| - 1]
  }

  lemma {:induction false} SumLeftDecreases(u: seq<int>, v: seq<int>)
    requires |u| == |v| && forall i :: 0 <= i < |u| ==> 0 <= v[i] <= u[i]
    ensures 0 <= SumLeft(v) <= SumLeft(u)
    ensures (exists i :: 0 <= i < |u| && v[i] < u[i]) ==> SumLeft(v) < SumLeft(u)
  {
    if u != [] {
      SumLeftDecreases(u[..|u| - 1], v[..|v| - 1]);
      if i :| 0 <= i < |u| && v[i] < u[i] {
        if i < |u| - 1 {
          assert v[..|v| - 1][i] < u[..|u| - 1][i];
        }
      }
    }
  }

  lemma {:induction false} SumLeftConcat(u: seq<int>, v: seq<int>)
    ensures SumLeft(u + v) == SumLeft(u) + SumLeft(v)
  {
    if v == [] {
      assert u + v == u;
    } else {
      SumLeftConcat(u, v[..|v| - 1]);
      assert (u + v)[..|u + v| - 1] == u + v[..|v| - 1];
    }
  }

  lemma ArrangedWithoutFirst(a: seq<Cursor>, b: seq<Cursor>) returns (j: nat)
    requires Arranges(a, b) && a != []
    ensures j < |b| && b[j] == a[0]
    ensures Arranges(a[..0] + a[1..], b[..j] + b[j + 1..])
  {
    assert a[0] in multiset(b);
    j :| 0 <= j < |b| && b[j] == a[0];
    var _ := WithoutCursor(a, 0);
    var _ := WithoutCursor(b, j);
  }

  /** Rearranging the cursors leaves the number of postings ahead as it is. */
  lemma {:induction false} ArrangedLeft(a: seq<Cursor>, b: seq<Cursor>)
    requires Arranges(a, b)
    ensures SumLeft(Left(a)) == SumLeft(Left(b))
    decreases |a|
  {
    hide Arranges;
    if a != [] {
      var j := ArrangedWithoutFirst(a, b);
      LeftWithout(a, 0);
      LeftWithout(b, j);
      ArrangedLeft(a[..0] + a[1..], b[..j] + b[j + 1..]);
    } else {
      ArrangedMembers(a, b);
    }
  }

  lemma LeftWithout(cs: seq<Cursor>, j: nat)
    requires j < |cs|
    ensures SumLeft(Left(cs)) == SumLeft(Left(cs[..j] + cs[j + 1..])) + |cs[j].list.docs| - cs[j].pos
  {
    var x := |cs[j].list.docs| - cs[j].pos;
    assert Left(cs) == Left(cs[..j]) + [x] + Left(cs[j + 1..]);
    assert Left(cs[..j] + cs[j + 1..]) == Left(cs[..j]) + Left(cs[j + 1..]);
    SumLeftConcat(Left(cs[..j]) + [x], Left(cs[j + 1..]));
    SumLeftConcat(Left(cs[..j]), [x]);
    SumLeftConcat(Left(cs[..j]), Left(cs[j + 1..]));
  }
}
