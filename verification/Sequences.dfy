/** What a position in a sorted sequence of numbers below a universe means. */
module Sequences {

  ghost predicate Sorted(vs: seq<nat>) {
    forall i, j :: 0 <= i <= j < |vs| ==> vs[i] <= vs[j]
  }

  ghost predicate Increasing(vs: seq<nat>) {
    forall i, j :: 0 <= i < j < |vs| ==> vs[i] < vs[j]
  }

  ghost predicate Below(vs: seq<nat>, universe: nat) {
    forall i :: 0 <= i < |vs| ==> vs[i] < universe
  }

  /** The i-th value; the universe past the end. */
  ghost function ValueAt(universe: nat, vs: seq<nat>, i: nat): nat {
    if i < |vs| then vs[i] else universe
  }

  /** `i` is the least index whose value is at least `bound`, or the length. */
  ghost predicate Least(vs: seq<nat>, bound: nat, i: nat) {
    i <= |vs| && (forall j :: 0 <= j < i ==> vs[j] < bound) && (i < |vs| ==> vs[i] >= bound)
  }

  lemma LeastUnique(vs: seq<nat>, bound: nat, i: nat, j: nat)
    requires Least(vs, bound, i) && Least(vs, bound, j)
    ensures i == j
  {
  }

  /** Staying at a value that equals the bound is the least position exactly when the value
      before is smaller; so it always is for strictly increasing sequences. */
  lemma StayingIsLeastIff(vs: seq<nat>, i: nat)
    requires Sorted(vs) && i < |vs|
    ensures Least(vs, vs[i], i) <==> i == 0 || vs[i - 1] < vs[i]
  {
    if i > 0 && vs[i - 1] < vs[i] {
      assert forall j :: 0 <= j < i ==> vs[j] <= vs[i - 1];
    }
  }

  lemma StayingIsNotLeast()
    ensures Sorted([5, 5]) && !Least([5, 5], 5, 1) && Least([5, 5], 5, 0)
  {
    assert [5, 5][0] == 5;
  }

  lemma SortedExtend(vs: seq<nat>, i: nat)
    requires i < |vs| && Sorted(vs[..i]) && (i > 0 ==> vs[i - 1] <= vs[i])
    ensures Sorted(vs[..i + 1])
  {
    var t := vs[..i + 1];
    forall j, k | 0 <= j <= k < |t| ensures t[j] <= t[k] {
      if j < k {
        assert vs[..i][j] <= vs[..i][i - 1];
        if k < i {
          assert vs[..i][j] <= vs[..i][k];
        }
      }
    }
  }

  lemma Unsorted(vs: seq<nat>, i: nat)
    requires 0 < i < |vs| && vs[i] < vs[i - 1]
    ensures !Sorted(vs)
  {
  }
}
