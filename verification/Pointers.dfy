/** Tables of fixed-width numbers inside a bit vector: sampled positions and ranks.

    Entry k of a table describes multiple k of its step; entry 0 is implicit and not stored.
 */
module Pointers {
  import opened Bits

  /** Where entry `ptr` of a table starts. */
  function PointerPos(offset: nat, size: nat, ptr: nat): nat
    requires ptr > 0
  {
    offset + (ptr - 1) * size
  }

  ghost predicate PointerAt(bits: seq<bool>, offset: nat, size: nat, ptr: nat, v: nat) {
    && ptr > 0
    && PointerPos(offset, size, ptr) + size <= |bits|
    && Field(bits, PointerPos(offset, size, ptr), size) == v
  }

  lemma PointerWithin(ptr: nat, count: nat, size: nat)
    requires 0 < ptr <= count
    ensures PointerPos(0, size, ptr) + size <= count * size
  {
    MulMono(ptr - 1, count, size);
  }

  lemma PointerKeep(a: seq<bool>, b: seq<bool>, offset: nat, size: nat, count: nat, ptr: nat, v: nat)
    requires PointerAt(a, offset, size, ptr, v) && ptr <= count
    requires SameOn(a, b, offset, offset + count * size)
    ensures PointerAt(b, offset, size, ptr, v)
  {
    PointerWithin(ptr, count, size);
    FieldSame(a, b, PointerPos(offset, size, ptr), size);
  }

  lemma PointerPut(bits: seq<bool>, offset: nat, size: nat, k: nat, v: nat)
    requires k > 0 && PointerPos(offset, size, k) + size <= |bits| && v < Pow2(size)
    ensures PointerAt(Put(bits, PointerPos(offset, size, k), v, size), offset, size, k, v)
  {
    FieldOfPut(bits, PointerPos(offset, size, k), v, size);
  }

  lemma PointerBefore(a: seq<bool>, b: seq<bool>, offset: nat, size: nat, k: nat, ptr: nat, w: nat)
    requires 0 < ptr < k && PointerAt(a, offset, size, ptr, w)
    requires PointerPos(offset, size, k) <= |a| && |a| == |b| && SameOn(a, b, 0, PointerPos(offset, size, k))
    ensures PointerAt(b, offset, size, ptr, w)
  {
    MulMono(ptr - 1, k - 1, size);
    FieldSame(a, b, PointerPos(offset, size, ptr), size);
  }

  /** Bits put in front only move a table. */
  lemma PointerShift(front: seq<bool>, bits: seq<bool>, offset: nat, size: nat, ptr: nat, v: nat)
    requires PointerAt(bits, offset, size, ptr, v)
    ensures PointerAt(front + bits, |front| + offset, size, ptr, v)
  {
    FieldShift(front, bits, PointerPos(offset, size, ptr), size);
  }

  method ReadPointer(bits: seq<bool>, offset: nat, size: nat, ptr: nat, ghost v: nat) returns (p: nat)
    requires if ptr == 0 then v == 0 else PointerAt(bits, offset, size, ptr, v)
    ensures p == v
  {
    if ptr == 0 {
      return 0;
    }
    return Field(bits, PointerPos(offset, size, ptr), size);
  }

  /* ----- Writing the entries of a run ----- */

  datatype Table = Table(offset: nat, size: nat, count: nat, step: nat) {
    function End(): nat { offset + count * size }
  }

  /** What entry k holds: the multiple itself plus a constant, or only the constant. */
  function Sample(t: Table, k: nat, linear: bool, c: nat): nat {
    if linear then k * t.step + c else c
  }

  /** Entries lo, ..., hi-1 hold their samples. */
  ghost predicate RunEntries(bits: seq<bool>, t: Table, linear: bool, c: nat, lo: nat, hi: nat) {
    forall k: nat :: 0 < k && lo <= k < hi ==> PointerAt(bits, t.offset, t.size, k, Sample(t, k, linear, c))
  }

  /** The entries below `k` that the old bits held are still there. */
  ghost predicate EntriesStay(a: seq<bool>, b: seq<bool>, t: Table, k: nat) {
    forall j: nat, v: nat :: j < k && PointerAt(a, t.offset, t.size, j, v) ==> PointerAt(b, t.offset, t.size, j, v)
  }

  ghost predicate OnlyTable(a: seq<bool>, b: seq<bool>, t: Table) {
    |a| == |b| && SameOn(a, b, 0, t.offset) && t.End() <= |a| && SameOn(a, b, t.End(), |a|)
  }

  /** One more entry of the run. */
  lemma RunStep(was: seq<bool>, a: seq<bool>, t: Table, linear: bool, c: nat, first: nat, k: nat, v: nat)
    requires OnlyTable(was, a, t) && RunEntries(a, t, linear, c, first, k) && EntriesStay(was, a, t, first)
    requires 0 < k <= t.count && first <= k && v == Sample(t, k, linear, c) < Pow2(t.size)
    ensures PointerPos(t.offset, t.size, k) + t.size <= |a|
    ensures var b := Put(a, PointerPos(t.offset, t.size, k), v, t.size);
            OnlyTable(was, b, t) && RunEntries(b, t, linear, c, first, k + 1) && EntriesStay(was, b, t, first)
  {
    PointerWithin(k, t.count, t.size);
    assert t.offset <= PointerPos(t.offset, t.size, k) && PointerPos(t.offset, t.size, k) + t.size <= t.End();
    hide PointerPos, PointerAt, Sample;
    var b := Put(a, PointerPos(t.offset, t.size, k), v, t.size);
    PointerPut(a, t.offset, t.size, k, v);
    forall j: nat | 0 < j && first <= j < k + 1 ensures PointerAt(b, t.offset, t.size, j, Sample(t, j, linear, c)) {
      if j < k {
        PointerBefore(a, b, t.offset, t.size, k, j, Sample(t, j, linear, c));
      }
    }
    forall j: nat, w: nat | j < first && PointerAt(was, t.offset, t.size, j, w) ensures PointerAt(b, t.offset, t.size, j, w) {
      PointerNumber(was, t.offset, t.size, j, w);
      PointerBefore(a, b, t.offset, t.size, k, j, w);
    }
  }

  lemma PointerNumber(bits: seq<bool>, offset: nat, size: nat, ptr: nat, v: nat)
    requires PointerAt(bits, offset, size, ptr, v)
    ensures ptr > 0
  {
  }

  /** Writes the entries of all multiples of the step from `lo` to `hi` - 1. */
  method SetRun(builder: BitVectorBuilder, t: Table, ghost total: nat, lo: nat, hi: int, linear: bool, c: nat)
    requires t.step > 0 && t.count == total / t.step && hi <= total && t.End() <= |builder.bits|
    requires if linear then hi + c <= Pow2(t.size) else c < Pow2(t.size)
    modifies builder
    ensures OnlyTable(old(builder.bits), builder.bits, t)
    ensures EntriesStay(old(builder.bits), builder.bits, t, CeilDiv(lo, t.step))
    ensures forall k: nat :: 0 < k && lo <= k * t.step < hi ==>
              PointerAt(builder.bits, t.offset, t.size, k, Sample(t, k, linear, c))
  {
    hide PointerAt, PointerPos, OnlyTable, RunEntries, EntriesStay, Pow2, CeilDiv;
    var k := CeilDiv(lo, t.step);
    ghost var first := k;
    NoRun(builder.bits, t, linear, c, first);
    while k * t.step < hi
      invariant first <= k && |builder.bits| == |old(builder.bits)|
      invariant OnlyTable(old(builder.bits), builder.bits, t)
      invariant RunEntries(builder.bits, t, linear, c, first, k)
      invariant EntriesStay(old(builder.bits), builder.bits, t, first)
      decreases hi - k * t.step
    {
      MulMono(k, k + 1, t.step);
      if k == 0 {
        SkipZero(builder.bits, t, linear, c, first);
      } else {
        MulAtMostDiv(k, t.step, total);
        RunStep(old(builder.bits), builder.bits, t, linear, c, first, k, Sample(t, k, linear, c));
        builder.SetBits(PointerPos(t.offset, t.size, k), Sample(t, k, linear, c), t.size);
      }
      k := k + 1;
    }
    RunIsInterval(builder.bits, t, linear, c, lo, hi, first, k);
  }

  lemma NoRun(bits: seq<bool>, t: Table, linear: bool, c: nat, first: nat)
    requires t.End() <= |bits|
    ensures OnlyTable(bits, bits, t) && RunEntries(bits, t, linear, c, first, first) && EntriesStay(bits, bits, t, first)
  {
  }

  lemma SkipZero(bits: seq<bool>, t: Table, linear: bool, c: nat, first: nat)
    ensures RunEntries(bits, t, linear, c, first, 1)
  {
  }

  lemma RunIsInterval(bits: seq<bool>, t: Table, linear: bool, c: nat, lo: nat, hi: int, first: nat, last: nat)
    requires t.step > 0 && RunEntries(bits, t, linear, c, first, last)
    requires first == CeilDiv(lo, t.step) && hi <= last * t.step
    ensures forall k: nat :: 0 < k && lo <= k * t.step < hi ==>
              PointerAt(bits, t.offset, t.size, k, Sample(t, k, linear, c))
  {
    hide PointerAt, Sample;
    forall k: nat | 0 < k && lo <= k * t.step < hi
      ensures PointerAt(bits, t.offset, t.size, k, Sample(t, k, linear, c))
    {
      CeilDivIs(lo, t.step, k);
      if last <= k {
        MulMono(last, k, t.step);
      }
    }
  }
}
