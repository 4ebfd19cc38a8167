/** Ranked bitvectors: a strictly increasing sequence as the ones of a bit vector, with
    sampled ranks and pointers that let an enumerator jump.
 */
module RankedBitvector {
  import opened Bits
  import opened Pointers
  import opened Sequences

  datatype Params = Params(logRank1Sampling: nat, logSampling1: nat)

  datatype Offsets = Offsets(
    universe: nat, n: nat, logRank1Sampling: nat, logSampling1: nat,
    rank1SampleSize: nat, pointerSize: nat, rank1Samples: nat, pointers1: nat,
    rank1SamplesOffset: nat, pointers1Offset: nat, bitsOffset: nat, end: nat)

  function MakeOffsets(base: nat, universe: nat, n: nat, params: Params): (of: Offsets)
    requires universe > 0
  {
    PlaceOffsets(
      base, universe, n, params, CeilLog2(n + 1), CeilLog2(universe),
      Shr(universe, params.logRank1Sampling), Shr(n, params.logSampling1))
  }

  function PlaceOffsets(
    base: nat, universe: nat, n: nat, params: Params, rank1SampleSize: nat, pointerSize: nat,
    rank1Samples: nat, pointers1: nat): Offsets
  {
    var pointers1Offset := base + rank1Samples * rank1SampleSize;
    var bitsOffset := pointers1Offset + pointers1 * pointerSize;
    Offsets(universe, n, params.logRank1Sampling, params.logSampling1, rank1SampleSize, pointerSize,
      rank1Samples, pointers1, base, pointers1Offset, bitsOffset, bitsOffset + universe)
  }

  ghost predicate Layout(of: Offsets, base: nat) {
    && of.universe > 0 && of.rank1SamplesOffset == base
    && of.n < Pow2(of.rank1SampleSize) && of.universe <= Pow2(of.pointerSize)
    && of.rank1Samples == Shr(of.universe, of.logRank1Sampling)
    && of.pointers1 == Shr(of.n, of.logSampling1)
    && of.pointers1Offset == base + of.rank1Samples * of.rank1SampleSize
    && of.bitsOffset == of.pointers1Offset + of.pointers1 * of.pointerSize
    && of.end == of.bitsOffset + of.universe
  }

  lemma MakeOffsetsLayout(base: nat, universe: nat, n: nat, params: Params)
    requires universe > 0
    ensures var of := MakeOffsets(base, universe, n, params);
            Layout(of, base) && of.universe == universe && of.n == n
  {
    hide CeilLog2, Pow2, Shr;
    CeilLog2Fits(n + 1);
    CeilLog2Fits(universe);
  }

  lemma RegionsOrdered(of: Offsets)
    requires Layout(of, of.rank1SamplesOffset)
    ensures of.rank1SamplesOffset <= of.pointers1Offset <= of.bitsOffset <= of.end
  {
    hide Pow2, Shr;
  }

  ghost predicate Fits(of: Offsets, vs: seq<nat>) {
    Layout(of, of.rank1SamplesOffset) && |vs| == of.n && Increasing(vs) && Below(vs, of.universe)
  }

  /** Exactly `r` values are below `p`. */
  ghost predicate RankIs(vs: seq<nat>, p: nat, r: nat) {
    r <= |vs| && (r > 0 ==> vs[r - 1] < p) && (r < |vs| ==> p <= vs[r])
  }

  lemma RankIsLeast(vs: seq<nat>, p: nat, r: nat)
    requires Increasing(vs) && RankIs(vs, p, r)
    ensures Least(vs, p, r)
  {
    forall j | 0 <= j < r ensures vs[j] < p {
      assert vs[j] <= vs[r - 1];
    }
  }

  lemma RankUnique(vs: seq<nat>, p: nat, r: nat, s: nat)
    requires Increasing(vs) && RankIs(vs, p, r) && RankIs(vs, p, s)
    ensures r == s
  {
    RankIsLeast(vs, p, r);
    RankIsLeast(vs, p, s);
    LeastUnique(vs, p, r, s);
  }

  lemma FindRank(vs: seq<nat>, p: nat) returns (r: nat)
    requires Increasing(vs)
    ensures RankIs(vs, p, r)
  {
    r := 0;
    while r < |vs| && vs[r] < p
      invariant r <= |vs| && (r > 0 ==> vs[r - 1] < p)
    {
      r := r + 1;
    }
  }

  /* ----- What the bits must say of the values written so far ----- */

  ghost predicate MarkAt(bits: seq<bool>, of: Offsets, p: nat) {
    of.bitsOffset + p < |bits| && bits[of.bitsOffset + p]
  }

  /** The ones are the values. */
  ghost predicate Marks(bits: seq<bool>, of: Offsets, vs: seq<nat>) {
    of.end <= |bits| && forall p: nat :: p < of.universe ==> (MarkAt(bits, of, p) <==> p in vs)
  }

  function SampleTable(of: Offsets): Table {
    Table(of.rank1SamplesOffset, of.rank1SampleSize, of.rank1Samples, Pow2(of.logRank1Sampling))
  }

  ghost predicate SampleDone(bits: seq<bool>, of: Offsets, vs: seq<nat>, closed: bool, s: nat, r: nat) {
    var p := s * Pow2(of.logRank1Sampling);
    s > 0 && RankIs(vs, p, r) && (r < |vs| || closed) && p < of.universe ==>
      PointerAt(bits, of.rank1SamplesOffset, of.rank1SampleSize, s, r)
  }

  /** Sampled positions up to the last value, or all when closed, have their rank stored. */
  ghost predicate Samples(bits: seq<bool>, of: Offsets, vs: seq<nat>, closed: bool) {
    forall s: nat, r: nat :: SampleDone(bits, of, vs, closed, s, r)
  }

  ghost predicate PointerDone(bits: seq<bool>, of: Offsets, vs: seq<nat>, ptr: nat) {
    var k := ptr * Pow2(of.logSampling1);
    ptr > 0 && k < |vs| ==> PointerAt(bits, of.pointers1Offset, of.pointerSize, ptr, vs[k])
  }

  ghost predicate Pointers1(bits: seq<bool>, of: Offsets, vs: seq<nat>) {
    forall ptr: nat :: PointerDone(bits, of, vs, ptr)
  }

  ghost predicate Encodes(bits: seq<bool>, of: Offsets, vs: seq<nat>) {
    Fits(of, vs) && Marks(bits, of, vs) && Samples(bits, of, vs, true) && Pointers1(bits, of, vs)
  }

  /* ----- Each part depends on its own region only ----- */

  lemma MarksKeep(a: seq<bool>, b: seq<bool>, of: Offsets, vs: seq<nat>)
    requires Marks(a, of, vs) && SameOn(a, b, of.bitsOffset, of.end) && of.end == of.bitsOffset + of.universe
    ensures Marks(b, of, vs)
  {
    forall p: nat | p < of.universe ensures MarkAt(b, of, p) <==> MarkAt(a, of, p) {
    }
  }

  lemma SamplesKeep(a: seq<bool>, b: seq<bool>, of: Offsets, vs: seq<nat>, closed: bool)
    requires Layout(of, of.rank1SamplesOffset) && Samples(a, of, vs, closed)
    requires SameOn(a, b, of.rank1SamplesOffset, of.pointers1Offset)
    ensures Samples(b, of, vs, closed)
  {
    var d := Pow2(of.logRank1Sampling);
    forall s: nat, r: nat | s > 0 && RankIs(vs, s * d, r) && (r < |vs| || closed) && s * d < of.universe
      ensures SampleDone(b, of, vs, closed, s, r)
    {
      assert SampleDone(a, of, vs, closed, s, r);
      MulAtMostDiv(s, d, of.universe);
      PointerKeep(a, b, of.rank1SamplesOffset, of.rank1SampleSize, of.rank1Samples, s, r);
    }
  }

  lemma Pointers1Keep(a: seq<bool>, b: seq<bool>, of: Offsets, vs: seq<nat>)
    requires Layout(of, of.rank1SamplesOffset) && |vs| <= of.n && Pointers1(a, of, vs)
    requires SameOn(a, b, of.pointers1Offset, of.bitsOffset)
    ensures Pointers1(b, of, vs)
  {
    var d := Pow2(of.logSampling1);
    forall ptr: nat | ptr > 0 && ptr * d < |vs| ensures PointerDone(b, of, vs, ptr) {
      assert PointerDone(a, of, vs, ptr);
      MulAtMostDiv(ptr, d, of.n);
      PointerKeep(a, b, of.pointers1Offset, of.pointerSize, of.pointers1, ptr, vs[ptr * d]);
    }
  }

  /** Bits before and after an encoded sequence are free to change. */
  lemma EncodesAnywhere(a: seq<bool>, b: seq<bool>, of: Offsets, vs: seq<nat>)
    requires Encodes(a, of, vs) && SameOn(a, b, of.rank1SamplesOffset, of.end)
    ensures Encodes(b, of, vs)
  {
    RegionsOrdered(of);
    MarksKeep(a, b, of, vs);
    SamplesKeep(a, b, of, vs, true);
    Pointers1Keep(a, b, of, vs);
  }

  /** The same layout further on. */
  function Shifted(of: Offsets, shift: nat): Offsets {
    of.(rank1SamplesOffset := of.rank1SamplesOffset + shift, pointers1Offset := of.pointers1Offset + shift,
    bitsOffset := of.bitsOffset + shift, end := of.end + shift)
  }

  lemma ShiftedOffsets(base: nat, shift: nat, universe: nat, n: nat, params: Params)
    requires universe > 0
    ensures Shifted(MakeOffsets(base, universe, n, params), shift) == MakeOffsets(base + shift, universe, n, params)
  {
    hide CeilLog2, Shr;
  }

  /** Bits put in front only move an encoded sequence. */
  lemma EncodesShift(front: seq<bool>, bits: seq<bool>, of: Offsets, vs: seq<nat>)
    requires Encodes(bits, of, vs)
    ensures Encodes(front + bits, Shifted(of, |front|), vs)
  {
    hide PointerAt, Shr, Pow2;
    var to := Shifted(of, |front|);
    forall p: nat | p < of.universe ensures MarkAt(front + bits, to, p) <==> p in vs {
      assert MarkAt(front + bits, to, p) <==> MarkAt(bits, of, p);
    }
    var d, e := Pow2(of.logRank1Sampling), Pow2(of.logSampling1);
    forall s: nat, r: nat | s > 0 && RankIs(vs, s * d, r) && s * d < of.universe
      ensures SampleDone(front + bits, to, vs, true, s, r)
    {
      assert SampleDone(bits, of, vs, true, s, r);
      PointerShift(front, bits, of.rank1SamplesOffset, of.rank1SampleSize, s, r);
    }
    forall ptr: nat | ptr > 0 && ptr * e < |vs| ensures PointerDone(front + bits, to, vs, ptr) {
      assert PointerDone(bits, of, vs, ptr);
      PointerShift(front, bits, of.pointers1Offset, of.pointerSize, ptr, vs[ptr * e]);
    }
  }

  /* ----- Writing ----- */

  /** What holds when the values `vs` have been written. */
  ghost predicate Partial(bits: seq<bool>, of: Offsets, vs: seq<nat>) {
    && |bits| == of.end && |vs| <= of.n && Increasing(vs) && Below(vs, of.universe)
    && Marks(bits, of, vs) && Samples(bits, of, vs, false) && Pointers1(bits, of, vs)
  }

  lemma MarksStep(a: seq<bool>, of: Offsets, vs: seq<nat>, v: nat)
    requires Marks(a, of, vs) && v < of.universe && of.end == of.bitsOffset + of.universe
    ensures of.bitsOffset + v < |a| && Marks(a[of.bitsOffset + v := true], of, vs + [v])
  {
    var b := a[of.bitsOffset + v := true];
    forall p: nat | p < of.universe ensures MarkAt(b, of, p) <==> p in vs + [v] {
      assert MarkAt(b, of, p) <==> MarkAt(a, of, p) || p == v;
    }
  }

  predicate Sampled1(of: Offsets, i: nat) {
    i > 0 && i % Pow2(of.logSampling1) == 0
  }

  lemma RoomForPointer1(of: Offsets, i: nat)
    requires Layout(of, of.rank1SamplesOffset) && i < of.n && Sampled1(of, i)
    ensures Shr(i, of.logSampling1) > 0 && Shr(i, of.logSampling1) * Pow2(of.logSampling1) == i
    ensures of.pointers1Offset <= PointerPos(of.pointers1Offset, of.pointerSize, Shr(i, of.logSampling1))
    ensures PointerPos(of.pointers1Offset, of.pointerSize, Shr(i, of.logSampling1)) + of.pointerSize <= of.bitsOffset
  {
    var d, ptr := Pow2(of.logSampling1), Shr(i, of.logSampling1);
    DivMul(i, d);
    MulAtMostDiv(ptr, d, of.n);
    PointerWithin(ptr, of.pointers1, of.pointerSize);
  }

  lemma Pointers1Step(a: seq<bool>, b: seq<bool>, of: Offsets, vs: seq<nat>, v: nat)
    requires Layout(of, of.rank1SamplesOffset) && |vs| < of.n && v < of.universe && of.end <= |a| && Pointers1(a, of, vs)
    requires !Sampled1(of, |vs|) ==> b == a
    requires Sampled1(of, |vs|) ==> Shr(|vs|, of.logSampling1) > 0
    requires Sampled1(of, |vs|) ==> var pos := PointerPos(of.pointers1Offset, of.pointerSize, Shr(|vs|, of.logSampling1));
                                    pos + of.pointerSize <= |a| && b == Put(a, pos, v, of.pointerSize)
    ensures Pointers1(b, of, vs + [v])
  {
    hide PointerAt, PointerPos, Shr, Layout;
    LayoutPointerSize(of);
    var d := Pow2(of.logSampling1);
    forall ptr: nat | ptr > 0 && ptr * d < |vs| + 1 ensures PointerDone(b, of, vs + [v], ptr) {
      PointerStep(a, b, of, vs, v, ptr, ptr * d);
    }
  }

  lemma LayoutPointerSize(of: Offsets)
    requires Layout(of, of.rank1SamplesOffset)
    ensures of.universe <= Pow2(of.pointerSize)
  {
  }

  lemma PointerStep(a: seq<bool>, b: seq<bool>, of: Offsets, vs: seq<nat>, v: nat, ptr: nat, k: nat)
    requires Layout(of, of.rank1SamplesOffset) && |vs| < of.n && v < Pow2(of.pointerSize) && of.end <= |a|
    requires Pointers1(a, of, vs)
    requires !Sampled1(of, |vs|) ==> b == a
    requires Sampled1(of, |vs|) ==> Shr(|vs|, of.logSampling1) > 0
    requires Sampled1(of, |vs|) ==> var pos := PointerPos(of.pointers1Offset, of.pointerSize, Shr(|vs|, of.logSampling1));
                                    pos + of.pointerSize <= |a| && b == Put(a, pos, v, of.pointerSize)
    requires ptr > 0 && k == ptr * Pow2(of.logSampling1) && k <= |vs|
    ensures PointerAt(b, of.pointers1Offset, of.pointerSize, ptr, (vs + [v])[k])
  {
    hide PointerPos, PointerAt, Layout, Shr, Pointers1;
    var d, i := Pow2(of.logSampling1), |vs|;
    if k == i {
      MulMono(0, ptr, d);
      DivIs(k, d, ptr);
      IsShr(i, of.logSampling1, ptr);
      PointerPut(a, of.pointers1Offset, of.pointerSize, ptr, v);
    } else {
      Pointers1At(a, of, vs, ptr, k);
      if Sampled1(of, i) {
        RoomForPointer1(of, i);
        if Shr(i, of.logSampling1) <= ptr {
          MulMono(Shr(i, of.logSampling1), ptr, d);
        }
        PointerBefore(a, b, of.pointers1Offset, of.pointerSize, Shr(i, of.logSampling1), ptr, vs[k]);
      }
    }
  }

  lemma IsShr(x: nat, k: nat, q: nat)
    requires x / Pow2(k) == q
    ensures Shr(x, k) == q
  {
  }

  lemma Pointers1At(bits: seq<bool>, of: Offsets, vs: seq<nat>, ptr: nat, k: nat)
    requires Pointers1(bits, of, vs) && ptr > 0 && k == ptr * Pow2(of.logSampling1) && k < |vs|
    ensures PointerAt(bits, of.pointers1Offset, of.pointerSize, ptr, vs[k])
  {
    hide PointerAt;
    assert PointerDone(bits, of, vs, ptr);
  }

  /** Where the run of positions with rank |vs| begins. */
  ghost function RunFrom(vs: seq<nat>): nat {
    if vs == [] then 1 else vs[|vs| - 1] + 1
  }

  /** The samples of one run of equal ranks complete those of the runs before it. */
  lemma SamplesStep(a: seq<bool>, b: seq<bool>, of: Offsets, vs: seq<nat>, next: seq<nat>, closed: bool)
    requires Increasing(next) && Samples(a, of, vs, false)
    requires if closed then next == vs else |next| == |vs| + 1 && next[..|vs|] == vs
    requires EntriesStay(a, b, SampleTable(of), CeilDiv(RunFrom(vs), Pow2(of.logRank1Sampling)))
    requires var hi := if closed then of.universe else next[|vs|] + 1;
             forall s: nat :: 0 < s && RunFrom(vs) <= s * Pow2(of.logRank1Sampling) < hi ==>
               PointerAt(b, of.rank1SamplesOffset, of.rank1SampleSize, s, |vs|)
    ensures Samples(b, of, next, closed)
  {
    hide PointerAt, CeilDiv;
    var d := Pow2(of.logRank1Sampling);
    forall s: nat, r: nat | s > 0 && RankIs(next, s * d, r) && (r < |next| || closed) && s * d < of.universe
      ensures SampleDone(b, of, next, closed, s, r)
    {
      if r < |vs| {
        assert RankIs(vs, s * d, r) && SampleDone(a, of, vs, false, s, r);
        assert next[r] <= next[|vs| - 1] == vs[|vs| - 1];
        CeilDivIs(RunFrom(vs), d, s);
      } else {
        MulMono(1, s, d);
      }
    }
  }

  /** The samples of the run of positions lo, ..., hi-1. */
  method SetSamples(builder: BitVectorBuilder, of: Offsets, lo: nat, hi: nat, rank: nat)
    requires Layout(of, of.rank1SamplesOffset) && of.end <= |builder.bits| && hi <= of.universe && rank <= of.n
    modifies builder
    ensures OnlyTable(old(builder.bits), builder.bits, SampleTable(of))
    ensures EntriesStay(old(builder.bits), builder.bits, SampleTable(of), CeilDiv(lo, Pow2(of.logRank1Sampling)))
    ensures forall s: nat :: 0 < s && lo <= s * Pow2(of.logRank1Sampling) < hi ==>
              PointerAt(builder.bits, of.rank1SamplesOffset, of.rank1SampleSize, s, rank)
  {
    hide PointerAt, EntriesStay, OnlyTable, CeilDiv, Layout, Sample, Pow2;
    SampleTableOk(of);
    SetRun(builder, SampleTable(of), of.universe, lo, hi, false, rank);
    RanksFromSamples(builder.bits, of, lo, hi, rank);
  }

  lemma SampleTableOk(of: Offsets)
    requires Layout(of, of.rank1SamplesOffset)
    ensures SampleTable(of).step > 0 && SampleTable(of).count == of.universe / SampleTable(of).step
    ensures SampleTable(of).End() == of.pointers1Offset <= of.end && of.n < Pow2(of.rank1SampleSize)
  {
    RegionsOrdered(of);
  }

  lemma RanksFromSamples(bits: seq<bool>, of: Offsets, lo: nat, hi: int, rank: nat)
    requires forall k: nat :: 0 < k && lo <= k * SampleTable(of).step < hi ==>
               PointerAt(bits, of.rank1SamplesOffset, of.rank1SampleSize, k, Sample(SampleTable(of), k, false, rank))
    ensures forall s: nat :: 0 < s && lo <= s * Pow2(of.logRank1Sampling) < hi ==>
              PointerAt(bits, of.rank1SamplesOffset, of.rank1SampleSize, s, rank)
  {
    hide PointerAt, Pow2;
    forall s: nat | 0 < s && lo <= s * Pow2(of.logRank1Sampling) < hi
      ensures PointerAt(bits, of.rank1SamplesOffset, of.rank1SampleSize, s, rank)
    {
      var v := Sample(SampleTable(of), s, false, rank);
      assert s * SampleTable(of).step == s * Pow2(of.logRank1Sampling);
      assert PointerAt(bits, of.rank1SamplesOffset, of.rank1SampleSize, s, v);
    }
  }

  /** The body of the writing loop for the next value. */
  method WriteOne(builder: BitVectorBuilder, of: Offsets, ghost vs: seq<nat>, i: nat, v: nat, last: nat)
    requires Layout(of, of.rank1SamplesOffset) && Partial(builder.bits, of, vs) && i == |vs| < of.n
    requires v < of.universe && Increasing(vs + [v]) && last + 1 == RunFrom(vs)
    modifies builder
    ensures Partial(builder.bits, of, vs + [v])
    ensures SameOn(old(builder.bits), builder.bits, 0, of.rank1SamplesOffset)
  {
    hide Marks, Samples, Pointers1, PointerPos, Pow2, PointerAt, Layout, CeilDiv, Shr, Increasing;
    RegionsOrdered(of);
    SizeOfBits(of);
    ghost var b0 := builder.bits;
    MarksStep(b0, of, vs, v);
    builder.Set(of.bitsOffset + v, true);
    ghost var b1 := builder.bits;
    SamplesKeep(b0, b1, of, vs, false);
    Pointers1Keep(b0, b1, of, vs);
    if Sampled1(of, i) {
      RoomForPointer1(of, i);
      LayoutPointerSize(of);
      builder.SetBits(PointerPos(of.pointers1Offset, of.pointerSize, Shr(i, of.logSampling1)), v, of.pointerSize);
    }
    ghost var b2 := builder.bits;
    Pointers1Step(b1, b2, of, vs, v);
    SamplesKeep(b1, b2, of, vs, false);
    SetSamples(builder, of, last + 1, v + 1, i);
    ghost var b3 := builder.bits;
    SampleTableOk(of);
    SamplesStep(b2, b3, of, vs, vs + [v], false);
    MarksKeep(b1, b3, of, vs + [v]);
    Pointers1Keep(b2, b3, of, vs + [v]);
  }

  lemma SizeOfBits(of: Offsets)
    requires Layout(of, of.rank1SamplesOffset)
    ensures of.end == of.bitsOffset + of.universe
  {
  }

  /** The bits of exactly the values below the universe lie inside the array. */
  lemma BitInside(base: nat, universe: nat, n: nat, params: Params, v: nat)
    requires universe > 0
    ensures var of := MakeOffsets(base, universe, n, params); of.bitsOffset + v < of.end <==> v < universe
  {
    MakeOffsetsLayout(base, universe, n, params);
  }

  datatype Outcome = Written | Duplicate | NotSorted

  /** Appends the encoding of a sequence, or stops at the first value that does not exceed the
      one before. */
  method Write(builder: BitVectorBuilder, vs: seq<nat>, universe: nat, params: Params) returns (outcome: Outcome)
    requires Below(vs, universe) && universe > 0
    modifies builder
    ensures outcome.Written? <==> Increasing(vs)
    ensures outcome.NotSorted? ==> !Sorted(vs)
    ensures SameOn(old(builder.bits), builder.bits, 0, |old(builder.bits)|)
    ensures outcome.Written? ==>
              var of := MakeOffsets(|old(builder.bits)|, universe, |vs|, params);
              |builder.bits| == of.end && Encodes(builder.bits, of, vs)
  {
    hide Partial, Marks, Samples, Pointers1, Layout, Encodes, Pow2, Shr, PointerAt, CeilDiv, MakeOffsets, Increasing;
    var of := MakeOffsets(|builder.bits|, universe, |vs|, params);
    MakeOffsetsLayout(|builder.bits|, universe, |vs|, params);
    BaseOf(of, |builder.bits|);
    builder.ZeroExtend(of.end - |builder.bits|);
    ghost var was := old(builder.bits);
    NothingWritten(builder.bits, of);
    assert vs[..0] == [];
    var last := 0;
    for i := 0 to |vs|
      invariant Partial(builder.bits, of, vs[..i])
      invariant SameOn(was, builder.bits, 0, |was|)
      invariant last + 1 == RunFrom(vs[..i])
    {
      var v := vs[i];
      if i > 0 && v <= last {
        NotIncreasing(vs, i);
        return if v == last then Duplicate else NotSorted;
      }
      IncreasingExtend(builder.bits, of, vs, i);
      ghost var before := builder.bits;
      WriteOne(builder, of, vs[..i], i, v, last);
      assert vs[..i] + [v] == vs[..i + 1];
      SameTrans(was, before, builder.bits, 0, |was|);
      last := v;
    }
    assert vs[..|vs|] == vs;
    WriteLast(builder, of, vs, last);
    outcome := Written;
  }

  lemma SameTrans(a: seq<bool>, b: seq<bool>, c: seq<bool>, lo: nat, hi: nat)
    requires SameOn(a, b, lo, hi) && SameOn(b, c, lo, hi)
    ensures SameOn(a, c, lo, hi)
  {
  }

  lemma BaseOf(of: Offsets, base: nat)
    requires Layout(of, base)
    ensures of.rank1SamplesOffset == base <= of.end
  {
    RegionsOrdered(of);
  }

  lemma NothingWritten(bits: seq<bool>, of: Offsets)
    requires Layout(of, of.rank1SamplesOffset) && |bits| == of.end
    requires forall p :: of.rank1SamplesOffset <= p < of.end ==> !bits[p]
    ensures Partial(bits, of, [])
  {
    RegionsOrdered(of);
  }

  lemma NotIncreasing(vs: seq<nat>, i: nat)
    requires 0 < i < |vs| && vs[i] <= vs[i - 1]
    ensures !Increasing(vs) && (vs[i] < vs[i - 1] ==> !Sorted(vs))
  {
  }

  lemma IncreasingExtend(bits: seq<bool>, of: Offsets, vs: seq<nat>, i: nat)
    requires i < |vs| && Partial(bits, of, vs[..i]) && (i > 0 ==> vs[i - 1] < vs[i])
    ensures Increasing(vs[..i] + [vs[i]])
  {
    hide Marks, Samples, Pointers1;
    var t := vs[..i] + [vs[i]];
    forall j, k | 0 <= j < k < |t| ensures t[j] < t[k] {
      assert k == i && j < i - 1 ==> vs[..i][j] < vs[..i][i - 1];
    }
  }

  /** The samples after the last value. */
  method WriteLast(builder: BitVectorBuilder, of: Offsets, ghost vs: seq<nat>, last: nat)
    requires Layout(of, of.rank1SamplesOffset) && |vs| == of.n && Partial(builder.bits, of, vs)
    requires last + 1 == RunFrom(vs)
    modifies builder
    ensures |builder.bits| == of.end && Encodes(builder.bits, of, vs) && Increasing(vs)
    ensures SameOn(old(builder.bits), builder.bits, 0, of.rank1SamplesOffset)
  {
    hide Marks, Samples, Pointers1, PointerPos, Pow2, PointerAt, Layout, CeilDiv, Shr, Increasing;
    RegionsOrdered(of);
    SizeOfBits(of);
    SampleTableOk(of);
    ghost var b0 := builder.bits;
    SetSamples(builder, of, last + 1, of.universe, of.n);
    ghost var b1 := builder.bits;
    SamplesStep(b0, b1, of, vs, vs, true);
    MarksKeep(b0, b1, of, vs);
    Pointers1Keep(b0, b1, of, vs);
  }

  /* ----- Where the ones are ----- */

  lemma EncodesFits(bits: seq<bool>, of: Offsets, vs: seq<nat>)
    requires Encodes(bits, of, vs)
    ensures Fits(of, vs) && |vs| == of.n && Increasing(vs) && Below(vs, of.universe)
    ensures of.end <= |bits| && of.end == of.bitsOffset + of.universe
  {
  }

  lemma MarkIff(bits: seq<bool>, of: Offsets, vs: seq<nat>, p: nat)
    requires Encodes(bits, of, vs) && p < of.universe
    ensures of.bitsOffset + p < |bits| && (bits[of.bitsOffset + p] <==> p in vs)
  {
    assert MarkAt(bits, of, p) <==> p in vs;
  }

  lemma NotBetween(vs: seq<nat>, p: nat, r: nat, q: nat)
    requires Increasing(vs) && RankIs(vs, p, r) && p <= q && (r < |vs| ==> q < vs[r])
    ensures q !in vs
  {
    forall j | 0 <= j < |vs| ensures vs[j] != q {
      if j < r {
        assert vs[j] <= vs[r - 1];
      } else {
        assert vs[r] <= vs[j];
      }
    }
  }

  /** The next one belongs to the least value at or past the position. */
  lemma NextOneIs(bits: seq<bool>, of: Offsets, vs: seq<nat>, p: nat, r: nat)
    requires Encodes(bits, of, vs) && r < |vs| && RankIs(vs, p, r)
    ensures FirstOne(bits, of.bitsOffset + p) == of.bitsOffset + vs[r] < |bits|
  {
    hide Encodes;
    EncodesFits(bits, of, vs);
    MarkIff(bits, of, vs, vs[r]);
    var q := FirstOne(bits, of.bitsOffset + p);
    var x: nat := q - of.bitsOffset;
    if x < vs[r] {
      MarkIff(bits, of, vs, x);
      NotBetween(vs, p, r, x);
    }
  }

  lemma FollowingOne(bits: seq<bool>, of: Offsets, vs: seq<nat>, i: nat)
    requires Encodes(bits, of, vs) && i + 1 < |vs|
    ensures FirstOne(bits, of.bitsOffset + vs[i] + 1) == of.bitsOffset + vs[i + 1] < |bits|
  {
    EncodesFits(bits, of, vs);
    RankAt(vs, i);
    NextOneIs(bits, of, vs, vs[i] + 1, i + 1);
  }

  lemma RankAt(vs: seq<nat>, i: nat)
    requires Increasing(vs) && i < |vs|
    ensures RankIs(vs, vs[i], i) && RankIs(vs, vs[i] + 1, i + 1)
  {
  }

  /** Skipping k ones skips k values. */
  lemma {:induction false} NthOneIs(bits: seq<bool>, of: Offsets, vs: seq<nat>, p: nat, r: nat, k: nat)
    requires Encodes(bits, of, vs) && r + k < |vs| && RankIs(vs, p, r)
    ensures NthOne(bits, of.bitsOffset + p, k) == of.bitsOffset + vs[r + k] < |bits|
    decreases k
  {
    hide Encodes, RankIs, Increasing;
    EncodesFits(bits, of, vs);
    NextOneIs(bits, of, vs, p, r);
    if k > 0 {
      RankAt(vs, r);
      NthOneIs(bits, of, vs, vs[r] + 1, r + 1, k - 1);
    }
  }

  /** The number of ones in bits[from..to]. */
  function Ones(bits: seq<bool>, from: nat, to: nat): nat
    requires from <= to <= |bits|
  {
    if from == to then 0 else Ones(bits, from, to - 1) + Bit(bits[to - 1])
  }

  method CountOnes(bits: seq<bool>, from: nat, to: nat) returns (count: nat)
    requires from <= to <= |bits|
    ensures count == Ones(bits, from, to)
  {
    count := 0;
    for p := from to to
      invariant count == Ones(bits, from, p)
    {
      count := count + Bit(bits[p]);
    }
  }

  /** Ones between two positions are the values between them. */
  lemma {:induction false} OnesAreValues(bits: seq<bool>, of: Offsets, vs: seq<nat>, p: nat, r: nat, q: nat, s: nat)
    requires Encodes(bits, of, vs) && p <= q <= of.universe && RankIs(vs, p, r) && RankIs(vs, q, s)
    ensures of.bitsOffset + q <= |bits| && r <= s
    ensures Ones(bits, of.bitsOffset + p, of.bitsOffset + q) == s - r
    decreases q
  {
    hide Encodes, Increasing;
    EncodesFits(bits, of, vs);
    if p == q {
      RankUnique(vs, p, r, s);
    } else {
      MarkIff(bits, of, vs, q - 1);
      var t := FindRank(vs, q - 1);
      OnesAreValues(bits, of, vs, p, r, q - 1, t);
      RankStep(vs, q - 1, t, s);
    }
  }

  lemma RankStep(vs: seq<nat>, p: nat, r: nat, s: nat)
    requires Increasing(vs) && RankIs(vs, p, r) && RankIs(vs, p + 1, s)
    ensures s == r + Bit(p in vs)
  {
    if r < |vs| && vs[r] == p {
      RankAt(vs, r);
      RankUnique(vs, p + 1, s, r + 1);
    } else {
      assert RankIs(vs, p + 1, r);
      RankUnique(vs, p + 1, s, r);
      NotBetween(vs, p, r, p);
    }
  }

  /* ----- The enumerator ----- */

  const LINEAR_SCAN_THRESHOLD := 8

  lemma Pointer1Leads(bits: seq<bool>, of: Offsets, vs: seq<nat>, i: nat, ptr: nat, k: nat)
    requires Encodes(bits, of, vs) && i < |vs| && ptr == Shr(i, of.logSampling1) && k == ptr * Pow2(of.logSampling1)
    ensures k <= i
    ensures ptr > 0 ==> PointerAt(bits, of.pointers1Offset, of.pointerSize, ptr, vs[k])
    ensures RankIs(vs, if ptr == 0 then 0 else vs[k], k)
  {
    hide PointerAt, Marks, Samples, Pow2;
    DivMul(i, Pow2(of.logSampling1));
    if ptr > 0 {
      Pointers1At(bits, of, vs, ptr, k);
      RankAt(vs, k);
    }
  }

  lemma SampleLeads(bits: seq<bool>, of: Offsets, vs: seq<nat>, p: nat, s: nat, k: nat) returns (r: nat)
    requires Encodes(bits, of, vs) && p < of.universe && s == Shr(p, of.logRank1Sampling) && k == s * Pow2(of.logRank1Sampling)
    ensures k <= p && RankIs(vs, k, r)
    ensures if s == 0 then r == 0 else PointerAt(bits, of.rank1SamplesOffset, of.rank1SampleSize, s, r)
  {
    hide PointerAt, Marks, Pointers1, Pow2;
    DivMul(p, Pow2(of.logRank1Sampling));
    if s > 0 {
      r := FindRank(vs, k);
      assert SampleDone(bits, of, vs, true, s, r);
    } else {
      r := 0;
    }
  }

  class Enumerator {
    const bits: seq<bool>
    const of: Offsets
    ghost const vs: seq<nat>
    var position: nat
    var value: nat
    var ones: Unary

    ghost predicate Valid()
      reads this
    {
      && Encodes(bits, of, vs) && position <= of.n == |vs|
      && value == ValueAt(of.universe, vs, position)
      && (position < of.n ==> ones == Unary(of.bitsOffset + vs[position], true))
    }

    constructor (bits: seq<bool>, offset: nat, universe: nat, n: nat, params: Params, ghost vs: seq<nat>)
      requires universe > 0 && Encodes(bits, MakeOffsets(offset, universe, n, params), vs)
      ensures Valid() && position == n
      ensures this.bits == bits && this.vs == vs && of == MakeOffsets(offset, universe, n, params)
    {
      this.bits, this.vs := bits, vs;
      of := MakeOffsets(offset, universe, n, params);
      position, value, ones := n, universe, Unary(0, false);
    }

    /** The value of the next one. */
    method ReadNext(u: Unary, ghost p: nat, ghost r: nat) returns (u': Unary, v: nat)
      requires Encodes(bits, of, vs) && r < |vs| && RankIs(vs, p, r) && u.From() == of.bitsOffset + p
      ensures u' == Unary(of.bitsOffset + vs[r], true) && v == vs[r]
    {
      hide Encodes, RankIs;
      NextOneIs(bits, of, vs, p, r);
      u' := UnaryNext(bits, u);
      v := u'.position - of.bitsOffset;
    }

    method Next()
      requires Valid() && position < of.n
      modifies this
      ensures Valid() && position == old(position) + 1
    {
      hide Encodes, RankIs, Increasing;
      EncodesFits(bits, of, vs);
      RankAt(vs, position);
      ghost var p := vs[position] + 1;
      position := position + 1;
      if position < of.n {
        ones, value := ReadNext(ones, p, position);
      } else {
        value := of.universe;
      }
    }

    method Move(target: nat)
      requires Valid() && target <= of.n
      modifies this
      ensures Valid() && position == target && value == ValueAt(of.universe, vs, target)
    {
      if target == position {
        return;
      }
      if target > position && target - position <= LINEAR_SCAN_THRESHOLD {
        ShortMove(target);
      } else {
        SlowMove(target);
      }
    }

    method ShortMove(target: nat)
      requires Valid() && position < target <= of.n
      modifies this
      ensures Valid() && position == target
    {
      hide Encodes, RankIs, Increasing;
      EncodesFits(bits, of, vs);
      var skip: nat := target - position;
      ghost var start := position;
      position := target;
      if position == of.n {
        value := of.universe;
      } else {
        ones := AdvanceOnes(skip, start);
        value := ones.position - of.bitsOffset;
      }
    }

    /** Reads `skip` ones in turn, from the one of value `start`. */
    method AdvanceOnes(skip: nat, ghost start: nat) returns (he: Unary)
      requires Encodes(bits, of, vs) && start + skip < |vs| && ones == Unary(of.bitsOffset + vs[start], true)
      ensures he == Unary(of.bitsOffset + vs[start + skip], true)
    {
      hide Encodes, FirstOne;
      he := ones;
      for i := 0 to skip
        invariant he == Unary(of.bitsOffset + vs[start + i], true)
      {
        FollowingOne(bits, of, vs, start + i);
        he := UnaryNext(bits, he);
      }
    }

    /** Skips ahead from here when no pointer lies in between, from a pointer otherwise. */
    method SlowMove(target: nat)
      requires Valid() && target <= of.n && target != position
      modifies this
      ensures Valid() && position == target
    {
      hide Encodes, RankIs, Increasing, Shr, NthOne;
      EncodesFits(bits, of, vs);
      if target == of.n {
        position, value := target, of.universe;
        return;
      }
      var toSkip: nat, u := 0, ones;
      if target > position && Shr(target - position, of.logSampling1) == 0 {
        toSkip := target - position - 1;
        RankAt(vs, position);
        NthOneIs(bits, of, vs, vs[position] + 1, position + 1, toSkip);
      } else {
        u, toSkip := StartAtPointer(target);
      }
      u := UnarySkip(bits, u, toSkip);
      RankAt(vs, target);
      position := target;
      ones, value := ReadNext(u, vs[target], target);
    }

    method StartAtPointer(target: nat) returns (u: Unary, toSkip: nat)
      requires Valid() && target < of.n
      ensures NthOne(bits, u.From(), toSkip) == of.bitsOffset + vs[target] < |bits|
    {
      hide Encodes, RankIs, Increasing, Shr, Pow2, PointerAt, NthOne;
      var ptr := Shr(target, of.logSampling1);
      ghost var k := ptr * Pow2(of.logSampling1);
      Pointer1Leads(bits, of, vs, target, ptr, k);
      var ptrPos := ReadPointer(bits, of.pointers1Offset, of.pointerSize, ptr, if ptr == 0 then 0 else vs[k]);
      u := Unary(of.bitsOffset + ptrPos, false);
      toSkip := target - ptr * Pow2(of.logSampling1);
      NthOneIs(bits, of, vs, ptrPos, k, toSkip);
    }

    /** Moves to the least value at or above the bound. */
    method NextGeq(bound: nat)
      requires Valid()
      modifies this
      ensures Valid()
      ensures Least(vs, bound, position)
    {
      hide Encodes, RankIs;
      EncodesFits(bits, of, vs);
      if bound == value {
        CurrentIsLeast();
        return;
      }
      if bound > value && bound - value <= LINEAR_SCAN_THRESHOLD {
        ShortNextGeq(bound);
      } else {
        SlowNextGeq(bound);
      }
    }

    lemma CurrentIsLeast()
      requires Valid()
      ensures Least(vs, value, position)
    {
      hide Encodes;
      EncodesFits(bits, of, vs);
    }

    method ShortNextGeq(bound: nat)
      requires Valid() && bound > value
      modifies this
      ensures Valid() && Least(vs, bound, position)
    {
      hide Encodes, RankIs, Increasing;
      EncodesFits(bits, of, vs);
      BelowCurrent(of.universe, vs, position, bound);
      var u, val := ones, 0;
      while true
        invariant Encodes(bits, of, vs) && position <= of.n
        invariant forall j :: 0 <= j <= position && j < of.n ==> vs[j] < bound
        invariant position < of.n ==> u == Unary(of.bitsOffset + vs[position], true)
        decreases of.n - position
      {
        ghost var p := if position < of.n then vs[position] + 1 else 0;
        if position < of.n {
          RankAt(vs, position);
        }
        position := position + 1;
        if position < of.n {
          u, val := ReadNext(u, p, position);
        } else {
          position, val := of.n, of.universe;
          break;
        }
        if val >= bound {
          break;
        }
      }
      ones, value := u, val;
    }

    /** Counts the ones up to the bound from here, or from the sampled rank before it. */
    method SlowNextGeq(bound: nat)
      requires Valid() && bound != value
      modifies this
      ensures Valid() && Least(vs, bound, position)
    {
      hide Encodes, RankIs, Increasing, Below, Ones, Shr;
      EncodesFits(bits, of, vs);
      if bound >= of.universe {
        AllBelow(of.universe, vs, bound);
        Move(of.n);
        return;
      }
      ghost var rank := FindRank(vs, bound);
      RankIsLeast(vs, bound, rank);
      var r := CountTo(bound, rank);
      position := r;
      if position < of.n {
        ones, value := ReadNext(Unary(of.bitsOffset + bound, false), bound, rank);
      } else {
        value := of.universe;
      }
    }

    /** How many values are below the bound. */
    method CountTo(bound: nat, ghost rank: nat) returns (r: nat)
      requires Valid() && bound < of.universe && RankIs(vs, bound, rank)
      ensures r == rank
    {
      hide Encodes, RankIs, Increasing, Below, Ones, Shr, Pow2, PointerAt;
      EncodesFits(bits, of, vs);
      if bound > value && Shr(bound - value, of.logRank1Sampling) == 0 {
        RankAt(vs, position);
        OnesAreValues(bits, of, vs, value, position, bound, rank);
        var count := CountOnes(bits, of.bitsOffset + value, of.bitsOffset + bound);
        r := position + count;
      } else {
        var block := Shr(bound, of.logRank1Sampling);
        ghost var k := block * Pow2(of.logRank1Sampling);
        ghost var s := SampleLeads(bits, of, vs, bound, block, k);
        r := ReadPointer(bits, of.rank1SamplesOffset, of.rank1SampleSize, block, s);
        OnesAreValues(bits, of, vs, k, s, bound, rank);
        var begin := of.bitsOffset + block * Pow2(of.logRank1Sampling);
        var count := CountOnes(bits, begin, of.bitsOffset + bound);
        r := r + count;
      }
    }

    /** The value before the current one; 0 before the first. */
    method PrevValue() returns (prev: nat)
      requires Valid()
      ensures prev == if position == 0 then 0 else vs[position - 1]
    {
      hide Encodes, RankIs;
      EncodesFits(bits, of, vs);
      if position == 0 {
        return 0;
      }
      PreviousOne(bits, of, vs, position, if position < of.n then ones.position else of.end);
      var pos;
      if position < of.n {
        pos := Predecessor1(bits, ones.position - 1);
      } else {
        pos := Predecessor1(bits, of.end - 1);
      }
      prev := pos - of.bitsOffset;
    }
  }

  lemma AllBelow(universe: nat, vs: seq<nat>, bound: nat)
    requires Below(vs, universe) && bound >= universe
    ensures Least(vs, bound, |vs|)
  {
  }

  lemma BelowCurrent(universe: nat, vs: seq<nat>, i: nat, bound: nat)
    requires Increasing(vs) && Below(vs, universe) && i <= |vs| && ValueAt(universe, vs, i) < bound
    ensures forall j :: 0 <= j <= i && j < |vs| ==> vs[j] < bound
  {
    forall j | 0 <= j <= i && j < |vs| ensures vs[j] < bound {
      assert j < i < |vs| ==> vs[j] < vs[i];
    }
  }

  /** The last one before `end`, which comes before the i-th one or after all. */
  lemma PreviousOne(bits: seq<bool>, of: Offsets, vs: seq<nat>, i: nat, end: nat)
    requires Encodes(bits, of, vs) && 0 < i <= |vs|
    requires end == if i < |vs| then of.bitsOffset + vs[i] else of.end
    ensures of.bitsOffset + vs[i - 1] < end <= |bits| && bits[of.bitsOffset + vs[i - 1]]
    ensures forall q :: of.bitsOffset + vs[i - 1] < q < end ==> !bits[q]
  {
    hide Encodes;
    EncodesFits(bits, of, vs);
    RankAt(vs, i - 1);
    MarkIff(bits, of, vs, vs[i - 1]);
    if i < |vs| {
      MarkIff(bits, of, vs, vs[i]);
    }
    forall q | of.bitsOffset + vs[i - 1] < q < end ensures !bits[q] {
      MarkIff(bits, of, vs, q - of.bitsOffset);
      NotBetween(vs, vs[i - 1] + 1, i, q - of.bitsOffset);
    }
  }
}
