/** Elias-Fano coding of non-decreasing sequences: high parts in unary, low parts in fixed
    width, and sampled pointers to ones and zeros that let an enumerator jump.
 */
module EliasFano {
  import opened Bits
  import opened Pointers
  import opened Sequences

  datatype Params = Params(logSampling0: nat, logSampling1: nat)

  datatype Offsets = Offsets(
    universe: nat, n: nat, logSampling0: nat, logSampling1: nat,
    lowerBits: nat, higherBitsLength: nat, pointerSize: nat, pointers0: nat, pointers1: nat,
    pointers0Offset: nat, pointers1Offset: nat, higherBitsOffset: nat, lowerBitsOffset: nat, end: nat)

  function LowerBits(universe: nat, n: nat): nat
    requires n > 0
  {
    if universe > n then MsbOf(universe / n) else 0
  }

  function MsbOf(x: nat): nat { if x == 0 then 0 else Msb(x) }

  function HigherBitsLength(universe: nat, n: nat): (length: nat)
    requires n > 0
    ensures length > n
  {
    n + Shr(universe, LowerBits(universe, n)) + 2
  }

  /** The layout for `n` values below `universe`, starting at bit `base`. */
  function MakeOffsets(base: nat, universe: nat, n: nat, params: Params): (of: Offsets)
    requires n > 0
  {
    var length := HigherBitsLength(universe, n);
    PlaceOffsets(
      base, universe, n, params, LowerBits(universe, n), length, CeilLog2(length),
      Shr(length - n, params.logSampling0), Shr(n, params.logSampling1))
  }

  function PlaceOffsets(
    base: nat, universe: nat, n: nat, params: Params, lowerBits: nat, length: nat, pointerSize: nat,
    pointers0: nat, pointers1: nat): Offsets
  {
    var pointers1Offset := base + pointers0 * pointerSize;
    var higherBitsOffset := pointers1Offset + pointers1 * pointerSize;
    Offsets(universe, n, params.logSampling0, params.logSampling1, lowerBits, length, pointerSize,
      pointers0, pointers1, base, pointers1Offset, higherBitsOffset, higherBitsOffset + length,
      higherBitsOffset + length + n * lowerBits)
  }

  lemma MakeOffsetsLayout(base: nat, universe: nat, n: nat, params: Params)
    requires n > 0
    ensures var of := MakeOffsets(base, universe, n, params);
            Layout(of, base) && of.universe == universe && of.n == n
  {
    hide CeilLog2, Pow2, LowerBits;
    CeilLog2Fits(HigherBitsLength(universe, n));
  }

  /** All the decoder needs to know about a layout; in particular, any number of low bits works.
      That the number chosen is a good one is `SpaceBound`. */
  ghost predicate Layout(of: Offsets, base: nat) {
    && of.n > 0 && of.pointers0Offset == base
    && of.higherBitsLength == of.n + Shr(of.universe, of.lowerBits) + 2
    && of.higherBitsLength <= Pow2(of.pointerSize)
    && of.higherBitsLength - of.n >= 0 && of.pointers0 == Shr(of.higherBitsLength - of.n, of.logSampling0)
    && of.pointers1 == Shr(of.n, of.logSampling1)
    && of.pointers1Offset == base + of.pointers0 * of.pointerSize
    && of.higherBitsOffset == of.pointers1Offset + of.pointers1 * of.pointerSize
    && of.lowerBitsOffset == of.higherBitsOffset + of.higherBitsLength
    && of.end == of.lowerBitsOffset + of.n * of.lowerBits
  }

  /** The low bits of a value are no more than the logarithm of universe / n, and the high bits
      of all together take three bits for each and one more, so the whole is within 3n + 1 bits
      of n times the logarithm. */
  lemma SpaceBound(universe: nat, n: nat, l: nat)
    requires n > 0 && l == LowerBits(universe, n)
    ensures HigherBitsLength(universe, n) <= 3 * n + 1
    ensures if universe > n then Pow2(l) * n <= universe < 2 * Pow2(l) * n else l == 0
  {
    hide HigherBitsLength;
    if universe > n {
      QuotientBounds(universe, n);
      MsbBounds(universe / n);
      Scale(Pow2(l), universe / n, n);
      Scale(universe / n + 1, 2 * Pow2(l), n);
      QuotientSmall(universe, Pow2(l), 2 * n);
    }
    HighLength(universe, n, l);
  }

  lemma HighLength(universe: nat, n: nat, l: nat)
    requires n > 0 && l == LowerBits(universe, n) && (universe > n ==> Shr(universe, l) < 2 * n)
    ensures HigherBitsLength(universe, n) <= 3 * n + 1
  {
    if universe <= n {
      assert Pow2(0) == 1 && Shr(universe, 0) == universe;
    }
  }

  lemma QuotientBounds(x: nat, y: nat)
    requires 0 < y < x
    ensures 0 < x / y && x / y * y <= x < (x / y + 1) * y
  {
  }

  lemma Scale(a: nat, b: nat, n: nat)
    requires a <= b
    ensures a * n <= b * n
  {
  }

  lemma QuotientSmall(x: nat, y: nat, m: nat)
    requires y > 0 && x < y * m
    ensures Quotient(x, y) < m
  {
  }

  /* ----- The plain sequence ----- */

  /** A sequence laid out by `of`. */
  ghost predicate Fits(of: Offsets, vs: seq<nat>) {
    Layout(of, of.pointers0Offset) && |vs| == of.n && Sorted(vs) && Below(vs, of.universe)
  }

  /** The high part of a value. */
  function Top(of: Offsets, v: nat): nat { Shr(v, of.lowerBits) }

  /** Where the one of the i-th value stands among the high bits. */
  ghost function High(of: Offsets, vs: seq<nat>, i: nat): nat
    requires i < |vs|
  {
    Top(of, vs[i]) + i + 1
  }

  lemma TopMono(of: Offsets, v: nat, w: nat)
    ensures v <= w ==> Top(of, v) <= Top(of, w)
  {
    if v <= w {
      DivMono(v, w, Pow2(of.lowerBits));
    }
  }

  lemma HighRises(of: Offsets, vs: seq<nat>, i: nat, j: nat)
    requires Sorted(vs) && i < j < |vs|
    ensures High(of, vs, i) < High(of, vs, j)
  {
    TopMono(of, vs[i], vs[j]);
  }

  /** A zero sentinel remains before the first one and after the last. */
  lemma HighFits(of: Offsets, vs: seq<nat>, i: nat)
    requires Fits(of, vs) && i < |vs|
    ensures 0 < High(of, vs, i) < of.higherBitsLength - 1
  {
    TopMono(of, vs[i], of.universe);
  }

  /** Zero number z has exactly r ones before it, so it stands at position z + r. */
  ghost predicate Boundary(of: Offsets, vs: seq<nat>, z: nat, r: nat) {
    && r <= |vs|
    && (r > 0 ==> Top(of, vs[r - 1]) < z)
    && (r < |vs| ==> z <= Top(of, vs[r]))
  }

  lemma BoundaryUnique(of: Offsets, vs: seq<nat>, z: nat, r: nat, s: nat)
    requires Sorted(vs) && Boundary(of, vs, z, r) && Boundary(of, vs, z, s)
    ensures r == s
  {
    if r < s {
      TopMono(of, vs[r], vs[s - 1]);
    } else if s < r {
      TopMono(of, vs[s], vs[r - 1]);
    }
  }

  /* ----- What the bits must say ----- */

  ghost predicate IsHigh(of: Offsets, vs: seq<nat>, i: nat, p: nat) {
    exists j :: 0 <= j < i && j < |vs| && High(of, vs, j) == p
  }

  ghost predicate OneAt(bits: seq<bool>, of: Offsets, p: nat) {
    of.higherBitsOffset + p < |bits| && bits[of.higherBitsOffset + p]
  }

  /** The ones of the first `i` values, and no others. */
  ghost predicate Highs(bits: seq<bool>, of: Offsets, vs: seq<nat>, i: nat) {
    && of.higherBitsOffset + of.higherBitsLength <= |bits|
    && forall p: nat :: p < of.higherBitsLength ==> (OneAt(bits, of, p) <==> IsHigh(of, vs, i, p))
  }

  function LowPos(of: Offsets, j: nat): nat { of.lowerBitsOffset + j * of.lowerBits }

  function LowPart(of: Offsets, v: nat): (low: nat)
    ensures low < Pow2(of.lowerBits)
  {
    v % Pow2(of.lowerBits)
  }

  ghost predicate LowAt(bits: seq<bool>, of: Offsets, j: nat, v: nat) {
    && LowPos(of, j) + of.lowerBits <= |bits|
    && Field(bits, LowPos(of, j), of.lowerBits) == LowPart(of, v)
  }

  ghost predicate Lows(bits: seq<bool>, of: Offsets, vs: seq<nat>, i: nat) {
    forall j: nat :: j < i && j < |vs| ==> LowAt(bits, of, j, vs[j])
  }

  ghost predicate Pointer1Done(bits: seq<bool>, of: Offsets, vs: seq<nat>, i: nat, ptr: nat) {
    var k := ptr * Pow2(of.logSampling1);
    ptr > 0 && k < i && k < |vs| ==>
      PointerAt(bits, of.pointers1Offset, of.pointerSize, ptr, High(of, vs, k))
  }

  /** Every sampled one before the i-th has its pointer. */
  ghost predicate Pointers1(bits: seq<bool>, of: Offsets, vs: seq<nat>, i: nat) {
    forall ptr: nat :: Pointer1Done(bits, of, vs, i, ptr)
  }

  ghost predicate Pointer0Done(bits: seq<bool>, of: Offsets, vs: seq<nat>, i: nat, ptr: nat, r: nat) {
    var z := ptr * Pow2(of.logSampling0);
    ptr > 0 && Boundary(of, vs, z, r) && r < i && z + of.n < of.higherBitsLength ==>
      PointerAt(bits, of.pointers0Offset, of.pointerSize, ptr, z + r)
  }

  /** Every sampled zero with fewer than `i` ones before it has its pointer. */
  ghost predicate Pointers0(bits: seq<bool>, of: Offsets, vs: seq<nat>, i: nat) {
    forall ptr: nat, r: nat :: Pointer0Done(bits, of, vs, i, ptr, r)
  }

  /** The bits from the layout's start to its end represent the sequence. */
  ghost predicate Encodes(bits: seq<bool>, of: Offsets, vs: seq<nat>) {
    && Fits(of, vs) && of.end <= |bits|
    && Highs(bits, of, vs, of.n) && Lows(bits, of, vs, of.n)
    && Pointers1(bits, of, vs, of.n) && Pointers0(bits, of, vs, of.n + 1)
  }

  /* ----- Each part depends on its own region only ----- */

  lemma HighsKeep(a: seq<bool>, b: seq<bool>, of: Offsets, vs: seq<nat>, i: nat)
    requires Highs(a, of, vs, i) && SameOn(a, b, of.higherBitsOffset, of.higherBitsOffset + of.higherBitsLength)
    ensures Highs(b, of, vs, i)
  {
    forall p: nat | p < of.higherBitsLength ensures OneAt(b, of, p) <==> OneAt(a, of, p) {
    }
  }

  lemma LowWithin(of: Offsets, j: nat)
    requires Layout(of, of.pointers0Offset) && j < of.n
    ensures of.lowerBitsOffset <= LowPos(of, j) && LowPos(of, j) + of.lowerBits <= of.end
  {
    EndIsLowPos(of);
    hide Layout;
    MulMono(0, j, of.lowerBits);
    MulMono(j, of.n, of.lowerBits);
  }

  lemma EndIsLowPos(of: Offsets)
    requires Layout(of, of.pointers0Offset)
    ensures of.end == LowPos(of, of.n)
  {
    hide Pow2, Shr;
  }

  lemma LowsKeep(a: seq<bool>, b: seq<bool>, of: Offsets, vs: seq<nat>, i: nat)
    requires Fits(of, vs) && Lows(a, of, vs, i) && SameOn(a, b, of.lowerBitsOffset, of.end)
    ensures Lows(b, of, vs, i)
  {
    forall j: nat | j < i && j < |vs| ensures LowAt(b, of, j, vs[j]) {
      assert LowAt(a, of, j, vs[j]);
      LowWithin(of, j);
      FieldSame(a, b, LowPos(of, j), of.lowerBits);
    }
  }

  lemma Pointers1Keep(a: seq<bool>, b: seq<bool>, of: Offsets, vs: seq<nat>, i: nat)
    requires Fits(of, vs) && Pointers1(a, of, vs, i) && SameOn(a, b, of.pointers1Offset, of.higherBitsOffset)
    ensures Pointers1(b, of, vs, i)
  {
    var d := Pow2(of.logSampling1);
    forall ptr: nat | ptr > 0 && ptr * d < i && ptr * d < |vs| ensures Pointer1Done(b, of, vs, i, ptr) {
      assert Pointer1Done(a, of, vs, i, ptr);
      MulAtMostDiv(ptr, d, of.n);
      PointerKeep(a, b, of.pointers1Offset, of.pointerSize, of.pointers1, ptr, High(of, vs, ptr * d));
    }
  }

  lemma Pointers0Keep(a: seq<bool>, b: seq<bool>, of: Offsets, vs: seq<nat>, i: nat)
    requires Fits(of, vs) && Pointers0(a, of, vs, i) && SameOn(a, b, of.pointers0Offset, of.pointers1Offset)
    ensures Pointers0(b, of, vs, i)
  {
    var d := Pow2(of.logSampling0);
    forall ptr: nat, r: nat | ptr > 0 && Boundary(of, vs, ptr * d, r) && r < i && ptr * d + of.n < of.higherBitsLength
      ensures Pointer0Done(b, of, vs, i, ptr, r)
    {
      assert Pointer0Done(a, of, vs, i, ptr, r);
      MulAtMostDiv(ptr, d, of.higherBitsLength - of.n);
      PointerKeep(a, b, of.pointers0Offset, of.pointerSize, of.pointers0, ptr, ptr * d + r);
    }
  }

  /** Bits before and after an encoded sequence are free to change, so sequences can be
      written one after the other. */
  lemma EncodesAnywhere(a: seq<bool>, b: seq<bool>, of: Offsets, vs: seq<nat>)
    requires Encodes(a, of, vs) && SameOn(a, b, of.pointers0Offset, of.end)
    ensures Encodes(b, of, vs)
  {
    MulNonNegative(of);
    HighsKeep(a, b, of, vs, of.n);
    LowsKeep(a, b, of, vs, of.n);
    Pointers1Keep(a, b, of, vs, of.n);
    Pointers0Keep(a, b, of, vs, of.n + 1);
  }

  /** The same layout further on. */
  function Shifted(of: Offsets, shift: nat): Offsets {
    of.(pointers0Offset := of.pointers0Offset + shift, pointers1Offset := of.pointers1Offset + shift,
    higherBitsOffset := of.higherBitsOffset + shift, lowerBitsOffset := of.lowerBitsOffset + shift, end := of.end + shift)
  }

  lemma ShiftedOffsets(base: nat, shift: nat, universe: nat, n: nat, params: Params)
    requires n > 0
    ensures Shifted(MakeOffsets(base, universe, n, params), shift) == MakeOffsets(base + shift, universe, n, params)
  {
    hide CeilLog2, Shr, HigherBitsLength, LowerBits;
  }

  lemma TopShifted(of: Offsets, shift: nat, vs: seq<nat>)
    ensures forall v: nat :: Top(Shifted(of, shift), v) == Top(of, v)
    ensures forall i: nat :: i < |vs| ==> High(Shifted(of, shift), vs, i) == High(of, vs, i)
  {
    hide Shr;
  }

  lemma HighsShift(front: seq<bool>, bits: seq<bool>, of: Offsets, vs: seq<nat>, i: nat)
    requires Highs(bits, of, vs, i)
    ensures Highs(front + bits, Shifted(of, |front|), vs, i)
  {
    hide High, Top;
    TopShifted(of, |front|, vs);
    forall p: nat | p < of.higherBitsLength
      ensures OneAt(front + bits, Shifted(of, |front|), p) <==> IsHigh(Shifted(of, |front|), vs, i, p)
    {
      assert OneAt(front + bits, Shifted(of, |front|), p) <==> OneAt(bits, of, p);
      SameIsHigh(of, Shifted(of, |front|), vs, i, p);
    }
  }

  lemma SameIsHigh(of: Offsets, to: Offsets, vs: seq<nat>, i: nat, p: nat)
    requires forall j: nat :: j < |vs| ==> High(to, vs, j) == High(of, vs, j)
    ensures IsHigh(of, vs, i, p) <==> IsHigh(to, vs, i, p)
  {
    hide High;
    if IsHigh(of, vs, i, p) {
      var j :| 0 <= j < i && j < |vs| && High(of, vs, j) == p;
      assert High(to, vs, j) == p;
    }
    if IsHigh(to, vs, i, p) {
      var j :| 0 <= j < i && j < |vs| && High(to, vs, j) == p;
      assert High(of, vs, j) == p;
    }
  }

  lemma LowsShift(front: seq<bool>, bits: seq<bool>, of: Offsets, vs: seq<nat>, i: nat)
    requires Lows(bits, of, vs, i)
    ensures Lows(front + bits, Shifted(of, |front|), vs, i)
  {
    forall j: nat | j < i && j < |vs| ensures LowAt(front + bits, Shifted(of, |front|), j, vs[j]) {
      assert LowAt(bits, of, j, vs[j]);
      FieldShift(front, bits, LowPos(of, j), of.lowerBits);
      assert LowPos(Shifted(of, |front|), j) == |front| + LowPos(of, j);
    }
  }

  lemma PointersShift(front: seq<bool>, bits: seq<bool>, of: Offsets, vs: seq<nat>, i: nat, k: nat)
    requires Pointers1(bits, of, vs, i) && Pointers0(bits, of, vs, k)
    ensures Pointers1(front + bits, Shifted(of, |front|), vs, i) && Pointers0(front + bits, Shifted(of, |front|), vs, k)
  {
    hide PointerAt, High, Top;
    var to := Shifted(of, |front|);
    TopShifted(of, |front|, vs);
    var d1, d0 := Pow2(of.logSampling1), Pow2(of.logSampling0);
    forall ptr: nat | ptr > 0 && ptr * d1 < i && ptr * d1 < |vs| ensures Pointer1Done(front + bits, to, vs, i, ptr) {
      assert Pointer1Done(bits, of, vs, i, ptr);
      PointerShift(front, bits, of.pointers1Offset, of.pointerSize, ptr, High(of, vs, ptr * d1));
    }
    forall ptr: nat, r: nat | ptr > 0 && Boundary(to, vs, ptr * d0, r) && r < k && ptr * d0 + of.n < of.higherBitsLength
      ensures Pointer0Done(front + bits, to, vs, k, ptr, r)
    {
      assert Boundary(of, vs, ptr * d0, r) && Pointer0Done(bits, of, vs, k, ptr, r);
      PointerShift(front, bits, of.pointers0Offset, of.pointerSize, ptr, ptr * d0 + r);
    }
  }

  /** Bits put in front only move an encoded sequence. */
  lemma EncodesShift(front: seq<bool>, bits: seq<bool>, of: Offsets, vs: seq<nat>)
    requires Encodes(bits, of, vs)
    ensures Encodes(front + bits, Shifted(of, |front|), vs)
  {
    hide Highs, Lows, Pointers0, Pointers1, Shr, Pow2;
    HighsShift(front, bits, of, vs, of.n);
    LowsShift(front, bits, of, vs, of.n);
    PointersShift(front, bits, of, vs, of.n, of.n + 1);
  }

  lemma MulNonNegative(of: Offsets)
    requires Layout(of, of.pointers0Offset)
    ensures of.pointers0Offset <= of.pointers1Offset <= of.higherBitsOffset <= of.lowerBitsOffset <= of.end
  {
  }

  /* ----- Writing ----- */

  /** What holds after `i` values. */
  ghost predicate Partial(bits: seq<bool>, of: Offsets, vs: seq<nat>, i: nat) {
    && |bits| == of.end
    && Highs(bits, of, vs, i) && Lows(bits, of, vs, i)
    && Pointers1(bits, of, vs, i) && Pointers0(bits, of, vs, i)
  }

  /** The table of sampled zeros. */
  function Table0(of: Offsets): Table {
    Table(of.pointers0Offset, of.pointerSize, of.pointers0, Pow2(of.logSampling0))
  }

  /** Pointers to the sampled zeros of the run [begin, end), which has `rankEnd` ones before it. */
  method SetPointers0(builder: BitVectorBuilder, of: Offsets, begin: nat, end: nat, rankEnd: nat)
    requires Layout(of, of.pointers0Offset) && of.end <= |builder.bits|
    requires rankEnd <= begin && end - rankEnd <= of.higherBitsLength - of.n && end <= of.higherBitsLength
    modifies builder
    ensures OnlyTable(old(builder.bits), builder.bits, Table0(of))
    ensures EntriesStay(old(builder.bits), builder.bits, Table0(of), CeilDiv(begin - rankEnd, Pow2(of.logSampling0)))
    ensures forall ptr: nat :: 0 < ptr && begin - rankEnd <= ptr * Pow2(of.logSampling0) < end - rankEnd ==>
              PointerAt(builder.bits, of.pointers0Offset, of.pointerSize, ptr, ptr * Pow2(of.logSampling0) + rankEnd)
  {
    hide PointerAt, EntriesStay, OnlyTable, CeilDiv, Layout, Sample, Pow2;
    Table0Ok(of);
    SetRun(builder, Table0(of), of.higherBitsLength - of.n, begin - rankEnd, end - rankEnd, true, rankEnd);
    PositionsFromSamples(builder.bits, of, begin - rankEnd, end - rankEnd, rankEnd);
  }

  lemma Table0Ok(of: Offsets)
    requires Layout(of, of.pointers0Offset)
    ensures of.higherBitsLength >= of.n && Table0(of).count == (of.higherBitsLength - of.n) / Table0(of).step
    ensures Table0(of).End() == of.pointers1Offset <= of.end && of.higherBitsLength <= Pow2(of.pointerSize)
  {
    MulNonNegative(of);
  }

  lemma PositionsFromSamples(bits: seq<bool>, of: Offsets, lo: nat, hi: int, rankEnd: nat)
    requires forall k: nat :: 0 < k && lo <= k * Table0(of).step < hi ==>
               PointerAt(bits, of.pointers0Offset, of.pointerSize, k, Sample(Table0(of), k, true, rankEnd))
    ensures forall ptr: nat :: 0 < ptr && lo <= ptr * Pow2(of.logSampling0) < hi ==>
              PointerAt(bits, of.pointers0Offset, of.pointerSize, ptr, ptr * Pow2(of.logSampling0) + rankEnd)
  {
    hide PointerAt, Pow2;
    forall ptr: nat | 0 < ptr && lo <= ptr * Pow2(of.logSampling0) < hi
      ensures PointerAt(bits, of.pointers0Offset, of.pointerSize, ptr, ptr * Pow2(of.logSampling0) + rankEnd)
    {
      var v := Sample(Table0(of), ptr, true, rankEnd);
      assert ptr * Table0(of).step == ptr * Pow2(of.logSampling0);
      assert PointerAt(bits, of.pointers0Offset, of.pointerSize, ptr, v);
    }
  }

  lemma HighsStep(a: seq<bool>, of: Offsets, vs: seq<nat>, i: nat)
    requires Fits(of, vs) && i < of.n && Highs(a, of, vs, i)
    ensures of.higherBitsOffset + High(of, vs, i) < of.lowerBitsOffset <= |a|
    ensures Highs(a[of.higherBitsOffset + High(of, vs, i) := true], of, vs, i + 1)
  {
    HighFits(of, vs, i);
    hide High, Fits, Shr;
    var b := a[of.higherBitsOffset + High(of, vs, i) := true];
    var next := i + 1;
    forall p: nat | p < of.higherBitsLength ensures OneAt(b, of, p) <==> IsHigh(of, vs, next, p) {
      HighJoins(of, vs, i, p);
      assert OneAt(b, of, p) <==> OneAt(a, of, p) || p == High(of, vs, i);
    }
  }

  lemma HighJoins(of: Offsets, vs: seq<nat>, i: nat, p: nat)
    requires i < |vs|
    ensures IsHigh(of, vs, i + 1, p) <==> IsHigh(of, vs, i, p) || p == High(of, vs, i)
  {
    hide High;
    if IsHigh(of, vs, i + 1, p) {
      var j :| 0 <= j < i + 1 && j < |vs| && High(of, vs, j) == p;
    }
  }

  lemma LowsStep(a: seq<bool>, of: Offsets, vs: seq<nat>, i: nat)
    requires Fits(of, vs) && i < of.n && of.end <= |a| && Lows(a, of, vs, i)
    ensures LowPos(of, i) >= of.lowerBitsOffset && LowPos(of, i) + of.lowerBits <= of.end
    ensures Lows(Put(a, LowPos(of, i), LowPart(of, vs[i]), of.lowerBits), of, vs, i + 1)
  {
    LowWithin(of, i);
    hide LowPos, LowPart, Layout, Sorted, Below;
    var v := LowPart(of, vs[i]);
    var b := Put(a, LowPos(of, i), v, of.lowerBits);
    FieldOfPut(a, LowPos(of, i), v, of.lowerBits);
    forall j: nat | j < i + 1 && j < |vs| ensures LowAt(b, of, j, vs[j]) {
      if j < i {
        LowBefore(a, b, of, i, j, vs[j]);
      }
    }
  }

  lemma LowBefore(a: seq<bool>, b: seq<bool>, of: Offsets, i: nat, j: nat, v: nat)
    requires j < i && LowAt(a, of, j, v) && LowPos(of, i) <= |a| && SameOn(a, b, 0, LowPos(of, i))
    ensures LowAt(b, of, j, v)
  {
    MulMono(j, i, of.lowerBits);
    FieldSame(a, b, LowPos(of, j), of.lowerBits);
  }

  /** Whether the i-th value gets a pointer, as the writer's mask test has it. */
  predicate Sampled1(of: Offsets, i: nat) {
    i > 0 && i % Pow2(of.logSampling1) == 0
  }

  lemma RoomForPointer1(of: Offsets, vs: seq<nat>, i: nat)
    requires Fits(of, vs) && i < of.n && Sampled1(of, i)
    ensures Shr(i, of.logSampling1) > 0 && Shr(i, of.logSampling1) * Pow2(of.logSampling1) == i
    ensures of.pointers1Offset <= PointerPos(of.pointers1Offset, of.pointerSize, Shr(i, of.logSampling1))
    ensures PointerPos(of.pointers1Offset, of.pointerSize, Shr(i, of.logSampling1)) + of.pointerSize <= of.higherBitsOffset
    ensures High(of, vs, i) < Pow2(of.pointerSize)
  {
    HighFits(of, vs, i);
    var d, ptr := Pow2(of.logSampling1), Shr(i, of.logSampling1);
    DivMul(i, d);
    MulAtMostDiv(ptr, d, of.n);
    PointerWithin(ptr, of.pointers1, of.pointerSize);
  }

  lemma Pointers1Step(a: seq<bool>, b: seq<bool>, of: Offsets, vs: seq<nat>, i: nat)
    requires Fits(of, vs) && i < of.n && of.end <= |a| && Pointers1(a, of, vs, i)
    requires !Sampled1(of, i) ==> b == a
    requires Sampled1(of, i) ==> Shr(i, of.logSampling1) > 0
    requires Sampled1(of, i) ==> var pos := PointerPos(of.pointers1Offset, of.pointerSize, Shr(i, of.logSampling1));
                                 pos + of.pointerSize <= |a| && b == Put(a, pos, High(of, vs, i), of.pointerSize)
    ensures Pointers1(b, of, vs, i + 1)
  {
    assert |vs| == of.n;
    hide PointerAt, PointerPos, High, Fits, Shr;
    var d := Pow2(of.logSampling1);
    forall ptr: nat | ptr > 0 && ptr * d < i + 1 && ptr * d < |vs| ensures Pointer1Done(b, of, vs, i + 1, ptr) {
      Pointer1Step(a, b, of, vs, i, ptr, ptr * d);
    }
  }

  lemma Pointer1Step(a: seq<bool>, b: seq<bool>, of: Offsets, vs: seq<nat>, i: nat, ptr: nat, k: nat)
    requires Fits(of, vs) && i < of.n && of.end <= |a| && Pointers1(a, of, vs, i)
    requires !Sampled1(of, i) ==> b == a
    requires Sampled1(of, i) ==> Shr(i, of.logSampling1) > 0
    requires Sampled1(of, i) ==> var pos := PointerPos(of.pointers1Offset, of.pointerSize, Shr(i, of.logSampling1));
                                 pos + of.pointerSize <= |a| && b == Put(a, pos, High(of, vs, i), of.pointerSize)
    requires ptr > 0 && k == ptr * Pow2(of.logSampling1) && k <= i < |vs|
    ensures PointerAt(b, of.pointers1Offset, of.pointerSize, ptr, High(of, vs, k))
  {
    hide PointerPos, High, Fits, Shr, Pointers1;
    var d := Pow2(of.logSampling1);
    if k == i {
      MulMono(0, ptr, d);
      DivIs(k, d, ptr);
      IsShr(i, of.logSampling1, ptr);
      RoomForPointer1(of, vs, i);
      PointerPut(a, of.pointers1Offset, of.pointerSize, ptr, High(of, vs, i));
    } else {
      Pointers1At(a, of, vs, i, ptr, k);
      if Sampled1(of, i) {
        RoomForPointer1(of, vs, i);
        if Shr(i, of.logSampling1) <= ptr {
          MulMono(Shr(i, of.logSampling1), ptr, d);
        }
        PointerBefore(a, b, of.pointers1Offset, of.pointerSize, Shr(i, of.logSampling1), ptr, High(of, vs, k));
      }
    }
  }

  lemma IsShr(x: nat, k: nat, q: nat)
    requires x / Pow2(k) == q
    ensures Shr(x, k) == q
  {
  }

  lemma Pointers1At(bits: seq<bool>, of: Offsets, vs: seq<nat>, i: nat, ptr: nat, k: nat)
    requires Pointers1(bits, of, vs, i)
    requires ptr > 0 && k == ptr * Pow2(of.logSampling1) && k < i && k < |vs|
    ensures PointerAt(bits, of.pointers1Offset, of.pointerSize, ptr, High(of, vs, k))
  {
    hide PointerAt, High;
    assert Pointer1Done(bits, of, vs, i, ptr);
  }

  /** Zeros with exactly `i` ones before them are numbered from the first bound to the second. */
  ghost function ZerosFrom(of: Offsets, vs: seq<nat>, i: nat): nat
    requires i <= |vs|
  {
    if i == 0 then 1 else Top(of, vs[i - 1]) + 1
  }

  ghost function ZerosTo(of: Offsets, vs: seq<nat>, i: nat): int
    requires i <= |vs|
  {
    if i < |vs| then Top(of, vs[i]) + 1 else of.higherBitsLength - of.n
  }

  lemma Pointers0Step(a: seq<bool>, b: seq<bool>, of: Offsets, vs: seq<nat>, i: nat)
    requires Fits(of, vs) && i <= of.n && Pointers0(a, of, vs, i)
    requires EntriesStay(a, b, Table0(of), CeilDiv(ZerosFrom(of, vs, i), Pow2(of.logSampling0)))
    requires forall ptr: nat :: 0 < ptr && ZerosFrom(of, vs, i) <= ptr * Pow2(of.logSampling0) < ZerosTo(of, vs, i) ==>
               PointerAt(b, of.pointers0Offset, of.pointerSize, ptr, ptr * Pow2(of.logSampling0) + i)
    ensures Pointers0(b, of, vs, i + 1)
  {
    hide PointerAt, Shr, CeilDiv;
    var d := Pow2(of.logSampling0);
    forall ptr: nat, r: nat | ptr > 0 && Boundary(of, vs, ptr * d, r) && r < i + 1 && ptr * d + of.n < of.higherBitsLength
      ensures Pointer0Done(b, of, vs, i + 1, ptr, r)
    {
      var z := ptr * d;
      if r < i {
        assert Pointer0Done(a, of, vs, i, ptr, r);
        TopMono(of, vs[r], vs[i - 1]);
        CeilDivIs(ZerosFrom(of, vs, i), d, ptr);
      } else {
        MulMono(1, ptr, d);
      }
    }
  }

  datatype Outcome = Written | Empty | NotSorted

  /** The one and the low bits of the i-th value. */
  method WriteBits(builder: BitVectorBuilder, of: Offsets, ghost vs: seq<nat>, i: nat, v: nat) returns (high: nat)
    requires Fits(of, vs) && i < of.n == |vs| && v == vs[i] && Partial(builder.bits, of, vs, i)
    modifies builder
    ensures |builder.bits| == of.end && SameOn(old(builder.bits), builder.bits, 0, of.higherBitsOffset)
    ensures Highs(builder.bits, of, vs, i + 1) && Lows(builder.bits, of, vs, i + 1)
    ensures Pointers1(builder.bits, of, vs, i) && Pointers0(builder.bits, of, vs, i)
    ensures high == High(of, vs, i)
  {
    hide Highs, Lows, Pointers0, Pointers1, LowPos, LowPart, Pow2, Fits, Layout, Shr, Sorted;
    LayoutOrder(of, vs);
    high := Top(of, v) + i + 1;
    var low := LowPart(of, v);
    ghost var b0 := builder.bits;
    HighsStep(b0, of, vs, i);
    builder.Set(of.higherBitsOffset + high, true);
    ghost var b1 := builder.bits;
    LowsKeep(b0, b1, of, vs, i);
    LowsStep(b1, of, vs, i);
    builder.SetBits(LowPos(of, i), low, of.lowerBits);
    ghost var b2 := builder.bits;
    HighsKeep(b1, b2, of, vs, i + 1);
    Pointers1Keep(b0, b2, of, vs, i);
    Pointers0Keep(b0, b2, of, vs, i);
  }

  /** The body of the writing loop for the i-th value. */
  method WriteOne(builder: BitVectorBuilder, of: Offsets, ghost vs: seq<nat>, i: nat, v: nat, lastHigh: nat)
    returns (high: nat)
    requires Fits(of, vs) && i < of.n == |vs| && v == vs[i] && Partial(builder.bits, of, vs, i)
    requires lastHigh == if i == 0 then 0 else High(of, vs, i - 1)
    modifies builder
    ensures Partial(builder.bits, of, vs, i + 1) && high == High(of, vs, i)
    ensures SameOn(old(builder.bits), builder.bits, 0, of.pointers0Offset)
  {
    hide Highs, Lows, Pointers0, Pointers1, PointerPos, Pow2, PointerAt, Fits, Layout, CeilDiv, Shr, Sorted;
    LayoutOrder(of, vs);
    high := WriteBits(builder, of, vs, i, v);
    ghost var b2 := builder.bits;
    if Sampled1(of, i) {
      RoomForPointer1(of, vs, i);
      builder.SetBits(PointerPos(of.pointers1Offset, of.pointerSize, Shr(i, of.logSampling1)), high, of.pointerSize);
    }
    ghost var b3 := builder.bits;
    Pointers1Step(b2, b3, of, vs, i);
    Pointers0Keep(b2, b3, of, vs, i);
    RunBounds(of, vs, i, lastHigh);
    SetPointers0(builder, of, lastHigh + 1, high, i);
    ghost var b4 := builder.bits;
    Pointers0Step(b3, b4, of, vs, i);
    HighsKeep(b2, b4, of, vs, i + 1);
    LowsKeep(b2, b4, of, vs, i + 1);
    Pointers1Keep(b3, b4, of, vs, i + 1);
  }

  lemma LayoutOrder(of: Offsets, vs: seq<nat>)
    requires Fits(of, vs)
    ensures Layout(of, of.pointers0Offset) && |vs| == of.n
    ensures of.pointers0Offset <= of.pointers1Offset <= of.higherBitsOffset <= of.lowerBitsOffset <= of.end
    ensures of.lowerBitsOffset == of.higherBitsOffset + of.higherBitsLength
  {
    MulNonNegative(of);
  }

  lemma RunBounds(of: Offsets, vs: seq<nat>, i: nat, lastHigh: nat)
    requires Fits(of, vs) && i <= of.n && lastHigh == if i == 0 then 0 else High(of, vs, i - 1)
    ensures i <= lastHigh + 1 && lastHigh + 1 - i == ZerosFrom(of, vs, i)
    ensures i < of.n ==> High(of, vs, i) - i == ZerosTo(of, vs, i) <= of.higherBitsLength - of.n
    ensures i < of.n ==> High(of, vs, i) <= of.higherBitsLength
  {
    if i < of.n {
      TopMono(of, vs[i], of.universe);
    }
  }

  /* ----- The whole sequence, checked for order on the way ----- */

  /** The first `i` values, completed to a sequence that is in order if they are. */
  ghost function Fill(vs: seq<nat>, i: nat, universe: nat): seq<nat>
    requires universe > 0
  {
    seq(|vs|, j requires 0 <= j < |vs| => if j < i then vs[j] else universe - 1)
  }

  lemma FillFits(of: Offsets, vs: seq<nat>, i: nat)
    requires Layout(of, of.pointers0Offset) && |vs| == of.n && Below(vs, of.universe) && i <= |vs| && Sorted(vs[..i])
    ensures of.universe > 0 && Fits(of, Fill(vs, i, of.universe))
    ensures i == |vs| ==> Fill(vs, i, of.universe) == vs
  {
    assert vs[0] < of.universe;
    hide Layout;
    var f := Fill(vs, i, of.universe);
    forall j, k | 0 <= j <= k < |f| ensures f[j] <= f[k] {
      if k < i {
        assert f[j] == vs[..i][j] && f[k] == vs[..i][k];
      }
    }
  }

  /** What has been written depends on the values written only. */
  lemma PartialDepends(bits: seq<bool>, of: Offsets, a: seq<nat>, b: seq<nat>, i: nat)
    requires Partial(bits, of, a, i) && |a| == |b| && i <= |a| && forall j :: 0 <= j < i ==> a[j] == b[j]
    ensures Partial(bits, of, b, i)
  {
    HighsDepend(bits, of, a, b, i);
    assert Lows(bits, of, b, i) by {
      forall j: nat | j < i && j < |b| ensures LowAt(bits, of, j, b[j]) {
        assert LowAt(bits, of, j, a[j]);
      }
    }
    PointersDepend(bits, of, a, b, i);
  }

  lemma HighsDepend(bits: seq<bool>, of: Offsets, a: seq<nat>, b: seq<nat>, i: nat)
    requires Highs(bits, of, a, i) && |a| == |b| && i <= |a| && forall j :: 0 <= j < i ==> a[j] == b[j]
    ensures Highs(bits, of, b, i)
  {
    forall p: nat ensures IsHigh(of, a, i, p) <==> IsHigh(of, b, i, p) {
      if IsHigh(of, a, i, p) {
        var j :| 0 <= j < i && j < |a| && High(of, a, j) == p;
        assert High(of, b, j) == p;
      }
      if IsHigh(of, b, i, p) {
        var j :| 0 <= j < i && j < |b| && High(of, b, j) == p;
        assert High(of, a, j) == p;
      }
    }
  }

  lemma PointersDepend(bits: seq<bool>, of: Offsets, a: seq<nat>, b: seq<nat>, i: nat)
    requires Pointers1(bits, of, a, i) && Pointers0(bits, of, a, i)
    requires |a| == |b| && i <= |a| && forall j :: 0 <= j < i ==> a[j] == b[j]
    ensures Pointers1(bits, of, b, i) && Pointers0(bits, of, b, i)
  {
    hide PointerAt, Shr;
    forall ptr: nat ensures Pointer1Done(bits, of, b, i, ptr) {
      assert Pointer1Done(bits, of, a, i, ptr);
    }
    forall ptr: nat, r: nat ensures Pointer0Done(bits, of, b, i, ptr, r) {
      assert Pointer0Done(bits, of, a, i, ptr, r);
    }
  }

  lemma NothingWritten(bits: seq<bool>, of: Offsets, vs: seq<nat>)
    requires Layout(of, of.pointers0Offset) && |bits| == of.end
    requires forall p :: of.pointers0Offset <= p < of.end ==> !bits[p]
    ensures Partial(bits, of, vs, 0)
  {
    MulNonNegative(of);
  }

  /** Appends the encoding of a sequence, or stops at the first value out of order. */
  method Write(builder: BitVectorBuilder, vs: seq<nat>, universe: nat, params: Params) returns (outcome: Outcome)
    requires Below(vs, universe)
    modifies builder
    ensures outcome.Empty? <==> vs == []
    ensures outcome.NotSorted? <==> !Sorted(vs)
    ensures vs == [] ==> builder.bits == old(builder.bits)
    ensures SameOn(old(builder.bits), builder.bits, 0, |old(builder.bits)|)
    ensures outcome.Written? ==>
              var of := MakeOffsets(|old(builder.bits)|, universe, |vs|, params);
              |builder.bits| == of.end && Encodes(builder.bits, of, vs)
  {
    if |vs| == 0 {
      return Empty;
    }
    hide Partial, Highs, Lows, Pointers0, Pointers1, Layout, Fits, Encodes, Sorted, Fill, Pow2, Shr, PointerAt, CeilDiv;
    var of := MakeOffsets(|builder.bits|, universe, |vs|, params);
    MakeOffsetsLayout(|builder.bits|, universe, |vs|, params);
    BaseOf(of, |builder.bits|);
    builder.ZeroExtend(of.end - |builder.bits|);
    ghost var was := old(builder.bits);
    Below1(vs, universe);
    NothingWritten(builder.bits, of, Fill(vs, 0, universe));
    var last, lastHigh := 0, 0;
    for i := 0 to |vs|
      invariant Partial(builder.bits, of, Fill(vs, i, universe), i) && Sorted(vs[..i])
      invariant SameOn(was, builder.bits, 0, |was|)
      invariant i > 0 ==> last == vs[i - 1]
      invariant lastHigh == if i == 0 then 0 else Top(of, vs[i - 1]) + i
    {
      var v := vs[i];
      if i > 0 && v < last {
        Unsorted(vs, i);
        return NotSorted;
      }
      SortedExtend(vs, i);
      FillStep(builder.bits, of, vs, i);
      ghost var before := builder.bits;
      lastHigh := WriteOne(builder, of, Fill(vs, i + 1, universe), i, v, lastHigh);
      SameTrans(was, before, builder.bits, 0, |was|);
      FillHigh(of, vs, i);
      last := v;
    }
    assert vs[..|vs|] == vs;
    FillFits(of, vs, |vs|);
    WriteLast(builder, of, vs, lastHigh);
    outcome := Written;
  }

  lemma SameTrans(a: seq<bool>, b: seq<bool>, c: seq<bool>, lo: nat, hi: nat)
    requires SameOn(a, b, lo, hi) && SameOn(b, c, lo, hi)
    ensures SameOn(a, c, lo, hi)
  {
  }

  lemma BaseOf(of: Offsets, base: nat)
    requires Layout(of, base)
    ensures of.pointers0Offset == base <= of.end
  {
    MulNonNegative(of);
  }

  lemma Below1(vs: seq<nat>, universe: nat)
    requires Below(vs, universe) && vs != []
    ensures universe > 0 && Sorted(vs[..0])
  {
    assert vs[0] < universe;
  }

  lemma FillStep(bits: seq<bool>, of: Offsets, vs: seq<nat>, i: nat)
    requires Layout(of, of.pointers0Offset) && |vs| == of.n && Below(vs, of.universe) && i < |vs| && Sorted(vs[..i + 1])
    requires of.universe > 0 && Partial(bits, of, Fill(vs, i, of.universe), i)
    ensures Fits(of, Fill(vs, i + 1, of.universe)) && Partial(bits, of, Fill(vs, i + 1, of.universe), i)
    ensures |Fill(vs, i + 1, of.universe)| == |vs| && Fill(vs, i + 1, of.universe)[i] == vs[i]
    ensures i > 0 ==> High(of, Fill(vs, i + 1, of.universe), i - 1) == Top(of, vs[i - 1]) + i
  {
    hide Partial, Layout, Sorted;
    FillFits(of, vs, i + 1);
    PartialDepends(bits, of, Fill(vs, i, of.universe), Fill(vs, i + 1, of.universe), i);
  }

  lemma FillHigh(of: Offsets, vs: seq<nat>, i: nat)
    requires i < |vs| && of.universe > 0
    ensures |Fill(vs, i + 1, of.universe)| == |vs|
    ensures High(of, Fill(vs, i + 1, of.universe), i) == Top(of, vs[i]) + i + 1
  {
  }

  /** The pointers to the zeros after the last one. */
  method WriteLast(builder: BitVectorBuilder, of: Offsets, ghost vs: seq<nat>, lastHigh: nat)
    requires Fits(of, vs) && |vs| == of.n > 0 && Partial(builder.bits, of, vs, of.n)
    requires lastHigh == Top(of, vs[of.n - 1]) + of.n
    modifies builder
    ensures |builder.bits| == of.end && Encodes(builder.bits, of, vs)
    ensures SameOn(old(builder.bits), builder.bits, 0, of.pointers0Offset)
  {
    hide Highs, Lows, Pointers0, Pointers1, PointerPos, Pow2, PointerAt, Fits, Layout, CeilDiv, Shr, Sorted;
    LayoutOrder(of, vs);
    ghost var b0 := builder.bits;
    RunBounds(of, vs, of.n, lastHigh);
    SetPointers0(builder, of, lastHigh + 1, of.higherBitsLength, of.n);
    ghost var b1 := builder.bits;
    Pointers0Step(b0, b1, of, vs, of.n);
    HighsKeep(b0, b1, of, vs, of.n);
    LowsKeep(b0, b1, of, vs, of.n);
    Pointers1Keep(b0, b1, of, vs, of.n);
  }

  /* ----- Where the ones and zeros are ----- */

  /** Exactly `i` ones stand before position `p` of the high bits. */
  ghost predicate OnesBefore(of: Offsets, vs: seq<nat>, i: nat, p: nat) {
    i <= |vs| && (i > 0 ==> High(of, vs, i - 1) < p) && (i < |vs| ==> p <= High(of, vs, i))
  }

  lemma IsHighIff(bits: seq<bool>, of: Offsets, vs: seq<nat>, p: nat)
    requires Encodes(bits, of, vs) && p < of.higherBitsLength
    ensures of.higherBitsOffset + p < of.lowerBitsOffset <= |bits|
    ensures bits[of.higherBitsOffset + p] <==> IsHigh(of, vs, of.n, p)
  {
    MulNonNegative(of);
    assert OneAt(bits, of, p) <==> bits[of.higherBitsOffset + p];
  }

  /** Between two consecutive ones there are only zeros. */
  lemma NoHighBetween(of: Offsets, vs: seq<nat>, i: nat, p: nat, q: nat)
    requires Sorted(vs) && OnesBefore(of, vs, i, p) && p <= q && (i < |vs| ==> q < High(of, vs, i))
    ensures !IsHigh(of, vs, |vs|, q)
  {
    forall j | 0 <= j < |vs| ensures High(of, vs, j) != q {
      if j + 1 < i {
        HighRises(of, vs, j, i - 1);
      } else if i < j {
        HighRises(of, vs, i, j);
      }
    }
  }

  /** The next one belongs to the next value. */
  lemma NextOneIs(bits: seq<bool>, of: Offsets, vs: seq<nat>, i: nat, p: nat)
    requires Encodes(bits, of, vs) && i < |vs| && OnesBefore(of, vs, i, p)
    ensures FirstOne(bits, of.higherBitsOffset + p) == of.higherBitsOffset + High(of, vs, i) < |bits|
  {
    hide Highs, Lows, Pointers0, Pointers1, High;
    var h := High(of, vs, i);
    HighFits(of, vs, i);
    IsHighIff(bits, of, vs, h);
    assert IsHigh(of, vs, of.n, h);
    var q := FirstOne(bits, of.higherBitsOffset + p);
    if q < of.higherBitsOffset + h {
      IsHighIff(bits, of, vs, q - of.higherBitsOffset);
      NoHighBetween(of, vs, i, p, q - of.higherBitsOffset);
    }
  }

  lemma AfterOne(of: Offsets, vs: seq<nat>, i: nat)
    requires Sorted(vs) && i < |vs|
    ensures OnesBefore(of, vs, i + 1, High(of, vs, i) + 1)
  {
    if i + 1 < |vs| {
      HighRises(of, vs, i, i + 1);
    }
  }

  lemma FollowingOne(bits: seq<bool>, of: Offsets, vs: seq<nat>, i: nat)
    requires Encodes(bits, of, vs) && i + 1 < |vs|
    ensures FirstOne(bits, of.higherBitsOffset + High(of, vs, i) + 1) == of.higherBitsOffset + High(of, vs, i + 1) < |bits|
  {
    AfterOne(of, vs, i);
    NextOneIs(bits, of, vs, i + 1, High(of, vs, i) + 1);
  }

  /** Skipping k ones skips k values. */
  lemma {:induction false} NthOneIs(bits: seq<bool>, of: Offsets, vs: seq<nat>, i: nat, p: nat, k: nat)
    requires Encodes(bits, of, vs) && i + k < |vs| && OnesBefore(of, vs, i, p)
    ensures NthOne(bits, of.higherBitsOffset + p, k) == of.higherBitsOffset + High(of, vs, i + k) < |bits|
    decreases k
  {
    NextOneIs(bits, of, vs, i, p);
    if k > 0 {
      AfterOne(of, vs, i);
      NthOneIs(bits, of, vs, i + 1, High(of, vs, i) + 1, k - 1);
    }
  }

  /** Every zero number has its count of ones before it. */
  lemma FindBoundary(of: Offsets, vs: seq<nat>, z: nat) returns (r: nat)
    requires Sorted(vs)
    ensures Boundary(of, vs, z, r)
  {
    r := 0;
    while r < |vs| && Top(of, vs[r]) < z
      invariant r <= |vs| && (r > 0 ==> Top(of, vs[r - 1]) < z)
    {
      r := r + 1;
    }
  }

  /** The first zero at p, where z zeros and i ones have been passed. */
  lemma NextZeroIs(bits: seq<bool>, of: Offsets, vs: seq<nat>, i: nat, z: nat, r: nat)
    requires Encodes(bits, of, vs) && OnesBefore(of, vs, i, z + i) && Boundary(of, vs, z, r)
    requires z + of.n < of.higherBitsLength
    ensures i <= r && FirstZero(bits, of.higherBitsOffset + z + i) == of.higherBitsOffset + z + r < |bits|
    ensures OnesBefore(of, vs, r, z + r + 1)
  {
    hide Highs, Lows, Pointers0, Pointers1, Shr;
    OnesAreFew(of, vs, i, z, r);
    IsHighIff(bits, of, vs, z + r);
    NoHighAt(of, vs, z, r);
    var q := FirstZero(bits, of.higherBitsOffset + z + i);
    if q < of.higherBitsOffset + z + r {
      var j := q - of.higherBitsOffset - z;
      IsHighIff(bits, of, vs, z + j);
      RunOfOnes(of, vs, i, z, r, j);
    }
  }

  lemma OnesAreFew(of: Offsets, vs: seq<nat>, i: nat, z: nat, r: nat)
    requires Sorted(vs) && OnesBefore(of, vs, i, z + i) && Boundary(of, vs, z, r)
    ensures i <= r
  {
    if r < i {
      TopMono(of, vs[r], vs[i - 1]);
    }
  }

  lemma NoHighAt(of: Offsets, vs: seq<nat>, z: nat, r: nat)
    requires Sorted(vs) && Boundary(of, vs, z, r)
    ensures !IsHigh(of, vs, |vs|, z + r) && OnesBefore(of, vs, r, z + r)
  {
    hide Shr;
    NoHighBetween(of, vs, r, z + r, z + r);
  }

  lemma RunOfOnes(of: Offsets, vs: seq<nat>, i: nat, z: nat, r: nat, j: nat)
    requires Sorted(vs) && OnesBefore(of, vs, i, z + i) && Boundary(of, vs, z, r) && i <= j < r
    ensures High(of, vs, j) == z + j && IsHigh(of, vs, |vs|, z + j)
  {
    TopMono(of, vs[i], vs[j]);
    TopMono(of, vs[j], vs[r - 1]);
  }

  /** Skipping k zeros arrives at zero number z + k. */
  lemma {:induction false} NthZeroIs(
    bits: seq<bool>, of: Offsets, vs: seq<nat>, i: nat, z: nat, k: nat, r: nat)
    requires Encodes(bits, of, vs) && OnesBefore(of, vs, i, z + i) && Boundary(of, vs, z + k, r)
    requires z + k + of.n < of.higherBitsLength
    ensures NthZero(bits, of.higherBitsOffset + z + i, k) == of.higherBitsOffset + z + k + r < |bits|
    decreases k
  {
    hide Encodes, Shr;
    EncodesFits(bits, of, vs);
    var s := FindBoundary(of, vs, z);
    NextZeroIs(bits, of, vs, i, z, s);
    if k == 0 {
      BoundaryUnique(of, vs, z, r, s);
    } else {
      NthZeroIs(bits, of, vs, s, z + 1, k - 1, r);
    }
  }

  lemma EncodesFits(bits: seq<bool>, of: Offsets, vs: seq<nat>)
    requires Encodes(bits, of, vs)
    ensures Fits(of, vs) && |vs| == of.n && Sorted(vs) && of.end <= |bits|
  {
  }

  /* ----- The enumerator ----- */

  const LINEAR_SCAN_THRESHOLD := 8

  lemma AtOne(of: Offsets, vs: seq<nat>, i: nat)
    requires Sorted(vs) && i < |vs|
    ensures OnesBefore(of, vs, i, High(of, vs, i))
  {
    if i > 0 {
      HighRises(of, vs, i - 1, i);
    }
  }

  lemma LowIs(bits: seq<bool>, of: Offsets, vs: seq<nat>, i: nat)
    requires Encodes(bits, of, vs) && i < |vs|
    ensures LowPos(of, i) + of.lowerBits <= |bits|
    ensures Field(bits, LowPos(of, i), of.lowerBits) == LowPart(of, vs[i])
  {
    assert LowAt(bits, of, i, vs[i]);
  }

  /** High and low part make up the value. */
  lemma Combine(of: Offsets, v: nat)
    ensures Top(of, v) * Pow2(of.lowerBits) + LowPart(of, v) == v
  {
    DivMul(v, Pow2(of.lowerBits));
  }

  /** The i-th value, from the position of its one. */
  method Decode(bits: seq<bool>, of: Offsets, one: nat, i: nat, ghost vs: seq<nat>) returns (value: nat)
    requires Encodes(bits, of, vs) && i < |vs| && one == of.higherBitsOffset + High(of, vs, i)
    ensures value == vs[i]
  {
    hide Encodes, LowPos, LowPart, Shr, Pow2, Field;
    LowIs(bits, of, vs, i);
    Combine(of, vs[i]);
    value := (one - of.higherBitsOffset - i - 1) * Pow2(of.lowerBits) + Field(bits, LowPos(of, i), of.lowerBits);
  }

  /** The value of the next one, given how many ones have been passed. */
  method ReadValue(bits: seq<bool>, of: Offsets, u: Unary, i: nat, ghost vs: seq<nat>, ghost p: nat)
    returns (u': Unary, value: nat)
    requires Encodes(bits, of, vs) && i < |vs| && u.From() == of.higherBitsOffset + p && OnesBefore(of, vs, i, p)
    ensures value == vs[i] && u' == Unary(of.higherBitsOffset + High(of, vs, i), true)
  {
    hide Encodes, OnesBefore, High;
    NextOneIs(bits, of, vs, i, p);
    u' := UnaryNext(bits, u);
    value := Decode(bits, of, u'.position, i, vs);
  }

  /** The same bits never represent two different sequences. */
  lemma EncodingDetermines(bits: seq<bool>, of: Offsets, vs: seq<nat>, ws: seq<nat>)
    requires Encodes(bits, of, vs) && Encodes(bits, of, ws)
    ensures vs == ws
  {
    hide Encodes, High, LowPos, LowPart, Shr;
    EncodesFits(bits, of, vs);
    EncodesFits(bits, of, ws);
    forall i | 0 <= i < |vs| ensures vs[i] == ws[i] {
      SameHigh(bits, of, vs, ws, i);
      HighIs(of, vs, i);
      HighIs(of, ws, i);
      LowIs(bits, of, vs, i);
      LowIs(bits, of, ws, i);
      Combine(of, vs[i]);
      Combine(of, ws[i]);
    }
  }

  lemma {:induction false} SameHigh(bits: seq<bool>, of: Offsets, vs: seq<nat>, ws: seq<nat>, i: nat)
    requires Encodes(bits, of, vs) && Encodes(bits, of, ws) && i < |vs| == |ws|
    ensures High(of, vs, i) == High(of, ws, i)
  {
    hide Encodes, High;
    EncodesFits(bits, of, vs);
    EncodesFits(bits, of, ws);
    if i == 0 {
      NoneBefore(of, vs);
      NoneBefore(of, ws);
      NextOneIs(bits, of, vs, 0, 0);
      NextOneIs(bits, of, ws, 0, 0);
    } else {
      SameHigh(bits, of, vs, ws, i - 1);
      FollowingOne(bits, of, vs, i - 1);
      FollowingOne(bits, of, ws, i - 1);
    }
  }

  /** What the pointer before value `i` leads to. */
  lemma Pointer1Leads(bits: seq<bool>, of: Offsets, vs: seq<nat>, i: nat, ptr: nat, k: nat)
    requires Encodes(bits, of, vs) && i < |vs| && ptr == Shr(i, of.logSampling1) && k == ptr * Pow2(of.logSampling1)
    ensures k <= i
    ensures ptr > 0 ==> PointerAt(bits, of.pointers1Offset, of.pointerSize, ptr, High(of, vs, k))
    ensures OnesBefore(of, vs, k, if ptr == 0 then 0 else High(of, vs, k))
  {
    hide PointerAt, High, Highs, Lows, Pointers0, Pow2;
    DivMul(i, Pow2(of.logSampling1));
    if ptr > 0 {
      Pointers1At(bits, of, vs, of.n, ptr, k);
      AtOne(of, vs, k);
    } else {
      NoneBefore(of, vs);
    }
  }

  lemma NoneBefore(of: Offsets, vs: seq<nat>)
    ensures OnesBefore(of, vs, 0, 0)
  {
  }

  /** What the pointer before zero number `z` leads to: zero number `k`, with `r` ones before it. */
  lemma Pointer0Leads(bits: seq<bool>, of: Offsets, vs: seq<nat>, z: nat, ptr: nat, k: nat) returns (r: nat)
    requires Encodes(bits, of, vs) && z + of.n < of.higherBitsLength
    requires ptr == Shr(z, of.logSampling0) && k == ptr * Pow2(of.logSampling0)
    ensures k <= z && OnesBefore(of, vs, r, k + r)
    ensures if ptr == 0 then k + r == 0 else PointerAt(bits, of.pointers0Offset, of.pointerSize, ptr, k + r)
  {
    hide PointerAt, High, Highs, Lows, Pointers1, Pow2;
    DivMul(z, Pow2(of.logSampling0));
    if ptr > 0 {
      r := FindBoundary(of, vs, k);
      Pointers0At(bits, of, vs, ptr, k, r);
      NoHighAt(of, vs, k, r);
    } else {
      r := 0;
      NoneBefore(of, vs);
    }
  }

  lemma Pointers0At(bits: seq<bool>, of: Offsets, vs: seq<nat>, ptr: nat, z: nat, r: nat)
    requires Encodes(bits, of, vs) && ptr > 0 && z == ptr * Pow2(of.logSampling0)
    requires Boundary(of, vs, z, r) && z + of.n < of.higherBitsLength
    ensures PointerAt(bits, of.pointers0Offset, of.pointerSize, ptr, z + r)
  {
    hide PointerAt, Boundary, Highs, Lows, Pointers1;
    BoundaryWithin(of, vs, z, r);
    assert Pointer0Done(bits, of, vs, of.n + 1, ptr, r);
  }

  lemma BoundaryWithin(of: Offsets, vs: seq<nat>, z: nat, r: nat)
    requires Boundary(of, vs, z, r)
    ensures r <= |vs|
  {
  }

  /** Values before the boundary of a bound's high part are below the bound. */
  lemma BelowBoundary(of: Offsets, vs: seq<nat>, bound: nat, r: nat)
    requires Sorted(vs) && Boundary(of, vs, Top(of, bound), r)
    ensures forall j :: 0 <= j < r ==> vs[j] < bound
  {
    forall j | 0 <= j < r ensures vs[j] < bound {
      TopMono(of, vs[j], vs[r - 1]);
      TopMono(of, bound, vs[j]);
    }
  }

  /** The high part of a bound below the universe is the number of an existing zero. */
  lemma TopWithin(of: Offsets, bound: nat)
    requires Layout(of, of.pointers0Offset) && bound < of.universe
    ensures Top(of, bound) + of.n < of.higherBitsLength
  {
    TopMono(of, bound, of.universe);
  }

  class Enumerator {
    const bits: seq<bool>
    const of: Offsets
    ghost const vs: seq<nat>
    var position: nat
    var value: nat
    var high: Unary

    /** At a value, its one has just been read; past the end, the high bits are anywhere. */
    ghost predicate Valid()
      reads this
    {
      && Encodes(bits, of, vs) && position <= of.n == |vs|
      && value == ValueAt(of.universe, vs, position)
      && (position < of.n ==> high == Unary(of.higherBitsOffset + High(of, vs, position), true))
    }

    constructor (bits: seq<bool>, offset: nat, universe: nat, n: nat, params: Params, ghost vs: seq<nat>)
      requires n > 0 && Encodes(bits, MakeOffsets(offset, universe, n, params), vs)
      ensures Valid() && position == n
      ensures this.bits == bits && this.vs == vs && of == MakeOffsets(offset, universe, n, params)
    {
      this.bits, this.vs := bits, vs;
      of := MakeOffsets(offset, universe, n, params);
      position, value, high := n, universe, Unary(0, false);
    }

    method Next()
      requires Valid() && position < of.n
      modifies this
      ensures Valid() && position == old(position) + 1
    {
      hide Encodes, High, OnesBefore;
      EncodesFits(bits, of, vs);
      AfterOne(of, vs, position);
      ghost var p := High(of, vs, position) + 1;
      position := position + 1;
      if position < of.n {
        high, value := ReadValue(bits, of, high, position, vs, p);
      } else {
        value := of.universe;
      }
    }

    method Move(target: nat)
      requires Valid() && target <= of.n
      modifies this
      ensures Valid() && position == target && value == ValueAt(of.universe, vs, target)
    {
      if target == position {
        return;
      }
      if target > position && target - position <= LINEAR_SCAN_THRESHOLD {
        ShortMove(target);
      } else {
        SlowMove(target);
      }
    }

    /** A short move forward reads the ones in between. */
    method ShortMove(target: nat)
      requires Valid() && position < target <= of.n
      modifies this
      ensures Valid() && position == target
    {
      hide Encodes, High, OnesBefore, LowPos, LowPart, Shr;
      EncodesFits(bits, of, vs);
      var skip: nat := target - position;
      position := target;
      if position == of.n {
        value := of.universe;
      } else {
        high := AdvanceOnes(skip, target - skip);
        value := Decode(bits, of, high.position, position, vs);
      }
    }

    /** Reads `skip` ones in turn, from the one of value `start`. */
    method AdvanceOnes(skip: nat, ghost start: nat) returns (he: Unary)
      requires Encodes(bits, of, vs) && start + skip < |vs|
      requires high == Unary(of.higherBitsOffset + High(of, vs, start), true)
      ensures he == Unary(of.higherBitsOffset + High(of, vs, start + skip), true)
    {
      hide Encodes, High, FirstOne, Sorted;
      he := high;
      for i := 0 to skip
        invariant he == Unary(of.higherBitsOffset + High(of, vs, start + i), true)
      {
        FollowingOne(bits, of, vs, start + i);
        he := UnaryNext(bits, he);
      }
    }

    /** Skips ahead from here when no pointer lies in between, from a pointer otherwise. */
    method SlowMove(target: nat)
      requires Valid() && target <= of.n && target != position
      modifies this
      ensures Valid() && position == target
    {
      hide Encodes, High, OnesBefore, Shr, NthOne;
      EncodesFits(bits, of, vs);
      if target == of.n {
        position, value := target, of.universe;
        return;
      }
      var toSkip: nat, u := 0, high;
      if target > position && Shr(target - position, of.logSampling1) == 0 {
        toSkip := target - position - 1;
        AfterOne(of, vs, position);
        NthOneIs(bits, of, vs, position + 1, High(of, vs, position) + 1, toSkip);
      } else {
        u, toSkip := StartAtPointer(target);
      }
      u := UnarySkip(bits, u, toSkip);
      AtOne(of, vs, target);
      position := target;
      high, value := ReadValue(bits, of, u, position, vs, High(of, vs, target));
    }

    /** The last pointer at or before value `target`, and how many ones remain from there. */
    method StartAtPointer(target: nat) returns (u: Unary, toSkip: nat)
      requires Valid() && target < of.n
      ensures NthOne(bits, u.From(), toSkip) == of.higherBitsOffset + High(of, vs, target) < |bits|
    {
      hide Encodes, High, OnesBefore, Shr, Pow2, PointerAt, NthOne;
      var ptr := Shr(target, of.logSampling1);
      ghost var k := ptr * Pow2(of.logSampling1);
      Pointer1Leads(bits, of, vs, target, ptr, k);
      var highPos := ReadPointer(bits, of.pointers1Offset, of.pointerSize, ptr, if ptr == 0 then 0 else High(of, vs, k));
      u := Unary(of.higherBitsOffset + highPos, false);
      toSkip := target - ptr * Pow2(of.logSampling1);
      NthOneIs(bits, of, vs, k, highPos, toSkip);
    }

    /** Moves to the least value at or above the bound; stays when the current value is the
        bound itself. */
    method NextGeq(bound: nat)
      requires Valid()
      modifies this
      ensures Valid()
      ensures bound == old(value) ==> position == old(position)
      ensures bound != old(value) ==> Least(vs, bound, position)
    {
      if bound == value {
        return;
      }
      if bound > value && Top(of, bound) - Top(of, value) <= LINEAR_SCAN_THRESHOLD {
        ShortNextGeq(bound);
      } else {
        TopMono(of, value, bound);
        SlowNextGeq(bound);
      }
    }

    /** Scans the values that follow. */
    method ShortNextGeq(bound: nat)
      requires Valid() && bound > value
      modifies this
      ensures Valid()
      ensures Least(vs, bound, position)
    {
      hide Encodes, High, OnesBefore, Shr;
      EncodesFits(bits, of, vs);
      BelowUniverse(of, vs);
      BelowCurrent(of, vs, position, bound);
      var u, val := high, 0;
      while true
        invariant Encodes(bits, of, vs) && position <= of.n
        invariant forall j :: 0 <= j <= position && j < of.n ==> vs[j] < bound
        invariant position < of.n ==> u == Unary(of.higherBitsOffset + High(of, vs, position), true)
        decreases of.n - position
      {
        ghost var p := if position < of.n then High(of, vs, position) + 1 else 0;
        if position < of.n {
          AfterOne(of, vs, position);
        }
        position := position + 1;
        if position < of.n {
          u, val := ReadValue(bits, of, u, position, vs, p);
        } else {
          position, val := of.n, of.universe;
          break;
        }
        if val >= bound {
          break;
        }
      }
      high, value := u, val;
    }

    /** Skips zeros ahead when no pointer lies in between, from a pointer otherwise, and scans. */
    method SlowNextGeq(bound: nat)
      requires Valid() && bound != value && (bound > value ==> Top(of, bound) > Top(of, value))
      modifies this
      ensures Valid()
      ensures Least(vs, bound, position)
    {
      hide Encodes, High, OnesBefore, Shr, Pow2, PointerAt, Boundary, Layout;
      EncodesFits(bits, of, vs);
      BelowUniverse(of, vs);
      if bound >= of.universe {
        Move(of.n);
        return;
      }
      TopWithin(of, bound);
      ghost var r := FindBoundary(of, vs, Top(of, bound));
      var u := SkipToTop(bound, r);
      NoHighAt(of, vs, Top(of, bound), r);
      BelowBoundary(of, vs, bound, r);
      BoundaryWithin(of, vs, Top(of, bound), r);
      position := u.position - of.higherBitsOffset - Top(of, bound);
      Scan(u, bound, Top(of, bound) + r);
    }

    /** Reads values from the current position until one reaches the bound. */
    method Scan(start: Unary, bound: nat, ghost from: nat)
      requires Encodes(bits, of, vs) && position <= of.n == |vs|
      requires forall j :: 0 <= j < position ==> vs[j] < bound
      requires start.From() == of.higherBitsOffset + from && OnesBefore(of, vs, position, from)
      modifies this
      ensures Valid() && Least(vs, bound, position)
    {
      hide Encodes, High, OnesBefore;
      EncodesFits(bits, of, vs);
      var u := start;
      ghost var p: nat := from;
      while position < of.n
        invariant position <= of.n
        invariant forall j :: 0 <= j < position ==> vs[j] < bound
        invariant u.From() == of.higherBitsOffset + p && OnesBefore(of, vs, position, p)
      {
        var val;
        u, val := ReadValue(bits, of, u, position, vs, p);
        if val >= bound {
          high, value := u, val;
          return;
        }
        AfterOne(of, vs, position);
        p := High(of, vs, position) + 1;
        position := position + 1;
      }
      high, value := u, of.universe;
    }

    /** The zero whose number is the bound's high part. */
    method SkipToTop(bound: nat, ghost r: nat) returns (u: Unary)
      requires Valid() && bound < of.universe && (bound > value ==> Top(of, bound) > Top(of, value))
      requires Top(of, bound) + of.n < of.higherBitsLength && Boundary(of, vs, Top(of, bound), r)
      ensures u == Unary(of.higherBitsOffset + Top(of, bound) + r, false)
    {
      hide Encodes, High, Shr, Boundary, Layout;
      EncodesFits(bits, of, vs);
      BelowUniverse(of, vs);
      var z := Top(of, bound);
      if bound > value && Shr(z - Top(of, value), of.logSampling0) == 0 {
        u := SkipForward(z, r);
      } else {
        u := SkipFromPointer(z, r);
      }
    }

    /** From the current one, which the enumerator shows as a zero. */
    method SkipForward(z: nat, ghost r: nat) returns (u: Unary)
      requires Valid() && position < of.n && z > Top(of, value)
      requires z + of.n < of.higherBitsLength && Boundary(of, vs, z, r)
      ensures u == Unary(of.higherBitsOffset + z + r, false)
    {
      hide Encodes, High, OnesBefore, Shr, Boundary;
      EncodesFits(bits, of, vs);
      var toSkip := z - Top(of, value);
      HighIs(of, vs, position);
      AfterOne(of, vs, position);
      NthZeroIs(bits, of, vs, position + 1, Top(of, value) + 1, toSkip - 1, r);
      NextOneIs1(bits, of, vs, position);
      u := UnarySkip0(bits, high, toSkip);
    }

    method SkipFromPointer(z: nat, ghost r: nat) returns (u: Unary)
      requires Valid() && z + of.n < of.higherBitsLength && Boundary(of, vs, z, r)
      ensures u == Unary(of.higherBitsOffset + z + r, false)
    {
      hide Encodes, High, OnesBefore, Shr, Pow2, PointerAt, Boundary;
      var ptr := Shr(z, of.logSampling0);
      ghost var k := ptr * Pow2(of.logSampling0);
      ghost var s := Pointer0Leads(bits, of, vs, z, ptr, k);
      var highPos := ReadPointer(bits, of.pointers0Offset, of.pointerSize, ptr, k + s);
      var toSkip := z - ptr * Pow2(of.logSampling0);
      NthZeroIs(bits, of, vs, s, k, toSkip, r);
      NthZeroGrows(bits, of.higherBitsOffset + highPos, toSkip);
      u := UnarySkip0(bits, Unary(of.higherBitsOffset + highPos, false), toSkip);
    }

    /** The value before the current one; 0 before the first. */
    method PrevValue() returns (prev: nat)
      requires Valid()
      ensures prev == if position == 0 then 0 else vs[position - 1]
    {
      hide Encodes, High;
      EncodesFits(bits, of, vs);
      if position == 0 {
        return 0;
      }
      ghost var one := of.higherBitsOffset + High(of, vs, position - 1);
      PreviousOne(bits, of, vs, position, one, if position < of.n then high.position else of.lowerBitsOffset);
      var prevHigh: nat;
      if position < of.n {
        prevHigh := Predecessor1(bits, high.position - 1);
      } else {
        prevHigh := Predecessor1(bits, of.lowerBitsOffset - 1);
      }
      prev := Decode(bits, of, prevHigh, position - 1, vs);
    }
  }

  lemma HighIs(of: Offsets, vs: seq<nat>, i: nat)
    requires i < |vs|
    ensures High(of, vs, i) == Top(of, vs[i]) + i + 1
  {
  }

  lemma NextOneIs1(bits: seq<bool>, of: Offsets, vs: seq<nat>, i: nat)
    requires Encodes(bits, of, vs) && i < |vs|
    ensures of.higherBitsOffset + High(of, vs, i) < |bits|
  {
    EncodesFits(bits, of, vs);
    AtOne(of, vs, i);
    NextOneIs(bits, of, vs, i, High(of, vs, i));
  }

  lemma BelowUniverse(of: Offsets, vs: seq<nat>)
    requires Fits(of, vs)
    ensures Layout(of, of.pointers0Offset) && |vs| == of.n
    ensures forall i :: 0 <= i < |vs| ==> vs[i] < of.universe
  {
  }

  lemma BelowCurrent(of: Offsets, vs: seq<nat>, i: nat, bound: nat)
    requires Sorted(vs) && (forall j :: 0 <= j < |vs| ==> vs[j] < of.universe)
    requires i <= |vs| && ValueAt(of.universe, vs, i) < bound
    ensures forall j :: 0 <= j <= i && j < |vs| ==> vs[j] < bound
  {
  }

  /** The last one before `end`, which comes before the i-th one or after all. */
  lemma PreviousOne(bits: seq<bool>, of: Offsets, vs: seq<nat>, i: nat, one: nat, end: nat)
    requires Encodes(bits, of, vs) && 0 < i <= |vs| && one == of.higherBitsOffset + High(of, vs, i - 1)
    requires end == if i < |vs| then of.higherBitsOffset + High(of, vs, i) else of.lowerBitsOffset
    ensures one < end <= |bits| && bits[one]
    ensures forall q :: one < q < end ==> !bits[q]
  {
    EncodesFits(bits, of, vs);
    hide High, Highs, Lows, Pointers0, Pointers1;
    AfterOne(of, vs, i - 1);
    HighFits(of, vs, i - 1);
    IsHighIff(bits, of, vs, High(of, vs, i - 1));
    assert IsHigh(of, vs, of.n, High(of, vs, i - 1));
    if i < |vs| {
      HighRises(of, vs, i - 1, i);
      HighFits(of, vs, i);
    }
    forall q | one < q < end ensures !bits[q] {
      IsHighIff(bits, of, vs, q - of.higherBitsOffset);
      NoHighBetween(of, vs, i, High(of, vs, i - 1) + 1, q - of.higherBitsOffset);
    }
  }
}
