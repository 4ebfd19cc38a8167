/** Partitioned sequences: a strictly increasing sequence cut at given endpoints, every part
    re-based and stored on its own, with the endpoints and upper bounds of the parts in two
    Elias-Fano sequences; and the enumerator that switches from part to part.
 */
module PartitionedSequence {
  import opened Bits
  import opened Pointers
  import opened Sequences
  import opened IntegerCodes
  import EliasFano
  import IndexedSequence

  type Params = IndexedSequence.Params

  /* ----- The plain sequence, cut into parts ----- */

  /** Part p ends before index cuts[p]; the last part ends with the sequence. */
  ghost predicate IsPartition(cuts: seq<nat>, n: nat) {
    && cuts != [] && Increasing(cuts) && cuts[0] > 0 && cuts[|cuts| - 1] == n
  }

  ghost predicate Input(vs: seq<nat>, universe: nat, cuts: seq<nat>) {
    Increasing(vs) && Below(vs, universe) && IsPartition(cuts, |vs|)
  }

  function Begin(cuts: seq<nat>, p: nat): nat
    requires p < |cuts|
  {
    if p == 0 then 0 else cuts[p - 1]
  }

  lemma PartWithin(vs: seq<nat>, universe: nat, cuts: seq<nat>, p: nat)
    requires Input(vs, universe, cuts) && p < |cuts|
    ensures Begin(cuts, p) < cuts[p] <= |vs| && universe > 0
    ensures p + 1 < |cuts| ==> cuts[p] < |vs|
  {
    assert p + 1 < |cuts| ==> cuts[p] < cuts[|cuts| - 1];
    assert p > 0 ==> cuts[p - 1] < cuts[p];
    assert vs[0] < universe;
  }

  /** What is subtracted from the values of part p. */
  ghost function Base(vs: seq<nat>, universe: nat, cuts: seq<nat>, p: nat): nat
    requires Input(vs, universe, cuts) && p < |cuts|
  {
    PartWithin(vs, universe, cuts, p);
    if p == 0 then vs[0] else vs[cuts[p - 1] - 1] + 1
  }

  ghost function Upper(vs: seq<nat>, universe: nat, cuts: seq<nat>, p: nat): nat
    requires Input(vs, universe, cuts) && p < |cuts|
  {
    PartWithin(vs, universe, cuts, p);
    vs[cuts[p] - 1]
  }

  function Minus(x: nat, y: nat): nat { if x >= y then x - y else 0 }

  ghost function Part(vs: seq<nat>, universe: nat, cuts: seq<nat>, p: nat): (part: seq<nat>)
    requires Input(vs, universe, cuts) && p < |cuts|
    ensures |part| == cuts[p] - Begin(cuts, p)
  {
    PartWithin(vs, universe, cuts, p);
    var base := Base(vs, universe, cuts, p);
    var slice := vs[Begin(cuts, p)..cuts[p]];
    seq(|slice|, i requires 0 <= i < |slice| => Minus(slice[i], base))
  }

  /** The values of a part are its entries plus the base. */
  lemma PartAt(vs: seq<nat>, universe: nat, cuts: seq<nat>, p: nat, i: nat)
    requires Input(vs, universe, cuts) && p < |cuts| && i < |Part(vs, universe, cuts, p)|
    ensures Begin(cuts, p) + i < |vs|
    ensures vs[Begin(cuts, p) + i] == Base(vs, universe, cuts, p) + Part(vs, universe, cuts, p)[i]
    ensures Part(vs, universe, cuts, p)[i] <= Upper(vs, universe, cuts, p) - Base(vs, universe, cuts, p)
  {
    PartWithin(vs, universe, cuts, p);
    var b := Begin(cuts, p);
    assert b + i > 0 ==> vs[0] <= vs[b + i];
    assert p > 0 ==> vs[b - 1] < vs[b + i];
    assert b + i < cuts[p] - 1 ==> vs[b + i] < vs[cuts[p] - 1];
  }

  ghost function PartUniverse(vs: seq<nat>, universe: nat, cuts: seq<nat>, p: nat): nat
    requires Input(vs, universe, cuts) && p < |cuts|
  {
    Minus(Upper(vs, universe, cuts, p) + 1, Base(vs, universe, cuts, p))
  }

  lemma PartFits(vs: seq<nat>, universe: nat, cuts: seq<nat>, p: nat)
    requires Input(vs, universe, cuts) && p < |cuts|
    ensures Base(vs, universe, cuts, p) <= Upper(vs, universe, cuts, p) < universe
    ensures PartUniverse(vs, universe, cuts, p) == Upper(vs, universe, cuts, p) - Base(vs, universe, cuts, p) + 1
    ensures var part := Part(vs, universe, cuts, p);
            IndexedSequence.Fits(PartUniverse(vs, universe, cuts, p), |part|, part)
  {
    PartWithin(vs, universe, cuts, p);
    var part := Part(vs, universe, cuts, p);
    PartAt(vs, universe, cuts, p, 0);
    forall i | 0 <= i < |part| ensures part[i] < PartUniverse(vs, universe, cuts, p) {
      PartAt(vs, universe, cuts, p, i);
    }
    forall i, j | 0 <= i < j < |part| ensures part[i] < part[j] {
      PartAt(vs, universe, cuts, p, i);
      PartAt(vs, universe, cuts, p, j);
    }
  }

  /** The first value, and the last value of every part. */
  ghost function UpperBounds(vs: seq<nat>, universe: nat, cuts: seq<nat>): (bounds: seq<nat>)
    requires Input(vs, universe, cuts)
    ensures |bounds| == |cuts| + 1
  {
    PartWithin(vs, universe, cuts, 0);
    [vs[0]] + seq(|cuts|, p requires 0 <= p < |cuts| => Upper(vs, universe, cuts, p))
  }

  lemma BoundsFit(vs: seq<nat>, universe: nat, cuts: seq<nat>)
    requires Input(vs, universe, cuts)
    ensures Sorted(UpperBounds(vs, universe, cuts)) && Below(UpperBounds(vs, universe, cuts), universe)
    ensures UpperBounds(vs, universe, cuts)[0] == vs[0]
    ensures forall p: nat :: p < |cuts| ==> UpperBounds(vs, universe, cuts)[p + 1] == Upper(vs, universe, cuts, p)
  {
    var bounds := UpperBounds(vs, universe, cuts);
    forall i, j | 0 <= i <= j < |bounds| ensures bounds[i] <= bounds[j] < universe {
      BoundsPair(vs, universe, cuts, i, j);
    }
  }

  lemma BoundsPair(vs: seq<nat>, universe: nat, cuts: seq<nat>, i: nat, j: nat)
    requires Input(vs, universe, cuts) && i <= j <= |cuts|
    ensures UpperBounds(vs, universe, cuts)[i] <= UpperBounds(vs, universe, cuts)[j] < universe
  {
    var a := if i == 0 then 0 else cuts[i - 1] - 1;
    var b := if j == 0 then 0 else cuts[j - 1] - 1;
    if i > 0 { PartWithin(vs, universe, cuts, i - 1); }
    if j > 0 { PartWithin(vs, universe, cuts, j - 1); }
    assert 0 < i < j ==> cuts[i - 1] < cuts[j - 1];
    assert a < b ==> vs[a] < vs[b];
  }

  lemma SizesFit(cuts: seq<nat>, n: nat)
    requires IsPartition(cuts, n)
    ensures Sorted(cuts[..|cuts| - 1]) && Increasing(cuts[..|cuts| - 1]) && Below(cuts[..|cuts| - 1], n)
  {
  }

  /** The least index within a part is the least index of all. */
  lemma LeastInPart(vs: seq<nat>, universe: nat, cuts: seq<nat>, p: nat, bound: nat, j: nat)
    requires Input(vs, universe, cuts) && p < |cuts|
    requires Base(vs, universe, cuts, p) <= bound <= Upper(vs, universe, cuts, p)
    requires Least(Part(vs, universe, cuts, p), bound - Base(vs, universe, cuts, p), j)
    ensures j < |Part(vs, universe, cuts, p)| && Least(vs, bound, Begin(cuts, p) + j)
  {
    PartWithin(vs, universe, cuts, p);
    var b, part := Begin(cuts, p), Part(vs, universe, cuts, p);
    var last: nat := |part| - 1;
    PartAt(vs, universe, cuts, p, last);
    if j < |part| { PartAt(vs, universe, cuts, p, j); }
    forall i | 0 <= i < b + j ensures vs[i] < bound {
      if i >= b {
        PartAt(vs, universe, cuts, p, i - b);
      } else {
        assert i < b - 1 ==> vs[i] < vs[b - 1];
      }
    }
  }

  /* ----- What the bits must say ----- */

  /** Where part p is stored: endpoints[p - 1] bits into the parts, the first part first. */
  function StartOf(endpoints: seq<nat>, p: nat): nat
    requires p <= |endpoints|
  {
    if p == 0 then 0 else endpoints[p - 1]
  }

  ghost predicate EndpointAt(bits: seq<bool>, at: nat, size: nat, endpoints: seq<nat>, p: nat) {
    p <= |endpoints| && (p > 0 ==> PointerAt(bits, at, size, p, endpoints[p - 1]))
  }

  ghost predicate HoldsPart(
    bits: seq<bool>, at: nat, vs: seq<nat>, universe: nat, cuts: seq<nat>, params: Params, p: nat)
  {
    && Input(vs, universe, cuts) && p < |cuts|
    && IndexedSequence.Holds(
         bits, at, PartUniverse(vs, universe, cuts, p), |Part(vs, universe, cuts, p)|, params, Part(vs, universe, cuts, p))
  }

  datatype Places = Places(
    header: nat, endpointBits: nat, sizesAt: nat, boundsAt: nat, endpointsAt: nat, sequencesAt: nat)

  /** Several parts. */
  ghost predicate StoresMany(
    bits: seq<bool>, offset: nat, universe: nat, vs: seq<nat>, cuts: seq<nat>, params: Params,
    at: Places, endpoints: seq<nat>)
  {
    && Input(vs, universe, cuts) && |cuts| > 1 && |endpoints| == |cuts| - 1
    && GammaAt(bits, offset, |cuts| - 1, at.header)
    && GammaAt(bits, at.header, at.endpointBits, at.sizesAt)
    && EliasFano.Encodes(bits, EliasFano.MakeOffsets(at.sizesAt, |vs|, |cuts| - 1, params.ef), cuts[..|cuts| - 1])
    && at.boundsAt == EliasFano.MakeOffsets(at.sizesAt, |vs|, |cuts| - 1, params.ef).end
    && EliasFano.Encodes(
         bits, EliasFano.MakeOffsets(at.boundsAt, universe, |cuts| + 1, params.ef), UpperBounds(vs, universe, cuts))
    && at.endpointsAt == EliasFano.MakeOffsets(at.boundsAt, universe, |cuts| + 1, params.ef).end
    && at.sequencesAt == at.endpointsAt + at.endpointBits * (|cuts| - 1)
    && (forall p: nat :: p < |cuts| ==> EndpointAt(bits, at.endpointsAt, at.endpointBits, endpoints, p))
    && (forall p: nat :: p < |cuts| ==>
          HoldsPart(bits, at.sequencesAt + StartOf(endpoints, p), vs, universe, cuts, params, p))
  }

  /** The delta-coded last value of a single part, 0 when its universe is tight. */
  ghost function UniverseCode(universe: nat, vs: seq<nat>): nat
    requires vs != []
  {
    if vs[|vs| - 1] + 1 == universe then 0 else Minus(vs[|vs| - 1], vs[0])
  }

  /** A single part. */
  ghost predicate StoresOne(
    bits: seq<bool>, offset: nat, universe: nat, vs: seq<nat>, params: Params, header: nat, sequenceAt: nat)
  {
    && Input(vs, universe, [|vs|]) && universe > 0 && vs != []
    && GammaAt(bits, offset, 0, header)
    && header + CeilLog2(universe) <= |bits| && Field(bits, header, CeilLog2(universe)) == vs[0]
    && (if |vs| > 1 then DeltaAt(bits, header + CeilLog2(universe), UniverseCode(universe, vs), sequenceAt)
        else sequenceAt == header + CeilLog2(universe))
    && HoldsPart(bits, sequenceAt, vs, universe, [|vs|], params, 0)
  }

  /* ----- Writing ----- */

  /** Every part has a representation of representable size. */
  ghost predicate SizesOk(vs: seq<nat>, universe: nat, cuts: seq<nat>, params: Params)
    requires Input(vs, universe, cuts)
  {
    forall p: nat :: p < |cuts| ==> SizeOk(vs, universe, cuts, params, p)
  }

  ghost predicate SizeOk(vs: seq<nat>, universe: nat, cuts: seq<nat>, params: Params, p: nat)
    requires Input(vs, universe, cuts) && p < |cuts|
  {
    var size := |Part(vs, universe, cuts, p)|;
    size > 0 && IndexedSequence.SizeOk(params, PartUniverse(vs, universe, cuts, p), size)
  }

  /** The values of one part, re-based, and its last value. */
  method CutPart(vs: seq<nat>, ghost universe: nat, cuts: seq<nat>, p: nat, curBase: nat)
    returns (part: seq<nat>, upperBound: nat)
    requires Input(vs, universe, cuts) && p < |cuts| && curBase == Base(vs, universe, cuts, p)
    ensures part == Part(vs, universe, cuts, p) && upperBound == Upper(vs, universe, cuts, p)
  {
    hide Base, Part, Upper, Increasing, Below;
    PartWithin(vs, universe, cuts, p);
    part := [];
    for i := Begin(cuts, p) to cuts[p]
      invariant part == Part(vs, universe, cuts, p)[..i - Begin(cuts, p)]
    {
      PartAt(vs, universe, cuts, p, i - Begin(cuts, p));
      part := part + [vs[i] - curBase];
    }
    LastOfPart(vs, universe, cuts, p);
    upperBound := vs[cuts[p] - 1];
  }

  lemma LastOfPart(vs: seq<nat>, universe: nat, cuts: seq<nat>, p: nat)
    requires Input(vs, universe, cuts) && p < |cuts|
    ensures 0 < cuts[p] <= |vs| && vs[cuts[p] - 1] == Upper(vs, universe, cuts, p)
    ensures p + 1 < |cuts| ==> Base(vs, universe, cuts, p + 1) == Upper(vs, universe, cuts, p) + 1
    ensures vs != [] && Base(vs, universe, cuts, 0) == vs[0]
  {
    PartWithin(vs, universe, cuts, p);
  }

  lemma LastEntry(vs: seq<nat>, universe: nat, cuts: seq<nat>, p: nat)
    requires Input(vs, universe, cuts) && p < |cuts|
    ensures var part := Part(vs, universe, cuts, p);
            part != [] && part[|part| - 1] + 1 == PartUniverse(vs, universe, cuts, p)
            && part[|part| - 1] == Upper(vs, universe, cuts, p) - Base(vs, universe, cuts, p)
  {
    PartWithin(vs, universe, cuts, p);
    PartFits(vs, universe, cuts, p);
    PartAt(vs, universe, cuts, p, |Part(vs, universe, cuts, p)| - 1);
  }

  /** A single part: its base in the width of the universe, its last entry unless that follows
      from the universe, and its values. */
  method WriteSingle(builder: BitVectorBuilder, vs: seq<nat>, universe: nat, params: Params)
    returns (ghost header: nat, ghost sequenceAt: nat)
    requires Input(vs, universe, [|vs|]) && vs != [] && SizesOk(vs, universe, [|vs|], params)
    modifies builder
    ensures old(builder.bits) <= builder.bits
    ensures StoresOne(builder.bits, |old(builder.bits)|, universe, vs, params, header, sequenceAt)
  {
    hide GammaAt, DeltaAt, IndexedSequence.Holds, IndexedSequence.SizeOk, Part, PartUniverse, Upper, Base, Field, Binary, Pow2,
      CeilLog2, Increasing, Below;
    var n := |vs|;
    FirstBelow(vs, universe);
    assert SizeOk(vs, universe, [n], params, 0);
    LastEntry(vs, universe, [n], 0);
    PartFits(vs, universe, [n], 0);
    LastOfPart(vs, universe, [n], 0);
    ghost var b0 := builder.bits;
    WriteGamma(builder, 0);
    ghost var b1 := builder.bits;
    header := |b1|;
    var curBase := vs[0];
    var part, _ := CutPart(vs, universe, [n], 0, curBase);
    CeilLog2Fits(universe);
    builder.AppendBits(curBase, CeilLog2(universe));
    ghost var b2 := builder.bits;
    if n > 1 {
      if curBase + part[n - 1] + 1 == universe {
        WriteDelta(builder, 0);
      } else {
        WriteDelta(builder, part[n - 1]);
      }
    }
    ghost var b3 := builder.bits;
    sequenceAt := |b3|;
    IndexedSequence.Write(builder, part, part[n - 1] + 1, n, params);
    SingleStored(b0, b1, b2, b3, builder.bits, universe, vs, params);
  }

  lemma FirstBelow(vs: seq<nat>, universe: nat)
    requires Below(vs, universe) && vs != []
    ensures vs[0] < universe
  {
  }

  lemma SingleStored(
    b0: seq<bool>, b1: seq<bool>, b2: seq<bool>, b3: seq<bool>, b4: seq<bool>, universe: nat, vs: seq<nat>, params: Params)
    requires Input(vs, universe, [|vs|]) && vs != []
    requires GammaAt(b1, |b0|, 0, |b1|) && b0 <= b1 <= b2 <= b3 <= b4
    requires vs[0] < universe <= Pow2(CeilLog2(universe)) && b2 == b1 + Binary(vs[0], CeilLog2(universe))
    requires if |vs| > 1 then DeltaAt(b3, |b2|, UniverseCode(universe, vs), |b3|) else b3 == b2
    requires HoldsPart(b4, |b3|, vs, universe, [|vs|], params, 0)
    ensures StoresOne(b4, |b0|, universe, vs, params, |b1|, |b3|)
  {
    hide GammaAt, DeltaAt, HoldsPart, Field, Binary, Pow2, CeilLog2, Increasing, Below, UniverseCode;
    var width := CeilLog2(universe);
    GammaStays(b1, b4, |b0|, 0, |b1|);
    FieldOfBinary(b1, vs[0], width, []);
    assert b1 + Binary(vs[0], width) + [] == b2;
    FieldSame(b2, b4, |b1|, width);
    if |vs| > 1 {
      DeltaStays(b3, b4, |b2|, UniverseCode(universe, vs), |b3|);
    }
  }

  /** The first `p` parts have been stored one after the other; `ends` is where each ended. */
  ghost predicate PartsDone(
    bits: seq<bool>, vs: seq<nat>, universe: nat, cuts: seq<nat>, params: Params, p: nat, ends: seq<nat>)
  {
    && Input(vs, universe, cuts) && p <= |cuts| && |ends| == p && StartOf(ends, p) == |bits|
    && (forall i :: 0 <= i < |ends| ==> ends[i] <= |bits|)
    && (forall q: nat :: q < p ==> HoldsPart(bits, StartOf(ends, q), vs, universe, cuts, params, q))
  }

  lemma PartsStep(
    bits: seq<bool>, after: seq<bool>, vs: seq<nat>, universe: nat, cuts: seq<nat>, params: Params, p: nat, ends: seq<nat>)
    requires PartsDone(bits, vs, universe, cuts, params, p, ends) && p < |cuts| && bits <= after
    requires HoldsPart(after, |bits|, vs, universe, cuts, params, p)
    ensures PartsDone(after, vs, universe, cuts, params, p + 1, ends + [|after|])
  {
    hide IndexedSequence.Holds, Part, PartUniverse, Input;
    var more := after[|bits|..];
    assert after == bits + more;
    forall q: nat | q < p + 1 ensures HoldsPart(after, StartOf(ends + [|after|], q), vs, universe, cuts, params, q) {
      if q < p {
        assert HoldsPart(bits, StartOf(ends, q), vs, universe, cuts, params, q);
        IndexedSequence.HoldsExtended(bits, more, StartOf(ends, q), PartUniverse(vs, universe, cuts, q),
          |Part(vs, universe, cuts, q)|, params, Part(vs, universe, cuts, q));
      }
    }
  }

  lemma NoParts(vs: seq<nat>, universe: nat, cuts: seq<nat>, params: Params)
    requires Input(vs, universe, cuts)
    ensures PartsDone([], vs, universe, cuts, params, 0, []) && vs != [] && UpperBounds(vs, universe, cuts)[..1] == [vs[0]]
  {
    BoundsFit(vs, universe, cuts);
  }

  lemma OneBoundMore(vs: seq<nat>, universe: nat, cuts: seq<nat>, p: nat)
    requires Input(vs, universe, cuts) && p < |cuts|
    ensures UpperBounds(vs, universe, cuts)[..p + 2] == UpperBounds(vs, universe, cuts)[..p + 1] + [Upper(vs, universe, cuts, p)]
  {
    BoundsFit(vs, universe, cuts);
  }

  lemma PartMayBeWritten(vs: seq<nat>, universe: nat, cuts: seq<nat>, params: Params, p: nat)
    requires Input(vs, universe, cuts) && SizesOk(vs, universe, cuts, params) && p < |cuts|
    ensures var part := Part(vs, universe, cuts, p);
            && part != [] && part[|part| - 1] + 1 == PartUniverse(vs, universe, cuts, p)
            && IndexedSequence.Fits(PartUniverse(vs, universe, cuts, p), |part|, part)
            && IndexedSequence.SizeOk(params, PartUniverse(vs, universe, cuts, p), |part|)
  {
    hide IndexedSequence.SizeOk;
    assert SizeOk(vs, universe, cuts, params, p);
    LastEntry(vs, universe, cuts, p);
    PartFits(vs, universe, cuts, p);
  }

  /** All parts, each based just past the upper bound of the one before. */
  method WriteParts(vs: seq<nat>, ghost universe: nat, cuts: seq<nat>, params: Params)
    returns (sequences: BitVectorBuilder, ends: seq<nat>, upperBounds: seq<nat>)
    requires Input(vs, universe, cuts) && SizesOk(vs, universe, cuts, params)
    ensures fresh(sequences) && PartsDone(sequences.bits, vs, universe, cuts, params, |cuts|, ends)
    ensures upperBounds == UpperBounds(vs, universe, cuts)
  {
    hide IndexedSequence.Holds, IndexedSequence.SizeOk, Part, PartUniverse, Upper, Base, Increasing, Below;
    hide IndexedSequence.BitSize, IndexedSequence.EliasFanoSize, IndexedSequence.RankedSize, PartsDone, UpperBounds, SizeOk;
    LastOfPart(vs, universe, cuts, 0);
    NoParts(vs, universe, cuts, params);
    sequences := new BitVectorBuilder();
    ends := [];
    var curBase := vs[0];
    upperBounds := [curBase];
    for p := 0 to |cuts|
      invariant fresh(sequences) && PartsDone(sequences.bits, vs, universe, cuts, params, p, ends)
      invariant p < |cuts| ==> curBase == Base(vs, universe, cuts, p)
      invariant upperBounds == UpperBounds(vs, universe, cuts)[..p + 1]
    {
      var part, upperBound := CutPart(vs, universe, cuts, p, curBase);
      PartMayBeWritten(vs, universe, cuts, params, p);
      LastOfPart(vs, universe, cuts, p);
      ghost var before := sequences.bits;
      IndexedSequence.Write(sequences, part, part[|part| - 1] + 1, |part|, params);
      PartsStep(before, sequences.bits, vs, universe, cuts, params, p, ends);
      ends := ends + [|sequences.bits|];
      upperBounds := upperBounds + [upperBound];
      OneBoundMore(vs, universe, cuts, p);
      curBase := upperBound + 1;
    }
  }

  /** The endpoints of all parts but the last, in fixed width. */
  method WriteEndpoints(builder: BitVectorBuilder, endpoints: seq<nat>, width: nat)
    requires forall i :: 0 <= i < |endpoints| ==> endpoints[i] < Pow2(width)
    modifies builder
    ensures old(builder.bits) <= builder.bits && |builder.bits| == |old(builder.bits)| + width * |endpoints|
    ensures forall p: nat :: p <= |endpoints| ==> EndpointAt(builder.bits, |old(builder.bits)|, width, endpoints, p)
  {
    hide PointerAt, Pow2, Binary;
    ghost var at := |builder.bits|;
    for p := 0 to |endpoints|
      invariant old(builder.bits) <= builder.bits && |builder.bits| == at + p * width
      invariant forall q: nat :: q <= p ==> EndpointAt(builder.bits, at, width, endpoints, q)
    {
      ghost var before := builder.bits;
      builder.AppendBits(endpoints[p], width);
      NextEndpoint(before, at, width, endpoints, p);
    }
  }

  lemma NextEndpoint(bits: seq<bool>, at: nat, width: nat, endpoints: seq<nat>, p: nat)
    requires p < |endpoints| && endpoints[p] < Pow2(width) && |bits| == at + p * width
    requires forall q: nat :: q <= p ==> EndpointAt(bits, at, width, endpoints, q)
    ensures var after := bits + Binary(endpoints[p], width);
            |after| == at + (p + 1) * width
            && forall q: nat :: q <= p + 1 ==> EndpointAt(after, at, width, endpoints, q)
  {
    var after := bits + Binary(endpoints[p], width);
    FieldOfBinary(bits, endpoints[p], width, []);
    assert after + [] == after;
    assert PointerAt(after, at, width, p + 1, endpoints[p]);
    hide Pow2, Binary;
    forall q: nat | q <= p ensures EndpointAt(after, at, width, endpoints, q) {
      EndpointStays(bits, after, at, width, endpoints, p, q);
    }
  }

  /** An Elias-Fano sequence built apart and appended stands where it was appended. */
  lemma Placed(front: seq<bool>, piece: seq<bool>, rest: seq<bool>, universe: nat, xs: seq<nat>, params: EliasFano.Params)
    requires xs != [] && EliasFano.Encodes(piece, EliasFano.MakeOffsets(0, universe, |xs|, params), xs)
    ensures EliasFano.Encodes(front + piece + rest, EliasFano.MakeOffsets(|front|, universe, |xs|, params), xs)
  {
    hide EliasFano.Encodes, EliasFano.MakeOffsets;
    EliasFano.EncodesShift(front, piece, EliasFano.MakeOffsets(0, universe, |xs|, params), xs);
    EliasFano.ShiftedOffsets(0, |front|, universe, |xs|, params);
    var of := EliasFano.MakeOffsets(|front|, universe, |xs|, params);
    EliasFano.EncodesFits(front + piece, of, xs);
    EliasFano.EncodesAnywhere(front + piece, front + piece + rest, of, xs);
  }

  /** Several parts: their number, the width of endpoints, the two tables, the endpoints and
      the parts themselves. */
  method WriteMany(builder: BitVectorBuilder, vs: seq<nat>, universe: nat, cuts: seq<nat>, params: Params)
    returns (ghost at: Places, ghost endpoints: seq<nat>)
    requires Input(vs, universe, cuts) && |cuts| > 1 && SizesOk(vs, universe, cuts, params)
    modifies builder
    ensures old(builder.bits) <= builder.bits
    ensures StoresMany(builder.bits, |old(builder.bits)|, universe, vs, cuts, params, at, endpoints)
  {
    hide GammaAt, PartsDone, EndpointAt, EliasFano.Encodes, EliasFano.MakeOffsets, UpperBounds, Input, SizesOk, CeilLog2, Pow2,
      StoresMany, Sorted, Below, Increasing;
    var k := |cuts| - 1;
    ghost var b0 := builder.bits;
    WriteGamma(builder, k);
    ghost var b1 := builder.bits;
    var sequences, ends, upperBounds := WriteParts(vs, universe, cuts, params);
    TablesFit(vs, universe, cuts);
    var sizes := new BitVectorBuilder();
    var written := EliasFano.Write(sizes, cuts[..k], |vs|, params.ef);
    var bounds := new BitVectorBuilder();
    written := EliasFano.Write(bounds, upperBounds, universe, params.ef);
    var endpointBits := CeilLog2(|sequences.bits| + 1);
    EndsFit(sequences.bits, vs, universe, cuts, params, ends);
    WriteGamma(builder, endpointBits);
    ghost var b2 := builder.bits;
    builder.Append(sizes);
    builder.Append(bounds);
    ghost var b3 := builder.bits;
    WriteEndpoints(builder, ends[..k], endpointBits);
    ghost var b4 := builder.bits;
    builder.Append(sequences);
    endpoints := ends[..k];
    at := Places(|b1|, endpointBits, |b2|, |b2| + |sizes.bits|, |b3|, |b4|);
    ManyStored(b0, b1, b2, sizes.bits, bounds.bits, b3, b4, sequences.bits, universe, vs, cuts, params, ends, endpoints,
      endpointBits);
  }

  lemma TablesFit(vs: seq<nat>, universe: nat, cuts: seq<nat>)
    requires Input(vs, universe, cuts) && |cuts| > 1
    ensures Sorted(cuts[..|cuts| - 1]) && Below(cuts[..|cuts| - 1], |vs|)
    ensures Sorted(UpperBounds(vs, universe, cuts)) && Below(UpperBounds(vs, universe, cuts), universe)
  {
    hide UpperBounds;
    SizesFit(cuts, |vs|);
    BoundsFit(vs, universe, cuts);
  }

  lemma EndsFit(bits: seq<bool>, vs: seq<nat>, universe: nat, cuts: seq<nat>, params: Params, ends: seq<nat>)
    requires PartsDone(bits, vs, universe, cuts, params, |cuts|, ends)
    ensures |ends| == |cuts| && forall i :: 0 <= i < |ends| ==> ends[i] < Pow2(CeilLog2(|bits| + 1))
  {
    hide HoldsPart, Pow2, CeilLog2;
    CeilLog2Fits(|bits| + 1);
  }

  lemma ManyStored(
    b0: seq<bool>, b1: seq<bool>, b2: seq<bool>, sizes: seq<bool>, bounds: seq<bool>, b3: seq<bool>, b4: seq<bool>,
    parts: seq<bool>, universe: nat, vs: seq<nat>, cuts: seq<nat>, params: Params, ends: seq<nat>, endpoints: seq<nat>,
    width: nat)
    requires Input(vs, universe, cuts) && |cuts| > 1
    requires GammaAt(b1, |b0|, |cuts| - 1, |b1|) && GammaAt(b2, |b1|, width, |b2|) && b1 <= b2
    requires var of := EliasFano.MakeOffsets(0, |vs|, |cuts| - 1, params.ef);
             EliasFano.Encodes(sizes, of, cuts[..|cuts| - 1]) && |sizes| == of.end
    requires var of := EliasFano.MakeOffsets(0, universe, |cuts| + 1, params.ef);
             EliasFano.Encodes(bounds, of, UpperBounds(vs, universe, cuts)) && |bounds| == of.end
    requires b3 == b2 + sizes + bounds && b3 <= b4 && |b4| == |b3| + width * (|cuts| - 1)
    requires |ends| == |cuts| && endpoints == ends[..|cuts| - 1]
    requires forall p: nat :: p <= |endpoints| ==> EndpointAt(b4, |b3|, width, endpoints, p)
    requires PartsDone(parts, vs, universe, cuts, params, |cuts|, ends)
    ensures StoresMany(
              b4 + parts, |b0|, universe, vs, cuts, params,
              Places(|b1|, width, |b2|, |b2| + |sizes|, |b3|, |b4|), endpoints)
  {
    hide GammaAt, EliasFano.Encodes, EliasFano.MakeOffsets, UpperBounds, HoldsPart, EndpointAt, Input, PointerAt;
    var bits := b4 + parts;
    GammaStays(b1, bits, |b0|, |cuts| - 1, |b1|);
    GammaStays(b2, bits, |b1|, width, |b2|);
    var rest := bits[|b3|..];
    assert bits == b2 + sizes + (bounds + rest);
    assert bits == (b2 + sizes) + bounds + rest;
    Placed(b2, sizes, bounds + rest, |vs|, cuts[..|cuts| - 1], params.ef);
    Placed(b2 + sizes, bounds, rest, universe, UpperBounds(vs, universe, cuts), params.ef);
    OffsetsEnd(|b2|, |vs|, |cuts| - 1, params.ef);
    OffsetsEnd(|b2 + sizes|, universe, |cuts| + 1, params.ef);
    forall p: nat | p < |cuts| ensures EndpointAt(bits, |b3|, width, endpoints, p) {
      EndpointStays(b4, bits, |b3|, width, endpoints, |endpoints|, p);
    }
    forall p: nat | p < |cuts| ensures HoldsPart(bits, |b4| + StartOf(endpoints, p), vs, universe, cuts, params, p) {
      PartPlaced(b4, parts, vs, universe, cuts, params, ends, p);
    }
  }

  lemma OffsetsEnd(base: nat, universe: nat, n: nat, params: EliasFano.Params)
    requires n > 0
    ensures EliasFano.MakeOffsets(base, universe, n, params).end == base + EliasFano.MakeOffsets(0, universe, n, params).end
  {
    hide EliasFano.MakeOffsets;
    EliasFano.ShiftedOffsets(0, base, universe, n, params);
  }

  lemma EndpointStays(a: seq<bool>, b: seq<bool>, at: nat, width: nat, endpoints: seq<nat>, k: nat, p: nat)
    requires EndpointAt(a, at, width, endpoints, p) && p <= k && SameOn(a, b, at, at + width * k)
    ensures EndpointAt(b, at, width, endpoints, p)
  {
    assert width * k == k * width;
    if p > 0 {
      PointerKeep(a, b, at, width, k, p, endpoints[p - 1]);
    }
  }

  lemma PartPlaced(
    front: seq<bool>, parts: seq<bool>, vs: seq<nat>, universe: nat, cuts: seq<nat>, params: Params, ends: seq<nat>, p: nat)
    requires PartsDone(parts, vs, universe, cuts, params, |cuts|, ends) && p < |cuts|
    ensures HoldsPart(front + parts, |front| + StartOf(ends[..|cuts| - 1], p), vs, universe, cuts, params, p)
  {
    hide IndexedSequence.Holds, Part, PartUniverse, Input;
    assert HoldsPart(parts, StartOf(ends, p), vs, universe, cuts, params, p);
    assert StartOf(ends[..|cuts| - 1], p) == StartOf(ends, p);
    IndexedSequence.HoldsShift(front, parts, StartOf(ends, p), PartUniverse(vs, universe, cuts, p),
      |Part(vs, universe, cuts, p)|, params, Part(vs, universe, cuts, p));
  }

  /** Appends a sequence cut at the given endpoints. */
  method Write(builder: BitVectorBuilder, vs: seq<nat>, universe: nat, cuts: seq<nat>, params: Params)
    returns (ghost at: Places, ghost endpoints: seq<nat>)
    requires Input(vs, universe, cuts) && vs != [] && SizesOk(vs, universe, cuts, params)
    modifies builder
    ensures old(builder.bits) <= builder.bits
    ensures if |cuts| > 1 then StoresMany(builder.bits, |old(builder.bits)|, universe, vs, cuts, params, at, endpoints)
            else cuts == [|vs|] && StoresOne(builder.bits, |old(builder.bits)|, universe, vs, params, at.header, at.sequencesAt)
  {
    hide StoresMany, StoresOne, SizesOk;
    if |cuts| == 1 {
      assert cuts == [|vs|];
      ghost var header, sequenceAt := WriteSingle(builder, vs, universe, params);
      at, endpoints := Places(header, 0, 0, 0, 0, sequenceAt), [];
    } else {
      at, endpoints := WriteMany(builder, vs, universe, cuts, params);
    }
  }

  /* ----- The enumerator ----- */

  class Enumerator {
    const bits: seq<bool>
    const params: Params
    const n: nat
    const universe: nat
    const partitions: nat
    const endpointBits: nat
    const endpointsAt: nat
    const sequencesAt: nat
    const sizes: EliasFano.Enumerator?
    const bounds: EliasFano.Enumerator?
    ghost const vs: seq<nat>
    ghost const cuts: seq<nat>
    ghost const endpoints: seq<nat>
    var position: nat
    var curPartition: nat
    var curBegin: nat
    var curEnd: nat
    var curBase: nat
    var curUpperBound: nat
    var part: IndexedSequence.Enumerator

    ghost predicate Opened() {
      && Input(vs, universe, cuts) && n == |vs| && partitions == |cuts|
      && (partitions > 1 ==>
            && |endpoints| == partitions - 1
            && (forall p: nat :: p < partitions ==> EndpointAt(bits, endpointsAt, endpointBits, endpoints, p))
            && (forall p: nat :: p < partitions ==>
                  HoldsPart(bits, sequencesAt + StartOf(endpoints, p), vs, universe, cuts, params, p)))
    }

    /** The two Elias-Fano enumerators, wherever they stand. */
    ghost predicate Tables()
      reads sizes, bounds
    {
      && Opened()
      && (partitions > 1 ==>
            && sizes != null && bounds != null && sizes != bounds
            && sizes.Valid() && sizes.of.universe == n && sizes.vs == cuts[..partitions - 1]
            && bounds.Valid() && bounds.of.universe == universe && bounds.vs == UpperBounds(vs, universe, cuts))
    }

    /** The enumerator of the current part, wherever it stands. */
    ghost predicate InPart()
      reads this, part, part.ef, part.rb
    {
      && Opened() && curPartition < partitions
      && curBegin == Begin(cuts, curPartition) && curEnd == cuts[curPartition]
      && curBase == Base(vs, universe, cuts, curPartition) && curUpperBound == Upper(vs, universe, cuts, curPartition)
      && part.Valid() && part.vs == Part(vs, universe, cuts, curPartition)
      && part.universe == PartUniverse(vs, universe, cuts, curPartition)
    }

    /** The current part's enumerator is not one of the tables'. */
    ghost predicate Separate()
      reads this, part
    {
      part.ef != null ==> part.ef != sizes && part.ef != bounds
    }

    ghost predicate Valid()
      reads this, part, part.ef, part.rb, sizes, bounds
    {
      && Tables() && InPart() && Separate()
      && position == curBegin + part.position
      && (position < curEnd || (position == n && curPartition == partitions - 1))
    }

    /** The value at the current position. */
    function Value(): nat
      reads this, part
    {
      if position == n then universe else curBase + part.value
    }

    lemma ValueIs()
      requires Valid()
      ensures Value() == ValueAt(universe, vs, position)
    {
      PartWithin(vs, universe, cuts, curPartition);
      if position < n {
        PartAt(vs, universe, cuts, curPartition, part.position);
      }
    }

    constructor Single(
      bits: seq<bool>, universe: nat, n: nat, params: Params, base: nat, upper: nat, part: IndexedSequence.Enumerator,
      ghost vs: seq<nat>)
      requires Input(vs, universe, [n]) && n == |vs| && base == Base(vs, universe, [n], 0) && upper == Upper(vs, universe, [n], 0)
      requires part.Valid() && part.vs == Part(vs, universe, [n], 0) && part.universe == PartUniverse(vs, universe, [n], 0)
      requires part.position == n
      ensures Valid() && position == n && this.vs == vs && this.universe == universe && this.cuts == [n]
    {
      hide Base, Upper, Part, PartUniverse, Increasing, Below;
      this.bits, this.params, this.n, this.universe, this.vs := bits, params, n, universe, vs;
      cuts, endpoints, partitions := [n], [], 1;
      endpointBits, endpointsAt, sequencesAt, sizes, bounds := 0, 0, 0, null, null;
      position, curPartition, curBegin, curEnd, curBase, curUpperBound := n, 0, 0, n, base, upper;
      this.part := part;
    }

    constructor Many(
      bits: seq<bool>, universe: nat, n: nat, params: Params, k: nat, endpointBits: nat, endpointsAt: nat, sequencesAt: nat,
      sizes: EliasFano.Enumerator, bounds: EliasFano.Enumerator, begin: nat, base: nat, upper: nat,
      part: IndexedSequence.Enumerator, ghost vs: seq<nat>, ghost cuts: seq<nat>, ghost endpoints: seq<nat>)
      requires Input(vs, universe, cuts) && n == |vs| && |cuts| == k + 1 > 1 && |endpoints| == k
      requires forall p: nat :: p < |cuts| ==> EndpointAt(bits, endpointsAt, endpointBits, endpoints, p)
      requires forall p: nat :: p < |cuts| ==>
                 HoldsPart(bits, sequencesAt + StartOf(endpoints, p), vs, universe, cuts, params, p)
      requires sizes != bounds && sizes.Valid() && bounds.Valid()
      requires sizes.of.universe == n && sizes.vs == cuts[..k]
      requires bounds.of.universe == universe && bounds.vs == UpperBounds(vs, universe, cuts)
      requires begin == Begin(cuts, k) && base == Base(vs, universe, cuts, k) && upper == Upper(vs, universe, cuts, k)
      requires part.Valid() && part.vs == Part(vs, universe, cuts, k) && part.universe == PartUniverse(vs, universe, cuts, k)
      requires begin + part.position == n && part.ef != sizes && part.ef != bounds
      ensures Valid() && position == n && this.vs == vs && this.universe == universe && this.cuts == cuts
    {
      hide Base, Upper, Part, PartUniverse, Increasing, Below, EndpointAt, HoldsPart, UpperBounds, EliasFano.Encodes;
      this.bits, this.params, this.n, this.universe, this.vs := bits, params, n, universe, vs;
      this.cuts, this.endpoints, partitions := cuts, endpoints, k + 1;
      this.endpointBits, this.endpointsAt, this.sequencesAt := endpointBits, endpointsAt, sequencesAt;
      this.sizes, this.bounds := sizes, bounds;
      position, curPartition, curBegin, curEnd, curBase, curUpperBound := n, k, begin, n, base, upper;
      this.part := part;
    }

    /** Makes part p the current one; its enumerator starts at the end of the part. */
    method SwitchPartition(p: nat)
      requires Tables() && partitions > 1 && p < partitions
      modifies this, sizes, bounds
      ensures Tables() && InPart() && Separate() && curPartition == p && position == old(position)
      ensures fresh(part) && (part.ef != null ==> fresh(part.ef)) && (part.rb != null ==> fresh(part.rb))
      ensures part.position == part.n
    {
      hide IndexedSequence.Holds, EliasFano.Encodes, Increasing, Part, Base, Upper, PartUniverse, UpperBounds, Below, EndpointAt;
      PartFits(vs, universe, cuts, p);
      assert HoldsPart(bits, sequencesAt + StartOf(endpoints, p), vs, universe, cuts, params, p);
      var start, begin, end, base, upper := Locate(bits, sizes, bounds, p, endpointsAt, endpointBits, n, vs, universe, cuts, endpoints);
      var e := new IndexedSequence.Enumerator(
        bits, sequencesAt + start, upper - base + 1, end - begin, params, Part(vs, universe, cuts, p));
      curPartition, curBegin, curEnd, curBase, curUpperBound, part := p, begin, end, base, upper, e;
    }

    method Move(target: nat)
      requires Valid() && target <= n
      modifies this, part, part.ef, part.rb, sizes, bounds
      ensures Valid() && position == target
      ensures part == old(part) || (fresh(part) && (part.ef != null ==> fresh(part.ef)) && (part.rb != null ==> fresh(part.rb)))
    {
      hide EliasFano.Encodes, Part, Base, Upper, PartUniverse, UpperBounds, Input, HoldsPart, EndpointAt, IndexedSequence.Fits;
      PartSize();
      position := target;
      if curBegin <= target < curEnd {
        part.Move(target - curBegin);
      } else {
        SlowMove();
      }
    }

    lemma PartSize()
      requires InPart()
      ensures part.n == curEnd - curBegin && curBegin < curEnd <= n
      ensures curEnd == n <==> curPartition == partitions - 1
    {
      PartWithin(vs, universe, cuts, curPartition);
    }

    /** To a position outside the current part, or to the end. */
    method SlowMove()
      requires Tables() && InPart() && Separate() && position <= n && !(curBegin <= position < curEnd)
      modifies this, part, part.ef, part.rb, sizes, bounds
      ensures Valid() && position == old(position)
      ensures part == old(part) || (fresh(part) && (part.ef != null ==> fresh(part.ef)) && (part.rb != null ==> fresh(part.rb)))
    {
      hide EliasFano.Encodes, Part, Base, Upper, PartUniverse, UpperBounds, Input, HoldsPart, EndpointAt, IndexedSequence.Fits;
      PartSize();
      if position == n {
        if partitions > 1 {
          SwitchPartition(partitions - 1);
          PartSize();
        }
        part.Move(part.n);
      } else {
        Several();
        FindPart();
      }
    }

    lemma Several()
      requires InPart() && position < n && !(curBegin <= position < curEnd)
      ensures partitions > 1
    {
      PartWithin(vs, universe, cuts, curPartition);
    }

    /** Switches to the part whose endpoint is the first past the position. */
    method FindPart()
      requires Tables() && partitions > 1 && position < n
      modifies this, sizes, bounds
      ensures Valid() && position == old(position)
      ensures fresh(part) && (part.ef != null ==> fresh(part.ef)) && (part.rb != null ==> fresh(part.rb))
    {
      hide EliasFano.Encodes, Part, Base, Upper, PartUniverse, UpperBounds, HoldsPart, EndpointAt, IndexedSequence.Fits;
      ghost var before := sizes.position;
      FirstPast(cuts, n, before);
      sizes.NextGeq(position + 1);
      EndpointsAround(cuts, n, sizes.position, position);
      SwitchPartition(sizes.position);
      PartSize();
      part.Move(position - curBegin);
    }

    /** The part of an index is the current one's. */
    method Next()
      requires Valid() && position < n
      modifies this, part, part.ef, part.rb, sizes, bounds
      ensures Valid() && position == old(position) + 1
    {
      hide EliasFano.Encodes, Part, Base, Upper, PartUniverse, UpperBounds, Input, HoldsPart, EndpointAt, IndexedSequence.Fits;
      PartSize();
      position := position + 1;
      if position < curEnd || position == n {
        part.Next();
      } else {
        SlowNext();
      }
    }

    /** To the first value of the following part. */
    method SlowNext()
      requires Tables() && InPart() && position == curEnd < n
      modifies this, sizes, bounds
      ensures Valid() && position == old(position)
    {
      hide EliasFano.Encodes, Part, Base, Upper, PartUniverse, UpperBounds, Input, HoldsPart, EndpointAt, IndexedSequence.Fits;
      Following();
      SwitchPartition(curPartition + 1);
      PartSize();
      part.Move(0);
    }

    lemma Following()
      requires InPart() && position == curEnd < n
      ensures partitions > 1 && curPartition + 1 < partitions && Begin(cuts, curPartition + 1) == curEnd
    {
      PartWithin(vs, universe, cuts, curPartition);
    }

    /** Moves to the least value at or above the bound. */
    method NextGeq(bound: nat)
      requires Valid()
      modifies this, part, part.ef, part.rb, sizes, bounds
      ensures Valid() && Least(vs, bound, position)
    {
      hide EliasFano.Encodes, Part, Base, Upper, PartUniverse, UpperBounds, Input, HoldsPart, EndpointAt, IndexedSequence.Fits;
      if curBase <= bound <= curUpperBound {
        GeqInPart(bound);
      } else {
        SlowNextGeq(bound);
      }
    }

    /** Within the current part. */
    method GeqInPart(bound: nat)
      requires Tables() && InPart() && Separate() && curBase <= bound <= curUpperBound
      modifies this`position, part, part.ef, part.rb
      ensures Valid() && Least(vs, bound, position)
    {
      hide EliasFano.Encodes, Part, Base, Upper, PartUniverse, UpperBounds, HoldsPart, EndpointAt, IndexedSequence.Fits,
        Increasing, Below;
      PartFits(vs, universe, cuts, curPartition);
      PartSize();
      part.NextGeq(bound - curBase);
      LeastInPart(vs, universe, cuts, curPartition, bound, part.position);
      position := curBegin + part.position;
    }

    /** Outside the current part: finds the part whose last value is the first to reach the bound. */
    method SlowNextGeq(bound: nat)
      requires Valid() && !(curBase <= bound <= curUpperBound)
      modifies this, part, part.ef, part.rb, sizes, bounds
      ensures Valid() && Least(vs, bound, position)
    {
      hide EliasFano.Encodes, Part, Base, Upper, PartUniverse, UpperBounds, HoldsPart, EndpointAt, IndexedSequence.Fits,
        Increasing, Below;
      EdgesAreLeast(vs, universe, cuts, bound);
      if partitions == 1 {
        OnlyPart();
        if bound < curBase {
          Move(0);
        } else {
          Move(n);
        }
        return;
      }
      BoundsAround(vs, universe, cuts, bound, bounds.position);
      bounds.NextGeq(bound);
      BoundsAround(vs, universe, cuts, bound, bounds.position);
      if bounds.position == 0 {
        Move(0);
      } else if bounds.position == partitions + 1 {
        Move(n);
      } else {
        SwitchPartition(bounds.position - 1);
        GeqInPart(bound);
      }
    }

    lemma OnlyPart()
      requires InPart() && partitions == 1
      ensures curBase == vs[0] && curUpperBound == vs[n - 1]
    {
      PartWithin(vs, universe, cuts, 0);
    }

    /** The value before the current one; 0 before the first. */
    method PrevValue() returns (prev: nat)
      requires Valid()
      ensures prev == if position == 0 then 0 else vs[position - 1]
    {
      hide EliasFano.Encodes, Part, Base, Upper, PartUniverse, UpperBounds, Input, HoldsPart, EndpointAt, IndexedSequence.Fits;
      PreviousIs();
      if position == curBegin {
        return if curPartition != 0 then curBase - 1 else 0;
      }
      var p := part.PrevValue();
      prev := curBase + p;
    }

    lemma PreviousIs()
      requires Valid()
      ensures curPartition == 0 <==> curBegin == 0
      ensures curPartition != 0 ==> curBase > 0 && vs[curBegin - 1] == curBase - 1
      ensures position > curBegin ==> vs[position - 1] == curBase + part.vs[part.position - 1]
    {
      hide EliasFano.Encodes, Part, UpperBounds, HoldsPart, EndpointAt, Increasing, Below;
      PartWithin(vs, universe, cuts, curPartition);
      if curPartition > 0 {
        PartWithin(vs, universe, cuts, curPartition - 1);
      }
      if position > curBegin {
        PartAt(vs, universe, cuts, curPartition, part.position - 1);
      }
    }
  }

  /* ----- The last entry of a single part, which the reader keeps in an `int` ----- */

  const INT_LIMIT: int := 0x8000_0000
  const LONG: int := 0x1_0000_0000_0000_0000

  /** A number cut down to a signed 32-bit one. */
  function ToInt(x: int): (i: int)
    ensures -INT_LIMIT <= i < INT_LIMIT
  {
    (x + INT_LIMIT) % (2 * INT_LIMIT) - INT_LIMIT
  }

  /** A signed number as a 64-bit unsigned one. */
  function ToLong(i: int): (x: nat)
    requires -LONG <= i < LONG
  {
    if i < 0 then i + LONG else i
  }

  /** The universe the reader gives the part, and the upper bound it keeps, for an `int` that
      was given the last entry. */
  function SeenUniverse(ub: int): nat { ToLong(ToInt(ub + 1)) }

  function SeenUpper(base: nat, ub: int): nat
    requires -INT_LIMIT <= ub < INT_LIMIT
  {
    if base + ub < 0 then base + ub + LONG else base + ub
  }

  /** Last entries the `int` and its successor can hold, or that sign extension restores. */
  predicate LastFits(base: nat, last: nat) {
    last + 1 < INT_LIMIT || (LONG - INT_LIMIT <= last && base + last + 1 < LONG)
  }

  /** The reader sees the part as it was written exactly when the last entry fits. */
  lemma LastKeptIff(base: nat, last: nat)
    requires base + last + 1 < LONG
    ensures SeenUniverse(ToInt(last)) == last + 1 && SeenUpper(base, ToInt(last)) == base + last
            <==> LastFits(base, last)
  {
    var ub := ToInt(last);
    IntIs(last);
    IntIs(ub + 1);
  }

  lemma LastKept(base: nat, last: nat)
    requires LastFits(base, last)
    ensures SeenUniverse(ToInt(last)) == last + 1 && SeenUpper(base, ToInt(last)) == base + last
  {
    IntIs(last);
    IntIs(ToInt(last) + 1);
  }

  /** Cutting keeps small numbers, and takes 2^64 off the largest. */
  lemma IntIs(x: int)
    ensures -INT_LIMIT <= x < INT_LIMIT ==> ToInt(x) == x
    ensures LONG - INT_LIMIT <= x < LONG ==> ToInt(x) == x - LONG
    ensures x == INT_LIMIT ==> ToInt(x) == -INT_LIMIT
  {
    if LONG - INT_LIMIT <= x < LONG {
      assert x + INT_LIMIT == (x + INT_LIMIT - LONG) + 2 * INT_LIMIT * (2 * INT_LIMIT);
    }
  }

  /** A single part can be read back: it has one value, or a last entry that fits. */
  ghost predicate SingleFits(vs: seq<nat>) {
    |vs| > 1 && vs[0] <= vs[|vs| - 1] ==> LastFits(vs[0], vs[|vs| - 1] - vs[0])
  }

  /** What the reader makes of a single part is what was written if and only if it fits. */
  lemma SingleSeenIff(vs: seq<nat>, universe: nat)
    requires Input(vs, universe, [|vs|]) && |vs| > 1 && universe < LONG
    ensures vs[0] <= vs[|vs| - 1] && |[|vs|]| == 1
    ensures var ub := ToInt(vs[|vs| - 1] - vs[0]);
            SeenUniverse(ub) == PartUniverse(vs, universe, [|vs|], 0) && SeenUpper(vs[0], ub) == Upper(vs, universe, [|vs|], 0)
            <==> SingleFits(vs)
  {
    PartFits(vs, universe, [|vs|], 0);
    LastKeptIff(vs[0], vs[|vs| - 1] - vs[0]);
  }

  /** The first last entries that go wrong: one that cuts to a negative number, and before it
      one that only its successor does. */
  lemma LargeLastIsLost()
    ensures Input([0, 0x8000_0000], 0x8000_0001, [2]) && !SingleFits([0, 0x8000_0000])
    ensures ToInt(0x8000_0000) == -0x8000_0000 && SeenUniverse(ToInt(0x8000_0000)) != 0x8000_0001
    ensures Input([0, 0x7FFF_FFFF], 0x8000_0000, [2]) && !SingleFits([0, 0x7FFF_FFFF])
    ensures ToInt(0x7FFF_FFFF) == 0x7FFF_FFFF && SeenUniverse(ToInt(0x7FFF_FFFF)) == LONG - 0x8000_0000
    ensures SingleFits([0, 0x7FFF_FFFE])
  {
  }

  /** Opens what was written and goes to the end. */
  method Open(
    bits: seq<bool>, offset: nat, universe: nat, n: nat, params: Params, ghost vs: seq<nat>, ghost cuts: seq<nat>,
    ghost at: Places, ghost endpoints: seq<nat>)
    returns (e: Enumerator)
    requires n == |vs| > 0
    requires if |cuts| > 1 then StoresMany(bits, offset, universe, vs, cuts, params, at, endpoints)
             else cuts == [n] && StoresOne(bits, offset, universe, vs, params, at.header, at.sequencesAt) && SingleFits(vs)
    ensures e.Valid() && e.position == n && e.vs == vs && e.universe == universe && e.cuts == cuts
  {
    hide StoresMany, StoresOne, GammaAt, EliasFano.MakeOffsets, Enumerator.Valid, IndexedSequence.Holds;
    ghost var count: nat := |cuts| - 1;
    HeaderOf(bits, offset, universe, vs, cuts, params, at, endpoints);
    var k, header := ReadGamma(bits, offset, count, at.header);
    if k == 0 {
      e := OpenSingle(bits, offset, universe, n, params, header, vs, at.sequencesAt);
    } else {
      e := OpenMany(bits, offset, universe, n, params, header, k, vs, cuts, at, endpoints);
    }
  }

  lemma HeaderOf(
    bits: seq<bool>, offset: nat, universe: nat, vs: seq<nat>, cuts: seq<nat>, params: Params, at: Places,
    endpoints: seq<nat>)
    requires if |cuts| > 1 then StoresMany(bits, offset, universe, vs, cuts, params, at, endpoints)
             else cuts == [|vs|] && StoresOne(bits, offset, universe, vs, params, at.header, at.sequencesAt)
    ensures cuts != [] && GammaAt(bits, offset, |cuts| - 1, at.header)
  {
  }

  method OpenSingle(
    bits: seq<bool>, ghost offset: nat, universe: nat, n: nat, params: Params, header: nat, ghost vs: seq<nat>,
    ghost sequenceAt: nat)
    returns (e: Enumerator)
    requires n == |vs| > 0 && StoresOne(bits, offset, universe, vs, params, header, sequenceAt) && SingleFits(vs)
    ensures e.Valid() && e.position == n && e.vs == vs && e.universe == universe && e.cuts == [n]
  {
    hide IndexedSequence.Holds, GammaAt, DeltaAt, Increasing, Part, Base, Upper, PartUniverse, Field, Below, StoresOne,
      Enumerator.Valid;
    var base, ub, at := ReadSingle(bits, universe, n, header, vs, params, offset, sequenceAt);
    SingleFacts(bits, offset, universe, vs, params, header, sequenceAt);
    SeenAsWritten(vs, base, ub);
    var part := new IndexedSequence.Enumerator(bits, at, SeenUniverse(ub), n, params, Part(vs, universe, [n], 0));
    e := new Enumerator.Single(bits, universe, n, params, base, SeenUpper(base, ub), part, vs);
  }

  method OpenMany(
    bits: seq<bool>, ghost offset: nat, universe: nat, n: nat, params: Params, header: nat, k: nat, ghost vs: seq<nat>,
    ghost cuts: seq<nat>, ghost at: Places, ghost endpoints: seq<nat>)
    returns (e: Enumerator)
    requires n == |vs| && k + 1 == |cuts| && header == at.header
    requires StoresMany(bits, offset, universe, vs, cuts, params, at, endpoints)
    ensures e.Valid() && e.position == n && e.vs == vs && e.universe == universe && e.cuts == cuts
  {
    hide StoresMany, IndexedSequence.Holds, EliasFano.Encodes, EliasFano.MakeOffsets, GammaAt, Increasing, Part, Base, Upper,
      EndpointAt, PartUniverse, UpperBounds, Below, Enumerator.Valid;
    ManyFacts(bits, offset, universe, vs, cuts, params, at, endpoints);
    var endpointBits, sizesAt := ReadGamma(bits, header, at.endpointBits, at.sizesAt);
    var sizes := new EliasFano.Enumerator(bits, sizesAt, n, k, params.ef, cuts[..k]);
    var boundsAt := sizesAt + EliasFano.MakeOffsets(0, n, k, params.ef).end;
    var bounds := new EliasFano.Enumerator(bits, boundsAt, universe, k + 2, params.ef, UpperBounds(vs, universe, cuts));
    var endpointsAt := boundsAt + EliasFano.MakeOffsets(0, universe, k + 2, params.ef).end;
    var sequencesAt := endpointsAt + endpointBits * k;
    var start, begin, end, base, upper := Locate(bits, sizes, bounds, k, endpointsAt, endpointBits, n, vs, universe, cuts, endpoints);
    PartFits(vs, universe, cuts, k);
    var part := new IndexedSequence.Enumerator(
      bits, sequencesAt + start, upper - base + 1, end - begin, params, Part(vs, universe, cuts, k));
    e := new Enumerator.Many(
      bits, universe, n, params, k, endpointBits, endpointsAt, sequencesAt, sizes, bounds, begin, base, upper, part,
      vs, cuts, endpoints);
  }

  lemma SeenAsWritten(vs: seq<nat>, base: nat, ub: int)
    requires vs != [] && SingleFits(vs) && base == vs[0] <= vs[|vs| - 1] && ub == ToInt(vs[|vs| - 1] - vs[0])
    ensures SeenUniverse(ub) == vs[|vs| - 1] - vs[0] + 1 && SeenUpper(base, ub) == vs[|vs| - 1]
  {
    LastKept(base, vs[|vs| - 1] - vs[0]);
  }

  /** The header of a single part: its base, its last entry cut to an `int`, and where it is
      stored. */
  method ReadSingle(
    bits: seq<bool>, universe: nat, n: nat, header: nat, ghost vs: seq<nat>, ghost params: Params, ghost offset: nat,
    ghost sequenceAt: nat)
    returns (base: nat, ub: int, at: nat)
    requires n == |vs| > 0 && StoresOne(bits, offset, universe, vs, params, header, sequenceAt)
    ensures base == vs[0] <= vs[n - 1] && ub == ToInt(vs[n - 1] - vs[0]) && at == sequenceAt
  {
    hide GammaAt, DeltaAt, HoldsPart;
    SpanOf(vs, universe);
    base := Field(bits, header, CeilLog2(universe));
    at := header + CeilLog2(universe);
    ub := 0;
    if n > 1 {
      var delta;
      delta, at := ReadDelta(bits, at, UniverseCode(universe, vs), sequenceAt);
      ub := ToInt(if delta != 0 then delta else universe - base - 1);
    }
  }

  lemma SpanOf(vs: seq<nat>, universe: nat)
    requires Increasing(vs) && Below(vs, universe) && vs != []
    ensures |vs| > 1 ==> vs[0] < vs[|vs| - 1]
    ensures vs[|vs| - 1] < universe
  {
  }

  lemma SingleFacts(
    bits: seq<bool>, offset: nat, universe: nat, vs: seq<nat>, params: Params, header: nat, sequenceAt: nat)
    requires StoresOne(bits, offset, universe, vs, params, header, sequenceAt)
    ensures var cuts := [|vs|];
            Input(vs, universe, cuts) && Base(vs, universe, cuts, 0) == vs[0] && Upper(vs, universe, cuts, 0) == vs[|vs| - 1]
            && |Part(vs, universe, cuts, 0)| == |vs|
            && PartUniverse(vs, universe, cuts, 0) == vs[|vs| - 1] - vs[0] + 1
            && HoldsPart(bits, sequenceAt, vs, universe, cuts, params, 0)
  {
    hide GammaAt, DeltaAt, IndexedSequence.Holds, Field;
    PartFits(vs, universe, [|vs|], 0);
  }

  lemma ManyFacts(
    bits: seq<bool>, offset: nat, universe: nat, vs: seq<nat>, cuts: seq<nat>, params: Params, at: Places,
    endpoints: seq<nat>)
    requires StoresMany(bits, offset, universe, vs, cuts, params, at, endpoints)
    ensures Input(vs, universe, cuts) && |cuts| > 1 && |endpoints| == |cuts| - 1
    ensures GammaAt(bits, at.header, at.endpointBits, at.sizesAt)
    ensures EliasFano.Encodes(bits, EliasFano.MakeOffsets(at.sizesAt, |vs|, |cuts| - 1, params.ef), cuts[..|cuts| - 1])
    ensures EliasFano.Encodes(
              bits, EliasFano.MakeOffsets(at.boundsAt, universe, |cuts| + 1, params.ef), UpperBounds(vs, universe, cuts))
    ensures at.sequencesAt == at.endpointsAt + at.endpointBits * (|cuts| - 1)
    ensures forall p: nat :: p < |cuts| ==> EndpointAt(bits, at.endpointsAt, at.endpointBits, endpoints, p)
    ensures forall p: nat :: p < |cuts| ==>
              HoldsPart(bits, at.sequencesAt + StartOf(endpoints, p), vs, universe, cuts, params, p)
    ensures at.boundsAt == at.sizesAt + EliasFano.MakeOffsets(0, |vs|, |cuts| - 1, params.ef).end
    ensures at.endpointsAt == at.boundsAt + EliasFano.MakeOffsets(0, universe, |cuts| + 1, params.ef).end
    ensures var of := EliasFano.MakeOffsets(at.sizesAt, |vs|, |cuts| - 1, params.ef); of.universe == |vs| && of.n == |cuts| - 1
    ensures var of := EliasFano.MakeOffsets(at.boundsAt, universe, |cuts| + 1, params.ef);
            of.universe == universe && of.n == |cuts| + 1
  {
    hide EliasFano.Encodes, GammaAt, HoldsPart, UpperBounds, EndpointAt, Increasing;
    EliasFano.ShiftedOffsets(0, at.sizesAt, |vs|, |cuts| - 1, params.ef);
    EliasFano.ShiftedOffsets(0, at.boundsAt, universe, |cuts| + 1, params.ef);
    EliasFano.MakeOffsetsLayout(at.sizesAt, |vs|, |cuts| - 1, params.ef);
    EliasFano.MakeOffsetsLayout(at.boundsAt, universe, |cuts| + 1, params.ef);
  }

  /** Staying put in the table of endpoints never happens at a wrong place: they are distinct. */
  lemma FirstPast(cuts: seq<nat>, n: nat, i: nat)
    requires IsPartition(cuts, n)
    ensures forall j :: 0 <= j < |cuts| - 1 ==> cuts[j] < n
    ensures i < |cuts| - 1 ==> Least(cuts[..|cuts| - 1], cuts[i], i)
    ensures Least(cuts[..|cuts| - 1], n, |cuts| - 1)
  {
  }

  lemma EndpointsAround(cuts: seq<nat>, n: nat, p: nat, position: nat)
    requires IsPartition(cuts, n) && position < n && Least(cuts[..|cuts| - 1], position + 1, p)
    ensures p < |cuts| && Begin(cuts, p) <= position < cuts[p]
  {
    if p > 0 {
      assert cuts[..|cuts| - 1][p - 1] == cuts[p - 1];
    }
  }

  /** Bounds at or before the first value, and past the last one. */
  lemma EdgesAreLeast(vs: seq<nat>, universe: nat, cuts: seq<nat>, bound: nat)
    requires Input(vs, universe, cuts)
    ensures vs != []
    ensures bound <= vs[0] ==> Least(vs, bound, 0)
    ensures bound > vs[|vs| - 1] ==> Least(vs, bound, |vs|)
  {
    PartWithin(vs, universe, cuts, 0);
    forall j | 0 <= j < |vs| ensures vs[j] <= vs[|vs| - 1] {
      assert j < |vs| - 1 ==> vs[j] < vs[|vs| - 1];
    }
  }

  /** What an index into the upper bounds says about the bound. */
  lemma BoundsAround(vs: seq<nat>, universe: nat, cuts: seq<nat>, bound: nat, j: nat)
    requires Input(vs, universe, cuts) && j <= |cuts| + 1
    ensures vs != []
    ensures var us := UpperBounds(vs, universe, cuts);
            Least(us, bound, j) || bound == ValueAt(universe, us, j) ==>
              && (j == 0 ==> bound <= vs[0])
              && (j == |cuts| + 1 ==> bound > vs[|vs| - 1])
              && (0 < j <= |cuts| ==> Base(vs, universe, cuts, j - 1) <= bound <= Upper(vs, universe, cuts, j - 1))
  {
    hide Upper, Base, Part, Increasing, Sorted, Below, UpperBounds;
    var us := UpperBounds(vs, universe, cuts);
    BoundsFit(vs, universe, cuts);
    LastOfPart(vs, universe, cuts, |cuts| - 1);
    assert us[|cuts|] == Upper(vs, universe, cuts, |cuts| - 1) == vs[|vs| - 1];
    if 0 < j <= |cuts| {
      BaseIs(vs, universe, cuts, j - 1);
      PartFits(vs, universe, cuts, j - 1);
      assert us[j] == Upper(vs, universe, cuts, j - 1);
    }
  }

  /** Where part p is stored and what it spans, read off the two tables. */
  method Locate(
    bits: seq<bool>, sizes: EliasFano.Enumerator, bounds: EliasFano.Enumerator, p: nat, endpointsAt: nat, endpointBits: nat,
    ghost n: nat, ghost vs: seq<nat>, ghost universe: nat, ghost cuts: seq<nat>, ghost endpoints: seq<nat>)
    returns (start: nat, begin: nat, end: nat, base: nat, upper: nat)
    requires Input(vs, universe, cuts) && n == |vs| && p < |cuts| && |cuts| > 1 && |endpoints| == |cuts| - 1
    requires EndpointAt(bits, endpointsAt, endpointBits, endpoints, p)
    requires sizes != bounds && sizes.Valid() && bounds.Valid()
    requires sizes.of.universe == n && sizes.vs == cuts[..|cuts| - 1]
    requires bounds.of.universe == universe && bounds.vs == UpperBounds(vs, universe, cuts)
    modifies sizes, bounds
    ensures sizes.Valid() && bounds.Valid()
    ensures start == StartOf(endpoints, p) && begin == Begin(cuts, p) && end == cuts[p]
    ensures base == Base(vs, universe, cuts, p) && upper == Upper(vs, universe, cuts, p)
  {
    hide EliasFano.Encodes, UpperBounds, PointerAt, Increasing;
    BoundsFit(vs, universe, cuts);
    PartWithin(vs, universe, cuts, p);
    start := ReadPointer(bits, endpointsAt, endpointBits, p, StartOf(endpoints, p));
    sizes.Move(p);
    end := sizes.value;
    begin := sizes.PrevValue();
    bounds.Move(p + 1);
    upper := bounds.value;
    var previous := bounds.PrevValue();
    BaseIs(vs, universe, cuts, p);
    base := previous + if p != 0 then 1 else 0;
  }

  lemma BaseIs(vs: seq<nat>, universe: nat, cuts: seq<nat>, p: nat)
    requires Input(vs, universe, cuts) && p < |cuts|
    ensures Base(vs, universe, cuts, p) == UpperBounds(vs, universe, cuts)[p] + if p != 0 then 1 else 0
  {
    if p > 0 {
      PartWithin(vs, universe, cuts, p - 1);
    }
    PartWithin(vs, universe, cuts, p);
  }
}
