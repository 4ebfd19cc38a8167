/** A strictly increasing sequence in whichever representation is smallest: nothing at all
    when it fills its universe, else Elias-Fano or a ranked bitvector behind a type bit.
 */
module IndexedSequence {
  import opened Bits
  import opened Sequences
  import EliasFano
  import RankedBitvector

  datatype Params = Params(ef: EliasFano.Params, rb: RankedBitvector.Params)

  /** The cost of an impossible representation: the largest 64-bit number. */
  const IMPOSSIBLE: nat := 0xFFFF_FFFF_FFFF_FFFF

  const TYPE_BITS := 1

  function AllOnesSize(universe: nat, n: nat): nat { if universe == n then 0 else IMPOSSIBLE }

  function EliasFanoSize(params: Params, universe: nat, n: nat): nat
    requires n > 0
  {
    EliasFano.MakeOffsets(0, universe, n, params.ef).end + TYPE_BITS
  }

  function RankedSize(params: Params, universe: nat, n: nat): nat
    requires universe > 0
  {
    RankedBitvector.MakeOffsets(0, universe, n, params.rb).end + TYPE_BITS
  }

  /** The size of the smallest representation. */
  function BitSize(params: Params, universe: nat, n: nat): nat
    requires universe > 0 && n > 0
  {
    var bestCost := AllOnesSize(universe, n);
    var efCost := EliasFanoSize(params, universe, n);
    var bestOfTwo := if efCost < bestCost then efCost else bestCost;
    var rbCost := RankedSize(params, universe, n);
    if rbCost < bestOfTwo then rbCost else bestOfTwo
  }

  ghost predicate Fits(universe: nat, n: nat, vs: seq<nat>) {
    |vs| == n > 0 && Increasing(vs) && Below(vs, universe)
  }

  /** A sequence that fills its universe is 0, 1, 2, ... */
  lemma {:induction false} AllOnes(vs: seq<nat>, i: nat)
    requires Increasing(vs) && Below(vs, |vs|) && i < |vs|
    ensures vs[i] == i
  {
    AtLeastIndex(vs, i);
    AtMostIndex(vs, i, |vs| - 1 - i);
  }

  lemma {:induction false} AtLeastIndex(vs: seq<nat>, i: nat)
    requires Increasing(vs) && i < |vs|
    ensures vs[i] >= i
  {
    if i > 0 {
      AtLeastIndex(vs, i - 1);
    }
  }

  lemma {:induction false} AtMostIndex(vs: seq<nat>, i: nat, left: nat)
    requires Increasing(vs) && Below(vs, |vs|) && i + left + 1 == |vs|
    ensures vs[i] <= i
    decreases left
  {
    if left > 0 {
      AtMostIndex(vs, i + 1, left - 1);
    }
  }

  lemma UniverseAtLeast(universe: nat, n: nat, vs: seq<nat>)
    requires Fits(universe, n, vs)
    ensures 0 < n <= universe
  {
    AtLeastIndex(vs, n - 1);
  }

  /** The bits from `offset` represent the sequence. */
  ghost predicate Holds(bits: seq<bool>, offset: nat, universe: nat, n: nat, params: Params, vs: seq<nat>) {
    && Fits(universe, n, vs) && universe > 0
    && (universe != n ==>
          && offset < |bits|
          && (!bits[offset] ==> EliasFano.Encodes(bits, EliasFano.MakeOffsets(offset + 1, universe, n, params.ef), vs))
          && (bits[offset] ==> RankedBitvector.Encodes(bits, RankedBitvector.MakeOffsets(offset + 1, universe, n, params.rb), vs)))
  }

  /** The first bit past the representation. */
  ghost function EndOf(bits: seq<bool>, offset: nat, universe: nat, n: nat, params: Params): nat
    requires 0 < n && 0 < universe && (universe != n ==> offset < |bits|)
  {
    if universe == n then offset
    else if bits[offset] then RankedBitvector.MakeOffsets(offset + 1, universe, n, params.rb).end
    else EliasFano.MakeOffsets(offset + 1, universe, n, params.ef).end
  }

  /** Bits after the representation do not matter. */
  lemma HoldsExtended(
    bits: seq<bool>, more: seq<bool>, offset: nat, universe: nat, n: nat, params: Params, vs: seq<nat>)
    requires Holds(bits, offset, universe, n, params, vs)
    ensures Holds(bits + more, offset, universe, n, params, vs)
  {
    hide EliasFano.Encodes, RankedBitvector.Encodes, EliasFano.MakeOffsets, RankedBitvector.MakeOffsets;
    if universe != n {
      if bits[offset] {
        var of := RankedBitvector.MakeOffsets(offset + 1, universe, n, params.rb);
        RankedBitvector.EncodesFits(bits, of, vs);
        RankedBitvector.EncodesAnywhere(bits, bits + more, of, vs);
      } else {
        var of := EliasFano.MakeOffsets(offset + 1, universe, n, params.ef);
        EliasFano.EncodesFits(bits, of, vs);
        EliasFano.EncodesAnywhere(bits, bits + more, of, vs);
      }
    }
  }

  /** Bits put in front only move it. */
  lemma HoldsShift(
    front: seq<bool>, bits: seq<bool>, offset: nat, universe: nat, n: nat, params: Params, vs: seq<nat>)
    requires Holds(bits, offset, universe, n, params, vs)
    ensures Holds(front + bits, |front| + offset, universe, n, params, vs)
  {
    hide EliasFano.Encodes, RankedBitvector.Encodes, EliasFano.MakeOffsets, RankedBitvector.MakeOffsets;
    if universe != n {
      if bits[offset] {
        RankedBitvector.EncodesShift(front, bits, RankedBitvector.MakeOffsets(offset + 1, universe, n, params.rb), vs);
        RankedBitvector.ShiftedOffsets(offset + 1, |front|, universe, n, params.rb);
      } else {
        EliasFano.EncodesShift(front, bits, EliasFano.MakeOffsets(offset + 1, universe, n, params.ef), vs);
        EliasFano.ShiftedOffsets(offset + 1, |front|, universe, n, params.ef);
      }
    }
  }

  /** Sizes stay below the value that marks an impossible representation. */
  ghost predicate SizeOk(params: Params, universe: nat, n: nat)
    requires n > 0
  {
    universe == n || EliasFanoSize(params, universe, n) < IMPOSSIBLE
  }

  /** Appends the smallest representation: none of the three would have taken fewer bits. */
  method Write(builder: BitVectorBuilder, vs: seq<nat>, universe: nat, n: nat, params: Params)
    requires Fits(universe, n, vs) && SizeOk(params, universe, n)
    modifies builder
    ensures old(builder.bits) <= builder.bits
    ensures Holds(builder.bits, |old(builder.bits)|, universe, n, params, vs)
    ensures universe > 0 && |builder.bits| == |old(builder.bits)| + BitSize(params, universe, n)
    ensures var size := |builder.bits| - |old(builder.bits)|;
            && size <= EliasFanoSize(params, universe, n) && size <= RankedSize(params, universe, n)
            && (universe == n ==> size == 0)
  {
    hide EliasFano.Encodes, RankedBitvector.Encodes, EliasFano.MakeOffsets, RankedBitvector.MakeOffsets;
    UniverseAtLeast(universe, n, vs);
    var bestCost := AllOnesSize(universe, n);
    if bestCost != 0 {
      var ranked := false;
      var efCost := EliasFanoSize(params, universe, n);
      if efCost < bestCost {
        bestCost := efCost;
      }
      var rbCost := RankedSize(params, universe, n);
      if rbCost < bestCost {
        ranked := true;
      }
      ghost var before := builder.bits;
      assert Pow2(1) == 2;
      builder.AppendBits(Bit(ranked), TYPE_BITS);
      TypeBit(ranked);
      ghost var typed := builder.bits;
      if ranked {
        var outcome := RankedBitvector.Write(builder, vs, universe, params.rb);
        RankedBitvector.ShiftedOffsets(0, |typed|, universe, n, params.rb);
      } else {
        IncreasingIsSorted(vs);
        var outcome := EliasFano.Write(builder, vs, universe, params.ef);
        EliasFano.ShiftedOffsets(0, |typed|, universe, n, params.ef);
      }
      Kept(before, typed, builder.bits, ranked);
    }
  }

  lemma TypeBit(ranked: bool)
    ensures Binary(Bit(ranked), 1) == [ranked]
  {
    assert Binary(Bit(ranked), 1) == [Bit(ranked) % 2 == 1] + Binary(Bit(ranked) / 2, 0);
  }

  lemma Kept(before: seq<bool>, typed: seq<bool>, after: seq<bool>, ranked: bool)
    requires typed == before + [ranked] && SameOn(typed, after, 0, |typed|)
    ensures before <= after && |before| < |after| && after[|before|] == ranked
  {
    assert forall i :: 0 <= i < |before| ==> before[i] == typed[i] == after[i];
    assert typed[|before|] == after[|before|];
  }

  lemma IncreasingIsSorted(vs: seq<nat>)
    requires Increasing(vs)
    ensures Sorted(vs)
  {
  }

  datatype IndexType = EliasFanoType | RankedType | AllOnesType

  class Enumerator {
    const kind: IndexType
    const ef: EliasFano.Enumerator?
    const rb: RankedBitvector.Enumerator?
    const universe: nat
    const n: nat
    ghost const vs: seq<nat>
    var position: nat
    var value: nat

    ghost predicate Valid()
      reads this, ef, rb
    {
      && Fits(universe, n, vs) && position <= n && value == ValueAt(universe, vs, position)
      && match kind {
           case EliasFanoType =>
             ef != null && ef.Valid() && ef.vs == vs && ef.of.universe == universe && ef.of.n == n && ef.position == position
           case RankedType =>
             rb != null && rb.Valid() && rb.vs == vs && rb.of.universe == universe && rb.of.n == n && rb.position == position
           case AllOnesType => universe == n
         }
    }

    constructor (bits: seq<bool>, offset: nat, universe: nat, n: nat, params: Params, ghost vs: seq<nat>)
      requires Holds(bits, offset, universe, n, params, vs)
      ensures Valid() && position == n && this.n == n && this.universe == universe && this.vs == vs
      ensures (ef != null ==> fresh(ef)) && (rb != null ==> fresh(rb))
    {
      hide EliasFano.Encodes, RankedBitvector.Encodes, EliasFano.MakeOffsets, RankedBitvector.MakeOffsets;
      this.universe, this.n, this.vs := universe, n, vs;
      position, value := n, universe;
      ef, rb := null, null;
      if AllOnesSize(universe, n) == 0 {
        kind := AllOnesType;
      } else if bits[offset] {
        kind := RankedType;
        RankedBitvector.MakeOffsetsLayout(offset + 1, universe, n, params.rb);
        var e := new RankedBitvector.Enumerator(bits, offset + TYPE_BITS, universe, n, params.rb, vs);
        rb := e;
      } else {
        kind := EliasFanoType;
        EliasFano.MakeOffsetsLayout(offset + 1, universe, n, params.ef);
        var e := new EliasFano.Enumerator(bits, offset + TYPE_BITS, universe, n, params.ef, vs);
        ef := e;
      }
    }

    method Move(target: nat)
      requires Valid() && target <= n
      modifies this, ef, rb
      ensures Valid() && position == target
    {
      hide EliasFano.Encodes, RankedBitvector.Encodes, Increasing;
      match kind {
        case EliasFanoType =>
          ef.Move(target);
          value := ef.value;
        case RankedType =>
          rb.Move(target);
          value := rb.value;
        case AllOnesType =>
          FullAt(target);
          value := target;
      }
      position := target;
    }

    lemma FullAt(i: nat)
      requires Fits(universe, n, vs) && universe == n && i <= n
      ensures ValueAt(universe, vs, i) == i
    {
      if i < n {
        AllOnes(vs, i);
      }
    }

    method Next()
      requires Valid() && position < n
      modifies this, ef, rb
      ensures Valid() && position == old(position) + 1
    {
      hide EliasFano.Encodes, RankedBitvector.Encodes, Increasing;
      match kind {
        case EliasFanoType =>
          ef.Next();
          value := ef.value;
        case RankedType =>
          rb.Next();
          value := rb.value;
        case AllOnesType =>
          FullAt(position + 1);
          value := position + 1;
      }
      position := position + 1;
    }

    /** Moves to the least value at or above the bound.  A sequence that fills its universe
        takes the bound for the position, so there the bound must not exceed the universe. */
    method NextGeq(bound: nat)
      requires Valid() && (kind.AllOnesType? ==> bound <= universe)
      modifies this, ef, rb
      ensures Valid() && Least(vs, bound, position)
    {
      hide EliasFano.Encodes, RankedBitvector.Encodes;
      if bound == value {
        CurrentIsLeast();
      }
      match kind {
        case EliasFanoType =>
          ef.NextGeq(bound);
          position, value := ef.position, ef.value;
        case RankedType =>
          rb.NextGeq(bound);
          position, value := rb.position, rb.value;
        case AllOnesType =>
          FullAt(bound);
          FullLeast(vs, bound);
          position, value := bound, bound;
      }
    }

    lemma CurrentIsLeast()
      requires Valid()
      ensures Least(vs, value, position)
    {
      hide EliasFano.Encodes, RankedBitvector.Encodes;
    }

    method PrevValue() returns (prev: nat)
      requires Valid()
      ensures prev == if position == 0 then 0 else vs[position - 1]
    {
      hide EliasFano.Encodes, RankedBitvector.Encodes, Increasing;
      match kind {
        case EliasFanoType => prev := ef.PrevValue();
        case RankedType => prev := rb.PrevValue();
        case AllOnesType =>
          if position == 0 {
            return 0;
          }
          FullAt(position - 1);
          prev := position - 1;
      }
    }
  }

  lemma FullLeast(vs: seq<nat>, bound: nat)
    requires Increasing(vs) && Below(vs, |vs|)
    ensures Least(vs, bound, bound) <==> bound <= |vs|
  {
    forall j | 0 <= j < |vs| ensures vs[j] == j {
      AllOnes(vs, j);
    }
  }
}
