/** Gamma and delta codes of the headers of partitioned sequences. */
module IntegerCodes {
  import opened Bits

  /** From `pos` to `end` the bits are the gamma code of `n`: the length of n + 1 in unary,
      then its digits below the leading one. */
  ghost predicate GammaAt(bits: seq<bool>, pos: nat, n: nat, end: nat) {
    var l := Msb(n + 1);
    && end == pos + 2 * l + 1 <= |bits|
    && (forall i :: pos <= i < pos + l ==> !bits[i]) && bits[pos + l]
    && Pow2(l) + Field(bits, pos + l + 1, l) == n + 1
  }

  ghost predicate DeltaAt(bits: seq<bool>, pos: nat, n: nat, end: nat) {
    var l := Msb(n + 1);
    exists middle: nat :: pos <= middle && GammaAt(bits, pos, l, middle) && end == middle + l <= |bits|
      && Pow2(l) + Field(bits, middle, l) == n + 1
  }

  lemma {:induction false} PowerBinary(l: nat, ds: seq<bool>)
    requires ds == Binary(Pow2(l), l + 1)
    ensures ds[l] && forall i :: 0 <= i < l ==> !ds[i]
  {
    if l > 0 {
      var rest := Binary(Pow2(l - 1), l);
      PowerBinary(l - 1, rest);
      assert ds == [false] + rest;
    } else {
      assert Binary(1, 1) == [true] + Binary(0, 0);
    }
  }

  /** The digits below the leading one. */
  lemma LowDigits(n: nat)
    ensures Pow2(Msb(n + 1)) <= n + 1 < 2 * Pow2(Msb(n + 1)) && Pow2(Msb(n + 1)) < Pow2(Msb(n + 1) + 1)
  {
    MsbBounds(n + 1);
  }

  method WriteGamma(builder: BitVectorBuilder, n: nat)
    modifies builder
    ensures old(builder.bits) <= builder.bits
    ensures GammaAt(builder.bits, |old(builder.bits)|, n, |builder.bits|)
  {
    hide Msb, Binary, Pow2, Field;
    LowDigits(n);
    var l := Msb(n + 1);
    ghost var before := builder.bits;
    builder.AppendBits(Pow2(l), l + 1);
    builder.AppendBits(n + 1 - Pow2(l), l);
    GammaWritten(before, n);
  }

  lemma GammaWritten(before: seq<bool>, n: nat)
    ensures var l := Msb(n + 1);
            Pow2(l) <= n + 1 && GammaAt(before + Binary(Pow2(l), l + 1) + Binary(n + 1 - Pow2(l), l), |before|, n,
              |before| + 2 * l + 1)
  {
    hide Msb, Binary, Pow2, Field;
    LowDigits(n);
    var l := Msb(n + 1);
    var ds := Binary(Pow2(l), l + 1);
    PowerBinary(l, ds);
    var a := before + Binary(Pow2(l), l + 1);
    var bits := a + Binary(n + 1 - Pow2(l), l);
    FieldOfBinary(a, n + 1 - Pow2(l), l, []);
    assert bits + [] == bits;
    forall i | |before| <= i < |before| + l ensures !bits[i] {
      assert bits[i] == ds[i - |before|];
    }
    assert bits[|before| + l] == ds[l];
  }

  /** How many zeros stand before the next one, which is passed as well. */
  method SkipZeros(bits: seq<bool>, pos: nat, ghost l: nat) returns (zeros: nat, next: nat)
    requires pos + l < |bits| && bits[pos + l] && forall i :: pos <= i < pos + l ==> !bits[i]
    ensures zeros == l && next == pos + l + 1
  {
    zeros, next := 0, pos;
    while !bits[next]
      invariant zeros <= l && next == pos + zeros
      decreases l - zeros
    {
      zeros, next := zeros + 1, next + 1;
    }
    next := next + 1;
  }

  method ReadGamma(bits: seq<bool>, pos: nat, ghost n: nat, ghost stop: nat) returns (v: nat, end: nat)
    requires GammaAt(bits, pos, n, stop)
    ensures v == n && end == stop
  {
    hide Msb, Pow2, Field;
    var l, next := SkipZeros(bits, pos, Msb(n + 1));
    v := Field(bits, next, l) + Pow2(l) - 1;
    end := next + l;
  }

  method WriteDelta(builder: BitVectorBuilder, n: nat)
    modifies builder
    ensures old(builder.bits) <= builder.bits
    ensures DeltaAt(builder.bits, |old(builder.bits)|, n, |builder.bits|)
  {
    hide Msb, Binary, Pow2, GammaAt, Field;
    LowDigits(n);
    var l := Msb(n + 1);
    WriteGamma(builder, l);
    ghost var middle := builder.bits;
    builder.AppendBits(n + 1 - Pow2(l), l);
    FieldOfBinary(middle, n + 1 - Pow2(l), l, []);
    assert middle + Binary(n + 1 - Pow2(l), l) + [] == builder.bits;
    GammaStays(middle, builder.bits, |old(builder.bits)|, l, |middle|);
  }

  /** Later bits do not change a code. */
  lemma GammaStays(a: seq<bool>, b: seq<bool>, pos: nat, n: nat, end: nat)
    requires GammaAt(a, pos, n, end) && SameOn(a, b, pos, end)
    ensures GammaAt(b, pos, n, end)
  {
    hide Msb, Pow2;
    var l := Msb(n + 1);
    FieldSame(a, b, pos + l + 1, l);
  }

  lemma DeltaStays(a: seq<bool>, b: seq<bool>, pos: nat, n: nat, end: nat)
    requires DeltaAt(a, pos, n, end) && SameOn(a, b, pos, end)
    ensures DeltaAt(b, pos, n, end)
  {
    hide Msb, Pow2, GammaAt;
    var l := Msb(n + 1);
    var middle: nat :| pos <= middle && GammaAt(a, pos, l, middle) && end == middle + l <= |a|
      && Pow2(l) + Field(a, middle, l) == n + 1;
    GammaStays(a, b, pos, l, middle);
    FieldSame(a, b, middle, l);
  }

  method ReadDelta(bits: seq<bool>, pos: nat, ghost n: nat, ghost stop: nat) returns (v: nat, end: nat)
    requires DeltaAt(bits, pos, n, stop)
    ensures v == n && end == stop
  {
    hide Msb, Pow2, GammaAt, Field;
    ghost var size := Msb(n + 1);
    ghost var middle: nat :| pos <= middle && GammaAt(bits, pos, size, middle) && stop == middle + size <= |bits|
      && Pow2(size) + Field(bits, middle, size) == n + 1;
    var l, next := ReadGamma(bits, pos, size, middle);
    v := Field(bits, next, l) + Pow2(l) - 1;
    end := next + l;
  }
}
