/** Bit vectors, seen as sequences of bits: fixed-width fields, and enumeration of the ones
    and zeros by position.
 */
module Bits {

  /* ----- Powers of two ----- */

  function Pow2(n: nat): (p: nat)
    ensures p > 0
  {
    if n == 0 then 1 else 2 * Pow2(n - 1)
  }

  function Quotient(x: nat, d: nat): nat
    requires d > 0
  {
    x / d
  }

  lemma {:induction false} Pow2Add(a: nat, b: nat)
    ensures Pow2(a + b) == Pow2(a) * Pow2(b)
  {
    if b > 0 {
      Pow2Add(a, b - 1);
      Reassociate(Pow2(a), Pow2(b - 1));
    }
  }

  lemma Reassociate(x: nat, y: nat)
    ensures 2 * (x * y) == x * (2 * y)
  {
  }

  lemma {:induction false} Pow2Mono(a: nat, b: nat)
    requires a <= b
    ensures Pow2(a) <= Pow2(b)
  {
    if a < b {
      Pow2Mono(a, b - 1);
    }
  }

  /** `x >> k`. */
  function Shr(x: nat, k: nat): nat { Quotient(x, Pow2(k)) }

  /** The position of the most significant one. */
  function Msb(x: nat): nat
    requires x > 0
  {
    if x == 1 then 0 else Msb(x / 2) + 1
  }

  lemma {:induction false} MsbBounds(x: nat)
    requires x > 0
    ensures Pow2(Msb(x)) <= x < Pow2(Msb(x) + 1)
  {
    if x > 1 {
      MsbBounds(x / 2);
    }
  }

  function CeilLog2(x: nat): nat
    requires x > 0
  {
    if x > 1 then Msb(x - 1) + 1 else 0
  }

  /** Everything below x fits into CeilLog2(x) bits. */
  lemma CeilLog2Fits(x: nat)
    requires x > 0
    ensures x <= Pow2(CeilLog2(x))
  {
    if x > 1 {
      MsbBounds(x - 1);
    }
  }

  function CeilDiv(a: nat, b: nat): nat
    requires b > 0
  {
    (a + b - 1) / b
  }

  lemma MulMono(a: nat, b: nat, c: nat)
    requires a <= b
    ensures a * c <= b * c
    ensures a < b ==> a * c + c <= b * c
  {
    if a < b {
      assert (a + 1) * c == a * c + c;
      MulMonoBy(b - a - 1, a + 1, b, c);
    }
  }

  lemma MulMonoBy(d: nat, a: nat, b: nat, c: nat)
    requires b == a + d
    ensures b * c == a * c + d * c && d * c >= 0
  {
  }

  /** A quotient is the only number whose multiple lies within one divisor below. */
  lemma DivIs(x: nat, d: nat, q: nat)
    requires d > 0 && q * d <= x < q * d + d
    ensures x / d == q && x % d == x - q * d
  {
    var r := x / d;
    DivMul(x, d);
    if r < q {
      MulMono(r, q, d);
    } else {
      MulMono(q, r, d);
    }
  }

  lemma DivMul(x: nat, d: nat)
    requires d > 0
    ensures x / d * d <= x < x / d * d + d && x == x / d * d + x % d
  {
  }

  lemma DivMono(x: nat, y: nat, d: nat)
    requires d > 0 && x <= y
    ensures x / d <= y / d
  {
    DivMul(x, d);
    DivMul(y, d);
    if y / d < x / d {
      MulMono(y / d, x / d, d);
    }
  }

  /** The multiples of d up to x are those of the numbers up to the quotient. */
  lemma MulAtMostDiv(k: nat, d: nat, x: nat)
    requires d > 0
    ensures k * d <= x <==> k <= x / d
  {
    DivMul(x, d);
    if k <= x / d {
      MulMono(k, x / d, d);
    } else {
      MulMono(x / d, k, d);
    }
  }

  lemma CeilDivIs(a: nat, d: nat, k: nat)
    requires d > 0
    ensures a <= k * d <==> CeilDiv(a, d) <= k
  {
    var c := CeilDiv(a, d);
    DivMul(a + d - 1, d);
    if c <= k {
      MulMono(c, k, d);
    } else {
      MulMono(k, c, d);
    }
  }

  /* ----- Fields ----- */

  function Bit(b: bool): nat { if b then 1 else 0 }

  /** The number whose bits, least significant first, stand at pos, ..., pos+len-1. */
  function Field(bits: seq<bool>, pos: nat, len: nat): (v: nat)
    requires pos + len <= |bits|
    decreases len
  {
    if len == 0 then 0 else Bit(bits[pos]) + 2 * Field(bits, pos + 1, len - 1)
  }

  function Put(bits: seq<bool>, pos: nat, v: nat, len: nat): (r: seq<bool>)
    requires pos + len <= |bits|
    ensures |r| == |bits|
    ensures forall p :: 0 <= p < |bits| && !(pos <= p < pos + len) ==> r[p] == bits[p]
    decreases len
  {
    if len == 0 then bits else Put(bits[pos := v % 2 == 1], pos + 1, v / 2, len - 1)
  }

  ghost predicate SameOn(a: seq<bool>, b: seq<bool>, lo: nat, hi: nat) {
    hi <= |a| && hi <= |b| && forall p :: lo <= p < hi ==> a[p] == b[p]
  }

  lemma {:induction false} FieldSame(a: seq<bool>, b: seq<bool>, pos: nat, len: nat)
    requires SameOn(a, b, pos, pos + len)
    ensures Field(a, pos, len) == Field(b, pos, len)
    decreases len
  {
    if len > 0 {
      FieldSame(a, b, pos + 1, len - 1);
    }
  }

  lemma {:induction false} FieldBelow(bits: seq<bool>, pos: nat, len: nat)
    requires pos + len <= |bits|
    ensures Field(bits, pos, len) < Pow2(len)
    decreases len
  {
    if len > 0 {
      FieldBelow(bits, pos + 1, len - 1);
    }
  }

  /** Reading back a field that has just been written. */
  lemma {:induction false} FieldOfPut(bits: seq<bool>, pos: nat, v: nat, len: nat)
    requires pos + len <= |bits| && v < Pow2(len)
    ensures Field(Put(bits, pos, v, len), pos, len) == v
    decreases len
  {
    if len > 0 {
      var b := bits[pos := v % 2 == 1];
      FieldOfPut(b, pos + 1, v / 2, len - 1);
      assert Put(b, pos + 1, v / 2, len - 1)[pos] == b[pos];
    }
  }

  /** The `len` lowest binary digits of a number, least significant first. */
  function Binary(v: nat, len: nat): (bits: seq<bool>)
    ensures |bits| == len
  {
    if len == 0 then [] else [v % 2 == 1] + Binary(v / 2, len - 1)
  }

  lemma {:induction false} FieldOfBinary(a: seq<bool>, v: nat, len: nat, b: seq<bool>)
    requires v < Pow2(len)
    ensures Field(a + Binary(v, len) + b, |a|, len) == v
    decreases len
  {
    if len > 0 {
      var first := [v % 2 == 1];
      assert a + Binary(v, len) + b == (a + first) + Binary(v / 2, len - 1) + b;
      FieldOfBinary(a + first, v / 2, len - 1, b);
    }
  }

  /** Bits put in front only move a field. */
  lemma {:induction false} FieldShift(front: seq<bool>, bits: seq<bool>, pos: nat, len: nat)
    requires pos + len <= |bits|
    ensures Field(front + bits, |front| + pos, len) == Field(bits, pos, len)
    decreases len
  {
    if len > 0 {
      FieldShift(front, bits, pos + 1, len - 1);
    }
  }

  /* ----- The builder ----- */

  class BitVectorBuilder {
    var bits: seq<bool>

    constructor ()
      ensures bits == []
    {
      bits := [];
    }

    method ZeroExtend(n: nat)
      modifies this
      ensures bits == old(bits) + seq(n, i => false)
    {
      bits := bits + seq(n, i => false);
    }

    method AppendBits(v: nat, len: nat)
      requires v < Pow2(len)
      modifies this
      ensures bits == old(bits) + Binary(v, len)
    {
      bits := bits + Binary(v, len);
    }

    method Append(rhs: BitVectorBuilder)
      modifies this
      ensures bits == old(bits) + old(rhs.bits)
    {
      bits := bits + rhs.bits;
    }

    method Set(pos: nat, b: bool)
      requires pos < |bits|
      modifies this
      ensures bits == old(bits)[pos := b]
    {
      bits := bits[pos := b];
    }

    method SetBits(pos: nat, v: nat, len: nat)
      requires pos + len <= |bits| && v < Pow2(len)
      modifies this
      ensures bits == Put(old(bits), pos, v, len)
    {
      bits := Put(bits, pos, v, len);
    }
  }

  /* ----- Enumerating ones and zeros ----- */

  function FirstOne(bits: seq<bool>, from: nat): (p: nat)
    ensures p >= from
    ensures p < |bits| ==> bits[p]
    ensures forall i :: from <= i < p && i < |bits| ==> !bits[i]
    decreases |bits| - from
  {
    if from >= |bits| || bits[from] then from else FirstOne(bits, from + 1)
  }

  function FirstZero(bits: seq<bool>, from: nat): (p: nat)
    ensures p >= from
    ensures p < |bits| ==> !bits[p]
    ensures forall i :: from <= i < p && i < |bits| ==> bits[i]
    decreases |bits| - from
  {
    if from >= |bits| || !bits[from] then from else FirstZero(bits, from + 1)
  }

  /** The k-th one at `from` or later, counting from 0. */
  function NthOne(bits: seq<bool>, from: nat, k: nat): nat
    decreases k
  {
    if k == 0 then FirstOne(bits, from) else NthOne(bits, FirstOne(bits, from) + 1, k - 1)
  }

  function NthZero(bits: seq<bool>, from: nat, k: nat): nat
    decreases k
  {
    if k == 0 then FirstZero(bits, from) else NthZero(bits, FirstZero(bits, from) + 1, k - 1)
  }

  lemma {:induction false} NthOneGrows(bits: seq<bool>, from: nat, k: nat)
    ensures NthOne(bits, from, k) >= from
    decreases k
  {
    if k > 0 {
      NthOneGrows(bits, FirstOne(bits, from) + 1, k - 1);
    }
  }

  lemma {:induction false} NthZeroGrows(bits: seq<bool>, from: nat, k: nat)
    ensures NthZero(bits, from, k) >= from
    decreases k
  {
    if k > 0 {
      NthZeroGrows(bits, FirstZero(bits, from) + 1, k - 1);
    }
  }

  /** A unary enumerator: its position, and whether the one there has been returned already,
      in which case its buffer shows a zero there. */
  datatype Unary = Unary(position: nat, consumed: bool) {
    function From(): nat { if consumed then position + 1 else position }
  }

  /** The next one, which becomes consumed. */
  method UnaryNext(bits: seq<bool>, u: Unary) returns (u': Unary)
    requires FirstOne(bits, u.From()) < |bits|
    ensures u' == Unary(FirstOne(bits, u.From()), true)
  {
    var p := u.From();
    while !bits[p]
      invariant p < |bits| && FirstOne(bits, p) == FirstOne(bits, u.From())
      decreases |bits| - p
    {
      p := p + 1;
    }
    u' := Unary(p, true);
  }

  /** The k-th one ahead, which is not consumed. */
  method UnarySkip(bits: seq<bool>, u: Unary, k: nat) returns (u': Unary)
    requires NthOne(bits, u.From(), k) < |bits|
    ensures u' == Unary(NthOne(bits, u.From(), k), false)
  {
    var p, left := u.From(), k;
    NthOneGrows(bits, p, left);
    while !bits[p] || left > 0
      invariant p < |bits| && NthOne(bits, p, left) == NthOne(bits, u.From(), k)
      decreases |bits| - p
    {
      if bits[p] {
        left := left - 1;
      }
      p := p + 1;
      NthOneGrows(bits, p, left);
    }
    u' := Unary(p, false);
  }

  /** The k-th zero ahead; a consumed one counts as a zero. */
  method UnarySkip0(bits: seq<bool>, u: Unary, k: nat) returns (u': Unary)
    requires u.position < |bits|
    requires u.consumed ==> k > 0 && NthZero(bits, u.position + 1, k - 1) < |bits|
    requires !u.consumed ==> NthZero(bits, u.position, k) < |bits|
    ensures u' == Unary(if u.consumed then NthZero(bits, u.position + 1, k - 1) else NthZero(bits, u.position, k), false)
  {
    var p, left := u.position, k;
    if u.consumed {
      p, left := p + 1, left - 1;
    }
    ghost var start, number := p, left;
    NthZeroGrows(bits, p, left);
    while bits[p] || left > 0
      invariant p < |bits| && NthZero(bits, p, left) == NthZero(bits, start, number)
      decreases |bits| - p
    {
      if !bits[p] {
        left := left - 1;
      }
      p := p + 1;
      NthZeroGrows(bits, p, left);
    }
    u' := Unary(p, false);
  }

  /** The last one at `pos` or before. */
  method Predecessor1(bits: seq<bool>, pos: nat) returns (p: nat)
    requires pos < |bits| && exists i :: 0 <= i <= pos && bits[i]
    ensures p <= pos && bits[p] && forall i :: p < i <= pos ==> !bits[i]
  {
    p := pos;
    while !bits[p]
      invariant p <= pos && forall i :: p < i <= pos ==> !bits[i]
      decreases p
    {
      p := p - 1;
    }
  }
}
