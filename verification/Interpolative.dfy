/** Binary interpolative coding of blocks: truncated binary numbers written into 32-bit words
    and read back from bytes, and the variable-byte code that stores a block's sum.

    A run of writes is a list of items, bits with their lengths; both the word buffer of the
    writer and the bytes before the reader stand for the number such a list spells out.
 */
module Interpolative {
  import opened Bits

  /* ----- Arithmetic ----- */

  lemma SplitDiv(low: nat, d: nat, high: nat)
    requires d > 0 && low < d
    ensures (low + d * high) / d == high && (low + d * high) % d == low
  {
    assert high * d == d * high;
    DivIs(low + d * high, d, high);
  }

  lemma Distribute(a: nat, b: nat, c: nat)
    ensures a * (b + c) == a * b + a * c
  {
  }

  lemma Associate(a: nat, b: nat, c: nat)
    ensures (a * b) * c == a * (b * c)
  {
  }

  lemma ProductBelow(f: nat, s: nat, w: nat, q: nat)
    requires f + s * w < s * q
    ensures w < q
  {
    if q <= w {
      MulMono(q, w, s);
    }
  }

  lemma Expand(s: nat, w: nat, bits: nat, p: nat, sp: nat)
    requires sp == s * p
    ensures s * (w + bits * p) == s * w + sp * bits
  {
    Distribute(s, w, bits * p);
    Associate(s, p, bits);
    assert bits * p == p * bits;
  }

  lemma Split(bits: nat, h: nat, low: nat, carry: nat, p: nat, word: nat)
    requires bits == carry * h + low && low < h && h * p == word && 0 < word
    ensures bits * p == low * p + word * carry && low * p + p <= word
  {
    Associate(carry, h, p);
    assert (carry * h + low) * p == (carry * h) * p + low * p;
    MulMono(low, h, p);
  }

  /* ----- Items ----- */

  datatype Item = Item(bits: nat, len: nat)

  ghost predicate ItemOk(i: Item) {
    i.bits < Pow2(i.len) && i.len <= 32
  }

  ghost predicate ItemsOk(items: seq<Item>) {
    forall i :: 0 <= i < |items| ==> ItemOk(items[i])
  }

  ghost function Size(items: seq<Item>): nat {
    if items == [] then 0 else items[0].len + Size(items[1..])
  }

  /** The number whose binary digits, least significant first, are those of the items in turn. */
  ghost function Value(items: seq<Item>): nat {
    if items == [] then 0 else items[0].bits + Pow2(items[0].len) * Value(items[1..])
  }

  lemma {:induction false} ValueConcat(a: seq<Item>, b: seq<Item>)
    ensures Size(a + b) == Size(a) + Size(b)
    ensures Value(a + b) == Value(a) + Pow2(Size(a)) * Value(b)
  {
    if a == [] {
      assert a + b == b;
    } else {
      var x, rest := a[0], a[1..];
      assert (a + b)[1..] == rest + b;
      ValueConcat(rest, b);
      Distribute(Pow2(x.len), Value(rest), Pow2(Size(rest)) * Value(b));
      Associate(Pow2(x.len), Pow2(Size(rest)), Value(b));
      Pow2Add(x.len, Size(rest));
    }
  }

  lemma ValueOne(i: Item)
    ensures Size([i]) == i.len && Value([i]) == i.bits
  {
  }

  lemma BelowProduct(x: nat, a: nat, y: nat, b: nat)
    requires x < a && y < b
    ensures x + a * y < a * b
  {
    MulMono(y, b, a);
  }

  lemma {:induction false} ValueBelow(items: seq<Item>)
    requires ItemsOk(items)
    ensures Value(items) < Pow2(Size(items))
  {
    if items != [] {
      ValueBelow(items[1..]);
      assert ItemOk(items[0]);
      BelowProduct(items[0].bits, Pow2(items[0].len), Value(items[1..]), Pow2(Size(items[1..])));
      Pow2Add(items[0].len, Size(items[1..]));
    }
  }

  /* ----- Words and bytes ----- */

  const WORD: nat := 0x1_0000_0000

  lemma WordIsPow2()
    ensures WORD == Pow2(32) && 256 == Pow2(8)
  {
    assert Pow2(8) == 256;
    Pow2Add(8, 8);
    Pow2Add(16, 16);
  }

  /** Digits in the given base, least significant first. */
  ghost function Digits(ds: seq<nat>, base: nat): nat {
    if ds == [] then 0 else ds[0] + base * Digits(ds[1..], base)
  }

  ghost predicate DigitsOk(ds: seq<nat>, base: nat) {
    forall i :: 0 <= i < |ds| ==> ds[i] < base
  }

  ghost function Power(base: nat, n: nat): nat {
    if n == 0 then 1 else base * Power(base, n - 1)
  }

  lemma {:induction false} PowerOfPow2(k: nat, n: nat)
    ensures Power(Pow2(k), n) == Pow2(k * n)
  {
    if n > 0 {
      PowerOfPow2(k, n - 1);
      Pow2Add(k, k * (n - 1));
      Distribute(k, 1, n - 1);
    }
  }

  lemma {:induction false} DigitsConcat(a: seq<nat>, b: seq<nat>, base: nat)
    ensures Digits(a + b, base) == Digits(a, base) + Power(base, |a|) * Digits(b, base)
  {
    if a == [] {
      assert a + b == b;
    } else {
      assert (a + b)[1..] == a[1..] + b;
      DigitsConcat(a[1..], b, base);
      Distribute(base, Digits(a[1..], base), Power(base, |a| - 1) * Digits(b, base));
      Associate(base, Power(base, |a| - 1), Digits(b, base));
    }
  }

  lemma {:induction false} DigitsBelow(ds: seq<nat>, base: nat)
    requires DigitsOk(ds, base)
    ensures Digits(ds, base) < Power(base, |ds|)
  {
    if ds != [] {
      DigitsBelow(ds[1..], base);
      BelowProduct(ds[0], base, Digits(ds[1..], base), Power(base, |ds| - 1));
    }
  }

  /** One more word on top. */
  lemma DigitsPush(front: seq<nat>, w: nat)
    ensures Digits(front + [w], WORD) == Digits(front, WORD) + Pow2(32 * |front|) * w
  {
    WordIsPow2();
    DigitsConcat(front, [w], WORD);
    assert Digits([w], WORD) == w;
    PowerOfPow2(32, |front|);
  }

  lemma DigitsPushTwo(front: seq<nat>, w: nat, carry: nat)
    ensures Digits(front + [w] + [carry], WORD) == Digits(front, WORD) + Pow2(32 * |front|) * (w + WORD * carry)
  {
    hide Digits, Pow2, Power;
    WordIsPow2();
    assert front + [w] + [carry] == front + [w, carry];
    DigitsConcat(front, [w, carry], WORD);
    DigitsTwo(w, carry);
    PowerOfPow2(32, |front|);
  }

  lemma DigitsTwo(w: nat, carry: nat)
    ensures Digits([w, carry], WORD) == w + WORD * carry
  {
    assert [w, carry][1..] == [carry];
    assert Digits([carry], WORD) == carry;
  }

  /* ----- The writer ----- */

  class BitWriter {
    var buf: seq<nat>
    var size: nat
    ghost var items: seq<Item>

    ghost predicate Valid()
      reads this
    {
      && ItemsOk(items) && size == Size(items)
      && DigitsOk(buf, WORD) && Digits(buf, WORD) == Value(items)
      && |buf| == CeilDiv(size, 32)
    }

    constructor ()
      ensures Valid() && items == [] && size == 0
    {
      buf, size, items := [], 0, [];
    }

    /** Appends `len` bits.  The word under construction is below its first free bit, so adding
        the shifted bits to it is the same as or-ing them in. */
    method Write(bits: nat, len: nat)
      requires Valid() && bits < Pow2(len) && len <= 32
      modifies this
      ensures Valid() && items == old(items) + [Item(bits, len)]
    {
      hide Digits, Value, Size, Pow2, DigitsOk;
      AppendItem(items, Item(bits, len));
      if len == 0 {
        NoBits(items, bits);
      } else {
        var posInWord := size % 32;
        if posInWord == 0 {
          FreshWord(buf, items, size, bits, len);
          buf := buf + [bits];
        } else {
          PartialWord(buf, items, size, bits, len);
          var last := |buf| - 1;
          var shifted := bits * Pow2(posInWord);
          buf := buf[last := buf[last] + shifted % WORD];
          if len > 32 - posInWord {
            buf := buf + [bits / Pow2(32 - posInWord)];
          }
        }
        size := size + len;
      }
      items := items + [Item(bits, len)];
    }
  }

  lemma AppendItem(items: seq<Item>, i: Item)
    requires ItemsOk(items) && ItemOk(i)
    ensures ItemsOk(items + [i]) && Size(items + [i]) == Size(items) + i.len
    ensures Value(items + [i]) == Value(items) + Pow2(Size(items)) * i.bits
  {
    ValueConcat(items, [i]);
    ValueOne(i);
  }

  lemma NoBits(items: seq<Item>, bits: nat)
    requires bits < Pow2(0)
    ensures bits == 0 && Pow2(Size(items)) * bits == 0
  {
  }

  /** On a word boundary the bits become the next word. */
  lemma FreshWord(buf: seq<nat>, items: seq<Item>, size: nat, bits: nat, len: nat)
    requires DigitsOk(buf, WORD) && Digits(buf, WORD) == Value(items) && size == Size(items)
    requires |buf| == CeilDiv(size, 32) && size % 32 == 0 && bits < Pow2(len) && 0 < len <= 32
    ensures DigitsOk(buf + [bits], WORD) && |buf + [bits]| == CeilDiv(size + len, 32)
    ensures Digits(buf + [bits], WORD) == Value(items) + Pow2(size) * bits
  {
    hide Digits, Value, Size, Pow2;
    WordIsPow2();
    Pow2Mono(len, 32);
    DigitsPush(buf, bits);
    assert 32 * |buf| == size;
  }

  /** What of the bits, shifted by `p`, fits one word, and what does not. */
  function Fitting(bits: nat, p: nat): nat {
    bits * Pow2(p) % WORD
  }

  function Carried(bits: nat, p: nat): nat
    requires p <= 32
  {
    Shr(bits, 32 - p)
  }

  /** Within a word, the bits fill it up and the rest opens the next. */
  lemma PartialWord(buf: seq<nat>, items: seq<Item>, size: nat, bits: nat, len: nat)
    requires DigitsOk(buf, WORD) && Digits(buf, WORD) == Value(items) && size == Size(items) && ItemsOk(items)
    requires |buf| == CeilDiv(size, 32) && size % 32 != 0 && bits < Pow2(len) && 0 < len <= 32
    ensures buf != []
    ensures var p, last := size % 32, |buf| - 1;
            var word := buf[last] + Fitting(bits, p);
            var buf' := if len > 32 - p then buf[last := word] + [Carried(bits, p)] else buf[last := word];
            DigitsOk(buf', WORD) && |buf'| == CeilDiv(size + len, 32)
            && Digits(buf', WORD) == Value(items) + Pow2(size) * bits
  {
    hide Digits, Value, Size, Pow2;
    var p, last := size % 32, |buf| - 1;
    var front, w := buf[..last], buf[last];
    assert buf == front + [w];
    LastWordLow(front, w, items, size, p);
    ShiftParts(bits, p, len);
    var low, carry := Fitting(bits, p), Carried(bits, p);
    var word := w + low;
    assert buf[last := word] == front + [word];
    NewWords(front, w, low, carry, bits, p, size);
    WordsOk(front, w, word, carry);
  }

  lemma WordsOk(front: seq<nat>, w: nat, word: nat, carry: nat)
    requires DigitsOk(front + [w], WORD) && word < WORD && carry < WORD
    ensures DigitsOk(front + [word], WORD) && DigitsOk(front + [word] + [carry], WORD)
  {
    forall i | 0 <= i < |front| ensures front[i] < WORD {
      assert (front + [w])[i] < WORD;
    }
  }

  /** The word under construction is below its first free bit. */
  lemma LastWordLow(front: seq<nat>, w: nat, items: seq<Item>, size: nat, p: nat)
    requires Digits(front + [w], WORD) == Value(items) && ItemsOk(items) && size == Size(items)
    requires size == 32 * |front| + p && p < 32
    ensures w < Pow2(p)
  {
    hide Digits, Value, Size, Pow2;
    ValueBelow(items);
    DigitsPush(front, w);
    Pow2Add(32 * |front|, p);
    ProductBelow(Digits(front, WORD), Pow2(32 * |front|), w, Pow2(p));
  }

  /** Splitting shifted bits into what fits the word and what does not. */
  lemma ShiftParts(bits: nat, p: nat, len: nat)
    requires 0 < p < 32 && bits < Pow2(len) && len <= 32
    ensures var carry := bits / Pow2(32 - p);
            bits * Pow2(p) == bits * Pow2(p) % WORD + WORD * carry
            && carry < WORD && (len <= 32 - p ==> carry == 0)
    ensures bits * Pow2(p) % WORD + Pow2(p) <= WORD
  {
    WordIsPow2();
    hide Pow2;
    var h := Pow2(32 - p);
    var low, carry := bits % h, bits / h;
    DivMul(bits, h);
    Pow2Add(32 - p, p);
    Split(bits, h, low, carry, Pow2(p), WORD);
    SplitDiv(low * Pow2(p), WORD, carry);
    Pow2Mono(len, 32);
    CarryBelow(bits, h, carry);
    if len <= 32 - p {
      Pow2Mono(len, 32 - p);
      DivIs(bits, h, 0);
    }
  }

  lemma CarryBelow(bits: nat, d: nat, carry: nat)
    requires d > 0 && carry == bits / d
    ensures carry <= bits
  {
    DivMul(bits, d);
    MulMono(1, d, carry);
  }

  lemma NewWords(front: seq<nat>, w: nat, low: nat, carry: nat, bits: nat, p: nat, size: nat)
    requires size == 32 * |front| + p && bits * Pow2(p) == low + WORD * carry
    ensures Digits(front + [w + low] + [carry], WORD) == Digits(front + [w], WORD) + Pow2(size) * bits
    ensures carry == 0 ==> Digits(front + [w + low], WORD) == Digits(front + [w], WORD) + Pow2(size) * bits
  {
    hide Digits, Pow2;
    var s := Pow2(32 * |front|);
    DigitsPush(front, w);
    DigitsPush(front, w + low);
    DigitsPushTwo(front, w + low, carry);
    Pow2Add(32 * |front|, p);
    Expand(s, w, bits, Pow2(p), Pow2(size));
    assert w + low + WORD * carry == w + bits * Pow2(p);
  }

  /* ----- Bytes ----- */

  function WordBytes(w: nat): seq<nat> { [w % 256, w / 256 % 256, w / 65536 % 256, w / 16777216 % 256] }

  /** The bytes of the words in memory order, each word's low byte first. */
  function Bytes(words: seq<nat>): (bytes: seq<nat>)
    ensures |bytes| == 4 * |words|
  {
    if words == [] then [] else WordBytes(words[0]) + Bytes(words[1..])
  }

  lemma WordBytesValue(w: nat)
    requires w < WORD
    ensures DigitsOk(WordBytes(w), 256) && Digits(WordBytes(w), 256) == w && Power(256, 4) == WORD
  {
    var b := WordBytes(w);
    FourDigits(b[0], b[1], b[2], b[3]);
    assert b == [b[0], b[1], b[2], b[3]];
    hide Digits;
    Quarters(w);
    assert Power(256, 1) == 256 && Power(256, 2) == 65536 && Power(256, 3) == 16777216;
  }

  lemma Quarters(w: nat)
    requires w < WORD
    ensures w == w % 256 + 256 * (w / 256 % 256 + 256 * (w / 65536 % 256 + 256 * (w / 16777216 % 256)))
  {
    assert w / 65536 == w / 256 / 256 && w / 16777216 == w / 256 / 256 / 256;
  }

  lemma FourDigits(a: nat, b: nat, c: nat, d: nat)
    ensures Digits([a, b, c, d], 256) == a + 256 * (b + 256 * (c + 256 * d))
  {
    assert [a, b, c, d][1..] == [b, c, d] && [b, c, d][1..] == [c, d] && [c, d][1..] == [d];
    assert Digits([d], 256) == d;
    assert Digits([c, d], 256) == c + 256 * d;
    assert Digits([b, c, d], 256) == b + 256 * (c + 256 * d);
  }

  lemma {:induction false} BytesValue(words: seq<nat>)
    requires DigitsOk(words, WORD)
    ensures DigitsOk(Bytes(words), 256) && Digits(Bytes(words), 256) == Digits(words, WORD)
  {
    if words != [] {
      WordBytesValue(words[0]);
      BytesValue(words[1..]);
      DigitsConcat(WordBytes(words[0]), Bytes(words[1..]), 256);
    }
  }

  /** Dropping bytes past the last bit written loses nothing. */
  lemma TakeBytes(bytes: seq<nat>, k: nat)
    requires DigitsOk(bytes, 256) && k <= |bytes| && Digits(bytes, 256) < Power(256, k)
    ensures Digits(bytes[..k], 256) == Digits(bytes, 256)
  {
    hide Digits, Power;
    DigitsConcat(bytes[..k], bytes[k..], 256);
    assert bytes == bytes[..k] + bytes[k..];
    SmallProduct(Digits(bytes[..k], 256), Power(256, k), Digits(bytes[k..], 256));
  }

  lemma SmallProduct(x: nat, p: nat, y: nat)
    requires x + p * y < p
    ensures p * y == 0
  {
    if y > 0 {
      MulMono(1, y, p);
    }
  }

  /** What the block codec keeps of the writer's buffer. */
  function Written(buf: seq<nat>, size: nat): seq<nat>
    requires |buf| == CeilDiv(size, 32)
  {
    Bytes(buf)[..CeilDiv(size, 8)]
  }

  lemma WrittenValue(buf: seq<nat>, size: nat, items: seq<Item>)
    requires ItemsOk(items) && size == Size(items) && DigitsOk(buf, WORD) && Digits(buf, WORD) == Value(items)
    requires |buf| == CeilDiv(size, 32)
    ensures |Written(buf, size)| == CeilDiv(size, 8) && DigitsOk(Written(buf, size), 256)
    ensures Digits(Written(buf, size), 256) == Value(items)
  {
    hide Digits, Value, Size, Pow2, Power;
    BytesValue(buf);
    ValueBelow(items);
    WordIsPow2();
    PowerOfPow2(8, CeilDiv(size, 8));
    Pow2Mono(size, 8 * CeilDiv(size, 8));
    TakeBytes(Bytes(buf), CeilDiv(size, 8));
  }

  /* ----- The reader ----- */

  class BitReader {
    const input: seq<nat>
    var index: nat
    var avail: nat
    var buf: nat
    var pos: nat

    ghost predicate Valid()
      reads this
    {
      && DigitsOk(input, 256) && index <= |input|
      && buf < Pow2(avail) && pos + avail == 8 * index && avail < 40
    }

    /** The number spelled by everything not yet read. */
    ghost function Rest(): nat
      requires index <= |input|
      reads this
    {
      buf + Pow2(avail) * Digits(input[index..], 256)
    }

    constructor (input: seq<nat>)
      requires DigitsOk(input, 256)
      ensures Valid() && pos == 0 && this.input == input && Rest() == Digits(input, 256)
    {
      this.input := input;
      index, avail, buf, pos := 0, 0, 0, 0;
      new;
      assert input[0..] == input;
    }

    /** Takes the next byte into the buffer, above what is there. */
    method Fill()
      requires Valid() && index < |input| && avail < 32
      modifies this
      ensures Valid() && Rest() == old(Rest()) && pos == old(pos) && avail == old(avail) + 8
    {
      hide Digits, Pow2;
      WordIsPow2();
      NextByte(input, index, buf, avail);
      buf := buf + input[index] * Pow2(avail);
      index := index + 1;
      avail := avail + 8;
    }

    /** Fills the buffer up to `len` bits. */
    method FillTo(len: nat)
      requires Valid() && len <= 32 && pos + len <= 8 * |input|
      modifies this
      ensures Valid() && Rest() == old(Rest()) && pos == old(pos) && avail >= len
    {
      hide Digits, Pow2, DigitsOk;
      while avail < len
        invariant Valid() && Rest() == old(Rest()) && pos == old(pos)
        decreases len + 8 - avail
      {
        Fill();
      }
    }

    /** Takes `len` bits off the buffer. */
    method Take(len: nat) returns (val: nat)
      requires Valid() && len <= avail
      modifies this
      ensures Valid() && pos == old(pos) + len
      ensures val == old(Rest()) % Pow2(len) && Rest() == old(Rest()) / Pow2(len)
    {
      hide Digits, Pow2, DigitsOk;
      TakeLow(buf, avail, Digits(input[index..], 256), len);
      val := Low(buf, len);
      buf := Shr(buf, len);
      avail := avail - len;
      pos := pos + len;
    }

    /** The next `len` bits. */
    method Read(len: nat) returns (val: nat)
      requires Valid() && len <= 32 && pos + len <= 8 * |input|
      modifies this
      ensures Valid() && pos == old(pos) + len
      ensures val == old(Rest()) % Pow2(len) && Rest() == old(Rest()) / Pow2(len)
    {
      hide Digits, Pow2, DigitsOk;
      if len == 0 {
        ReadNothing(Rest());
        return 0;
      }
      FillTo(len);
      val := Take(len);
    }
  }

  /** `x & ((1 << len) - 1)`. */
  function Low(x: nat, len: nat): nat { x % Pow2(len) }

  lemma ReadNothing(x: nat)
    ensures x % Pow2(0) == 0 && x / Pow2(0) == x
  {
  }

  lemma NextByte(input: seq<nat>, index: nat, buf: nat, avail: nat)
    requires DigitsOk(input, 256) && index < |input| && buf < Pow2(avail)
    ensures buf + Pow2(avail) * Digits(input[index..], 256)
            == buf + input[index] * Pow2(avail) + Pow2(avail + 8) * Digits(input[index + 1..], 256)
    ensures buf + input[index] * Pow2(avail) < Pow2(avail + 8)
  {
    WordIsPow2();
    Pow2Add(avail, 8);
    assert input[index..][1..] == input[index + 1..];
    assert Digits(input[index..], 256) == input[index] + 256 * Digits(input[index + 1..], 256);
    hide Digits, Pow2;
    var p, b, rest := Pow2(avail), input[index], Digits(input[index + 1..], 256);
    Distribute(p, b, 256 * rest);
    Associate(p, 256, rest);
    assert b * p == p * b;
    BelowProduct(buf, p, b, 256);
  }

  /** Taking bits off the buffer takes them off everything not yet read. */
  lemma TakeLow(buf: nat, avail: nat, rest: nat, len: nat)
    requires len <= avail && buf < Pow2(avail)
    ensures buf % Pow2(len) == (buf + Pow2(avail) * rest) % Pow2(len)
    ensures buf / Pow2(len) + Pow2(avail - len) * rest == (buf + Pow2(avail) * rest) / Pow2(len)
    ensures buf / Pow2(len) < Pow2(avail - len)
  {
    hide Pow2;
    var d, e := Pow2(len), Pow2(avail - len);
    Pow2Add(len, avail - len);
    DivMul(buf, d);
    var low, high := buf % d, buf / d;
    Associate(d, e, rest);
    Distribute(d, high, e * rest);
    assert high * d == d * high;
    SplitDiv(low, d, high + e * rest);
    assert e * d == d * e;
    if high >= e {
      MulMono(e, high, d);
    }
  }

  /* ----- Truncated binary ----- */

  /** The code of `val` among `u` values: b bits if it is below m, b + 1 bits otherwise, the
      last bit apart because it is the least significant one. */
  ghost function IntItems(val: nat, u: nat): seq<Item>
    requires 0 < u
  {
    MsbBounds(u);
    var b := Msb(u);
    var m: nat := Pow2(b + 1) - u;
    if val < m then [Item(val, b)] else [Item((val + m) / 2, b), Item((val + m) % 2, 1)]
  }

  lemma MsbSmall(u: nat)
    requires 0 < u < WORD
    ensures Msb(u) < 32 && Pow2(Msb(u)) <= u < Pow2(Msb(u) + 1) == 2 * Pow2(Msb(u))
  {
    MsbBounds(u);
    WordIsPow2();
    if Msb(u) >= 32 {
      Pow2Mono(32, Msb(u));
    }
  }

  lemma IntItemsOk(val: nat, u: nat)
    requires val < u < WORD
    ensures ItemsOk(IntItems(val, u))
  {
    MsbSmall(u);
    assert Pow2(1) == 2;
  }

  method WriteInt(w: BitWriter, val: nat, u: nat)
    requires w.Valid() && val < u < WORD
    modifies w
    ensures w.Valid() && w.items == old(w.items) + IntItems(val, u)
  {
    MsbSmall(u);
    IntItemsOk(val, u);
    hide Pow2, Msb;
    var b := Msb(u);
    var m := Pow2(b + 1) - u;
    if val < m {
      w.Write(val, b);
    } else {
      var shifted := val + m;
      assert ItemOk(IntItems(val, u)[0]) && ItemOk(IntItems(val, u)[1]);
      w.Write(shifted / 2, b);
      w.Write(shifted % 2, 1);
      assert old(w.items) + [Item(shifted / 2, b)] + [Item(shifted % 2, 1)] == old(w.items) + IntItems(val, u);
    }
  }

  /** The reader stands before the items, followed by anything. */
  ghost predicate Before(r: BitReader, items: seq<Item>, more: nat)
    reads r
  {
    && r.Valid() && r.pos + Size(items) <= 8 * |r.input|
    && r.Rest() == Value(items) + Pow2(Size(items)) * more
  }

  /** Reading the first item. */
  method ReadItem(r: BitReader, ghost items: seq<Item>, ghost more: nat, len: nat) returns (bits: nat)
    requires items != [] && ItemOk(items[0]) && len == items[0].len && Before(r, items, more)
    modifies r
    ensures bits == items[0].bits && Before(r, items[1..], more) && r.pos == old(r.pos) + len
  {
    hide Pow2;
    FirstItem(items, more);
    bits := r.Read(len);
  }

  lemma FirstItem(items: seq<Item>, more: nat)
    requires items != [] && ItemOk(items[0])
    ensures var d := Pow2(items[0].len);
            var x := Value(items) + Pow2(Size(items)) * more;
            x % d == items[0].bits && x / d == Value(items[1..]) + Pow2(Size(items[1..])) * more
  {
    var i, rest := items[0], items[1..];
    assert Size(items) == i.len + Size(rest) && Value(items) == i.bits + Pow2(i.len) * Value(rest);
    hide Value, Size, Pow2;
    Pow2Add(i.len, Size(rest));
    Associate(Pow2(i.len), Pow2(Size(rest)), more);
    Distribute(Pow2(i.len), Value(rest), Pow2(Size(rest)) * more);
    SplitDiv(i.bits, Pow2(i.len), Value(rest) + Pow2(Size(rest)) * more);
  }

  method ReadInt(r: BitReader, u: nat, ghost expected: nat, ghost rest: seq<Item>, ghost more: nat) returns (val: nat)
    requires expected < u < WORD && Before(r, IntItems(expected, u) + rest, more)
    modifies r
    ensures val == expected && Before(r, rest, more) && r.pos == old(r.pos) + Size(IntItems(expected, u))
  {
    hide Pow2, Msb, Value, Before, IntItems, Size;
    IntItemsShape(expected, u);
    var b := Msb(u);
    var m := Pow2(b + 1) - u;
    ghost var code := IntItems(expected, u);
    assert (code + rest)[0] == code[0] && (code + rest)[1..] == code[1..] + rest;
    val := ReadItem(r, code + rest, more, b);
    if val >= m {
      assert (code[1..] + rest)[0] == code[1] && (code[1..] + rest)[1..] == rest;
      var bit := ReadItem(r, code[1..] + rest, more, 1);
      val := val * 2 + bit - m;
    } else {
      assert code[1..] + rest == rest;
    }
  }

  /** The two forms a code can take, told apart by their first b bits. */
  lemma IntItemsShape(val: nat, u: nat)
    requires val < u < WORD
    ensures ItemsOk(IntItems(val, u)) && Msb(u) < 32 && u < Pow2(Msb(u) + 1)
    ensures var code, b := IntItems(val, u), Msb(u);
            var m := Pow2(b + 1) - u;
            if val < m then code == [Item(val, b)] && Size(code) == b
            else |code| == 2 && code[0].len == b && code[1].len == 1 && Size(code) == b + 1
                 && code[0].bits >= m && code[0].bits * 2 + code[1].bits == val + m
  {
    MsbSmall(u);
    IntItemsOk(val, u);
    var code := IntItems(val, u);
    assert |code| == 2 ==> Size(code) == code[0].len + Size(code[1..]) && Size(code[1..]) == code[1].len + Size([]);
  }

  /* ----- Interpolative coding ----- */

  /** Non-decreasing values between the bounds. */
  ghost predicate Within(vals: seq<nat>, low: nat, high: nat) {
    && (forall i :: 0 <= i < |vals| ==> low <= vals[i] <= high)
    && (forall i, j :: 0 <= i < j < |vals| ==> vals[i] <= vals[j])
  }

  lemma Halves(vals: seq<nat>, low: nat, high: nat, h: nat)
    requires Within(vals, low, high) && h < |vals|
    ensures low <= vals[h] <= high
    ensures Within(vals[..h], low, vals[h]) && Within(vals[h + 1..], vals[h], high)
  {
  }

  /** The middle value among those its bounds allow, then each half between tighter bounds. */
  ghost function Interp(vals: seq<nat>, low: nat, high: nat): seq<Item>
    requires Within(vals, low, high)
    decreases |vals|
  {
    if vals == [] then []
    else
      var h := |vals| / 2;
      Halves(vals, low, high, h);
      IntItems(vals[h] - low, high - low + 1) + Interp(vals[..h], low, vals[h]) + Interp(vals[h + 1..], vals[h], high)
  }

  /** The number of candidates as the coder computes it, in 32 bits. */
  function Candidates(low: nat, high: nat): nat
    requires low <= high
  {
    (high - low + 1) % WORD
  }

  /** Every number the coder writes is one of the candidates it counts. */
  ghost predicate CountsFit(vals: seq<nat>, low: nat, high: nat)
    requires Within(vals, low, high)
    decreases |vals|
  {
    if vals == [] then true
    else
      var h := |vals| / 2;
      Halves(vals, low, high, h);
      && vals[h] - low < Candidates(low, high)
      && CountsFit(vals[..h], low, vals[h]) && CountsFit(vals[h + 1..], vals[h], high)
  }

  /** The count wraps to 0 for all 2^32 candidates, and for no other bounds: the coder works
      exactly when there is nothing to write or the bounds leave one number out. */
  lemma {:induction false} CountsFitIff(vals: seq<nat>, low: nat, high: nat)
    requires Within(vals, low, high) && high < WORD
    ensures CountsFit(vals, low, high) <==> vals == [] || high - low < WORD - 1
    decreases |vals|
  {
    if vals != [] {
      var h := |vals| / 2;
      Halves(vals, low, high, h);
      CountsFitIff(vals[..h], low, vals[h]);
      CountsFitIff(vals[h + 1..], vals[h], high);
    }
  }

  /** What the coder does with one value among the candidates, and which calls remain. */
  lemma FitStep(vals: seq<nat>, low: nat, high: nat, h: nat)
    requires Within(vals, low, high) && high < WORD && CountsFit(vals, low, high)
    requires vals != [] && h == |vals| / 2
    ensures low <= vals[h] <= high && Within(vals[..h], low, vals[h]) && Within(vals[h + 1..], vals[h], high)
    ensures Candidates(low, high) == high - low + 1 && vals[h] - low < Candidates(low, high) < WORD
    ensures CountsFit(vals[..h], low, vals[h]) && CountsFit(vals[h + 1..], vals[h], high)
  {
    Halves(vals, low, high, h);
    CountsFitIff(vals, low, high);
  }

  method WriteInterpolative(w: BitWriter, vals: seq<nat>, low: nat, high: nat)
    requires w.Valid() && Within(vals, low, high) && high < WORD && CountsFit(vals, low, high)
    modifies w
    ensures w.Valid() && w.items == old(w.items) + Interp(vals, low, high)
    decreases |vals|
  {
    if |vals| > 0 {
      hide IntItems, Within, Interp, BitWriter.Valid, CountsFit, Candidates;
      var h := |vals| / 2;
      var val := vals[h];
      var lower, upper := vals[..h], vals[h + 1..];
      FitStep(vals, low, high, h);
      ghost var before, first := w.items, IntItems(val - low, high - low + 1);
      ghost var left, right := Interp(lower, low, val), Interp(upper, val, high);
      WriteInt(w, val - low, Candidates(low, high));
      ghost var one := w.items;
      WriteInterpolative(w, lower, low, val);
      ghost var two := w.items;
      WriteInterpolative(w, upper, val, high);
      InterpIs(vals, low, high, h, first, left, right);
      Regroup(before, first, one, left, two, right, w.items);
    }
  }

  lemma Regroup(
    before: seq<Item>, first: seq<Item>, one: seq<Item>, left: seq<Item>, two: seq<Item>, right: seq<Item>, three: seq<Item>)
    requires one == before + first && two == one + left && three == two + right
    ensures three == before + (first + left + right)
  {
  }

  lemma InterpIs(vals: seq<nat>, low: nat, high: nat, h: nat, first: seq<Item>, left: seq<Item>, right: seq<Item>)
    requires Within(vals, low, high) && h == |vals| / 2 < |vals| && low <= vals[h] <= high
    requires Within(vals[..h], low, vals[h]) && Within(vals[h + 1..], vals[h], high)
    requires first == IntItems(vals[h] - low, high - low + 1)
    requires left == Interp(vals[..h], low, vals[h]) && right == Interp(vals[h + 1..], vals[h], high)
    ensures Interp(vals, low, high) == first + left + right
  {
    hide IntItems, Within;
  }

  /** Reads back what was written, in whatever surroundings. */
  method ReadInterpolative(
    r: BitReader, n: nat, low: nat, high: nat, ghost vals: seq<nat>, ghost rest: seq<Item>, ghost more: nat)
    returns (out: seq<nat>)
    requires n == |vals| > 0 && Within(vals, low, high) && high < WORD && CountsFit(vals, low, high)
    requires Before(r, Interp(vals, low, high) + rest, more)
    modifies r
    ensures out == vals && Before(r, rest, more) && r.pos == old(r.pos) + Size(Interp(vals, low, high))
    decreases n
  {
    hide IntItems, Within, Before, Value, Size, Interp, CountsFit, Candidates;
    var h := n / 2;
    FitStep(vals, low, high, h);
    ghost var first, left, right :=
      IntItems(vals[h] - low, high - low + 1), Interp(vals[..h], low, vals[h]), Interp(vals[h + 1..], vals[h], high);
    InterpSplits(vals, low, high, h, rest);
    var d := ReadInt(r, Candidates(low, high), vals[h] - low, left + (right + rest), more);
    var val := low + d;
    var before, after := [], [];
    if h != 0 {
      before := ReadInterpolative(r, h, low, val, vals[..h], right + rest, more);
    } else {
      NoItems(vals[..h], low, val, right + rest);
    }
    if n - h - 1 != 0 {
      after := ReadInterpolative(r, n - h - 1, val, high, vals[h + 1..], rest, more);
    } else {
      NoItems(vals[h + 1..], val, high, rest);
    }
    out := before + [val] + after;
  }

  lemma NoItems(vals: seq<nat>, low: nat, high: nat, rest: seq<Item>)
    requires Within(vals, low, high) && vals == []
    ensures Interp(vals, low, high) + rest == rest && Size(Interp(vals, low, high)) == 0
  {
  }

  lemma InterpSplits(vals: seq<nat>, low: nat, high: nat, h: nat, rest: seq<Item>)
    requires Within(vals, low, high) && h == |vals| / 2 < |vals| && low <= vals[h] <= high
    requires Within(vals[..h], low, vals[h]) && Within(vals[h + 1..], vals[h], high)
    ensures var first := IntItems(vals[h] - low, high - low + 1);
            var left, right := Interp(vals[..h], low, vals[h]), Interp(vals[h + 1..], vals[h], high);
            && Interp(vals, low, high) + rest == first + (left + (right + rest))
            && Size(Interp(vals, low, high)) == Size(first) + Size(left) + Size(right)
  {
    hide IntItems, Within, Size, Value;
    var first := IntItems(vals[h] - low, high - low + 1);
    var left, right := Interp(vals[..h], low, vals[h]), Interp(vals[h + 1..], vals[h], high);
    ValueConcat(first, left);
    ValueConcat(first + left, right);
    assert first + left + right + rest == first + (left + (right + rest));
  }

  /* ----- Variable-byte numbers ----- */

  function Extract7(val: nat, i: nat): nat { Shr(val, 7 * i) % 128 }

  /** Seven bits to a byte, low ones first; the last byte is marked. */
  function VariableByte(val: nat): seq<nat> {
    if val < 0x80 then [val + 128]
    else if val < 0x4000 then [Extract7(val, 0), Extract7(val, 1) + 128]
    else if val < 0x20_0000 then [Extract7(val, 0), Extract7(val, 1), Extract7(val, 2) + 128]
    else if val < 0x1000_0000 then [Extract7(val, 0), Extract7(val, 1), Extract7(val, 2), Extract7(val, 3) + 128]
    else [Extract7(val, 0), Extract7(val, 1), Extract7(val, 2), Extract7(val, 3), Extract7(val, 4) + 128]
  }

  /** The same bytes, one by one. */
  ghost function ByteByByte(val: nat): seq<nat> {
    if val < 128 then [val + 128] else [val % 128] + ByteByByte(val / 128)
  }

  lemma Shift7(val: nat)
    ensures Shr(val, 0) == val && Shr(val, 7) == val / 128 && Shr(val, 14) == val / 128 / 128
    ensures Shr(val, 21) == val / 128 / 128 / 128 && Shr(val, 28) == val / 128 / 128 / 128 / 128
  {
    assert Pow2(7) == 128;
    Pow2Add(7, 7);
    Pow2Add(7, 14);
    Pow2Add(7, 21);
    assert Pow2(14) == 16384 && Pow2(21) == 2097152 && Pow2(28) == 268435456;
    hide Pow2;
  }

  lemma VariableByteIs(val: nat)
    requires val < WORD
    ensures VariableByte(val) == ByteByByte(val)
  {
    Shift7(val);
    hide Shr, ByteByByte;
    if val < 0x80 {
      Unfold(val);
    } else if val < 0x4000 {
      TwoBytes(val);
    } else if val < 0x20_0000 {
      ThreeBytes(val);
    } else if val < 0x1000_0000 {
      FourBytes(val);
    } else {
      Unfold(val);
      FourBytes(val / 128);
    }
  }

  lemma {:induction false} BytesOk(val: nat)
    ensures DigitsOk(ByteByByte(val), 256)
  {
    if val >= 128 {
      BytesOk(val / 128);
      var rest := ByteByByte(val / 128);
      assert ByteByByte(val) == [val % 128] + rest;
    }
  }

  lemma TwoBytes(val: nat)
    requires 0x80 <= val < 0x4000
    ensures ByteByByte(val) == [val % 128, val / 128 + 128]
  {
    Unfold(val);
    Unfold(val / 128);
  }

  lemma ThreeBytes(val: nat)
    requires 0x4000 <= val < 0x20_0000
    ensures ByteByByte(val) == [val % 128, val / 128 % 128, val / 128 / 128 + 128]
  {
    Unfold(val);
    TwoBytes(val / 128);
  }

  lemma FourBytes(val: nat)
    requires 0x20_0000 <= val < 0x1000_0000
    ensures ByteByByte(val) == [val % 128, val / 128 % 128, val / 128 / 128 % 128, val / 128 / 128 / 128 + 128]
  {
    Unfold(val);
    ThreeBytes(val / 128);
  }

  lemma Unfold(val: nat)
    ensures ByteByByte(val) == if val < 128 then [val + 128] else [val % 128] + ByteByByte(val / 128)
  {
  }

  method DecodeVariableByte(input: seq<nat>, start: nat, ghost val: nat) returns (v: nat, next: nat)
    requires start <= |input| && ByteByByte(val) <= input[start..]
    ensures v == val && next == start + |ByteByByte(val)|
  {
    hide ByteByByte;
    next := start;
    var scale := 1;
    v := 0;
    ghost var left := val;
    while true
      invariant start <= next <= |input| && ByteByByte(left) <= input[next..]
      invariant next + |ByteByByte(left)| == start + |ByteByByte(val)|
      invariant v + scale * left == val
      decreases left
    {
      Unfold(left);
      var c := input[next];
      assert c == ByteByByte(left)[0];
      v := v + c % 128 * scale;
      next := next + 1;
      if c >= 128 {
        break;
      }
      assert ByteByByte(left)[1..] == ByteByByte(left / 128);
      assert input[next - 1..][1..] == input[next..];
      ScaleStep(scale, left);
      scale := scale * 128;
      left := left / 128;
    }
  }

  lemma ScaleStep(scale: nat, left: nat)
    ensures scale * left == left % 128 * scale + scale * 128 * (left / 128)
  {
    Distribute(scale, left % 128, 128 * (left / 128));
    Associate(scale, 128, left / 128);
    assert left == left % 128 + 128 * (left / 128);
    assert scale * (left % 128) == left % 128 * scale;
  }

  /* ----- Blocks ----- */

  const BLOCK_SIZE: nat := 128

  /** The sum stands for "not known to the reader": it is stored in front of the block. */
  const NO_SUM: nat := 0xFFFF_FFFF

  ghost function Total(values: seq<nat>): nat {
    if values == [] then 0 else Total(values[..|values| - 1]) + values[|values| - 1]
  }

  /** Running totals. */
  ghost function Sums(values: seq<nat>): (sums: seq<nat>)
    ensures |sums| == |values|
  {
    if values == [] then [] else Sums(values[..|values| - 1]) + [Total(values)]
  }

  lemma {:induction false} SumsAt(values: seq<nat>, i: nat)
    requires i < |values|
    ensures Sums(values)[i] == Total(values[..i + 1])
  {
    var last := |values| - 1;
    if i < last {
      SumsAt(values[..last], i);
      assert values[..last][..i + 1] == values[..i + 1];
    } else {
      assert values[..i + 1] == values;
    }
  }

  lemma TotalStep(values: seq<nat>, i: nat)
    requires i < |values|
    ensures Total(values[..i + 1]) == Total(values[..i]) + values[i]
  {
    assert values[..i + 1][..i] == values[..i];
  }

  lemma {:induction false} TotalRises(values: seq<nat>, i: nat, j: nat)
    requires i <= j <= |values|
    ensures Total(values[..i]) <= Total(values[..j])
    decreases j
  {
    if i < j {
      TotalRises(values, i, j - 1);
      TotalStep(values, j - 1);
    }
  }

  /** All running totals but the last one, which is the sum itself. */
  ghost function Inner(values: seq<nat>): seq<nat>
    requires values != []
  {
    Sums(values)[..|values| - 1]
  }

  lemma InnerAt(values: seq<nat>, i: nat)
    requires i + 1 < |values|
    ensures i < |Inner(values)| && Inner(values)[i] == Total(values[..i + 1])
  {
    SumsAt(values, i);
  }

  lemma InnerWithin(values: seq<nat>)
    requires values != []
    ensures Within(Inner(values), 0, Total(values))
  {
    hide Inner, Sums, Total;
    assert values[..|values|] == values;
    InnerSize(values);
    forall i | 0 <= i < |values| - 1 ensures Inner(values)[i] <= Total(values) {
      InnerAt(values, i);
      TotalRises(values, i + 1, |values|);
    }
    forall i, j | 0 <= i < j < |values| - 1 ensures Inner(values)[i] <= Inner(values)[j] {
      InnerAt(values, i);
      InnerAt(values, j);
      TotalRises(values, i + 1, j + 1);
    }
  }

  /** A block the codec accepts: the 32-bit running totals do not wrap, and the sum is not
      the one value for which the number of candidates would. */
  ghost predicate BlockOk(values: seq<nat>, sum: nat) {
    && 0 < |values| <= BLOCK_SIZE
    && Total(values) < WORD && (|values| > 1 ==> Total(values) < WORD - 1)
    && (sum == NO_SUM || sum == Total(values))
  }

  /** Beside the size, the 32-bit totals and the announced sum, `BlockOk` asks for nothing but
      counts of candidates that do not wrap. */
  lemma BlockOkIff(values: seq<nat>, sum: nat)
    requires values != [] && Total(values) < WORD && Within(Inner(values), 0, Total(values))
    ensures BlockOk(values, sum)
            <==> |values| <= BLOCK_SIZE && (sum == NO_SUM || sum == Total(values))
                 && CountsFit(Inner(values), 0, Total(values))
  {
    CountsFitIff(Inner(values), 0, Total(values));
  }

  /** Two values with the largest 32-bit sum: the count of candidates is 0. */
  lemma LargestSumDoesNotFit()
    ensures var values := [0, 0xFFFF_FFFF];
            && Total(values) == WORD - 1 && Inner(values) == [0] && Within(Inner(values), 0, Total(values))
            && Candidates(0, Total(values)) == 0 && !CountsFit(Inner(values), 0, Total(values))
            && !BlockOk(values, NO_SUM)
  {
    var values: seq<nat> := [0, 0xFFFF_FFFF];
    assert values[..1] == [0] && [0][..0] == [];
    assert Total([0]) == 0 && Sums([0]) == [0];
    InnerWithin(values);
    CountsFitIff(Inner(values), 0, Total(values));
  }

  ghost function Items(values: seq<nat>): seq<Item>
    requires values != []
  {
    InnerWithin(values);
    Interp(Inner(values), 0, Total(values))
  }

  /** `bytes` is an encoding of the block: its sum if needed, and its bits in whole bytes. */
  ghost predicate Encodes(bytes: seq<nat>, values: seq<nat>, sum: nat)
    requires values != []
  {
    exists head, body :: bytes == head + body && IsHead(head, values, sum) && IsBody(body, values)
  }

  ghost predicate IsHead(head: seq<nat>, values: seq<nat>, sum: nat) {
    head == if sum == NO_SUM then ByteByByte(Total(values)) else []
  }

  ghost predicate IsBody(body: seq<nat>, values: seq<nat>)
    requires values != []
  {
    && |body| == CeilDiv(Size(Items(values)), 8) && DigitsOk(body, 256)
    && Digits(body, 256) == Value(Items(values))
  }

  method EncodeBlock(values: seq<nat>, sum: nat) returns (bytes: seq<nat>)
    requires BlockOk(values, sum)
    ensures Encodes(bytes, values, sum)
  {
    hide Interp, Within, Total, Sums, VariableByte, ByteByByte, IsBody;
    assert values[..1] == [values[0]];
    FirstSum(values);
    var inbuf := [values[0]];
    for i := 1 to |values|
      invariant |inbuf| == i && forall j :: 0 <= j < i ==> inbuf[j] == Total(values[..j + 1])
    {
      TotalStep(values, i);
      inbuf := inbuf + [inbuf[i - 1] + values[i]];
    }
    assert values[..|values|] == values;
    var total := inbuf[|values| - 1];
    bytes := [];
    if sum == NO_SUM {
      VariableByteIs(total);
      bytes := VariableByte(total);
    }
    ghost var head := bytes;
    forall j | 0 <= j < |values| - 1 ensures inbuf[j] == Inner(values)[j] {
      SumsAt(values, j);
    }
    assert inbuf[..|values| - 1] == Inner(values);
    var body := EncodeBody(inbuf[..|values| - 1], total, values);
    bytes := bytes + body;
    assert IsHead(head, values, sum) && bytes == head + body;
  }

  lemma FirstSum(values: seq<nat>)
    requires values != []
    ensures Total(values[..1]) == values[0]
  {
    assert values[..1][..0] == [];
    TotalStep(values, 0);
    assert Total(values[..0]) == 0;
  }

  method EncodeBody(inner: seq<nat>, total: nat, ghost values: seq<nat>) returns (body: seq<nat>)
    requires values != [] && total == Total(values) && inner == Inner(values)
    requires |values| > 1 ==> total < WORD - 1
    ensures IsBody(body, values)
  {
    hide Interp, Within, Total, Sums, Digits, DigitsOk, Value, Size, ItemsOk, Inner;
    InnerWithin(values);
    InnerSize(values);
    var w := new BitWriter();
    if |inner| > 0 {
      CountsFitIff(inner, 0, total);
      WriteInterpolative(w, inner, 0, total);
    } else {
      NoItems(inner, 0, total, []);
    }
    assert w.items == [] + Items(values) == Items(values);
    WrittenValue(w.buf, w.size, w.items);
    body := Written(w.buf, w.size);
  }

  lemma InnerSize(values: seq<nat>)
    requires values != []
    ensures |Inner(values)| == |values| - 1
  {
  }

  /** Decoding gives back the values, and ends exactly where the encoding ends, whatever
      bytes follow it. */
  method DecodeBlock(input: seq<nat>, start: nat, sum: nat, n: nat, ghost values: seq<nat>, ghost bytes: seq<nat>)
    returns (out: seq<nat>, end: nat)
    requires BlockOk(values, sum) && n == |values| && Encodes(bytes, values, sum)
    requires start <= |input| && bytes <= input[start..] && DigitsOk(input, 256)
    ensures out == values && end == start + |bytes|
  {
    hide Interp, Within, Total, Sums, ByteByByte, IsBody, DigitsOk;
    ghost var head, body :| bytes == head + body && IsHead(head, values, sum) && IsBody(body, values);
    assert head <= input[start..];
    assert body <= input[start + |head|..];
    var total, from := sum, start;
    if sum == NO_SUM {
      total, from := DecodeVariableByte(input, start, Total(values));
    }
    assert from == start + |head| && total == Total(values);
    out := [total];
    end := from;
    if n > 1 {
      var inner, used := DecodeBody(input, from, total, n, values, body);
      out := Differences(inner + [total], values);
      end := from + used;
    } else {
      NoBody(values, body);
      OneValue(values);
    }
  }

  lemma OneValue(values: seq<nat>)
    requires |values| == 1
    ensures values == [Total(values)]
  {
    assert values[..0] == [];
  }

  lemma NoBody(values: seq<nat>, body: seq<nat>)
    requires |values| == 1 && IsBody(body, values)
    ensures body == []
  {
    InnerWithin(values);
    assert Inner(values) == [];
  }

  /** The running totals, and how many bytes they took. */
  method DecodeBody(input: seq<nat>, from: nat, total: nat, n: nat, ghost values: seq<nat>, ghost body: seq<nat>)
    returns (inner: seq<nat>, used: nat)
    requires n == |values| > 1 && total == Total(values) < WORD - 1 && IsBody(body, values)
    requires from <= |input| && body <= input[from..] && DigitsOk(input, 256)
    ensures inner == Inner(values) && used == |body|
  {
    hide Interp, Within, Total, Sums, Digits, DigitsOk, Value, Size, Pow2, Inner, Items, Before;
    InnerWithin(values);
    InnerSize(values);
    DropOk(input, from);
    var r := new BitReader(input[from..]);
    ghost var more := BodyAhead(input[from..], body, values);
    assert Items(values) + [] == Items(values);
    ItemsAre(values);
    StandsBefore(r, Items(values), more);
    CountsFitIff(Inner(values), 0, total);
    inner := ReadInterpolative(r, n - 1, 0, total, Inner(values), [], more);
    used := CeilDiv(r.pos, 8);
  }

  lemma ItemsAre(values: seq<nat>)
    requires values != [] && Within(Inner(values), 0, Total(values))
    ensures Items(values) == Interp(Inner(values), 0, Total(values))
  {
    hide Interp, Within, Inner;
  }

  lemma DropOk(input: seq<nat>, from: nat)
    requires from <= |input| && DigitsOk(input, 256)
    ensures DigitsOk(input[from..], 256)
  {
  }

  /** The bytes ahead spell the block's items, and after them something. */
  lemma BodyAhead(ahead: seq<nat>, body: seq<nat>, values: seq<nat>) returns (more: nat)
    requires values != [] && IsBody(body, values) && body <= ahead
    ensures Digits(ahead, 256) == Value(Items(values)) + Pow2(Size(Items(values))) * more
    ensures Size(Items(values)) <= 8 * |ahead|
  {
    hide Digits, Value, Size, Pow2, Items, Power;
    var size := Size(Items(values));
    var k := CeilDiv(size, 8);
    assert ahead == body + ahead[|body|..];
    DigitsConcat(body, ahead[|body|..], 256);
    WordIsPow2();
    PowerOfPow2(8, k);
    Pow2Add(size, 8 * k - size);
    Associate(Pow2(size), Pow2(8 * k - size), Digits(ahead[|body|..], 256));
    more := Pow2(8 * k - size) * Digits(ahead[|body|..], 256);
  }

  lemma StandsBefore(r: BitReader, items: seq<Item>, more: nat)
    requires r.Valid() && r.pos == 0 && Size(items) <= 8 * |r.input|
    requires r.Rest() == Value(items) + Pow2(Size(items)) * more
    ensures Before(r, items + [], more)
  {
    assert items + [] == items;
  }

  /** Turns running totals into the values they add up, from the back. */
  method Differences(sums: seq<nat>, ghost values: seq<nat>) returns (out: seq<nat>)
    requires values != [] && sums == Inner(values) + [Total(values)]
    ensures out == values
  {
    hide Total, Sums;
    AllSums(values, sums);
    out := sums;
    var i := |sums| - 1;
    while i > 0
      invariant 0 <= i < |sums| == |out| == |values|
      invariant forall j :: 0 <= j <= i ==> out[j] == sums[j]
      invariant forall j :: i < j < |out| ==> out[j] == values[j]
    {
      TotalStep(values, i);
      out := out[i := out[i] - out[i - 1]];
      i := i - 1;
    }
    FirstSum(values);
  }

  lemma AllSums(values: seq<nat>, sums: seq<nat>)
    requires values != [] && sums == Inner(values) + [Total(values)]
    ensures |sums| == |values| && forall j :: 0 <= j < |sums| ==> sums[j] == Total(values[..j + 1])
  {
    assert values[..|values|] == values;
    forall j | 0 <= j < |sums| ensures sums[j] == Total(values[..j + 1]) {
      SumsAt(values, j);
    }
  }
}
