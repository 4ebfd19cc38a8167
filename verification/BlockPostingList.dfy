/** Compressed posting lists: blocks of document gaps and frequencies behind a table of block
    maxima and endpoints, and the cursor that decodes them block by block.

    Whatever order the blocks are stored in, the cursor is an index into the plain lists.
 */
module BlockPostingList {
  import opened Bits
  import opened Interpolative

  /* ----- The plain list, cut into blocks ----- */

  ghost predicate Increasing(s: seq<nat>) {
    forall i, j :: 0 <= i < j < |s| ==> s[i] < s[j]
  }

  function Blocks(n: nat): nat { CeilDiv(n, BLOCK_SIZE) }

  function BlockLength(n: nat, b: nat): nat {
    if (b + 1) * BLOCK_SIZE <= n then BLOCK_SIZE else n % BLOCK_SIZE
  }

  lemma BlockWithin(n: nat, b: nat)
    requires b < Blocks(n)
    ensures 0 < BlockLength(n, b) <= BLOCK_SIZE && b * BLOCK_SIZE + BlockLength(n, b) <= n
    ensures b + 1 < Blocks(n) ==> BlockLength(n, b) == BLOCK_SIZE && (b + 1) * BLOCK_SIZE < n
    ensures b + 1 == Blocks(n) ==> b * BLOCK_SIZE + BlockLength(n, b) == n
  {
  }

  function Part(s: seq<nat>, b: nat): (part: seq<nat>)
    requires b < Blocks(|s|)
    ensures |part| == BlockLength(|s|, b)
  {
    BlockWithin(|s|, b);
    s[b * BLOCK_SIZE..b * BLOCK_SIZE + BlockLength(|s|, b)]
  }

  /** The least document block b could start with. */
  ghost function Base(docs: seq<nat>, b: nat): nat
    requires b < Blocks(|docs|)
  {
    BlockWithin(|docs|, b);
    if b == 0 then 0 else docs[b * BLOCK_SIZE - 1] + 1
  }

  ghost function BlockMax(docs: seq<nat>, b: nat): nat
    requires b < Blocks(|docs|)
  {
    BlockWithin(|docs|, b);
    docs[b * BLOCK_SIZE + BlockLength(|docs|, b) - 1]
  }

  function Minus(x: nat, y: nat): nat { if x >= y then x - y else 0 }

  /** The least the i-th document of a block could be. */
  function Least(part: seq<nat>, base: nat, i: nat): nat
    requires i < |part|
  {
    if i == 0 then base else part[i - 1] + 1
  }

  /** How far each document lies beyond the least it could be. */
  ghost function Gaps(part: seq<nat>, base: nat): (gaps: seq<nat>)
    ensures |gaps| == |part|
  {
    seq(|part|, i requires 0 <= i < |part| => Minus(part[i], Least(part, base, i)))
  }

  /** Frequencies are stored one less. */
  ghost function Lowered(freqs: seq<nat>): (lowered: seq<nat>)
    ensures |lowered| == |freqs|
  {
    seq(|freqs|, i requires 0 <= i < |freqs| => Minus(freqs[i], 1))
  }

  lemma GapAt(part: seq<nat>, base: nat, i: nat)
    requires Increasing(part) && i < |part| && base <= part[0]
    ensures Least(part, base, i) <= part[i] && Gaps(part, base)[i] == part[i] - Least(part, base, i)
  {
    assert i > 0 ==> part[i - 1] < part[i];
  }

  lemma GapsFront(part: seq<nat>, base: nat)
    requires Increasing(part) && |part| > 1
    ensures Gaps(part, base)[..|part| - 1] == Gaps(part[..|part| - 1], base) && Increasing(part[..|part| - 1])
  {
  }

  lemma TotalLast(s: seq<nat>)
    requires s != []
    ensures Total(s) == Total(s[..|s| - 1]) + s[|s| - 1]
    ensures |s| == 1 ==> Total(s) == s[0]
  {
    assert Total([]) == 0;
  }

  /** The gaps add up to what the maximum leaves over. */
  lemma {:induction false} GapsTotal(part: seq<nat>, base: nat)
    requires Increasing(part) && part != [] && base <= part[0]
    ensures Total(Gaps(part, base)) + base + (|part| - 1) == part[|part| - 1]
    decreases |part|
  {
    hide Total, Gaps, Increasing;
    var m: nat := |part| - 1;
    GapAt(part, base, m);
    TotalLast(Gaps(part, base));
    if m > 0 {
      GapsFront(part, base);
      GapsTotal(part[..m], base);
    }
  }

  /** Lists the format can hold: 32-bit documents, positive frequencies, and block sums the
      block codec accepts. */
  ghost predicate ListOk(docs: seq<nat>, freqs: seq<nat>) {
    && 0 < |docs| == |freqs| < WORD && Increasing(docs)
    && (forall i :: 0 <= i < |docs| ==> docs[i] < WORD && freqs[i] > 0)
    && (forall b: nat :: b < Blocks(|docs|) ==> BlockOk(Lowered(Part(freqs, b)), NO_SUM))
  }

  ghost function DocGaps(docs: seq<nat>, b: nat): seq<nat>
    requires b < Blocks(|docs|)
  {
    Gaps(Part(docs, b), Base(docs, b))
  }

  lemma PartFacts(docs: seq<nat>, b: nat)
    requires Increasing(docs) && b < Blocks(|docs|)
    ensures Increasing(Part(docs, b)) && Part(docs, b) != [] && |Part(docs, b)| == BlockLength(|docs|, b)
    ensures Base(docs, b) <= Part(docs, b)[0]
    ensures Part(docs, b)[|Part(docs, b)| - 1] == BlockMax(docs, b)
  {
    BlockWithin(|docs|, b);
  }

  lemma BlockGapsOk(docs: seq<nat>, freqs: seq<nat>, b: nat)
    requires ListOk(docs, freqs) && b < Blocks(|docs|)
    ensures DocGaps(docs, b) != [] && |DocGaps(docs, b)| == BlockLength(|docs|, b)
    ensures BlockOk(DocGaps(docs, b), Total(DocGaps(docs, b)))
    ensures BlockMax(docs, b) - Base(docs, b) - (BlockLength(|docs|, b) - 1) == Total(DocGaps(docs, b))
  {
    MaxSmall(docs, freqs, b);
    BlockWithin(|docs|, b);
    hide Part, Base, BlockMax, Gaps, Blocks, Total, ListOk;
    PartFacts(docs, b);
    GapsTotal(Part(docs, b), Base(docs, b));
  }

  lemma MaxSmall(docs: seq<nat>, freqs: seq<nat>, b: nat)
    requires ListOk(docs, freqs) && b < Blocks(|docs|)
    ensures BlockMax(docs, b) < WORD && Increasing(docs)
  {
    BlockWithin(|docs|, b);
  }

  /* ----- What is stored ----- */

  /** `data` holds block b at its endpoint: the gaps' encoding, then the frequencies'. */
  ghost predicate HoldsBlock(data: seq<nat>, at: nat, docs: seq<nat>, freqs: seq<nat>, b: nat)
    requires |docs| == |freqs| && b < Blocks(|docs|)
  {
    exists e1, e2 :: AtBlock(data, at, e1, e2) && EncodesBlock(docs, freqs, b, e1, e2)
  }

  ghost predicate AtBlock(data: seq<nat>, at: nat, e1: seq<nat>, e2: seq<nat>) {
    at <= |data| && e1 + e2 <= data[at..]
  }

  ghost predicate EncodesBlock(docs: seq<nat>, freqs: seq<nat>, b: nat, e1: seq<nat>, e2: seq<nat>)
    requires |docs| == |freqs| && b < Blocks(|docs|)
  {
    && DocGaps(docs, b) != [] && Encodes(e1, DocGaps(docs, b), Total(DocGaps(docs, b)))
    && Part(freqs, b) != [] && Encodes(e2, Lowered(Part(freqs, b)), NO_SUM)
  }

  function EndpointOf(endpoints: seq<nat>, b: nat): nat
    requires b <= |endpoints|
  {
    if b == 0 then 0 else endpoints[b - 1]
  }

  /** The bytes of a posting list: its length, the block maxima, the endpoints of all blocks
      but the first, and the blocks, in any order of their own. */
  ghost predicate Stores(
    bytes: seq<nat>, docs: seq<nat>, freqs: seq<nat>, maxs: seq<nat>, endpoints: seq<nat>, data: seq<nat>)
  {
    && ListOk(docs, freqs)
    && bytes == ByteByByte(|docs|) + Interpolative.Bytes(maxs) + Interpolative.Bytes(endpoints) + data
    && |maxs| == Blocks(|docs|) == |endpoints| + 1
    && DigitsOk(endpoints, WORD) && DigitsOk(data, 256)
    && (forall b: nat :: b < |maxs| ==> EntryOk(docs, freqs, b, maxs[b], EndpointOf(endpoints, b), data))
  }

  /** The bytes store the lists, somehow laid out. */
  ghost predicate Stored(bytes: seq<nat>, docs: seq<nat>, freqs: seq<nat>) {
    exists maxs, endpoints, data :: Stores(bytes, docs, freqs, maxs, endpoints, data)
  }

  /** What the tables say of block b is true. */
  ghost predicate EntryOk(docs: seq<nat>, freqs: seq<nat>, b: nat, max: nat, at: nat, data: seq<nat>) {
    |docs| == |freqs| && b < Blocks(|docs|) && max == BlockMax(docs, b) && HoldsBlock(data, at, docs, freqs, b)
  }

  lemma {:induction false} BytesAt(words: seq<nat>, i: nat)
    requires i < |words|
    ensures Interpolative.Bytes(words)[4 * i..4 * i + 4] == WordBytes(words[i])
  {
    var rest := Interpolative.Bytes(words[1..]);
    assert Interpolative.Bytes(words) == WordBytes(words[0]) + rest;
    if i > 0 {
      BytesAt(words[1..], i - 1);
      assert Interpolative.Bytes(words)[4 * i..4 * i + 4] == rest[4 * (i - 1)..4 * (i - 1) + 4];
    }
  }

  /** A 32-bit number in memory, low byte first. */
  method ReadWord(input: seq<nat>, at: nat, ghost w: nat) returns (v: nat)
    requires at + 4 <= |input| && input[at..at + 4] == WordBytes(w) && w < WORD
    ensures v == w
  {
    var q := input[at..at + 4];
    Quarters(w);
    v := q[0] + 256 * (q[1] + 256 * (q[2] + 256 * q[3]));
  }

  /* ----- Writing ----- */

  lemma EncodesDigits(bytes: seq<nat>, values: seq<nat>, sum: nat)
    requires values != [] && Encodes(bytes, values, sum)
    ensures DigitsOk(bytes, 256)
  {
    hide ByteByByte, Total, Digits;
    BytesOk(Total(values));
  }

  lemma LoweredAt(part: seq<nat>, i: nat)
    requires i < |part| && part[i] > 0
    ensures Lowered(part)[i] == part[i] - 1
  {
  }

  lemma FreqsPositive(docs: seq<nat>, freqs: seq<nat>, b: nat)
    requires ListOk(docs, freqs) && b < Blocks(|docs|)
    ensures forall i :: 0 <= i < |Part(freqs, b)| ==> Part(freqs, b)[i] > 0
  {
    BlockWithin(|freqs|, b);
  }

  /** The gaps and the lowered frequencies of one block. */
  method FillBuffers(docs: seq<nat>, freqs: seq<nat>, b: nat, last: int)
    returns (docsBuf: seq<nat>, freqsBuf: seq<nat>, lastDoc: int)
    requires ListOk(docs, freqs) && |docs| == |freqs| && Increasing(docs) && b < Blocks(|docs|)
    requires last + 1 == Base(docs, b)
    ensures docsBuf == DocGaps(docs, b) && freqsBuf == Lowered(Part(freqs, b)) && lastDoc == BlockMax(docs, b)
  {
    hide Blocks, BlockLength, ListOk, Gaps, Lowered, Part, Base, BlockMax, Increasing;
    PartFacts(docs, b);
    FreqsPositive(docs, freqs, b);
    var part, fpart := Part(docs, b), Part(freqs, b);
    docsBuf, freqsBuf, lastDoc := [], [], last;
    for i := 0 to |part|
      invariant |docsBuf| == |freqsBuf| == i
      invariant lastDoc == if i == 0 then last else part[i - 1]
      invariant forall j :: 0 <= j < i ==> docsBuf[j] == Gaps(part, Base(docs, b))[j]
      invariant forall j :: 0 <= j < i ==> freqsBuf[j] == Lowered(fpart)[j]
    {
      GapAt(part, Base(docs, b), i);
      LoweredAt(fpart, i);
      docsBuf := docsBuf + [part[i] - lastDoc - 1];
      freqsBuf := freqsBuf + [fpart[i] - 1];
      lastDoc := part[i];
    }
  }

  /** After `b` blocks: their maxima, the ends of their bytes and the bytes. */
  ghost predicate Progress(
    docs: seq<nat>, freqs: seq<nat>, b: nat, maxs: seq<nat>, ends: seq<nat>, data: seq<nat>)
  {
    && |maxs| == b && |ends| == b && DigitsOk(data, 256)
    && (forall i :: 0 <= i < |ends| ==> ends[i] <= |data|)
    && EndpointOf(ends, b) == |data|
    && (forall i: nat :: i < b ==> EntryOk(docs, freqs, i, maxs[i], EndpointOf(ends, i), data))
  }

  lemma StillHolds(docs: seq<nat>, freqs: seq<nat>, b: nat, max: nat, at: nat, data: seq<nat>, more: seq<nat>)
    requires EntryOk(docs, freqs, b, max, at, data)
    ensures EntryOk(docs, freqs, b, max, at, data + more)
  {
    hide EncodesBlock, BlockMax, Blocks;
    var e1, e2 :| AtBlock(data, at, e1, e2) && EncodesBlock(docs, freqs, b, e1, e2);
    assert (data + more)[at..] == data[at..] + more;
    assert AtBlock(data + more, at, e1, e2);
  }

  lemma NewEntry(docs: seq<nat>, freqs: seq<nat>, b: nat, data: seq<nat>, e1: seq<nat>, e2: seq<nat>)
    requires |docs| == |freqs| && b < Blocks(|docs|) && EncodesBlock(docs, freqs, b, e1, e2)
    ensures EntryOk(docs, freqs, b, BlockMax(docs, b), |data|, data + (e1 + e2))
    ensures DigitsOk(e1 + e2, 256)
  {
    EncodesDigits(e1, DocGaps(docs, b), Total(DocGaps(docs, b)));
    EncodesDigits(e2, Lowered(Part(freqs, b)), NO_SUM);
    hide EncodesBlock, BlockMax, Blocks;
    assert (data + (e1 + e2))[|data|..] == e1 + e2;
    assert AtBlock(data + (e1 + e2), |data|, e1, e2);
  }

  lemma AddsBlock(
    docs: seq<nat>, freqs: seq<nat>, b: nat, maxs: seq<nat>, ends: seq<nat>, data: seq<nat>,
    e1: seq<nat>, e2: seq<nat>)
    requires Progress(docs, freqs, b, maxs, ends, data) && |docs| == |freqs| && b < Blocks(|docs|)
    requires EncodesBlock(docs, freqs, b, e1, e2)
    ensures Progress(docs, freqs, b + 1, maxs + [BlockMax(docs, b)], ends + [|data + (e1 + e2)|], data + (e1 + e2))
  {
    hide EncodesBlock, BlockMax, EntryOk, Blocks;
    NewEntry(docs, freqs, b, data, e1, e2);
    var data', ends', maxs' := data + (e1 + e2), ends + [|data + (e1 + e2)|], maxs + [BlockMax(docs, b)];
    forall i: nat | i < b + 1 ensures EntryOk(docs, freqs, i, maxs'[i], EndpointOf(ends', i), data') {
      assert EndpointOf(ends', i) == EndpointOf(ends, i);
      if i < b {
        StillHolds(docs, freqs, i, maxs[i], EndpointOf(ends, i), data, e1 + e2);
      }
    }
  }

  lemma NoBlocks(docs: seq<nat>, freqs: seq<nat>)
    ensures Progress(docs, freqs, 0, [], [], [])
  {
  }

  /** The two encodings of one block. */
  method EncodePair(docs: seq<nat>, freqs: seq<nat>, b: nat, lastDoc: int, blockBase: nat)
    returns (e1: seq<nat>, e2: seq<nat>, lastDoc': nat)
    requires ListOk(docs, freqs) && |docs| == |freqs| && Increasing(docs) && b < Blocks(|docs|)
    requires blockBase == lastDoc + 1 == Base(docs, b)
    ensures EncodesBlock(docs, freqs, b, e1, e2) && lastDoc' == BlockMax(docs, b)
  {
    hide ListOk, DocGaps, BlockMax, Base, Part, Total, BlockOk, Blocks, Encodes, Lowered, BlockLength;
    var docsBuf, freqsBuf, last := FillBuffers(docs, freqs, b, lastDoc);
    BlockGapsOk(docs, freqs, b);
    BlockFreqsOk(docs, freqs, b);
    e1 := EncodeBlock(docsBuf, last - blockBase - (BlockLength(|docs|, b) - 1));
    e2 := EncodeBlock(freqsBuf, NO_SUM);
    lastDoc' := last;
  }

  /** Writes the blocks in order.  Endpoints are 32-bit, so the blocks must fit that. */
  method Write(docs: seq<nat>, freqs: seq<nat>)
    returns (bytes: seq<nat>, ghost maxs: seq<nat>, ghost endpoints: seq<nat>, ghost data: seq<nat>)
    requires ListOk(docs, freqs)
    ensures |data| <= |bytes| && (|data| < WORD ==> Stores(bytes, docs, freqs, maxs, endpoints, data))
    ensures |bytes| < WORD ==> Stored(bytes, docs, freqs)
  {
    hide Progress, ListOk, BlockMax, Base, EncodesBlock, VariableByte, ByteByByte, Blocks, Interpolative.Bytes, Stores, Increasing;
    ListShape(docs, freqs);
    var n := |docs|;
    var blocks := Blocks(n);
    var maxWords: seq<nat>, ends: seq<nat>, blockBytes: seq<nat> := [], [], [];
    NoBlocks(docs, freqs);
    var lastDoc: int, blockBase: nat := -1, 0;
    for b := 0 to blocks
      invariant Progress(docs, freqs, b, maxWords, ends, blockBytes)
      invariant b < blocks ==> blockBase == lastDoc + 1 == Base(docs, b)
    {
      var e1, e2, last := EncodePair(docs, freqs, b, lastDoc, blockBase);
      AddsBlock(docs, freqs, b, maxWords, ends, blockBytes, e1, e2);
      maxWords := maxWords + [last];
      blockBytes := blockBytes + (e1 + e2);
      ends := ends + [|blockBytes|];
      lastDoc, blockBase := last, last + 1;
      NextBase(docs, b);
    }
    VariableByteIs(n);
    ProgressSizes(docs, freqs, blocks, maxWords, ends, blockBytes);
    var endpointWords := ends[..blocks - 1];
    bytes := VariableByte(n) + Interpolative.Bytes(maxWords) + Interpolative.Bytes(endpointWords) + blockBytes;
    Finished(bytes, docs, freqs, maxWords, ends, endpointWords, blockBytes);
    maxs, endpoints, data := maxWords, endpointWords, blockBytes;
  }

  lemma ProgressSizes(docs: seq<nat>, freqs: seq<nat>, b: nat, maxs: seq<nat>, ends: seq<nat>, data: seq<nat>)
    requires Progress(docs, freqs, b, maxs, ends, data)
    ensures |maxs| == |ends| == b
  {
  }

  lemma ListShape(docs: seq<nat>, freqs: seq<nat>)
    requires ListOk(docs, freqs)
    ensures 0 < |docs| == |freqs| < WORD && Blocks(|docs|) > 0 && Increasing(docs)
    ensures Base(docs, 0) == 0
  {
  }

  lemma BlockFreqsOk(docs: seq<nat>, freqs: seq<nat>, b: nat)
    requires ListOk(docs, freqs) && b < Blocks(|docs|)
    ensures BlockOk(Lowered(Part(freqs, b)), NO_SUM) && Part(freqs, b) != []
  {
    BlockWithin(|freqs|, b);
  }

  lemma NextBase(docs: seq<nat>, b: nat)
    requires b < Blocks(|docs|)
    ensures b + 1 < Blocks(|docs|) ==> Base(docs, b + 1) == BlockMax(docs, b) + 1
  {
    BlockWithin(|docs|, b);
  }

  lemma Finished(
    bytes: seq<nat>, docs: seq<nat>, freqs: seq<nat>, maxs: seq<nat>, ends: seq<nat>, endpoints: seq<nat>, data: seq<nat>)
    requires ListOk(docs, freqs) && Progress(docs, freqs, Blocks(|docs|), maxs, ends, data)
    requires |ends| == |maxs| > 0 && endpoints == ends[..|maxs| - 1]
    requires bytes == ByteByByte(|docs|) + Interpolative.Bytes(maxs) + Interpolative.Bytes(endpoints) + data
    ensures |data| < WORD ==> Stores(bytes, docs, freqs, maxs, endpoints, data)
  {
    hide EntryOk, ByteByByte, Interpolative.Bytes, ListOk, Blocks;
    forall b: nat | b < |maxs| ensures EndpointOf(endpoints, b) == EndpointOf(ends, b) {
    }
  }

  /* ----- Writing blocks in another order ----- */

  datatype BlockData = BlockData(index: nat, max: nat, docsBytes: seq<nat>, freqsBytes: seq<nat>)

  /** A block taken from a list, as it was encoded there. */
  ghost predicate TakenFrom(block: BlockData, docs: seq<nat>, freqs: seq<nat>) {
    && |docs| == |freqs| && block.index < Blocks(|docs|)
    && block.max == BlockMax(docs, block.index)
    && EncodesBlock(docs, freqs, block.index, block.docsBytes, block.freqsBytes)
  }

  /** All blocks of the list in any order, except that the first one stays first. */
  ghost predicate Reordered(input: seq<BlockData>, docs: seq<nat>, freqs: seq<nat>) {
    && |docs| == |freqs| && |input| == Blocks(|docs|) > 0 && input[0].index == 0
    && (forall i :: 0 <= i < |input| ==> TakenFrom(input[i], docs, freqs))
    && (forall i, j :: 0 <= i < j < |input| ==> input[i].index != input[j].index)
    && (forall b: nat :: b < |input| ==> HasIndex(input, b))
  }

  ghost predicate HasIndex(input: seq<BlockData>, b: nat) {
    exists i :: 0 <= i < |input| && input[i].index == b
  }

  /** The first `k` blocks of the given order are in place. */
  ghost predicate PlacedUpTo(
    input: seq<BlockData>, docs: seq<nat>, freqs: seq<nat>, k: nat, maxs: seq<nat>, endpoints: seq<nat>, data: seq<nat>)
  {
    && k <= |input| == |maxs| == |endpoints| + 1 && DigitsOk(data, 256)
    && (k == 0 ==> data == []) && (forall i :: 0 <= i < |endpoints| ==> endpoints[i] <= |data|)
    && forall i :: 0 <= i < k ==> Placed(input[i], docs, freqs, maxs, endpoints, data)
  }

  ghost predicate Placed(
    block: BlockData, docs: seq<nat>, freqs: seq<nat>, maxs: seq<nat>, endpoints: seq<nat>, data: seq<nat>)
  {
    && block.index < |maxs| == |endpoints| + 1
    && EntryOk(docs, freqs, block.index, maxs[block.index], EndpointOf(endpoints, block.index), data)
  }

  lemma PlaceNext(
    input: seq<BlockData>, docs: seq<nat>, freqs: seq<nat>, k: nat, maxs: seq<nat>, endpoints: seq<nat>, data: seq<nat>)
    requires Reordered(input, docs, freqs) && k < |input|
    requires PlacedUpTo(input, docs, freqs, k, maxs, endpoints, data)
    ensures var block := input[k];
            && block.index < |maxs| == |endpoints| + 1 && (block.index == 0 ==> |data| == 0)
            && PlacedUpTo(input, docs, freqs, k + 1, maxs[block.index := block.max],
                 if block.index != 0 then endpoints[block.index - 1 := |data|] else endpoints,
                 data + (block.docsBytes + block.freqsBytes))
  {
    hide EntryOk, Blocks, BlockMax, EncodesBlock;
    var block := input[k];
    assert TakenFrom(block, docs, freqs);
    assert k > 0 ==> input[0].index != input[k].index;
    NewEntry(docs, freqs, block.index, data, block.docsBytes, block.freqsBytes);
    var more := block.docsBytes + block.freqsBytes;
    var maxs' := maxs[block.index := block.max];
    var endpoints' := if block.index != 0 then endpoints[block.index - 1 := |data|] else endpoints;
    forall i | 0 <= i < k + 1 ensures Placed(input[i], docs, freqs, maxs', endpoints', data + more) {
      if i < k {
        assert Placed(input[i], docs, freqs, maxs, endpoints, data);
        assert input[i].index != block.index;
        StillHolds(docs, freqs, input[i].index, maxs[input[i].index], EndpointOf(endpoints, input[i].index), data, more);
      }
    }
  }

  /** Stores the blocks in the given order; the tables still go by block number. */
  method WriteBlocks(n: nat, input: seq<BlockData>, ghost docs: seq<nat>, ghost freqs: seq<nat>)
    returns (bytes: seq<nat>, ghost maxs: seq<nat>, ghost endpoints: seq<nat>, ghost data: seq<nat>)
    requires ListOk(docs, freqs) && n == |docs| && Reordered(input, docs, freqs)
    ensures |data| <= |bytes| && (|data| < WORD ==> Stores(bytes, docs, freqs, maxs, endpoints, data))
    ensures |bytes| < WORD ==> Stored(bytes, docs, freqs)
  {
    hide ListOk, VariableByte, ByteByByte, Interpolative.Bytes, Stores, PlacedUpTo, Increasing, Reordered;
    ListShape(docs, freqs);
    FirstBlock(input, docs, freqs);
    var blocks := |input|;
    var maxWords: seq<nat> := seq(blocks, i => 0);
    var endpointWords: seq<nat> := seq(blocks - 1, i => 0);
    var blockBytes: seq<nat> := [];
    NothingPlaced(input, docs, freqs, maxWords, endpointWords);
    for k := 0 to blocks
      invariant PlacedUpTo(input, docs, freqs, k, maxWords, endpointWords, blockBytes)
    {
      var block := input[k];
      PlaceNext(input, docs, freqs, k, maxWords, endpointWords, blockBytes);
      if block.index != 0 {
        endpointWords := endpointWords[block.index - 1 := |blockBytes|];
      }
      maxWords := maxWords[block.index := block.max];
      blockBytes := blockBytes + (block.docsBytes + block.freqsBytes);
    }
    VariableByteIs(n);
    bytes := VariableByte(n) + Interpolative.Bytes(maxWords) + Interpolative.Bytes(endpointWords) + blockBytes;
    AllPlaced(bytes, input, docs, freqs, maxWords, endpointWords, blockBytes);
    maxs, endpoints, data := maxWords, endpointWords, blockBytes;
  }

  lemma FirstBlock(input: seq<BlockData>, docs: seq<nat>, freqs: seq<nat>)
    requires Reordered(input, docs, freqs)
    ensures |input| > 0
  {
  }

  lemma NothingPlaced(input: seq<BlockData>, docs: seq<nat>, freqs: seq<nat>, maxs: seq<nat>, endpoints: seq<nat>)
    requires |input| == |maxs| == |endpoints| + 1 && forall i :: 0 <= i < |endpoints| ==> endpoints[i] == 0
    ensures PlacedUpTo(input, docs, freqs, 0, maxs, endpoints, [])
  {
  }

  lemma AllPlaced(
    bytes: seq<nat>, input: seq<BlockData>, docs: seq<nat>, freqs: seq<nat>, maxs: seq<nat>, endpoints: seq<nat>,
    data: seq<nat>)
    requires ListOk(docs, freqs) && Reordered(input, docs, freqs)
    requires PlacedUpTo(input, docs, freqs, |input|, maxs, endpoints, data)
    requires bytes == ByteByByte(|docs|) + Interpolative.Bytes(maxs) + Interpolative.Bytes(endpoints) + data
    ensures |data| < WORD ==> Stores(bytes, docs, freqs, maxs, endpoints, data)
  {
    hide EntryOk, ByteByByte, Interpolative.Bytes, ListOk, Blocks, TakenFrom;
    forall b: nat | b < |maxs| ensures EntryOk(docs, freqs, b, maxs[b], EndpointOf(endpoints, b), data) {
      assert HasIndex(input, b);
      var i :| 0 <= i < |input| && input[i].index == b;
      assert Placed(input[i], docs, freqs, maxs, endpoints, data);
    }
  }

  /* ----- The cursor ----- */

  /** `i` is the least index from `from` on with a document at or past `bound`; the length
      when there is none. */
  ghost predicate LeastFrom(docs: seq<nat>, from: nat, bound: nat, i: nat) {
    from <= i <= |docs| && (forall j :: from <= j < i ==> docs[j] < bound) && (i < |docs| ==> docs[i] >= bound)
  }

  lemma {:induction false} StoredDigits(
    bytes: seq<nat>, docs: seq<nat>, freqs: seq<nat>, maxs: seq<nat>, endpoints: seq<nat>, data: seq<nat>)
    requires Stores(bytes, docs, freqs, maxs, endpoints, data)
    ensures DigitsOk(bytes, 256) && DigitsOk(maxs, WORD)
  {
    hide ByteByByte, HoldsBlock, Digits, Interpolative.Bytes, BlockMax, ListOk;
    BytesOk(|docs|);
    forall b: nat | b < |maxs| ensures maxs[b] < WORD {
      assert EntryOk(docs, freqs, b, maxs[b], EndpointOf(endpoints, b), data);
      MaxSmall(docs, freqs, b);
    }
    BytesValue(maxs);
    BytesValue(endpoints);
    DigitsJoin(ByteByByte(|docs|), Interpolative.Bytes(maxs));
    DigitsJoin(ByteByByte(|docs|) + Interpolative.Bytes(maxs), Interpolative.Bytes(endpoints));
    DigitsJoin(ByteByByte(|docs|) + Interpolative.Bytes(maxs) + Interpolative.Bytes(endpoints), data);
  }

  lemma DigitsJoin(a: seq<nat>, b: seq<nat>)
    requires DigitsOk(a, 256) && DigitsOk(b, 256)
    ensures DigitsOk(a + b, 256)
  {
  }

  /** Where the tables and the blocks start. */
  ghost predicate Offsets(
    bytes: seq<nat>, n: nat, maxs: seq<nat>, endpoints: seq<nat>, data: seq<nat>, maxsAt: nat, endpointsAt: nat, dataAt: nat)
  {
    && DigitsOk(maxs, WORD) && DigitsOk(endpoints, WORD) && DigitsOk(bytes, 256)
    && maxsAt <= endpointsAt <= dataAt <= |bytes|
    && endpointsAt == maxsAt + 4 * |maxs| && dataAt == endpointsAt + 4 * |endpoints|
    && bytes[maxsAt..endpointsAt] == Interpolative.Bytes(maxs)
    && bytes[endpointsAt..dataAt] == Interpolative.Bytes(endpoints)
    && bytes[dataAt..] == data
  }

  lemma SliceOfSlice(bytes: seq<nat>, at: nat, len: nat, off: nat)
    requires at + len <= |bytes| && off + 4 <= len
    ensures bytes[at..at + len][off..off + 4] == bytes[at + off..at + off + 4]
  {
    var part := bytes[at..at + len];
    var x, y := part[off..off + 4], bytes[at + off..at + off + 4];
    forall k | 0 <= k < |x| ensures x[k] == y[k] {
      assert x[k] == part[off + k];
    }
  }

  lemma EntryIn(bytes: seq<nat>, at: nat, part: seq<nat>, off: nat)
    requires at + |part| <= |bytes| && bytes[at..at + |part|] == part && off + 4 <= |part|
    ensures bytes[at + off..at + off + 4] == part[off..off + 4]
  {
    SliceOfSlice(bytes, at, |part|, off);
  }

  lemma TableEntry(bytes: seq<nat>, at: nat, words: seq<nat>, b: nat)
    requires at + 4 * |words| <= |bytes| && bytes[at..at + 4 * |words|] == Interpolative.Bytes(words)
    requires b < |words| && DigitsOk(words, WORD)
    ensures at + 4 * b + 4 <= |bytes| && bytes[at + 4 * b..at + 4 * b + 4] == WordBytes(words[b]) && words[b] < WORD
  {
    hide Interpolative.Bytes, WordBytes;
    var part, off := Interpolative.Bytes(words), 4 * b;
    BytesAt(words, b);
    assert part[off..off + 4] == WordBytes(words[b]);
    assert |part| == 4 * |words| && off + 4 <= |part|;
    EntryIn(bytes, at, part, off);
  }

  /** The decoded gaps of block b, the first one made absolute. */
  ghost predicate Buffered(buf: seq<nat>, docs: seq<nat>, b: nat)
    requires b < Blocks(|docs|)
  {
    var part := Part(docs, b);
    && |buf| == |part| && part != [] && buf[0] == part[0]
    && forall i :: 0 < i < |part| ==> part[i] == part[i - 1] + buf[i] + 1
  }

  lemma BufferedFrom(docs: seq<nat>, b: nat)
    requires Increasing(docs) && b < Blocks(|docs|)
    ensures var gaps := DocGaps(docs, b);
            gaps != [] && Buffered(gaps[0 := gaps[0] + Base(docs, b)], docs, b)
  {
    PartFacts(docs, b);
    hide Part, Base, Blocks, BlockLength, BlockMax;
    var part, base := Part(docs, b), Base(docs, b);
    GapAt(part, base, 0);
    forall i | 0 < i < |part| ensures part[i] == part[i - 1] + Gaps(part, base)[i] + 1 {
      GapAt(part, base, i);
    }
  }

  /** Position `i` of block `b` is an index into the list. */
  lemma PartAt(s: seq<nat>, b: nat, i: nat)
    requires b < Blocks(|s|) && i < BlockLength(|s|, b)
    ensures b * BLOCK_SIZE + i < |s| && Part(s, b)[i] == s[b * BLOCK_SIZE + i]
  {
    BlockWithin(|s|, b);
  }

  lemma StoredOffsets(
    bytes: seq<nat>, docs: seq<nat>, freqs: seq<nat>, maxs: seq<nat>, endpoints: seq<nat>, data: seq<nat>)
    requires Stores(bytes, docs, freqs, maxs, endpoints, data)
    ensures var maxsAt := |ByteByByte(|docs|)|;
            Offsets(bytes, |docs|, maxs, endpoints, data, maxsAt, maxsAt + 4 * |maxs|, maxsAt + 4 * |maxs| + 4 * |endpoints|)
    ensures ByteByByte(|docs|) <= bytes[0..] && |maxs| == Blocks(|docs|) == |endpoints| + 1
  {
    hide Stores, Offsets, ByteByByte, Interpolative.Bytes, DigitsOk, Blocks;
    StoredDigits(bytes, docs, freqs, maxs, endpoints, data);
    StoredParts(bytes, docs, freqs, maxs, endpoints, data);
    var a, b, c := ByteByByte(|docs|), Interpolative.Bytes(maxs), Interpolative.Bytes(endpoints);
    var second, third := |a| + 4 * |maxs|, |a| + 4 * |maxs| + 4 * |endpoints|;
    FourParts(a, b, c, data, bytes, second, third);
    IntoOffsets(bytes, |docs|, maxs, endpoints, data, |a|, second, third);
  }

  lemma IntoOffsets(
    bytes: seq<nat>, n: nat, maxs: seq<nat>, endpoints: seq<nat>, data: seq<nat>, first: nat, second: nat, third: nat)
    requires DigitsOk(maxs, WORD) && DigitsOk(endpoints, WORD) && DigitsOk(bytes, 256)
    requires second == first + 4 * |maxs| && third == second + 4 * |endpoints| && third <= |bytes|
    requires bytes[first..second] == Interpolative.Bytes(maxs)
    requires bytes[second..third] == Interpolative.Bytes(endpoints) && bytes[third..] == data
    ensures Offsets(bytes, n, maxs, endpoints, data, first, second, third)
  {
    hide DigitsOk, Interpolative.Bytes;
  }

  lemma StoredParts(
    bytes: seq<nat>, docs: seq<nat>, freqs: seq<nat>, maxs: seq<nat>, endpoints: seq<nat>, data: seq<nat>)
    requires Stores(bytes, docs, freqs, maxs, endpoints, data)
    ensures bytes == ByteByByte(|docs|) + (Interpolative.Bytes(maxs) + (Interpolative.Bytes(endpoints) + data))
    ensures DigitsOk(endpoints, WORD) && |maxs| == Blocks(|docs|) == |endpoints| + 1
  {
    hide ByteByByte, Interpolative.Bytes, EntryOk, ListOk, DigitsOk, Blocks;
  }

  lemma FourParts(a: seq<nat>, b: seq<nat>, c: seq<nat>, d: seq<nat>, all: seq<nat>, second: nat, third: nat)
    requires all == a + (b + (c + d)) && second == |a| + |b| && third == second + |c|
    ensures a <= all[0..] && third <= |all|
    ensures all[|a|..second] == b && all[second..third] == c && all[third..] == d
  {
    assert all[0..] == all;
  }

  lemma EntryMax(docs: seq<nat>, freqs: seq<nat>, b: nat, max: nat, at: nat, data: seq<nat>)
    requires EntryOk(docs, freqs, b, max, at, data)
    ensures b < Blocks(|docs|) && max == BlockMax(docs, b)
  {
  }

  lemma FirstOfBlock(docs: seq<nat>, b: nat)
    requires b < Blocks(|docs|)
    ensures BlockLength(|docs|, b) > 0 && b * BLOCK_SIZE < |docs| && Part(docs, b)[0] == docs[b * BLOCK_SIZE]
  {
    BlockWithin(|docs|, b);
  }

  lemma BufferedFirst(buf: seq<nat>, docs: seq<nat>, b: nat)
    requires b < Blocks(|docs|) && Buffered(buf, docs, b)
    ensures buf != [] && Part(docs, b) != [] && buf[0] == Part(docs, b)[0]
  {
  }

  lemma BufferedNext(buf: seq<nat>, docs: seq<nat>, b: nat, i: nat)
    requires b < Blocks(|docs|) && Buffered(buf, docs, b) && i + 1 < BlockLength(|docs|, b)
    ensures |buf| == BlockLength(|docs|, b) && b * BLOCK_SIZE + i + 1 < |docs|
    ensures docs[b * BLOCK_SIZE + i + 1] == docs[b * BLOCK_SIZE + i] + buf[i + 1] + 1
  {
    PartAt(docs, b, i);
    PartAt(docs, b, i + 1);
  }

  /** The two encodings stored for a block stand at its endpoint, one after the other. */
  lemma BlockStands(
    bytes: seq<nat>, docs: seq<nat>, freqs: seq<nat>, maxs: seq<nat>, endpoints: seq<nat>, data: seq<nat>,
    maxsAt: nat, endpointsAt: nat, dataAt: nat, b: nat)
    returns (e1: seq<nat>, e2: seq<nat>)
    requires Stores(bytes, docs, freqs, maxs, endpoints, data)
    requires Offsets(bytes, |docs|, maxs, endpoints, data, maxsAt, endpointsAt, dataAt) && b < |maxs|
    ensures b <= |endpoints| && |docs| == |freqs| && b < Blocks(|docs|) && EncodesBlock(docs, freqs, b, e1, e2)
    ensures var at := dataAt + EndpointOf(endpoints, b);
            at + |e1| <= |bytes| && e1 <= bytes[at..] && e2 <= bytes[at + |e1|..]
  {
    hide EncodesBlock, ByteByByte, Interpolative.Bytes, ListOk, BlockMax, Blocks;
    var endpoint := EndpointOf(endpoints, b);
    assert EntryOk(docs, freqs, b, maxs[b], endpoint, data);
    e1, e2 :| AtBlock(data, endpoint, e1, e2) && EncodesBlock(docs, freqs, b, e1, e2);
    var at := dataAt + endpoint;
    assert bytes[at..] == data[endpoint..];
    assert bytes[at + |e1|..] == bytes[at..][|e1|..];
  }

  class DocumentEnumerator {
    const input: seq<nat>
    const n: nat
    const blocks: nat
    const maxsAt: nat
    const endpointsAt: nat
    const dataAt: nat
    const universe: nat
    ghost const docs: seq<nat>
    ghost const freqs: seq<nat>
    ghost const maxs: seq<nat>
    ghost const endpoints: seq<nat>
    ghost const data: seq<nat>
    var curBlock: nat
    var posInBlock: nat
    var curBlockMax: nat
    var curBlockSize: nat
    var curDocid: nat
    var freqsAt: nat
    var freqsDecoded: bool
    var docsBuf: seq<nat>
    var freqsBuf: seq<nat>
    /** The encoding of the current block's frequencies, and whether the end was passed. */
    ghost var freqsBytes: seq<nat>
    ghost var exhausted: bool

    ghost predicate Opened() {
      && Stores(input, docs, freqs, maxs, endpoints, data)
      && Offsets(input, n, maxs, endpoints, data, maxsAt, endpointsAt, dataAt)
      && n == |docs| == |freqs| && blocks == Blocks(n) > 0 && |maxs| == blocks == |endpoints| + 1
      && (forall i :: 0 <= i < |docs| ==> docs[i] < universe)
    }

    /** The current block is decoded, its frequencies perhaps not yet. */
    ghost predicate Decoded()
      requires Opened()
      reads this
    {
      && curBlock < blocks && curBlockMax == BlockMax(docs, curBlock) && curBlockSize == BlockLength(n, curBlock)
      && Buffered(docsBuf, docs, curBlock) && Part(freqs, curBlock) != []
      && freqsAt <= |input| && freqsBytes <= input[freqsAt..]
      && Encodes(freqsBytes, Lowered(Part(freqs, curBlock)), NO_SUM)
      && (freqsDecoded ==> freqsBuf == Lowered(Part(freqs, curBlock)))
    }

    /** The cursor is at the document with this index, or past the end. */
    ghost predicate At(i: nat)
      reads this
    {
      && !exhausted && posInBlock < curBlockSize && i == curBlock * BLOCK_SIZE + posInBlock < |docs|
      && curDocid == docs[i]
    }

    ghost predicate Valid()
      reads this
    {
      && Opened() && Decoded()
      && (exhausted ==> curDocid == universe)
      && (!exhausted ==> At(curBlock * BLOCK_SIZE + posInBlock))
    }

    constructor (
      input: seq<nat>, universe: nat, ghost docs: seq<nat>, ghost freqs: seq<nat>, ghost maxs: seq<nat>,
      ghost endpoints: seq<nat>, ghost data: seq<nat>)
      requires Stores(input, docs, freqs, maxs, endpoints, data)
      requires forall i :: 0 <= i < |docs| ==> docs[i] < universe
      ensures Valid() && At(0) && this.docs == docs && this.freqs == freqs && this.universe == universe
    {
      hide ByteByByte, Interpolative.Bytes, EntryOk, ListOk;
      StoredDigits(input, docs, freqs, maxs, endpoints, data);
      StoredOffsets(input, docs, freqs, maxs, endpoints, data);
      ListShape(docs, freqs);
      assert ByteByByte(|docs|) <= input[0..];
      var length, base := DecodeVariableByte(input, 0, |docs|);
      this.input, this.universe := input, universe;
      this.docs, this.freqs, this.maxs, this.endpoints, this.data := docs, freqs, maxs, endpoints, data;
      n, blocks := length, Blocks(length);
      maxsAt := base;
      endpointsAt := base + 4 * Blocks(length);
      dataAt := base + 4 * Blocks(length) + 4 * (Blocks(length) - 1);
      curBlock, posInBlock, curBlockMax, curBlockSize, curDocid := 0, 0, 0, 0, 0;
      freqsAt, freqsDecoded, docsBuf, freqsBuf := 0, false, [], [];
      freqsBytes, exhausted := [], false;
      new;
      Reset();
    }

    method Reset()
      requires Opened()
      modifies this
      ensures Valid() && At(0)
    {
      DecodeDocsBlock(0);
    }

    /** The stored maximum of a block. */
    method BlockMaxOf(b: nat) returns (max: nat)
      requires Opened() && b < blocks
      ensures max == BlockMax(docs, b)
    {
      hide EntryOk, ListOk, Interpolative.Bytes, WordBytes, BlockMax;
      TableEntry(input, maxsAt, maxs, b);
      EntryMax(docs, freqs, b, maxs[b], EndpointOf(endpoints, b), data);
      max := ReadWord(input, maxsAt + 4 * b, maxs[b]);
    }

    /** Where a block's bytes start among the blocks. */
    method EndpointAt(b: nat) returns (endpoint: nat)
      requires Opened() && b < blocks
      ensures endpoint == EndpointOf(endpoints, b)
    {
      hide Stores, Interpolative.Bytes, WordBytes;
      if b == 0 {
        return 0;
      }
      TableEntry(input, endpointsAt, endpoints, b - 1);
      endpoint := ReadWord(input, endpointsAt + 4 * (b - 1), endpoints[b - 1]);
    }

    /** The least document a block could start with. */
    method CurBase(b: nat) returns (base: nat)
      requires Opened() && b < blocks
      ensures base == Base(docs, b)
    {
      hide Offsets, BlockMax, EntryOk, ByteByByte, Interpolative.Bytes, Blocks;
      if b != 0 {
        var previous := BlockMaxOf(b - 1);
        NextBase(docs, b - 1);
        return previous + 1;
      }
      ListShape(docs, freqs);
      return 0;
    }

    lemma OpenedList()
      requires Opened()
      ensures ListOk(docs, freqs) && Increasing(docs) && DigitsOk(input, 256)
    {
    }

    /** The documents of a block, as gaps after the first, and where its frequencies start. */
    method DecodeGaps(b: nat) returns (buf: seq<nat>, max: nat, next: nat, ghost e2: seq<nat>)
      requires Opened() && b < blocks
      ensures Buffered(buf, docs, b) && max == BlockMax(docs, b)
      ensures next <= |input| && e2 <= input[next..]
      ensures Part(freqs, b) != [] && Encodes(e2, Lowered(Part(freqs, b)), NO_SUM)
    {
      hide Stores, Offsets, ListOk, Part, Base, BlockMax, Blocks, BlockLength, Buffered, Encodes, Lowered, DocGaps, Increasing,
        BlockOk, DigitsOk, Total;
      OpenedList();
      BlockGapsOk(docs, freqs, b);
      BufferedFrom(docs, b);
      ghost var e1;
      e1, e2 := BlockStands(input, docs, freqs, maxs, endpoints, data, maxsAt, endpointsAt, dataAt, b);
      var endpoint := EndpointAt(b);
      var curBase := CurBase(b);
      max := BlockMaxOf(b);
      var size := BlockLength(n, b);
      buf, next := DecodeBlock(input, dataAt + endpoint, max - curBase - (size - 1), size, DocGaps(docs, b), e1);
      buf := buf[0 := buf[0] + curBase];
    }

    /** Decodes the documents of a block and goes to the first of them. */
    method DecodeDocsBlock(b: nat)
      requires Opened() && b < blocks
      modifies this
      ensures Valid() && curBlock == b && At(b * BLOCK_SIZE) && !freqsDecoded
    {
      hide Stores, Offsets, Part, BlockMax, Blocks, BlockLength, Buffered, Encodes, Lowered;
      FirstOfBlock(docs, b);
      docsBuf, curBlockMax, freqsAt, freqsBytes := DecodeGaps(b);
      BufferedFirst(docsBuf, docs, b);
      curBlockSize := BlockLength(n, b);
      curBlock, posInBlock, curDocid, freqsDecoded, exhausted := b, 0, docsBuf[0], false, false;
    }

    /** One document further within the block. */
    method Advance()
      requires Valid() && !exhausted && posInBlock + 1 < curBlockSize
      modifies this`posInBlock, this`curDocid
      ensures Valid() && !exhausted && posInBlock == old(posInBlock) + 1
    {
      hide Stores, Offsets, Part, BlockMax, Blocks, BlockLength, Buffered, Encodes, Lowered;
      BufferedNext(docsBuf, docs, curBlock, posInBlock);
      posInBlock := posInBlock + 1;
      curDocid := curDocid + (docsBuf[posInBlock] + 1);
    }

    function Index(): nat
      reads this
    {
      curBlock * BLOCK_SIZE + posInBlock
    }

    method Next()
      requires Valid() && !exhausted
      modifies this
      ensures Valid()
      ensures if old(Index()) + 1 < |docs| then At(old(Index()) + 1) else exhausted
    {
      hide Stores, Offsets, Part, BlockMax, Buffered, Encodes, Lowered;
      BlockWithin(n, curBlock);
      if posInBlock + 1 == curBlockSize {
        posInBlock := posInBlock + 1;
        if curBlock + 1 == blocks {
          curDocid := universe;
          exhausted := true;
          return;
        }
        DecodeDocsBlock(curBlock + 1);
      } else {
        Advance();
      }
    }

    /** The first block whose maximum reaches the bound. */
    method FindBlock(from: nat, bound: nat) returns (b: nat)
      requires Opened() && from < blocks && BlockMax(docs, blocks - 1) >= bound
      ensures from <= b < blocks && BlockMax(docs, b) >= bound
      ensures forall c: nat :: from <= c < b ==> BlockMax(docs, c) < bound
    {
      hide Stores, Offsets, BlockMax, Blocks;
      b := from;
      var max := BlockMaxOf(b);
      while max < bound
        invariant from <= b < blocks && max == BlockMax(docs, b)
        invariant forall c: nat :: from <= c < b ==> BlockMax(docs, c) < bound
        decreases blocks - b
      {
        b := b + 1;
        max := BlockMaxOf(b);
      }
    }

    /** Goes forward within the block, whose maximum reaches the bound; does nothing past the end. */
    method ScanBlock(bound: nat)
      requires Valid() && curBlockMax >= bound
      modifies this`posInBlock, this`curDocid
      ensures Valid() && curBlock == old(curBlock)
      ensures !exhausted ==> LeastFrom(docs, old(Index()), bound, Index())
      ensures Opened()
    {
      hide Stores, Offsets, Part, Buffered, Encodes, Lowered;
      BlockWithin(n, curBlock);
      MaxBelow(docs, curBlock, universe);
      while curDocid < bound
        invariant Valid() && Index() >= old(Index()) && curBlock == old(curBlock)
        invariant !exhausted ==> forall j :: old(Index()) <= j < Index() ==> docs[j] < bound
        decreases curBlockSize - posInBlock
      {
        Advance();
      }
    }

    /** Moves to the first document at or past the bound, possibly backwards. */
    method GlobalGeq(bound: nat)
      requires Valid()
      modifies this
      ensures Valid()
      ensures if exhausted then LeastFrom(docs, 0, bound, |docs|) else LeastFrom(docs, 0, bound, Index())
    {
      hide Stores, Offsets, Part, Buffered, Encodes, Lowered, BlockMax, Increasing;
      OpenedList();
      var last := BlockMaxOf(blocks - 1);
      if bound > last {
        BlocksBelow(docs, blocks - 1, bound);
        curDocid := universe;
        exhausted := true;
        return;
      }
      var b := FindBlock(0, bound);
      if b > 0 {
        BlocksBelow(docs, b - 1, bound);
        NextBase(docs, b - 1);
      }
      DecodeDocsBlock(b);
      ScanBlock(bound);
    }

    /** The last document of the list. */
    ghost function LastDoc(): nat
      requires Opened()
    {
      docs[|docs| - 1]
    }

    /** Where a valid cursor can stand. */
    lemma Standing()
      requires Valid()
      ensures Opened() && blocks == Blocks(|docs|) > 0 && curBlock < blocks && docs != []
      ensures curBlockMax == BlockMax(docs, curBlock) < universe && LastDoc() == BlockMax(docs, blocks - 1)
      ensures exhausted ==> curDocid == universe
      ensures !exhausted ==> Index() < |docs| && Index() < (curBlock + 1) * BLOCK_SIZE
    {
      hide Stores, Offsets, Part, Buffered, Encodes, Lowered, BlockMax, Increasing;
      OpenedList();
      MaxBelow(docs, curBlock, universe);
      LastMax(docs);
      BlockWithin(n, curBlock);
    }

    /** Opens the first later block whose maximum reaches the bound. */
    method OpenLater(bound: nat)
      requires Valid() && curBlockMax < bound <= BlockMax(docs, blocks - 1)
      modifies this
      ensures Valid() && !exhausted && curBlockMax >= bound
      ensures curBlock > old(curBlock) && Index() == curBlock * BLOCK_SIZE <= |docs|
      ensures forall j :: 0 <= j < Index() ==> docs[j] < bound
    {
      hide Stores, Offsets, Part, Buffered, Encodes, Lowered, BlockMax, Increasing;
      OpenedList();
      LastBlock(docs, curBlock, blocks - 1);
      var b := FindBlock(curBlock + 1, bound);
      BlocksBelow(docs, b - 1, bound);
      NextBase(docs, b - 1);
      DecodeDocsBlock(b);
    }

    /** Leaves the list. */
    method PassEnd(ghost bound: nat)
      requires Valid() && bound > BlockMax(docs, blocks - 1)
      modifies this`curDocid, this`exhausted
      ensures Valid() && exhausted
      ensures forall j :: 0 <= j < |docs| ==> docs[j] < bound
    {
      hide Stores, Offsets, Part, Buffered, Encodes, Lowered, BlockMax, Increasing;
      OpenedList();
      BlocksBelow(docs, blocks - 1, bound);
      curDocid := universe;
      exhausted := true;
    }

    /** Moves to the first document at or past the bound from here on.  A cursor past the end
        stays there unless the bound lies past the block it stopped in and not past the list:
        then it searches the list again. */
    method NextGeq(bound: nat)
      requires Valid()
      modifies this
      ensures Valid()
      ensures !old(exhausted) ==>
                if exhausted then LeastFrom(docs, old(Index()), bound, |docs|) else LeastFrom(docs, old(Index()), bound, Index())
      ensures old(exhausted) ==> (!exhausted <==> old(curBlockMax) < bound <= LastDoc())
      ensures old(exhausted) && !exhausted ==> LeastFrom(docs, 0, bound, Index())
    {
      hide Valid, Opened, LeastFrom, BlockMax, Blocks;
      Standing();
      ghost var first, from := if exhausted then 0 else Index(), Index();
      if bound > curBlockMax {
        var last := BlockMaxOf(blocks - 1);
        if bound > last {
          PassEnd(bound);
          LeastAtEnd(docs, first, bound);
          return;
        }
        OpenLater(bound);
        from := Index();
      }
      ScanBlock(bound);
      LeastEarlier(docs, first, from, bound, Index());
    }

    /** Moves to the document with the given index, from here on. */
    method Move(pos: nat)
      requires Valid() && !exhausted && Index() <= pos < n
      modifies this
      ensures Valid() && At(pos)
    {
      hide Stores, Offsets, Part, Buffered, Encodes, Lowered, BlockMax;
      var b := pos / BLOCK_SIZE;
      BlockOf(n, pos);
      if b != curBlock {
        DecodeDocsBlock(b);
      }
      while Index() < pos
        invariant Valid() && !exhausted && curBlock == b && Index() <= pos
        decreases pos - Index()
      {
        Advance();
      }
    }

    /** The frequency of the current document; the block's are decoded at the first request. */
    method Freq() returns (freq: nat)
      requires Valid() && !exhausted
      modifies this`freqsBuf, this`freqsDecoded
      ensures Valid() && !exhausted && freq == freqs[Index()]
    {
      hide Stores, Offsets, Part, Buffered, Encodes, Lowered, BlockMax, Increasing, ListOk, BlockOk, Blocks, BlockLength;
      OpenedList();
      if !freqsDecoded {
        BlockFreqsOk(docs, freqs, curBlock);
        LoweredSize(freqs, curBlock);
        ghost var end;
        freqsBuf, end := DecodeBlock(input, freqsAt, NO_SUM, curBlockSize, Lowered(Part(freqs, curBlock)), freqsBytes);
        freqsDecoded := true;
      }
      FreqsPositive(docs, freqs, curBlock);
      LoweredSize(freqs, curBlock);
      PartAt(freqs, curBlock, posInBlock);
      LoweredAt(Part(freqs, curBlock), posInBlock);
      freq := freqsBuf[posInBlock] + 1;
    }
  }

  lemma LoweredSize(freqs: seq<nat>, b: nat)
    requires b < Blocks(|freqs|)
    ensures |Lowered(Part(freqs, b))| == |Part(freqs, b)| == BlockLength(|freqs|, b)
  {
  }

  /** Everything up to a block whose maximum is below the bound is below it. */
  lemma BlocksBelow(docs: seq<nat>, b: nat, bound: nat)
    requires Increasing(docs) && b < Blocks(|docs|) && BlockMax(docs, b) < bound
    ensures b * BLOCK_SIZE + BlockLength(|docs|, b) <= |docs|
    ensures forall i :: 0 <= i < b * BLOCK_SIZE + BlockLength(|docs|, b) ==> docs[i] < bound
  {
    BlockWithin(|docs|, b);
    var last := b * BLOCK_SIZE + BlockLength(|docs|, b) - 1;
    forall i | 0 <= i <= last ensures docs[i] < bound {
      assert i < last ==> docs[i] < docs[last];
    }
  }

  lemma MaxBelow(docs: seq<nat>, b: nat, universe: nat)
    requires b < Blocks(|docs|) && forall i :: 0 <= i < |docs| ==> docs[i] < universe
    ensures BlockMax(docs, b) < universe
  {
    BlockWithin(|docs|, b);
  }

  lemma LeastEarlier(docs: seq<nat>, earlier: nat, from: nat, bound: nat, i: nat)
    ensures earlier <= from <= |docs| && LeastFrom(docs, from, bound, i) && (forall j :: earlier <= j < from ==> docs[j] < bound)
            ==> LeastFrom(docs, earlier, bound, i)
  {
  }

  lemma LeastAtEnd(docs: seq<nat>, from: nat, bound: nat)
    requires from <= |docs| && forall j :: 0 <= j < |docs| ==> docs[j] < bound
    ensures LeastFrom(docs, from, bound, |docs|)
  {
  }

  lemma LastMax(docs: seq<nat>)
    requires docs != [] && Blocks(|docs|) > 0
    ensures BlockMax(docs, Blocks(|docs|) - 1) == docs[|docs| - 1]
  {
    BlockWithin(|docs|, Blocks(|docs|) - 1);
  }

  lemma LastBlock(docs: seq<nat>, b: nat, c: nat)
    requires b < Blocks(|docs|) && c < Blocks(|docs|) && BlockMax(docs, b) < BlockMax(docs, c)
    ensures b != c
  {
  }

  lemma BlockOf(n: nat, pos: nat)
    requires pos < n
    ensures pos / BLOCK_SIZE < Blocks(n)
    ensures pos / BLOCK_SIZE * BLOCK_SIZE <= pos < pos / BLOCK_SIZE * BLOCK_SIZE + BlockLength(n, pos / BLOCK_SIZE)
  {
  }
}
