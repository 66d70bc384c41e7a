/** The fixed Huffman code of section 3.2.6 of RFC 1951, as the static
    initializer of HuffmanCompressor fills staticLCodes/staticLLength and
    staticDCodes/staticDLength, and the proof that the tables hold the
    canonical codes of the RFC's fixed code lengths. */
module FixedTables {
  import opened JavaErrors
  import opened Bits
  import opened Canonical
  import opened DeflateCodes

  /** The RFC's fixed literal/length code lengths, symbols 0..287. */
  function FixedLitLength(i: int): int
  {
    if i < 144 then 8 else if i < 256 then 9 else if i < 280 then 7 else 8
  }

  const FixedLitLens: seq<int> := seq(288, i => FixedLitLength(i))
  /** Its histogram: 24 codes of length 7, 152 of length 8, 112 of length 9. */
  const FixedLitCounts: seq<int> := [0, 0, 0, 0, 0, 0, 24, 152, 112, 0, 0, 0, 0, 0, 0]
  /** The RFC's fixed distance code: 32 codes of length 5. */
  const FixedDistLens: seq<int> := seq(32, i => 5)
  const FixedDistCounts: seq<int> := [0, 0, 0, 0, 32, 0, 0, 0, 0, 0, 0, 0, 0, 0, 0]

  /** The argument the static initializer passes to bitReverse for
      literal/length symbol i (the shifts written as products). */
  function StaticLitArg(i: int): int
  {
    if i < 144 then (0x030 + i) * 256
    else if i < 256 then (0x190 - 144 + i) * 128
    else if i < 280 then (0x000 - 256 + i) * 512
    else (0x0c0 - 280 + i) * 256
  }

  // ---------------------------------------------------------------------
  // Counting the fixed lengths.

  lemma {:induction false} FixedLitCountsUpTo(n: int)
    requires 0 <= n <= 288
    ensures CountLen(FixedLitLens, n, 7) == (if n <= 256 then 0 else if n <= 280 then n - 256 else 24)
    ensures CountLen(FixedLitLens, n, 8) == (if n <= 144 then n else if n <= 280 then 144 else n - 136)
    ensures CountLen(FixedLitLens, n, 9) == (if n <= 144 then 0 else if n <= 256 then n - 144 else 112)
    ensures forall b :: b != 7 && b != 8 && b != 9 ==> CountLen(FixedLitLens, n, b) == 0
  {
    if n > 0 {
      FixedLitCountsUpTo(n - 1);
      assert FixedLitLens[n - 1] == FixedLitLength(n - 1);
    }
  }

  lemma {:induction false} FixedDistCountsUpTo(n: int)
    requires 0 <= n <= 32
    ensures CountLen(FixedDistLens, n, 5) == n
    ensures forall b :: b != 5 ==> CountLen(FixedDistLens, n, b) == 0
  {
    if n > 0 {
      FixedDistCountsUpTo(n - 1);
      assert FixedDistLens[n - 1] == 5;
    }
  }

  lemma FixedHistograms()
    ensures IsHistogram(FixedLitLens, FixedLitCounts)
    ensures IsHistogram(FixedDistLens, FixedDistCounts)
  {
    FixedLitCountsUpTo(288);
    FixedDistCountsUpTo(32);
  }

  lemma FixedLitStarts()
    ensures CodeStart(FixedLitCounts, 6) == 0
    ensures CodeStart(FixedLitCounts, 7) == 12288
    ensures CodeStart(FixedLitCounts, 8) == 51200
  {
    assert Pow2(8) == 256;
    assert CodeStart(FixedLitCounts, 6) == 0;
  }

  /** The fixed literal/length lengths are 8 for 0..143, 9 for 144..255,
      7 for 256..279 and 8 for 280..287, and the value the static
      initializer reverses for symbol i < 286 is that symbol's canonical code. */
  lemma StaticLitArgIsCanonical(i: int)
    requires 0 <= i < LITERAL_NUM
    ensures 1 <= FixedLitLens[i] <= |FixedLitCounts|
    ensures StaticLitArg(i) == CanonicalCode(FixedLitLens, FixedLitCounts, i)
    ensures 0 <= StaticLitArg(i) < 65536
  {
    FixedLitCountsUpTo(i);
    FixedLitStarts();
    assert FixedLitLens[i] == FixedLitLength(i);
    assert Pow2(7) == 128 && Pow2(9) == 512;
  }

  /** Distance symbol i has fixed length 5 and canonical code i << 11. */
  lemma StaticDistArgIsCanonical(i: int)
    requires 0 <= i < DIST_NUM
    ensures FixedDistLens[i] == 5
    ensures i * 2048 == CanonicalCode(FixedDistLens, FixedDistCounts, i)
  {
    FixedDistCountsUpTo(i);
    assert Pow2(11) == 2048 by { assert Pow2(8) == 256; }
    assert CodeStart(FixedDistCounts, 4) == 0;
  }

  /** Entry i of the static literal/length tables holds the fixed length
      and the bit-reversed canonical code of symbol i. */
  ghost predicate FixedLitEntry(lCodes: seq<bv16>, lLength: seq<int>, i: int)
    reads {}
  {
    0 <= i < |lCodes| && i < |lLength| && i < |FixedLitLens| &&
    lLength[i] == FixedLitLens[i] &&
    BitReverse(CanonicalCode(FixedLitLens, FixedLitCounts, i)) == Ok(lCodes[i])
  }

  /** The same for the static distance tables. */
  ghost predicate FixedDistEntry(dCodes: seq<bv16>, dLength: seq<int>, i: int)
    reads {}
  {
    0 <= i < |dCodes| && i < |dLength| && i < |FixedDistLens| &&
    dLength[i] == FixedDistLens[i] &&
    BitReverse(CanonicalCode(FixedDistLens, FixedDistCounts, i)) == Ok(dCodes[i])
  }

  /** The static initializer: four loops over the literal/length symbols
      and one over the distance symbols. */
  method StaticTables() returns (lCodes: seq<bv16>, lLength: seq<int>, dCodes: seq<bv16>, dLength: seq<int>)
    ensures |lCodes| == |lLength| == LITERAL_NUM && |dCodes| == |dLength| == DIST_NUM
    ensures forall i :: 0 <= i < LITERAL_NUM ==> FixedLitEntry(lCodes, lLength, i)
    ensures forall i :: 0 <= i < DIST_NUM ==> FixedDistEntry(dCodes, dLength, i)
  {
    lCodes, lLength := StaticLitTables();
    dCodes, dLength := StaticDistTables();
  }

  /** The four literal/length loops of the static initializer. */
  method StaticLitTables() returns (lCodes: seq<bv16>, lLength: seq<int>)
    ensures |lCodes| == |lLength| == LITERAL_NUM
    ensures forall i :: 0 <= i < LITERAL_NUM ==> FixedLitEntry(lCodes, lLength, i)
  {
    lCodes, lLength := [], [];
    var i := 0;
    while i < 144
      invariant 0 <= i <= 144 && |lCodes| == |lLength| == i
      invariant forall k :: 0 <= k < i ==> lLength[k] == FixedLitLength(k) && BitReverse(StaticLitArg(k)) == Ok(lCodes[k])
    {
      lCodes := lCodes + [BitReverse((0x030 + i) * 256).value];
      lLength := lLength + [8];
      i := i + 1;
    }
    while i < 256
      invariant 144 <= i <= 256 && |lCodes| == |lLength| == i
      invariant forall k :: 0 <= k < i ==> lLength[k] == FixedLitLength(k) && BitReverse(StaticLitArg(k)) == Ok(lCodes[k])
    {
      lCodes := lCodes + [BitReverse((0x190 - 144 + i) * 128).value];
      lLength := lLength + [9];
      i := i + 1;
    }
    while i < 280
      invariant 256 <= i <= 280 && |lCodes| == |lLength| == i
      invariant forall k :: 0 <= k < i ==> lLength[k] == FixedLitLength(k) && BitReverse(StaticLitArg(k)) == Ok(lCodes[k])
    {
      lCodes := lCodes + [BitReverse((0x000 - 256 + i) * 512).value];
      lLength := lLength + [7];
      i := i + 1;
    }
    while i < LITERAL_NUM
      invariant 280 <= i <= LITERAL_NUM && |lCodes| == |lLength| == i
      invariant forall k :: 0 <= k < i ==> lLength[k] == FixedLitLength(k) && BitReverse(StaticLitArg(k)) == Ok(lCodes[k])
    {
      lCodes := lCodes + [BitReverse((0x0c0 - 280 + i) * 256).value];
      lLength := lLength + [8];
      i := i + 1;
    }
    forall k | 0 <= k < LITERAL_NUM
      ensures FixedLitEntry(lCodes, lLength, k)
    {
      StaticLitArgIsCanonical(k);
    }
  }

  /** The distance loop of the static initializer. */
  method StaticDistTables() returns (dCodes: seq<bv16>, dLength: seq<int>)
    ensures |dCodes| == |dLength| == DIST_NUM
    ensures forall i :: 0 <= i < DIST_NUM ==> FixedDistEntry(dCodes, dLength, i)
  {
    dCodes, dLength := [], [];
    var i := 0;
    while i < DIST_NUM
      invariant 0 <= i <= DIST_NUM && |dCodes| == |dLength| == i
      invariant forall k :: 0 <= k < i ==> dLength[k] == 5 && BitReverse(k * 2048) == Ok(dCodes[k])
    {
      dCodes := dCodes + [BitReverse(i * 2048).value];
      dLength := dLength + [5];
      i := i + 1;
    }
    forall k | 0 <= k < DIST_NUM
      ensures FixedDistEntry(dCodes, dLength, k)
    {
      StaticDistArgIsCanonical(k);
    }
  }
}
