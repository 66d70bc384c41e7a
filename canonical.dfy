/** Canonical Huffman codes (section 3.2.2 of RFC 1951) as buildCodes
    assigns them: codes of each length are handed out consecutively in
    increasing symbol order, shorter lengths first, each code left-aligned
    in 16 bits.  counts[k] is the number of symbols of code length k + 1
    (bl_counts in the Java class). */
module Canonical {
  import opened Bits

  /** The number of symbols below n whose length is b. */
  function CountLen(lens: seq<int>, n: int, b: int): (r: nat)
    requires 0 <= n <= |lens|
    ensures r <= n
  {
    if n == 0 then 0 else CountLen(lens, n - 1, b) + (if lens[n - 1] == b then 1 else 0)
  }

  /** counts is the length histogram of lens for lengths 1..|counts|. */
  ghost predicate IsHistogram(lens: seq<int>, counts: seq<int>)
  {
    forall k :: 0 <= k < |counts| ==> counts[k] == CountLen(lens, |lens|, k + 1)
  }

  /** The left-aligned first code of length bits + 1: the running sum
      buildCodes keeps in code when it fills nextCode[bits]. */
  function CodeStart(counts: seq<int>, bits: nat): int
    requires bits <= |counts| <= 16
  {
    if bits == 0 then 0 else CodeStart(counts, bits - 1) + counts[bits - 1] * Pow2(16 - bits)
  }

  /** Position of symbol i among the symbols of its length. */
  function Rank(lens: seq<int>, i: int): nat
    requires 0 <= i < |lens|
  {
    CountLen(lens, i, lens[i])
  }

  /** The 16-bit left-aligned canonical code of symbol i, of length lens[i]. */
  function CanonicalCode(lens: seq<int>, counts: seq<int>, i: int): int
    requires 0 <= i < |lens| && 1 <= lens[i] <= |counts| <= 16
  {
    CodeStart(counts, lens[i] - 1) + Rank(lens, i) * Pow2(16 - lens[i])
  }

  // ---------------------------------------------------------------------
  // The RFC's own formulation: next_code[bits], not left-aligned.

  /** next_code[bits] of the RFC's step 2, where bl_count[b] is counts[b - 1]
      and bl_count[0] is 0. */
  function RfcNextCode(counts: seq<int>, bits: nat): int
    requires 1 <= bits <= |counts| + 1
  {
    if bits == 1 then 0 else 2 * (RfcNextCode(counts, bits - 1) + counts[bits - 2])
  }

  /** buildCodes' left-aligned start is the RFC's next_code shifted into
      the top bits of a 16-bit word. */
  lemma {:induction false} CodeStartIsRfc(counts: seq<int>, bits: nat)
    requires 1 <= bits <= 16 && bits - 1 <= |counts| <= 16
    ensures CodeStart(counts, bits - 1) == RfcNextCode(counts, bits) * Pow2(16 - bits)
  {
    if bits > 1 {
      CodeStartIsRfc(counts, bits - 1);
      var prev, p := RfcNextCode(counts, bits - 1), Pow2(16 - bits);
      assert Pow2(16 - (bits - 1)) == 2 * p;
      calc {
        CodeStart(counts, bits - 1);
        CodeStart(counts, bits - 2) + counts[bits - 2] * (2 * p);
        prev * (2 * p) + counts[bits - 2] * (2 * p);
        { Distribute(prev, counts[bits - 2], 2 * p); }
        (prev + counts[bits - 2]) * (2 * p);
        { Associate(prev + counts[bits - 2], p); }
        RfcNextCode(counts, bits) * p;
      }
    }
  }

  lemma Distribute(a: int, b: int, c: int)
    ensures a * c + b * c == (a + b) * c
  {
  }

  lemma Associate(a: int, p: int)
    ensures a * (2 * p) == (2 * a) * p
  {
  }

  lemma MulLe(a: int, b: int, p: int)
    requires a <= b && p >= 0
    ensures a * p <= b * p
  {
  }

  /** Each code is the RFC's next_code of its length plus its rank,
      left-aligned in 16 bits. */
  lemma CanonicalIsRfc(lens: seq<int>, counts: seq<int>, i: int)
    requires 0 <= i < |lens| && 1 <= lens[i] <= |counts| <= 16
    ensures CanonicalCode(lens, counts, i) == (RfcNextCode(counts, lens[i]) + Rank(lens, i)) * Pow2(16 - lens[i])
  {
    CodeStartIsRfc(counts, lens[i]);
    Distribute(RfcNextCode(counts, lens[i]), Rank(lens, i), Pow2(16 - lens[i]));
  }

  // ---------------------------------------------------------------------
  // Ordering and the prefix property.

  lemma {:induction false} CountLenMonotone(lens: seq<int>, m: int, n: int, b: int)
    requires 0 <= m <= n <= |lens|
    ensures CountLen(lens, m, b) <= CountLen(lens, n, b)
    decreases n - m
  {
    if m < n {
      CountLenMonotone(lens, m, n - 1, b);
    }
  }

  /** Equal-length symbols get consecutive codes in symbol order: a later
      symbol of the same length has a higher rank and a code at least one
      step of 2^(16 - len) above. */
  lemma SameLengthInOrder(lens: seq<int>, counts: seq<int>, i: int, j: int)
    requires 0 <= i < j < |lens| && lens[i] == lens[j] && 1 <= lens[i] <= |counts| <= 16
    ensures Rank(lens, j) >= Rank(lens, i) + 1
    ensures CanonicalCode(lens, counts, i) + Pow2(16 - lens[i]) <= CanonicalCode(lens, counts, j)
  {
    CountLenMonotone(lens, i + 1, j, lens[i]);
    var p := Pow2(16 - lens[i]);
    MulLe(Rank(lens, i) + 1, Rank(lens, j), p);
    Distribute(Rank(lens, i), 1, p);
  }

  /** The next symbol of the same length gets exactly the next code. */
  lemma NextSameLength(lens: seq<int>, counts: seq<int>, i: int, j: int)
    requires 0 <= i < j < |lens| && lens[i] == lens[j] && 1 <= lens[i] <= |counts| <= 16
    requires forall k :: i < k < j ==> lens[k] != lens[i]
    ensures CanonicalCode(lens, counts, j) == CanonicalCode(lens, counts, i) + Pow2(16 - lens[i])
  {
    CountLenGap(lens, i + 1, j, lens[i]);
    Distribute(Rank(lens, i), 1, Pow2(16 - lens[i]));
  }

  lemma {:induction false} CountLenGap(lens: seq<int>, m: int, n: int, b: int)
    requires 0 <= m <= n <= |lens|
    requires forall k :: m <= k < n ==> lens[k] != b
    ensures CountLen(lens, n, b) == CountLen(lens, m, b)
    decreases n - m
  {
    if m < n {
      CountLenGap(lens, m, n - 1, b);
    }
  }

  ghost predicate NonNegative(counts: seq<int>)
  {
    forall k :: 0 <= k < |counts| ==> counts[k] >= 0
  }

  lemma {:induction false} CodeStartMonotone(counts: seq<int>, a: nat, b: nat)
    requires a <= b <= |counts| <= 16 && NonNegative(counts)
    ensures CodeStart(counts, a) <= CodeStart(counts, b)
    decreases b - a
  {
    if a < b {
      CodeStartMonotone(counts, a, b - 1);
      MulLe(0, counts[b - 1], Pow2(16 - b));
    }
  }

  lemma {:induction false} RankBelowCount(lens: seq<int>, i: int, n: int)
    requires 0 <= i < n <= |lens|
    ensures CountLen(lens, i, lens[i]) + 1 <= CountLen(lens, n, lens[i])
    decreases n - i
  {
    if n > i + 1 {
      RankBelowCount(lens, i, n - 1);
    }
  }

  /** With the histogram as counts, every code of a shorter length ends
      (as a 16-bit interval) before any code of a longer length starts. */
  lemma ShorterFirst(lens: seq<int>, counts: seq<int>, i: int, j: int)
    requires 0 <= i < |lens| && 0 <= j < |lens|
    requires 1 <= lens[i] < lens[j] <= |counts| <= 16
    requires IsHistogram(lens, counts)
    ensures CanonicalCode(lens, counts, i) + Pow2(16 - lens[i]) <= CanonicalCode(lens, counts, j)
  {
    var li := lens[i];
    var p := Pow2(16 - li);
    RankBelowCount(lens, i, |lens|);
    assert counts[li - 1] == CountLen(lens, |lens|, li);
    MulLe(Rank(lens, i) + 1, counts[li - 1], p);
    Distribute(Rank(lens, i), 1, p);
    assert CodeStart(counts, li) == CodeStart(counts, li - 1) + counts[li - 1] * p;
    assert NonNegative(counts);
    CodeStartMonotone(counts, li, lens[j] - 1);
    MulLe(0, Rank(lens, j), Pow2(16 - lens[j]));
  }

  /** The code intervals of two different symbols never overlap: no code
      is a prefix of another. */
  lemma PrefixFree(lens: seq<int>, counts: seq<int>, i: int, j: int)
    requires 0 <= i < |lens| && 0 <= j < |lens| && i != j
    requires 1 <= lens[i] <= |counts| <= 16 && 1 <= lens[j] <= |counts|
    requires IsHistogram(lens, counts)
    ensures CanonicalCode(lens, counts, i) + Pow2(16 - lens[i]) <= CanonicalCode(lens, counts, j) ||
            CanonicalCode(lens, counts, j) + Pow2(16 - lens[j]) <= CanonicalCode(lens, counts, i)
  {
    if lens[i] < lens[j] {
      ShorterFirst(lens, counts, i, j);
    } else if lens[j] < lens[i] {
      ShorterFirst(lens, counts, j, i);
    } else if i < j {
      SameLengthInOrder(lens, counts, i, j);
    } else {
      SameLengthInOrder(lens, counts, j, i);
    }
  }
}
