/** The length and distance symbols of DEFLATE (section 3.2.5 of RFC 1951)
    as HuffmanCompressor computes them (l_code, d_code), the extra bits that
    follow each symbol, and the fixed Huffman tables of section 3.2.6. */
module DeflateCodes {
  import opened Bits

  const LITERAL_NUM := 286
  const DIST_NUM := 30
  const BITLEN_NUM := 19
  const EOF_SYMBOL := 256

  /** Java's int division, which truncates toward zero. */
  function JavaDiv(a: int, b: int): int
    requires b > 0
  {
    if a >= 0 then a / b else -((-a) / b)
  }

  // ---------------------------------------------------------------------
  // Reference tables, transcribed from section 3.2.5 of RFC 1951.

  /** Base match length of length symbols 257..285. */
  const LengthBase: seq<int> :=
    [3, 4, 5, 6, 7, 8, 9, 10, 11, 13, 15, 17, 19, 23, 27, 31,
     35, 43, 51, 59, 67, 83, 99, 115, 131, 163, 195, 227, 258]
  /** Extra bits of length symbols 257..285. */
  const LengthExtra: seq<int> :=
    [0, 0, 0, 0, 0, 0, 0, 0, 1, 1, 1, 1, 2, 2, 2, 2,
     3, 3, 3, 3, 4, 4, 4, 4, 5, 5, 5, 5, 0]
  /** Base distance of distance symbols 0..29. */
  const DistBase: seq<int> :=
    [1, 2, 3, 4, 5, 7, 9, 13, 17, 25, 33, 49, 65, 97, 129, 193,
     257, 385, 513, 769, 1025, 1537, 2049, 3073, 4097, 6145, 8193, 12289, 16385, 24577]
  /** Extra bits of distance symbols 0..29. */
  const DistExtra: seq<int> :=
    [0, 0, 0, 0, 1, 1, 2, 2, 3, 3, 4, 4, 5, 5, 6, 6,
     7, 7, 8, 8, 9, 9, 10, 10, 11, 11, 12, 12, 13, 13]

  /** Symbol lc covers match length len = ofs + 3 in the RFC table. */
  ghost predicate LengthSymbolCovers(lc: int, ofs: int)
  {
    257 <= lc <= 285 &&
    LengthBase[lc - 257] <= ofs + 3 < LengthBase[lc - 257] + Pow2(LengthExtra[lc - 257])
  }

  /** Symbol dc covers distance dist = d + 1 in the RFC table. */
  ghost predicate DistSymbolCovers(dc: int, d: int)
  {
    0 <= dc < 30 &&
    DistBase[dc] <= d + 1 < DistBase[dc] + Pow2(DistExtra[dc])
  }

  // ---------------------------------------------------------------------
  // l_code and d_code.

  /** The symbol l_code's loop arrives at: each halving of len moves four
      symbols on. */
  function Halving(len: int, code: int): int
    decreases len
  {
    if len >= 8 then Halving(len / 2, code + 4) else code + len
  }

  function LengthCode(len: int): int
  {
    if len == 255 then 285 else Halving(len, 257)
  }

  function DistHalving(distance: int, code: int): int
    decreases distance
  {
    if distance >= 4 then DistHalving(distance / 2, code + 2) else code + distance
  }

  function DistanceCode(distance: int): int
  {
    DistHalving(distance, 0)
  }

  /** l_code(len), for the length offset len = length - 3. */
  method LCode(len: int) returns (code: int)
    ensures code == LengthCode(len)
    ensures 0 <= len <= 255 ==> 257 <= code <= 285
  {
    if len == 255 {
      LengthCodeRange(len);
      return 285;
    }
    code := 257;
    var l := len;
    while l >= 8
      invariant Halving(l, code) == Halving(len, 257)
      decreases l
    {
      code := code + 4;
      l := l / 2;
    }
    code := code + l;
    if 0 <= len <= 255 {
      LengthCodeRange(len);
    }
  }

  /** d_code(distance), for distance = match distance - 1. */
  method DCode(distance: int) returns (code: int)
    ensures code == DistanceCode(distance)
    ensures 0 <= distance < 32768 ==> 0 <= code < 30
  {
    code := 0;
    var d := distance;
    while d >= 4
      invariant DistHalving(d, code) == DistHalving(distance, 0)
      decreases d
    {
      code := code + 2;
      d := d / 2;
    }
    code := code + d;
    if 0 <= distance < 32768 {
      DistanceCodeRange(distance);
    }
  }

  // ---------------------------------------------------------------------
  // Agreement with the RFC tables.

  lemma LengthTableDoubles(i: int)
    requires 8 <= i < 28
    ensures LengthBase[i] - 3 == 2 * (LengthBase[i - 4] - 3)
    ensures LengthExtra[i] == LengthExtra[i - 4] + 1 && LengthExtra[i - 4] >= 0
  {
  }

  lemma DistTableDoubles(i: int)
    requires 4 <= i < 30
    ensures DistBase[i] - 1 == 2 * (DistBase[i - 2] - 1)
    ensures DistExtra[i] == DistExtra[i - 2] + 1 && DistExtra[i - 2] >= 0
  {
  }

  lemma {:induction false} HalvingCovers(len: int)
    requires 0 <= len <= 254
    ensures 257 <= Halving(len, 257) < 285 && LengthSymbolCovers(Halving(len, 257), len)
  {
    if len >= 8 {
      var q := len / 2;
      var c := Halving(q, 257);
      assert Halving(len, 257) == c + 4 by {
        HalvingShift(q, 257, 4);
      }
      assert LengthSymbolCovers(c, q) by {
        HalvingCovers(q);
      }
      LengthStep(q, len, c);
    } else {
      LengthSmall(len);
    }
  }

  /** One halving step: if c covers len / 2, then c + 4 covers len. */
  lemma LengthStep(q: int, len: int, c: int)
    requires 4 <= q <= 127 && 2 * q <= len <= 2 * q + 1
    requires LengthSymbolCovers(c, q)
    ensures 261 <= c < 281 && LengthSymbolCovers(c + 4, len)
  {
    var i := c - 257;
    assert 4 <= i < 24 by {
      if i < 4 {
        LengthSmall(i);
      } else if i >= 24 {
        LengthLarge(i);
      }
    }
    LengthTableDoubles(i + 4);
    Pow2Succ(LengthExtra[i]);
  }

  lemma LengthSmall(c: int)
    requires 0 <= c < 8
    ensures LengthBase[c] == c + 3 && LengthExtra[c] == 0
  {
  }

  lemma LengthLarge(c: int)
    requires 24 <= c < 29
    ensures LengthBase[c] - 3 >= 128
  {
  }

  lemma {:induction false} HalvingShift(len: int, code: int, k: int)
    ensures Halving(len, code + k) == Halving(len, code) + k
    decreases len
  {
    if len >= 8 {
      HalvingShift(len / 2, code + 4, k);
    }
  }

  /** l_code maps length offsets 0..254 into 257..284 and 255 to 285, each
      to the symbol whose range in the RFC table holds the length. */
  lemma LengthCodeCovers(len: int)
    requires 0 <= len <= 255
    ensures LengthSymbolCovers(LengthCode(len), len)
    ensures len < 255 ==> 257 <= LengthCode(len) <= 284
    ensures len == 255 <==> LengthCode(len) == 285
  {
    if len < 255 {
      HalvingCovers(len);
    }
  }

  /** The range of l_code alone. */
  lemma LengthCodeRange(len: int)
    requires 0 <= len <= 255
    ensures 257 <= LengthCode(len) <= 285
  {
    LengthCodeCovers(len);
  }

  /** The first eight length offsets are their own symbols. */
  lemma ShortLengthCodes(len: int)
    requires 0 <= len < 8
    ensures LengthCode(len) == 257 + len
  {
  }

  lemma {:induction false} DistHalvingShift(d: int, code: int, k: int)
    ensures DistHalving(d, code + k) == DistHalving(d, code) + k
    decreases d
  {
    if d >= 4 {
      DistHalvingShift(d / 2, code + 2, k);
    }
  }

  /** d_code maps distance - 1 in 0..32767 into 0..29, each to the symbol
      whose range in the RFC table holds the distance. */
  lemma {:induction false} DistanceCodeCovers(d: int)
    requires 0 <= d < 32768
    ensures DistSymbolCovers(DistanceCode(d), d)
  {
    if d >= 4 {
      var q := d / 2;
      var c := DistanceCode(q);
      assert DistanceCode(d) == c + 2 by {
        DistHalvingShift(q, 0, 2);
      }
      assert DistSymbolCovers(c, q) by {
        DistanceCodeCovers(q);
      }
      DistStep(q, d, c);
    } else {
      DistSmall(d);
    }
  }

  /** The range of d_code alone. */
  lemma DistanceCodeRange(d: int)
    requires 0 <= d < 32768
    ensures 0 <= DistanceCode(d) < 30
  {
    DistanceCodeCovers(d);
  }

  /** d_code's result indexes the 30 distance symbols exactly when its
      argument is one of the 32768 distances minus one: a negative argument
      comes back unchanged, and one of 32768 or more halves to a code of
      30 or more. */
  lemma DistanceCodeInRange(d: int)
    ensures 0 <= DistanceCode(d) < 30 <==> 0 <= d < 32768
  {
    if 0 <= d < 32768 {
      DistanceCodeRange(d);
    } else if d >= 32768 {
      assert Pow2(15) == 32768;
      DistHalvingGrows(d, 0, 14);
    }
  }

  /** Each doubling of the argument adds 2 to the code. */
  lemma {:induction false} DistHalvingGrows(d: int, c: int, k: nat)
    requires d >= Pow2(k + 1)
    ensures DistHalving(d, c) >= c + 2 * k + 2
    decreases k
  {
    if k == 0 {
      DistHalvingTwo(d, c);
    } else {
      assert Pow2(k + 1) == 2 * Pow2(k) && Pow2(k) == 2 * Pow2(k - 1);
      DistHalvingGrows(d / 2, c + 2, k - 1);
    }
  }

  lemma {:induction false} DistHalvingTwo(d: int, c: int)
    requires d >= 2
    ensures DistHalving(d, c) >= c + 2
    decreases d
  {
    if d >= 4 {
      DistHalvingTwo(d / 2, c + 2);
    }
  }

  /** One halving step: if c covers d / 2, then c + 2 covers d. */
  lemma DistStep(q: int, d: int, c: int)
    requires 2 <= q < 16384 && 2 * q <= d <= 2 * q + 1
    requires DistSymbolCovers(c, q)
    ensures DistSymbolCovers(c + 2, d)
  {
    assert 2 <= c < 28 by {
      if c < 2 {
        DistSmall(c);
      } else if c >= 28 {
        DistLarge(c);
      }
    }
    DistTableDoubles(c + 2);
    Pow2Succ(DistExtra[c]);
  }

  lemma DistSmall(c: int)
    requires 0 <= c < 4
    ensures DistBase[c] == c + 1 && DistExtra[c] == 0
  {
  }

  lemma DistLarge(c: int)
    requires 28 <= c < 30
    ensures DistBase[c] - 1 >= 16384
  {
  }

  /** The first four distances are their own symbols. */
  lemma ShortDistanceCodes(d: int)
    requires 0 <= d < 4
    ensures DistanceCode(d) == d
  {
  }

  // ---------------------------------------------------------------------
  // Extra bits.

  /** What tallyDist adds to extra_bits for a length symbol. */
  function TalliedLengthExtra(lc: int): int
  {
    if 265 <= lc < 285 then (lc - 261) / 4 else 0
  }

  /** What tallyDist adds to extra_bits for a distance symbol. */
  function TalliedDistExtra(dc: int): int
  {
    if dc >= 4 then dc / 2 - 1 else 0
  }

  /** The width compressBlock writes after a length symbol (0: no write). */
  function WrittenLengthExtra(lc: int): int
  {
    var bits := JavaDiv(lc - 261, 4);
    if bits > 0 && bits <= 5 then bits else 0
  }

  /** The width compressBlock writes after a distance symbol (0: no write). */
  function WrittenDistExtra(dc: int): int
  {
    var bits := JavaDiv(dc, 2) - 1;
    if bits > 0 then bits else 0
  }

  /** The counting pass and the writing pass agree, and both are the
      extra-bit counts of the RFC table. */
  lemma ExtraBitsAgree(lc: int, dc: int)
    requires 257 <= lc <= 285 && 0 <= dc < 30
    ensures TalliedLengthExtra(lc) == WrittenLengthExtra(lc) == LengthExtra[lc - 257]
    ensures TalliedDistExtra(dc) == WrittenDistExtra(dc) == DistExtra[dc]
  {
  }
}
