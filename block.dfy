/** What HuffmanCompressor writes for the buffered symbols of a block
    (compressBlock), the extra bits tallyDist counts in advance, and the
    choice flushBlock makes between a stored, a static and a dynamic block. */
module BlockCoding {
  import opened JavaInts
  import opened Bits
  import opened DeflateCodes
  import opened CodeLengths
  import opened PendingWrites
  import opened HuffmanTree

  /** l_buf and d_buf hold BUFSIZE entries. */
  const BUFSIZE := 16384

  /** The block types of section 3.2.3 of RFC 1951 (BTYPE 00, 01, 10), the
      values of DeflaterConstants.STORED_BLOCK, STATIC_TREES, DYN_TREES. */
  const STORED_BLOCK := 0
  const STATIC_TREES := 1
  const DYN_TREES := 2

  /** The order in which the code-length code lengths are sent
      (section 3.2.7 of RFC 1951). */
  const BL_ORDER: seq<int> := [16, 17, 18, 0, 8, 7, 9, 6, 10, 5, 11, 4, 12, 3, 13, 2, 14, 1, 15]

  // ---------------------------------------------------------------------
  // Buffered entries and their extra bits.

  /** One buffered entry: a literal (dist 0, litlen the byte) or a match
      (dist 1..32767, litlen the length minus 3). */
  ghost predicate EntryOk(litlen: int, dist: int)
  {
    0 <= litlen <= 255 && 0 <= dist <= 32767
  }

  ghost predicate EntriesOk(ls: seq<int>, ds: seq<int>)
  {
    |ls| == |ds| && forall i :: 0 <= i < |ls| ==> EntryOk(ls[i], ds[i])
  }

  /** What tallyDist adds to extra_bits for one entry. */
  function TalliedExtra(litlen: int, dist: int): int
  {
    if dist == 0 then 0
    else TalliedLengthExtra(LengthCode(litlen)) + TalliedDistExtra(DistanceCode(dist - 1))
  }

  /** extra_bits after tallying the entries ls/ds. */
  function ExtraSum(ls: seq<int>, ds: seq<int>): int
    requires |ls| == |ds|
  {
    if |ls| == 0 then 0
    else ExtraSum(ls[..|ls| - 1], ds[..|ds| - 1]) + TalliedExtra(ls[|ls| - 1], ds[|ds| - 1])
  }

  lemma ExtraSumSnoc(ls: seq<int>, ds: seq<int>, l: int, d: int)
    requires |ls| == |ds|
    ensures ExtraSum(ls + [l], ds + [d]) == ExtraSum(ls, ds) + TalliedExtra(l, d)
  {
    assert (ls + [l])[..|ls|] == ls;
    assert (ds + [d])[..|ds|] == ds;
  }

  // ---------------------------------------------------------------------
  // compressBlock.

  /** writeSymbol(s) of a tree with these codes and lengths. */
  function SymWrite(s: int, codes: seq<bv16>, lens: seq<int>): Write
  {
    WriteOf(Symbol(s), codes, lens)
  }

  /** An extra-bit field: the low width bits of value, written only when
      width > 0. */
  function ExtraWrite(value: int, width: int): seq<Write>
  {
    if width > 0 then [Bits(value % Pow2(width), width)] else []
  }

  /** The trees' codes and lengths compressBlock writes with. */
  datatype Codes = Codes(lc: seq<bv16>, ll: seq<int>, dc: seq<bv16>, dl: seq<int>)

  /** What compressBlock writes for one entry. */
  function EntryWrites(litlen: int, dist: int, c: Codes): seq<Write>
  {
    if dist == 0 then [SymWrite(litlen, c.lc, c.ll)]
    else
      var lc := LengthCode(litlen);
      var dc := DistanceCode(dist - 1);
      [SymWrite(lc, c.lc, c.ll)] + ExtraWrite(litlen, WrittenLengthExtra(lc)) +
      [SymWrite(dc, c.dc, c.dl)] + ExtraWrite(dist - 1, WrittenDistExtra(dc))
  }

  /** A match entry's writes, once its symbols are known. */
  lemma MatchWrites(litlen: int, dist: int, c: Codes, lc: int, dc: int)
    requires dist != 0 && lc == LengthCode(litlen) && dc == DistanceCode(dist - 1)
    ensures EntryWrites(litlen, dist, c) ==
      ([SymWrite(lc, c.lc, c.ll)] + ExtraWrite(litlen, WrittenLengthExtra(lc))) +
      ([SymWrite(dc, c.dc, c.dl)] + ExtraWrite(dist - 1, WrittenDistExtra(dc)))
  {
    var e1 := [SymWrite(lc, c.lc, c.ll)] + ExtraWrite(litlen, WrittenLengthExtra(lc));
    var e2 := [SymWrite(dc, c.dc, c.dl)] + ExtraWrite(dist - 1, WrittenDistExtra(dc));
    assert EntryWrites(litlen, dist, c) == e1 + [SymWrite(dc, c.dc, c.dl)] + ExtraWrite(dist - 1, WrittenDistExtra(dc));
    AppendAssoc(e1, [SymWrite(dc, c.dc, c.dl)], ExtraWrite(dist - 1, WrittenDistExtra(dc)));
  }

  /** What compressBlock writes for the entries ls/ds, before EOF. */
  function BlockWrites(ls: seq<int>, ds: seq<int>, c: Codes): seq<Write>
    requires |ls| == |ds|
  {
    if |ls| == 0 then []
    else BlockWrites(ls[..|ls| - 1], ds[..|ds| - 1], c) + EntryWrites(ls[|ls| - 1], ds[|ds| - 1], c)
  }

  lemma BlockWritesSnoc(ls: seq<int>, ds: seq<int>, l: int, d: int, c: Codes)
    requires |ls| == |ds|
    ensures BlockWrites(ls + [l], ds + [d], c) == BlockWrites(ls, ds, c) + EntryWrites(l, d, c)
  {
    assert (ls + [l])[..|ls|] == ls;
    assert (ds + [d])[..|ds|] == ds;
  }

  /** The writes for one more prefix entry. */
  lemma BlockWritesPrefix(ls: seq<int>, ds: seq<int>, i: int, c: Codes)
    requires 0 <= i < |ls| == |ds|
    ensures BlockWrites(ls[..i + 1], ds[..i + 1], c) == BlockWrites(ls[..i], ds[..i], c) + EntryWrites(ls[i], ds[i], c)
  {
    assert ls[..i + 1][..i] == ls[..i] && ds[..i + 1][..i] == ds[..i];
  }

  /** The total width of the extra-bit fields compressBlock writes. */
  function WrittenExtraSum(ls: seq<int>, ds: seq<int>): int
    requires |ls| == |ds|
  {
    if |ls| == 0 then 0
    else
      WrittenExtraSum(ls[..|ls| - 1], ds[..|ds| - 1]) + EntryExtra(ls[|ls| - 1], ds[|ds| - 1])
  }

  /** The width of the extra-bit fields compressBlock writes for one entry. */
  function EntryExtra(litlen: int, dist: int): int
  {
    if dist == 0 then 0 else WrittenLengthExtra(LengthCode(litlen)) + WrittenDistExtra(DistanceCode(dist - 1))
  }

  /** The extra bits tallyDist counts are exactly the widths of the extra
      fields compressBlock writes for the same entries. */
  lemma {:induction false} ExtraSumIsWritten(ls: seq<int>, ds: seq<int>)
    requires EntriesOk(ls, ds)
    ensures ExtraSum(ls, ds) == WrittenExtraSum(ls, ds)
  {
    if |ls| > 0 {
      var n := |ls| - 1;
      assert EntriesOk(ls[..n], ds[..n]);
      ExtraSumIsWritten(ls[..n], ds[..n]);
      if ds[n] != 0 {
        LengthCodeRange(ls[n]);
        DistanceCodeRange(ds[n] - 1);
        ExtraBitsAgree(LengthCode(ls[n]), DistanceCode(ds[n] - 1));
      }
    }
  }

  /** A value in an aligned interval [b, b + m) keeps, modulo m, its
      offset from b. */
  lemma AlignedOffset(x: int, b: int, m: int)
    requires m > 0 && b % m == 0 && b <= x < b + m
    ensures x % m == x - b
  {
    var k, q, r := b / m, x / m, x % m;
    assert x == m * q + r;
    assert b == m * k;
    assert m * (q - k) == (x - b) - r;
    if q > k {
      MulAtLeast(q - k, m);
    } else if q < k {
      MulAtLeast(k - q, m);
    }
  }

  lemma MulAtLeast(a: int, m: int)
    requires a >= 1 && m > 0
    ensures m * a >= m
  {
  }

  /** The RFC's base lengths minus 3 are multiples of 2^(extra bits). */
  lemma LengthBaseAligned(i: int)
    requires 0 <= i < 29
    ensures (LengthBase[i] - 3) % Pow2(LengthExtra[i]) == 0
  {
    assert Pow2(1) == 2 && Pow2(2) == 4 && Pow2(3) == 8 && Pow2(4) == 16 && Pow2(5) == 32;
  }

  /** The RFC's base distances minus 1 are multiples of 2^(extra bits). */
  lemma DistBaseAligned(i: int)
    requires 0 <= i < 30
    ensures (DistBase[i] - 1) % Pow2(DistExtra[i]) == 0
  {
    assert Pow2(1) == 2 && Pow2(2) == 4 && Pow2(3) == 8 && Pow2(4) == 16 && Pow2(5) == 32;
    assert Pow2(6) == 64 && Pow2(7) == 128 && Pow2(8) == 256 && Pow2(9) == 512;
    assert Pow2(10) == 1024 && Pow2(11) == 2048 && Pow2(12) == 4096 && Pow2(13) == 8192;
  }

  /** The masked values compressBlock writes after a length and a distance
      symbol are the RFC's extra bits: the offset of the length from the
      symbol's base length and of the distance from its base distance. */
  lemma ExtraValuesAreRfc(litlen: int, d: int)
    requires 0 <= litlen <= 255 && 0 <= d < 32768
    ensures LengthSymbolCovers(LengthCode(litlen), litlen) && DistSymbolCovers(DistanceCode(d), d)
    ensures var lc := LengthCode(litlen);
      litlen % Pow2(WrittenLengthExtra(lc)) == litlen + 3 - LengthBase[lc - 257]
    ensures var dc := DistanceCode(d);
      d % Pow2(WrittenDistExtra(dc)) == d + 1 - DistBase[dc]
  {
    var lc := LengthCode(litlen);
    var dc := DistanceCode(d);
    LengthCodeCovers(litlen);
    DistanceCodeCovers(d);
    ExtraBitsAgree(lc, dc);
    LengthBaseAligned(lc - 257);
    DistBaseAligned(dc);
    AlignedOffset(litlen, LengthBase[lc - 257] - 3, Pow2(LengthExtra[lc - 257]));
    AlignedOffset(d, DistBase[dc] - 1, Pow2(DistExtra[dc]));
  }

  // ---------------------------------------------------------------------
  // The frequencies tallyLit and tallyDist count.

  /** (byte) x: the low 8 bits of x as a signed byte. */
  function JavaByte(x: int): (r: int)
    ensures -128 <= r < 128 && r % 256 == x % 256
  {
    var m := x % 256;
    if m >= 128 then m - 256 else m
  }

  /** (b & 0xff) undoes (byte) x for an unsigned byte x. */
  lemma ByteRoundTrip(x: int)
    requires 0 <= x < 256
    ensures JavaByte(x) % 256 == x
  {
  }

  /** freqs[s]++, where s indexes freqs. */
  function Tally(h: seq<int>, s: int): (r: seq<int>)
    ensures |r| == |h|
  {
    if 0 <= s < |h| then h[s := h[s] + 1] else h
  }

  function Zeros(n: nat): (r: seq<int>)
    ensures |r| == n && forall k :: 0 <= k < n ==> r[k] == 0
  {
    seq(n, _ => 0)
  }

  /** The literal/length symbol of an entry. */
  function LitSymbol(litlen: int, dist: int): int
  {
    if dist == 0 then litlen else LengthCode(litlen)
  }

  /** literalTree.freqs after tallying the entries since a reset. */
  function LitHist(ls: seq<int>, ds: seq<int>): (r: seq<int>)
    requires |ls| == |ds|
    ensures |r| == LITERAL_NUM
  {
    if |ls| == 0 then Zeros(LITERAL_NUM)
    else Tally(LitHist(ls[..|ls| - 1], ds[..|ds| - 1]), LitSymbol(ls[|ls| - 1], ds[|ds| - 1]))
  }

  /** distTree.freqs after tallying the entries since a reset. */
  function DistHist(ls: seq<int>, ds: seq<int>): (r: seq<int>)
    requires |ls| == |ds|
    ensures |r| == DIST_NUM
  {
    if |ls| == 0 then Zeros(DIST_NUM)
    else
      DistTally(DistHist(ls[..|ls| - 1], ds[..|ds| - 1]), ds[|ds| - 1])
  }

  /** distTree.freqs after tallying an entry with distance field dist. */
  function DistTally(h: seq<int>, dist: int): (r: seq<int>)
    ensures |r| == |h|
  {
    if dist == 0 then h else Tally(h, DistanceCode(dist - 1))
  }

  lemma HistSnoc(ls: seq<int>, ds: seq<int>, l: int, d: int)
    requires |ls| == |ds|
    ensures LitHist(ls + [l], ds + [d]) == Tally(LitHist(ls, ds), LitSymbol(l, d))
    ensures DistHist(ls + [l], ds + [d]) == DistTally(DistHist(ls, ds), d)
  {
    assert (ls + [l])[..|ls|] == ls;
    assert (ds + [d])[..|ds|] == ds;
  }

  // ---------------------------------------------------------------------
  // The size of what compressBlock writes.

  /** The number of bits the writeBits calls among ws write. */
  function Width(ws: seq<Write>): int
  {
    if |ws| == 0 then 0
    else Width(ws[..|ws| - 1]) + (match ws[|ws| - 1] case Bits(_, w) => w case _ => 0)
  }

  lemma {:induction false} WidthAppend(a: seq<Write>, b: seq<Write>)
    ensures Width(a + b) == Width(a) + Width(b)
    decreases |b|
  {
    if |b| == 0 {
      assert a + b == a;
    } else {
      var n := |b| - 1;
      assert (a + b)[..|a| + n] == a + b[..n];
      WidthAppend(a, b[..n]);
    }
  }

  /** The codes cover every literal/length and every distance symbol. */
  ghost predicate CodesSpan(c: Codes)
  {
    |c.lc| >= LITERAL_NUM && |c.ll| >= LITERAL_NUM && |c.dc| >= DIST_NUM && |c.dl| >= DIST_NUM
  }

  /** The code bits of one entry's symbols. */
  function EntryCodeBits(litlen: int, dist: int, c: Codes): int
    requires EntryOk(litlen, dist) && CodesSpan(c)
  {
    if dist == 0 then c.ll[litlen]
    else
      LengthCodeRange(litlen);
      DistanceCodeRange(dist - 1);
      c.ll[LengthCode(litlen)] + c.dl[DistanceCode(dist - 1)]
  }

  /** One entry takes its symbols' code lengths plus its extra bits. */
  lemma EntryWidth(l: int, d: int, c: Codes)
    requires EntryOk(l, d) && CodesSpan(c)
    ensures Width(EntryWrites(l, d, c)) == EntryCodeBits(l, d, c) + EntryExtra(l, d)
  {
    if d != 0 {
      LengthCodeRange(l);
      DistanceCodeRange(d - 1);
      var lc, dc := LengthCode(l), DistanceCode(d - 1);
      var a, b := [SymWrite(lc, c.lc, c.ll)], ExtraWrite(l, WrittenLengthExtra(lc));
      var e, f := [SymWrite(dc, c.dc, c.dl)], ExtraWrite(d - 1, WrittenDistExtra(dc));
      WidthAppend(a, b);
      WidthAppend(a + b, e);
      WidthAppend(a + b + e, f);
    } else {
      assert EntryWrites(l, d, c)[..0] == [];
    }
  }

  /** What compressBlock writes for the entries takes exactly the bits
      getEncodedLength counts for the frequencies they tallied, plus the
      extra bits: the sizes flushBlock compares are the sizes of the
      symbols it then writes. */
  lemma {:induction false} BlockSize(ls: seq<int>, ds: seq<int>, c: Codes)
    requires EntriesOk(ls, ds) && CodesSpan(c)
    ensures Width(BlockWrites(ls, ds, c)) ==
      EncodedLength(LitHist(ls, ds), c.ll, LITERAL_NUM) +
      EncodedLength(DistHist(ls, ds), c.dl, DIST_NUM) + WrittenExtraSum(ls, ds)
  {
    if |ls| == 0 {
      EncodedLengthZero(Zeros(LITERAL_NUM), c.ll, LITERAL_NUM);
      EncodedLengthZero(Zeros(DIST_NUM), c.dl, DIST_NUM);
    } else {
      var n := |ls| - 1;
      var l, d := ls[n], ds[n];
      var ps, qs := ls[..n], ds[..n];
      assert EntriesOk(ps, qs) && EntryOk(l, d);
      var prev := BlockWrites(ps, qs, c);
      BlockSize(ps, qs, c);
      WidthAppend(prev, EntryWrites(l, d, c));
      EntryWidth(l, d, c);
      EntryTally(LitHist(ps, qs), DistHist(ps, qs), l, d, c);
    }
  }

  /** Tallying one entry adds its symbols' code lengths to the encoded
      lengths. */
  lemma EntryTally(lh: seq<int>, dh: seq<int>, l: int, d: int, c: Codes)
    requires |lh| == LITERAL_NUM && |dh| == DIST_NUM && EntryOk(l, d) && CodesSpan(c)
    ensures EncodedLength(Tally(lh, LitSymbol(l, d)), c.ll, LITERAL_NUM) +
      EncodedLength(DistTally(dh, d), c.dl, DIST_NUM) ==
      EncodedLength(lh, c.ll, LITERAL_NUM) + EncodedLength(dh, c.dl, DIST_NUM) + EntryCodeBits(l, d, c)
  {
    if d == 0 {
      EncodedLengthTally(lh, c.ll, LITERAL_NUM, l);
    } else {
      LengthCodeRange(l);
      DistanceCodeRange(d - 1);
      var lc, dc := LengthCode(l), DistanceCode(d - 1);
      EncodedLengthTally(lh, c.ll, LITERAL_NUM, lc);
      EncodedLengthTally(dh, c.dl, DIST_NUM, dc);
    }
  }

  /** Everything compressBlock writes: the entries, then end of block. */
  function EntryBlock(ls: seq<int>, ds: seq<int>, c: Codes): seq<Write>
    requires |ls| == |ds|
  {
    BlockWrites(ls, ds, c) + [SymWrite(EOF_SYMBOL, c.lc, c.ll)]
  }

  /** With the end-of-block symbol that flushBlock counts before building
      the trees. */
  lemma BlockWithEofSize(ls: seq<int>, ds: seq<int>, c: Codes)
    requires EntriesOk(ls, ds) && CodesSpan(c)
    ensures Width(EntryBlock(ls, ds, c)) ==
      EncodedLength(Tally(LitHist(ls, ds), EOF_SYMBOL), c.ll, LITERAL_NUM) +
      EncodedLength(DistHist(ls, ds), c.dl, DIST_NUM) + ExtraSum(ls, ds)
  {
    var bw, eof := BlockWrites(ls, ds, c), [SymWrite(EOF_SYMBOL, c.lc, c.ll)];
    EofTally(LitHist(ls, ds), c.ll);
    BlockSize(ls, ds, c);
    ExtraSumIsWritten(ls, ds);
    WidthAppend(bw, eof);
    assert Width(eof) == c.ll[EOF_SYMBOL] by {
      assert eof[..0] == [];
    }
  }

  /** Counting the end-of-block symbol adds its code length. */
  lemma EofTally(lh: seq<int>, ll: seq<int>)
    requires |lh| == LITERAL_NUM <= |ll|
    ensures EncodedLength(Tally(lh, EOF_SYMBOL), ll, LITERAL_NUM) == EncodedLength(lh, ll, LITERAL_NUM) + ll[EOF_SYMBOL]
  {
    EncodedLengthTally(lh, ll, LITERAL_NUM, EOF_SYMBOL);
  }

  // ---------------------------------------------------------------------
  // flushBlock's choices.

  /** The number of code-length code lengths sent, as the loop in
      flushBlock computes it: counting down from rank 18 while the rank is
      above the current count. */
  function BlTreeCodesAsWritten(blLength: seq<int>): (r: int)
    requires |blLength| == 19
    ensures 4 <= r <= 19 && r != 5
    ensures forall k :: 4 < k < 19 && r <= k ==> RankLength(blLength, k) <= 0
    ensures r > 4 ==> RankLength(blLength, r - 1) > 0
  {
    CountDownAsWritten(blLength, 18, 4)
  }

  /** BL_ORDER is a permutation of the 19 code-length symbols. */
  lemma BlOrderRange(k: int)
    requires 0 <= k < 19
    ensures 0 <= BL_ORDER[k] < 19
  {
  }

  /** The length of the code-length symbol sent at rank k. */
  function RankLength(blLength: seq<int>, k: int): int
    requires |blLength| == 19 && 0 <= k < 19
  {
    BlOrderRange(k);
    blLength[BL_ORDER[k]]
  }

  /** The loop from rank i down with the count so far: either still 4, or
      just set to one past a rank above i. */
  function CountDownAsWritten(blLength: seq<int>, i: int, codes: int): (r: int)
    requires |blLength| == 19 && 4 <= i <= 18 && (codes == 4 || codes > i)
    ensures codes > i ==> r == codes
    ensures codes == 4 ==> 4 <= r <= i + 1
    ensures codes == 4 ==> forall k :: 4 < k <= i && r <= k ==> RankLength(blLength, k) <= 0
    ensures codes == 4 && r > 4 ==> r > 5 && RankLength(blLength, r - 1) > 0
    decreases i
  {
    if i > codes then
      CountDownAsWritten(blLength, i - 1, if RankLength(blLength, i) > 0 then i + 1 else codes)
    else codes
  }

  /** A complete code-length code over symbols 0 (length 1), 8 and 18
      (length 2): symbol 8 is at rank 4 and no later rank has a length, and
      the loop stops before it looks at rank 4, so symbol 8's length is not
      sent. */
  lemma BlTreeCodesMissesRank4()
    ensures var lens := [1, 0, 0, 0, 0, 0, 0, 0, 2, 0, 0, 0, 0, 0, 0, 0, 0, 0, 2];
      BL_ORDER[4] == 8 && RankLength(lens, 4) > 0 &&
      BlTreeCodesAsWritten(lens) == 4 && BlTreeCodes(lens) == 5
  {
    var lens := [1, 0, 0, 0, 0, 0, 0, 0, 2, 0, 0, 0, 0, 0, 0, 0, 0, 0, 2];
    Rank4Zeros(lens);
    assert RankLength(lens, 4) == 2;
    CountDownOverZeros(lens, 18);
  }

  lemma Rank4Zeros(lens: seq<int>)
    requires lens == [1, 0, 0, 0, 0, 0, 0, 0, 2, 0, 0, 0, 0, 0, 0, 0, 0, 0, 2]
    ensures forall k :: 4 < k <= 18 ==> RankLength(lens, k) <= 0
  {
    forall k | 4 < k <= 18
      ensures RankLength(lens, k) <= 0
    {
      assert BL_ORDER[k] != 0 && BL_ORDER[k] != 8 && BL_ORDER[k] != 18;
    }
  }

  /** Over ranks without a length, the intended loop goes on down to rank 4. */
  lemma {:induction false} CountDownOverZeros(lens: seq<int>, i: int)
    requires |lens| == 19 && 4 <= i <= 18
    requires forall k :: 4 < k <= i ==> RankLength(lens, k) <= 0
    ensures CountDown(lens, i) == CountDown(lens, 4)
    decreases i
  {
    if i > 4 {
      CountDownOverZeros(lens, i - 1);
    }
  }

  /** The intended count: 1 + the last rank with a nonzero length, and at
      least 4 (HCLEN + 4 of section 3.2.7 of RFC 1951). */
  function BlTreeCodes(blLength: seq<int>): (r: int)
    requires |blLength| == 19
    ensures 4 <= r <= 19
    ensures forall k :: r <= k < 19 ==> RankLength(blLength, k) <= 0
    ensures r > 4 ==> RankLength(blLength, r - 1) > 0
  {
    CountDown(blLength, 18)
  }

  /** The loop of flushBlock with i >= blTreeCodes - 1 as its guard. */
  function CountDown(blLength: seq<int>, i: int): (r: int)
    requires |blLength| == 19 && 3 <= i <= 18
    ensures 4 <= r <= i + 1
    ensures forall k :: r <= k <= i ==> RankLength(blLength, k) <= 0
    ensures r > 4 ==> RankLength(blLength, r - 1) > 0
    decreases i
  {
    if i >= 4 then
      if RankLength(blLength, i) > 0 then i + 1 else CountDown(blLength, i - 1)
    else 4
  }

  /** Apart from rank 4, the loop as written finds the same count. */
  lemma {:induction false} CountDownAgrees(blLength: seq<int>, i: int)
    requires |blLength| == 19 && 4 <= i <= 18
    requires RankLength(blLength, 4) <= 0
    ensures CountDownAsWritten(blLength, i, 4) == CountDown(blLength, i)
    decreases i
  {
    if i > 4 && RankLength(blLength, i) <= 0 {
      CountDownAgrees(blLength, i - 1);
    } else if i > 4 {
      assert CountDownAsWritten(blLength, i - 1, i + 1) == i + 1;
    }
  }

  /** Whenever rank 4 has no length, flushBlock's count is the intended one. */
  lemma BlTreeCodesAgree(blLength: seq<int>)
    requires |blLength| == 19 && RankLength(blLength, 4) <= 0
    ensures BlTreeCodesAsWritten(blLength) == BlTreeCodes(blLength)
  {
    CountDownAgrees(blLength, 18);
  }

  /** The rank at which each code-length symbol is sent: the inverse of
      BL_ORDER. */
  const BL_RANK: seq<int> := [3, 17, 15, 13, 11, 9, 7, 5, 4, 6, 8, 10, 12, 14, 16, 18, 0, 1, 2]

  lemma BlRankInverse(s: int)
    requires 0 <= s < 19
    ensures 0 <= BL_RANK[s] < 19 && BL_ORDER[BL_RANK[s]] == s
  {
  }

  /** With the count flushBlock should send, every code-length symbol that
      has a length is among the ranks sent. */
  lemma SentRanksCover(blLength: seq<int>, s: int)
    requires |blLength| == 19 && 0 <= s < 19 && blLength[s] > 0
    ensures BL_RANK[s] < BlTreeCodes(blLength) && BL_ORDER[BL_RANK[s]] == s
  {
    BlRankInverse(s);
    assert RankLength(blLength, BL_RANK[s]) == blLength[s];
  }

  /** With the count flushBlock computes, every code-length symbol that has
      a length is among the ranks sent, except symbol 8 at rank 4. */
  lemma AsWrittenRanksCover(blLength: seq<int>, s: int)
    requires |blLength| == 19 && 0 <= s < 19 && blLength[s] > 0 && s != BL_ORDER[4]
    ensures BL_RANK[s] < BlTreeCodesAsWritten(blLength) && BL_ORDER[BL_RANK[s]] == s
  {
    BlRankInverse(s);
    var k, r := BL_RANK[s], BlTreeCodesAsWritten(blLength);
    assert RankLength(blLength, k) == blLength[s];
    assert k != 4;
  }

  /** sendAllTrees' loop: 3 bits for each of the first n ranks. */
  function RankWrites(blLength: seq<int>, n: int): (r: seq<Write>)
    requires |blLength| == 19 && 0 <= n <= 19
    ensures |r| == n
  {
    if n == 0 then [] else RankWrites(blLength, n - 1) + [Bits(RankLength(blLength, n - 1), 3)]
  }

  /** The k-th of those writes carries the length of the symbol at rank k. */
  lemma {:induction false} RankWritesAt(blLength: seq<int>, n: int, k: int)
    requires |blLength| == 19 && 0 <= k < n <= 19
    ensures RankWrites(blLength, n)[k] == Bits(blLength[BL_ORDER[k]], 3)
  {
    if k < n - 1 {
      RankWritesAt(blLength, n - 1, k);
    }
  }

  /** The header sendAllTrees writes before the two trees: HLIT, HDIST,
      HCLEN (section 3.2.7 of RFC 1951), then the code-length code lengths. */
  function TreeHeader(litCodes: int, distCodes: int, blTreeCodes: int, blLength: seq<int>): seq<Write>
    requires |blLength| == 19 && 0 <= blTreeCodes <= 19
  {
    [Bits(litCodes - 257, 5), Bits(distCodes - 1, 5), Bits(blTreeCodes - 4, 4)] + RankWrites(blLength, blTreeCodes)
  }

  /** With the corrected count, the header carries the length of every
      code-length symbol that has one, at its rank. */
  lemma HeaderCarriesLengths(blLength: seq<int>, s: int)
    requires |blLength| == 19 && 0 <= s < 19 && blLength[s] > 0
    ensures BL_RANK[s] < BlTreeCodes(blLength)
    ensures RankWrites(blLength, BlTreeCodes(blLength))[BL_RANK[s]] == Bits(blLength[s], 3)
  {
    SentRanksCover(blLength, s);
    RankWritesAt(blLength, BlTreeCodes(blLength), BL_RANK[s]);
  }

  /** The code lengths and codes of the trees when sendAllTrees runs. */
  datatype Sent = Sent(lit: seq<int>, litNum: int, dist: seq<int>, distNum: int,
                       bl: seq<int>, blCodes: seq<bv16>, blTreeCodes: int)

  ghost predicate SentOk(t: Sent)
  {
    0 <= t.litNum <= |t.lit| && LengthsInRange(t.lit, t.litNum) &&
    0 <= t.distNum <= |t.dist| && LengthsInRange(t.dist, t.distNum) &&
    |t.bl| == 19 && 0 <= t.blTreeCodes <= 19
  }

  /** What sendAllTrees writes: the header, then the literal/length and the
      distance code lengths in the code-length code. */
  function SentWrites(t: Sent): seq<Write>
    requires SentOk(t)
  {
    TreeHeader(t.litNum, t.distNum, t.blTreeCodes, t.bl) +
    Render(Emits(Tokens(t.lit, t.litNum)), t.blCodes, t.bl) +
    Render(Emits(Tokens(t.dist, t.distNum)), t.blCodes, t.bl)
  }

  /** blTree.freqs after calcBLFreq has counted both trees' code lengths
      into a cleared array. */
  function CodeLengthFreqs(lit: seq<int>, litNum: int, dist: seq<int>, distNum: int): (r: seq<int>)
    requires 0 <= litNum <= |lit| && 0 <= distNum <= |dist|
    ensures |r| == BITLEN_NUM
  {
    seq(BITLEN_NUM, s => SymbolCount(Emits(Tokens(lit, litNum)), s) + SymbolCount(Emits(Tokens(dist, distNum)), s))
  }

  /** The codes buildCodes stores for these lengths and counts. */
  ghost function CanonicalCodes(lens: seq<int>, counts: seq<int>): (r: seq<bv16>)
    requires LensFit(lens, counts)
    ensures |r| == |lens| && forall i :: 0 <= i < |lens| ==> r[i] == StoredCode(lens, counts, i)
  {
    seq(|lens|, i requires 0 <= i < |lens| => StoredCode(lens, counts, i))
  }

  /** The low bit of a block header: 1 on the last block. */
  function LastBit(lastBlock: bool): int
  {
    if lastBlock then 1 else 0
  }

  datatype BlockKind = Stored | Static | Dynamic

  /** The block flushBlock writes.  The stored form is taken when there is
      a stored copy and its length plus the four bytes of LEN and NLEN, in
      int arithmetic, is fewer bytes than the cheaper coded form; otherwise
      the static trees when they cost no more than the dynamic ones, and
      the dynamic trees only when they are strictly cheaper. */
  function ChooseBlock(dynLen: int, staticLen: int, storedOffset: int, storedLen: int): (k: BlockKind)
    ensures k == Stored <==> storedOffset >= 0 && Int32(storedLen + 4) < Min(dynLen, staticLen) / 8
    ensures k == Static <==> k != Stored && staticLen <= dynLen
    ensures k == Dynamic <==> k != Stored && dynLen < staticLen
  {
    var optLen := if dynLen >= staticLen then staticLen else dynLen;
    if storedOffset >= 0 && Int32(storedLen + 4) < optLen / 8 then Stored
    else if optLen == staticLen then Static
    else Dynamic
  }

  /** Without wrap-around, the stored form wins exactly when its 8 * (len +
      4) bits are at least a byte below the cheaper coded form. */
  lemma StoredWhenSmaller(dynLen: int, staticLen: int, storedOffset: int, storedLen: int)
    requires storedOffset >= 0 && IsInt(storedLen + 4)
    ensures ChooseBlock(dynLen, staticLen, storedOffset, storedLen) == Stored <==>
            8 * (storedLen + 4) + 8 <= Min(dynLen, staticLen)
  {
    var m := Min(dynLen, staticLen);
    assert m / 8 * 8 <= m < m / 8 * 8 + 8;
  }

  /** stored_len + 4 wraps for the largest int, and the block is then
      stored whatever the coded sizes. */
  lemma StoredLengthWraps(dynLen: int, staticLen: int)
    requires dynLen >= 0 && staticLen >= 0
    ensures Int32(0x7fff_ffff + 4) == -0x7fff_fffd
    ensures ChooseBlock(dynLen, staticLen, 0, 0x7fff_ffff) == Stored
  {
  }

  /** A tie between the dynamic and the static size picks the static trees. */
  lemma TiePicksStatic(len: int, storedOffset: int, storedLen: int)
    requires storedOffset < 0
    ensures ChooseBlock(len, len, storedOffset, storedLen) == Static
  {
  }

  /** The three kinds' writes, as one. */
  lemma FlushWritesCases(w: seq<Write>, w0: seq<Write>, kind: BlockKind, storedOffset: int, storedLen: int, lastBlock: bool,
                         ls: seq<int>, ds: seq<int>, sc: Codes, t: Sent, c: Codes)
    requires |ls| == |ds| && SentOk(t)
    requires kind == Stored ==> w == w0 + StoredWrites(storedOffset, storedLen, lastBlock)
    requires kind == Static ==> w == w0 + [Bits(STATIC_TREES * 2 + LastBit(lastBlock), 3)] + EntryBlock(ls, ds, sc)
    requires kind == Dynamic ==> w == w0 + [Bits(DYN_TREES * 2 + LastBit(lastBlock), 3)] + SentWrites(t) + EntryBlock(ls, ds, c)
    ensures w == w0 + FlushWrites(kind, storedOffset, storedLen, lastBlock, ls, ds, sc, t, c)
  {
    match kind
    case Stored =>
    case Static =>
    case Dynamic =>
  }

  /** What flushBlock writes for the kind chosen: the stored copy; or the
      static header and the entries ls/ds in the fixed code sc; or the
      dynamic header, the trees t and the entries in their codes c. */
  function FlushWrites(kind: BlockKind, storedOffset: int, storedLen: int, lastBlock: bool,
                       ls: seq<int>, ds: seq<int>, sc: Codes, t: Sent, c: Codes): (w: seq<Write>)
    requires |ls| == |ds| && SentOk(t)
    ensures |w| > 0 && w[0] == BlockHeader(kind, lastBlock)
  {
    match kind
    case Stored => StoredWrites(storedOffset, storedLen, lastBlock)
    case Static => [Bits(STATIC_TREES * 2 + LastBit(lastBlock), 3)] + EntryBlock(ls, ds, sc)
    case Dynamic => [Bits(DYN_TREES * 2 + LastBit(lastBlock), 3)] + SentWrites(t) + EntryBlock(ls, ds, c)
  }

  // ---------------------------------------------------------------------
  // The sizes flushBlock compares.

  /** The dynamic size as flushBlock estimates it: 14 bits for HLIT, HDIST
      and HCLEN, 3 bits per code-length code length, the encoded trees and
      symbols, and the extra bits of the matches. */
  function DynamicLen(blTreeCodes: int, blLen: int, litLen: int, distLen: int, extraBits: int): int
  {
    14 + blTreeCodes * 3 + blLen + litLen + distLen + extraBits
  }

  /** The static size: each symbol's count times its fixed length. */
  function StaticLen(litFreqs: seq<int>, litLens: seq<int>, distFreqs: seq<int>, distLens: seq<int>, extraBits: int): int
    requires |litFreqs| <= |litLens| && |distFreqs| <= |distLens|
  {
    extraBits + EncodedLength(litFreqs, litLens, |litFreqs|) + EncodedLength(distFreqs, distLens, |distFreqs|)
  }
  /** Estimates from the frequencies the arrays hold once the trees are
      built. */
  lemma EstimatesOf(ls: seq<int>, ds: seq<int>, sll: seq<int>, sdl: seq<int>, t: Sent, dynLen: int, staticLen: int,
                    lf: seq<int>, df: seq<int>, bf: seq<int>, e: int)
    requires |ls| == |ds| && |sll| == LITERAL_NUM && |sdl| == DIST_NUM && SentOk(t)
    requires |t.lit| == LITERAL_NUM && |t.dist| == DIST_NUM && t.blTreeCodes == BlTreeCodesAsWritten(t.bl)
    requires lf == Tally(LitHist(ls, ds), EOF_SYMBOL) && df == DistHist(ls, ds) && e == ExtraSum(ls, ds)
    requires bf == CodeLengthFreqs(t.lit, t.litNum, t.dist, t.distNum)
    requires staticLen == StaticLen(lf, sll, df, sdl, e)
    requires dynLen == DynamicLen(t.blTreeCodes, EncodedLength(bf, t.bl, BITLEN_NUM), EncodedLength(lf, t.lit, LITERAL_NUM),
                                  EncodedLength(df, t.dist, DIST_NUM), e)
    ensures Estimates(ls, ds, sll, sdl, t, dynLen, staticLen)
  {
  }

  /** opt_len and static_len as flushBlock computes them for the entries
      ls/ds, the fixed code lengths sll/sdl and the dynamic trees t, whose
      count of code-length code lengths is the one flushBlock's loop finds. */
  ghost predicate Estimates(ls: seq<int>, ds: seq<int>, sll: seq<int>, sdl: seq<int>, t: Sent, dynLen: int, staticLen: int)
  {
    |ls| == |ds| && |sll| == LITERAL_NUM && |sdl| == DIST_NUM && SentOk(t) &&
    |t.lit| == LITERAL_NUM && |t.dist| == DIST_NUM && t.blTreeCodes == BlTreeCodesAsWritten(t.bl) &&
    staticLen == StaticLen(Tally(LitHist(ls, ds), EOF_SYMBOL), sll, DistHist(ls, ds), sdl, ExtraSum(ls, ds)) &&
    dynLen == DynamicLen(t.blTreeCodes, EncodedLength(CodeLengthFreqs(t.lit, t.litNum, t.dist, t.distNum), t.bl, BITLEN_NUM),
                         EncodedLength(Tally(LitHist(ls, ds), EOF_SYMBOL), t.lit, LITERAL_NUM),
                         EncodedLength(DistHist(ls, ds), t.dist, DIST_NUM), ExtraSum(ls, ds))
  }


  // ---------------------------------------------------------------------
  // flushStoredBlock.

  /** The three-bit header every block starts with: BFINAL, then BTYPE. */
  function BlockHeader(kind: BlockKind, lastBlock: bool): Write
  {
    var btype := match kind case Stored => STORED_BLOCK case Static => STATIC_TREES case Dynamic => DYN_TREES;
    Bits(btype * 2 + LastBit(lastBlock), 3)
  }

  /** A block appended to the writes w starts at index |w|. */
  lemma HeaderAt(w: seq<Write>, h: Write, a: seq<Write>, b: seq<Write>)
    ensures |w + [h] + a + b| > |w| && (w + [h] + a + b)[|w|] == h
    ensures |w + [h] + a| > |w| && (w + [h] + a)[|w|] == h
  {
  }

  lemma StoredHeaderAt(w: seq<Write>, offset: int, len: int, lastBlock: bool)
    ensures |w + StoredWrites(offset, len, lastBlock)| > |w|
    ensures (w + StoredWrites(offset, len, lastBlock))[|w|] == BlockHeader(Stored, lastBlock)
  {
  }

  /** A stored block: the 3-bit header, alignment, LEN and NLEN (Java ~),
      and the bytes. */
  function StoredWrites(offset: int, len: int, lastBlock: bool): seq<Write>
  {
    [Bits(STORED_BLOCK * 2 + LastBit(lastBlock), 3), Align, Short(len), Short(-len - 1), Block(offset, len)]
  }
}
