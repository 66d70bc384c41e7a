/** HuffmanCompressor: the tally of literals and matches into l_buf and
    d_buf, and flushBlock, which builds the three trees, picks a stored, a
    static or a dynamic block and writes it to the pending buffer. */
module Compressor {
  import opened JavaErrors
  import opened JavaInts
  import opened Bits
  import opened Canonical
  import opened DeflateCodes
  import opened CodeLengths
  import opened PendingWrites
  import opened HuffmanTree
  import opened FixedTables
  import opened BlockCoding

  /** buildTree leaves lengths that buildCodes and calcBLFreq accept. */
  lemma BuiltFits(t: Tree)
    requires t.Valid() && t.LengthsBuilt()
    ensures LensFit(t.length, t.blCounts[..])
    ensures forall s :: 0 <= s < |t.length| ==> 0 <= t.length[s] <= t.maxLength
  {
    LengthsBounded(t.root, t.length, t.blCounts[..], t.maxLength);
  }

  /** What buildTree leaves: a trie of the symbols in use, code lengths
      for it and numCodes past the last symbol in use. */
  ghost predicate Built(t: Tree)
    reads t, t.freqs, t.blCounts
  {
    t.Valid() && t.TreeBuilt() && t.LengthsBuilt() && CodesCover(t.freqs[..], t.numCodes, t.minNumCodes) &&
    t.minNumCodes <= t.freqs.Length
  }

  /** Lengths that calcBLFreq, writeTree and buildCodes accept. */
  ghost predicate Ranged(t: Tree)
    reads t, t.blCounts
  {
    0 <= t.numCodes <= |t.length| == t.freqs.Length && LengthsInRange(t.length, t.numCodes) &&
    LensFit(t.length, t.blCounts[..])
  }

  /** A built tree's lengths are in range. */
  lemma BuiltInRange(t: Tree)
    requires Built(t)
    ensures Ranged(t)
  {
    BuiltFits(t);
  }

  /** What buildCodes leaves: the canonical codes of the tree's lengths,
      bit-reversed. */
  ghost predicate HasCanonicalCodes(t: Tree)
    reads t, t.blCounts
  {
    LensFit(t.length, t.blCounts[..]) && t.codes == CanonicalCodes(t.length, t.blCounts[..])
  }

  lemma CodesAreCanonical(t: Tree)
    requires LensFit(t.length, t.blCounts[..]) && |t.codes| == |t.length|
    requires forall i :: 0 <= i < |t.length| ==> t.codes[i] == StoredCode(t.length, t.blCounts[..], i)
    ensures HasCanonicalCodes(t)
  {
  }

  ghost predicate BufferedOn(lb: seq<int>, db: seq<int>, n: int, ls: seq<int>, ds: seq<int>, extra: int)
  {
    0 <= n <= |lb| && n <= |db| && |ls| == n && |ds| == n && EntriesOk(ls, ds) &&
    extra == ExtraSum(ls, ds) &&
    forall i :: 0 <= i < n ==> lb[i] == JavaByte(ls[i]) && db[i] == ds[i]
  }

  ghost predicate CountedOn(lf: seq<int>, df: seq<int>, bf: seq<int>, ls: seq<int>, ds: seq<int>)
  {
    |ls| == |ds| && lf == LitHist(ls, ds) && df == DistHist(ls, ds) &&
    forall s :: 0 <= s < |bf| ==> bf[s] == 0
  }

  /** Storing one more entry keeps the buffers and the counts in step. */
  lemma TallyStep(lb: seq<int>, db: seq<int>, n: int, ls: seq<int>, ds: seq<int>, extra: int,
                  lf: seq<int>, df: seq<int>, bf: seq<int>, l: int, d: int)
    requires BufferedOn(lb, db, n, ls, ds, extra) && CountedOn(lf, df, bf, ls, ds)
    requires n < |lb| && n < |db| && EntryOk(l, d)
    ensures BufferedOn(lb[n := JavaByte(l)], db[n := d], n + 1, ls + [l], ds + [d], extra + TalliedExtra(l, d))
    ensures CountedOn(Tally(lf, LitSymbol(l, d)), if d == 0 then df else Tally(df, DistanceCode(d - 1)), bf, ls + [l], ds + [d])
  {
    ExtraSumSnoc(ls, ds, l, d);
    HistSnoc(ls, ds, l, d);
    var ls2, ds2 := ls + [l], ds + [d];
    forall i | 0 <= i < |ls2|
      ensures EntryOk(ls2[i], ds2[i])
    {
      if i < n {
        assert ls2[i] == ls[i] && ds2[i] == ds[i];
      }
    }
  }

  /** The same step for a match entry, with its symbols already computed. */
  lemma MatchStep(lb: seq<int>, db: seq<int>, n: int, ls: seq<int>, ds: seq<int>, extra: int,
                  lf: seq<int>, df: seq<int>, bf: seq<int>, l: int, d: int, lc: int, dc: int)
    requires BufferedOn(lb, db, n, ls, ds, extra) && CountedOn(lf, df, bf, ls, ds)
    requires n < |lb| && n < |db| && EntryOk(l, d) && d != 0
    requires lc == LengthCode(l) && dc == DistanceCode(d - 1)
    ensures BufferedOn(lb[n := JavaByte(l)], db[n := d], n + 1, ls + [l], ds + [d],
                       extra + TalliedLengthExtra(lc) + TalliedDistExtra(dc))
    ensures CountedOn(Tally(lf, lc), Tally(df, dc), bf, ls + [l], ds + [d])
  {
    TallyStep(lb, db, n, ls, ds, extra, lf, df, bf, l, d);
  }

  /** freqs[s]++ */
  method Bump(a: array<int>, s: int)
    requires 0 <= s < a.Length
    modifies a
    ensures a[..] == Tally(old(a[..]), s)
  {
    a[s] := a[s] + 1;
  }

  /** Tree.Valid, which depends on the tree's constant fields only. */
  ghost predicate TreeOk(t: Tree)
  {
    t.freqs != t.blCounts && t.blCounts.Length == t.maxLength && 2 <= t.maxLength <= 15 &&
    t.freqs.Length >= 1 && t.minNumCodes >= 1
  }

  class HuffmanCompressor {
    const pending: DeflaterPending
    const literalTree: Tree
    const distTree: Tree
    const blTree: Tree
    /** d_buf: 0 for a literal, else the match distance. */
    const dBuf: array<int>
    /** l_buf: the literal, or the match length - 3, as a signed byte. */
    const lBuf: array<int>
    var lastLit: int
    var extraBits: int
    /** The entries tallied since the last reset, as l_buf[i] & 0xff and
        d_buf[i]. */
    ghost var lits: seq<int>
    ghost var dists: seq<int>
    /** The fixed code of section 3.2.6 of RFC 1951 (the static tables). */
    const staticLCodes: seq<bv16>
    const staticLLength: seq<int>
    const staticDCodes: seq<bv16>
    const staticDLength: seq<int>

    /** The static tables hold the fixed code. */
    ghost predicate StaticReady()
      reads {}
    {
      |staticLCodes| == |staticLLength| == LITERAL_NUM && |staticDCodes| == |staticDLength| == DIST_NUM &&
      (forall i :: 0 <= i < LITERAL_NUM ==> FixedLitEntry(staticLCodes, staticLLength, i)) &&
      (forall i :: 0 <= i < DIST_NUM ==> FixedDistEntry(staticDCodes, staticDLength, i))
    }

    /** The three trees as the constructor makes them, sharing the pending
        buffer, and no two arrays the same. */
    ghost predicate Shape()
      reads {}
    {
      TreeOk(literalTree) && TreeOk(distTree) && TreeOk(blTree) &&
      literalTree.freqs.Length == LITERAL_NUM && literalTree.minNumCodes == 257 && literalTree.maxLength == 15 &&
      distTree.freqs.Length == DIST_NUM && distTree.minNumCodes == 1 && distTree.maxLength == 15 &&
      blTree.freqs.Length == BITLEN_NUM && blTree.minNumCodes == 4 && blTree.maxLength == 7 &&
      literalTree.pending == pending && distTree.pending == pending && blTree.pending == pending &&
      literalTree != distTree && literalTree != blTree && distTree != blTree &&
      lBuf.Length == BUFSIZE && dBuf.Length == BUFSIZE &&
      literalTree.freqs != distTree.freqs && literalTree.freqs != distTree.blCounts &&
      literalTree.freqs != blTree.freqs && literalTree.freqs != blTree.blCounts &&
      literalTree.freqs != lBuf && literalTree.freqs != dBuf &&
      literalTree.blCounts != distTree.freqs && literalTree.blCounts != distTree.blCounts &&
      literalTree.blCounts != blTree.freqs && literalTree.blCounts != blTree.blCounts &&
      literalTree.blCounts != lBuf && literalTree.blCounts != dBuf && distTree.freqs != blTree.freqs &&
      distTree.freqs != blTree.blCounts && distTree.freqs != lBuf && distTree.freqs != dBuf &&
      distTree.blCounts != blTree.freqs && distTree.blCounts != blTree.blCounts &&
      distTree.blCounts != lBuf && distTree.blCounts != dBuf && blTree.freqs != lBuf &&
      blTree.freqs != dBuf && blTree.blCounts != lBuf && blTree.blCounts != dBuf && lBuf != dBuf &&
      |staticLCodes| == |staticLLength| == LITERAL_NUM && |staticDCodes| == |staticDLength| == DIST_NUM
    }

    /** l_buf and d_buf hold the entries tallied since the last reset, and
        extra_bits their extra bits. */
    ghost predicate Buffered()
      reads this, lBuf, dBuf
    {
      BufferedOn(lBuf[..], dBuf[..], lastLit, lits, dists, extraBits)
    }

    /** The literal and distance frequencies count the entries; the
        code-length frequencies are clear. */
    ghost predicate Counted()
      reads this, literalTree, distTree, blTree, literalTree.freqs, distTree.freqs, blTree.freqs
    {
      CountedOn(literalTree.freqs[..], distTree.freqs[..], blTree.freqs[..], lits, dists)
    }

    ghost predicate Valid()
      reads this, literalTree, distTree, blTree, literalTree.freqs, distTree.freqs, blTree.freqs, lBuf, dBuf
    {
      Shape() && Buffered() && Counted()
    }

    /** The objects of the compressor, its trees and their arrays. */
    ghost function Footprint(): set<object>
      reads this, literalTree, distTree, blTree
    {
      {this, pending, literalTree, distTree, blTree, lBuf, dBuf, literalTree.freqs, distTree.freqs, blTree.freqs,
       literalTree.blCounts, distTree.blCounts, blTree.blCounts}
    }

    /** The codes compressBlock writes with. */
    ghost function TreeCodes(): Codes
      reads this, literalTree, distTree
    {
      Codes(literalTree.codes, literalTree.length, distTree.codes, distTree.length)
    }

    ghost function StaticCodes(): Codes
    {
      Codes(staticLCodes, staticLLength, staticDCodes, staticDLength)
    }

    constructor (pending: DeflaterPending)
      ensures Valid() && StaticReady() && this.pending == pending
      ensures lits == [] && dists == [] && lastLit == 0 && extraBits == 0
      ensures fresh(literalTree) && fresh(distTree) && fresh(blTree) && fresh(lBuf) && fresh(dBuf)
      ensures fresh(literalTree.freqs) && fresh(distTree.freqs) && fresh(blTree.freqs)
      ensures fresh(literalTree.blCounts) && fresh(distTree.blCounts) && fresh(blTree.blCounts)
    {
      this.pending := pending;
      literalTree := new Tree(LITERAL_NUM, 257, 15, pending);
      distTree := new Tree(DIST_NUM, 1, 15, pending);
      blTree := new Tree(BITLEN_NUM, 4, 7, pending);
      dBuf := new int[BUFSIZE](_ => 0);
      lBuf := new int[BUFSIZE](_ => 0);
      var lc, ll, dc, dl := StaticTables();
      staticLCodes, staticLLength, staticDCodes, staticDLength := lc, ll, dc, dl;
      lastLit, extraBits := 0, 0;
      lits, dists := [], [];
      new;
      assert literalTree.freqs[..] == Zeros(LITERAL_NUM);
      assert distTree.freqs[..] == Zeros(DIST_NUM);
    }

    /** reset(): no entries, no extra bits, and the three trees reset. */
    method Reset()
      requires Shape()
      modifies this, literalTree, distTree, blTree, literalTree.freqs, distTree.freqs, blTree.freqs
      ensures Valid() && lits == [] && dists == [] && lastLit == 0 && extraBits == 0
      ensures literalTree.codes == [] && literalTree.length == [] && literalTree.numCodes == old(literalTree.numCodes)
      ensures distTree.codes == [] && distTree.length == [] && distTree.numCodes == old(distTree.numCodes)
      ensures blTree.codes == [] && blTree.length == [] && blTree.numCodes == old(blTree.numCodes)
      ensures literalTree.root == old(literalTree.root) && distTree.root == old(distTree.root) && blTree.root == old(blTree.root)
    {
      lastLit := 0;
      extraBits := 0;
      lits, dists := [], [];
      literalTree.Reset();
      distTree.Reset();
      blTree.Reset();
      assert literalTree.freqs[..] == Zeros(LITERAL_NUM);
      assert distTree.freqs[..] == Zeros(DIST_NUM);
    }

    /** isFull(): no room for another entry. */
    method IsFull() returns (full: bool)
      requires Valid()
      ensures full <==> |lits| == BUFSIZE
    {
      full := lastLit == BUFSIZE;
    }

    /** d_buf[last_lit] = d; l_buf[last_lit++] = (byte) l, recording the
        entry and the new extra_bits. */
    method Store(d: int, l: int, e: int)
      requires 0 <= lastLit < lBuf.Length && lastLit < dBuf.Length && lBuf != dBuf
      modifies this, lBuf, dBuf
      ensures lastLit == old(lastLit) + 1 && extraBits == e
      ensures lits == old(lits) + [l] && dists == old(dists) + [d]
      ensures lBuf[..] == old(lBuf[..])[old(lastLit) := JavaByte(l)] && dBuf[..] == old(dBuf[..])[old(lastLit) := d]
    {
      dBuf[lastLit] := d;
      lBuf[lastLit] := JavaByte(l);
      lastLit := lastLit + 1;
      extraBits := e;
      lits, dists := lits + [l], dists + [d];
    }

    /** tallyLit(lit): a literal entry; true when the buffer is now full.
        On a full buffer the store into d_buf is out of bounds. */
    method TallyLit(lit: int) returns (r: Result<bool>)
      requires Valid() && 0 <= lit < 256
      modifies this, lBuf, dBuf, literalTree.freqs
      ensures Valid() && extraBits == old(extraBits)
      ensures r.Fail? <==> old(|lits|) == BUFSIZE
      ensures r.Fail? ==>
        r.error == ArrayIndexOutOfBounds && lits == old(lits) && dists == old(dists) &&
        literalTree.freqs[..] == old(literalTree.freqs[..])
      ensures r.Ok? ==> lits == old(lits) + [lit] && dists == old(dists) + [0] && (r.value <==> |lits| == BUFSIZE)
      ensures r.Ok? ==> literalTree.freqs[..] == Tally(old(literalTree.freqs[..]), lit)
    {
      if lastLit >= dBuf.Length {
        return Fail(ArrayIndexOutOfBounds);
      }
      ghost var lb, db, n, lf, df, bf := lBuf[..], dBuf[..], lastLit, literalTree.freqs[..], distTree.freqs[..], blTree.freqs[..];
      TallyStep(lb, db, n, lits, dists, extraBits, lf, df, bf, lit, 0);
      Bump(literalTree.freqs, lit);
      Store(0, lit, extraBits);
      return Ok(lastLit == BUFSIZE);
    }

    /** tallyDist(dist, len): a match entry, counting its length and
        distance symbols and their extra bits; true when the buffer is now
        full.  d_buf holds shorts, so the distance is stored as
        (short) dist.  For a distance outside 1..32768, d_code(dist - 1) is
        no index of distTree.freqs, and the exception comes after the
        entry, its length count and its length extra bits are recorded. */
    method TallyDist(dist: int, len: int) returns (r: Result<bool>)
      requires Valid() && IsInt(dist) && 3 <= len <= 258
      modifies this, lBuf, dBuf, literalTree.freqs, distTree.freqs
      ensures 257 <= LengthCode(len - 3) <= 285
      ensures r.Fail? <==> old(|lits|) == BUFSIZE || !(1 <= dist <= 32768)
      ensures r.Fail? ==> r.error == ArrayIndexOutOfBounds
      ensures r.Ok? ==> 0 <= DistanceCode(dist - 1) < 30 && (r.value <==> |lits| == BUFSIZE)
      ensures old(|lits|) == BUFSIZE ==>
        Valid() && lits == old(lits) && dists == old(dists) && extraBits == old(extraBits) &&
        literalTree.freqs[..] == old(literalTree.freqs[..]) && distTree.freqs[..] == old(distTree.freqs[..])
      ensures old(|lits|) < BUFSIZE ==>
        lits == old(lits) + [len - 3] && dists == old(dists) + [ToShort(dist)] && lastLit == old(lastLit) + 1 &&
        lBuf[..] == old(lBuf[..])[old(lastLit) := JavaByte(len - 3)] &&
        dBuf[..] == old(dBuf[..])[old(lastLit) := ToShort(dist)]
      ensures old(|lits|) < BUFSIZE ==> literalTree.freqs[..] == Tally(old(literalTree.freqs[..]), LengthCode(len - 3))
      ensures old(|lits|) < BUFSIZE ==>
        distTree.freqs[..] == if r.Ok? then Tally(old(distTree.freqs[..]), DistanceCode(dist - 1)) else old(distTree.freqs[..])
      ensures old(|lits|) < BUFSIZE ==>
        extraBits ==
        old(extraBits) + LengthExtra[LengthCode(len - 3) - 257] + if r.Ok? then DistExtra[DistanceCode(dist - 1)] else 0
      ensures 1 <= dist <= 32767 ==> Valid()
      ensures dist == 32768 && old(|lits|) < BUFSIZE ==> !Valid()
    {
      LengthCodeRange(len - 3);
      if lastLit >= dBuf.Length {
        return Fail(ArrayIndexOutOfBounds);
      }
      ghost var lb, db, n, lf, df, bf := lBuf[..], dBuf[..], lastLit, literalTree.freqs[..], distTree.freqs[..], blTree.freqs[..];
      ghost var ls, ds, e := lits, dists, extraBits;
      var lc := TallyLength(dist, len);
      var dc;
      r, dc := TallyDistance(dist);
      if r.Ok? && dist <= 32767 {
        assert ToShort(dist) == dist;
        assert lBuf[..] == lb[n := JavaByte(len - 3)] && dBuf[..] == db[n := dist];
        assert lits == ls + [len - 3] && dists == ds + [dist];
        assert extraBits == e + TalliedLengthExtra(lc) + TalliedDistExtra(dc);
        assert literalTree.freqs[..] == Tally(lf, lc) && distTree.freqs[..] == Tally(df, dc) && blTree.freqs[..] == bf;
        MatchStep(lb, db, n, ls, ds, e, lf, df, bf, len - 3, dist, lc, dc);
      } else if r.Ok? {
        assert !EntryOk(lits[n], dists[n]);
      }
    }

    /** The first half of tallyDist: the entry, and its length symbol and
        extra bits. */
    method TallyLength(dist: int, len: int) returns (lc: int)
      requires Shape() && 0 <= lastLit < BUFSIZE && 3 <= len <= 258
      modifies this, lBuf, dBuf, literalTree.freqs
      ensures lc == LengthCode(len - 3) && 257 <= lc <= 285
      ensures lits == old(lits) + [len - 3] && dists == old(dists) + [ToShort(dist)] && lastLit == old(lastLit) + 1
      ensures lBuf[..] == old(lBuf[..])[old(lastLit) := JavaByte(len - 3)]
      ensures dBuf[..] == old(dBuf[..])[old(lastLit) := ToShort(dist)]
      ensures literalTree.freqs[..] == Tally(old(literalTree.freqs[..]), lc)
      ensures extraBits == old(extraBits) + TalliedLengthExtra(lc) == old(extraBits) + LengthExtra[lc - 257]
    {
      Store(ToShort(dist), len - 3, extraBits);
      lc := LCode(len - 3);
      Bump(literalTree.freqs, lc);
      if lc >= 265 && lc < 285 {
        extraBits := extraBits + (lc - 261) / 4;
      }
      ExtraBitsAgree(lc, 0);
    }

    /** The second half of tallyDist: the distance symbol d_code(dist - 1)
        and its extra bits, or ArrayIndexOutOfBounds when that is no index
        of distTree.freqs. */
    method TallyDistance(dist: int) returns (r: Result<bool>, dc: int)
      requires Shape() && IsInt(dist)
      modifies this`extraBits, distTree.freqs
      ensures r.Fail? <==> !(1 <= dist <= 32768)
      ensures r.Fail? ==> r.error == ArrayIndexOutOfBounds && extraBits == old(extraBits)
      ensures r.Fail? ==> distTree.freqs[..] == old(distTree.freqs[..])
      ensures r.Ok? ==> dc == DistanceCode(dist - 1) && 0 <= dc < 30 && r.value == (lastLit == BUFSIZE)
      ensures r.Ok? ==> distTree.freqs[..] == Tally(old(distTree.freqs[..]), dc)
      ensures r.Ok? ==> extraBits == old(extraBits) + TalliedDistExtra(dc) && TalliedDistExtra(dc) == DistExtra[dc]
    {
      dc := DCode(Int32(dist - 1));
      DistanceCodeInRange(Int32(dist - 1));
      if dc < 0 || dc >= distTree.freqs.Length {
        return Fail(ArrayIndexOutOfBounds), dc;
      }
      Bump(distTree.freqs, dc);
      if dc >= 4 {
        extraBits := extraBits + dc / 2 - 1;
      }
      ExtraBitsAgree(257, dc);
      return Ok(lastLit == BUFSIZE), dc;
    }

    /** One pass of compressBlock's loop: entry i, written with the trees'
        current codes. */
    method CompressEntry(i: int)
      requires Shape() && Buffered() && CodesSpan(TreeCodes()) && 0 <= i < lastLit
      modifies pending
      ensures pending.writes == old(pending.writes) + EntryWrites(lits[i], dists[i], TreeCodes())
    {
      var litlen := lBuf[i] % 256;
      var dist := dBuf[i];
      assert EntryOk(lits[i], dists[i]);
      ByteRoundTrip(lits[i]);
      if dist != 0 {
        WriteMatch(litlen, dist - 1);
      } else {
        literalTree.WriteSymbol(litlen);
      }
    }

    /** The match branch of compressBlock's loop, for length offset litlen
        and distance - 1 = dist. */
    method WriteMatch(litlen: int, dist: int)
      requires Shape() && CodesSpan(TreeCodes()) && 0 <= litlen <= 255 && 0 <= dist < 32767
      modifies pending
      ensures pending.writes == old(pending.writes) + EntryWrites(litlen, dist + 1, TreeCodes())
    {
      ghost var w0 := pending.writes;
      var lc := WriteLength(litlen);
      ghost var w1 := pending.writes;
      var dc := WriteDistance(dist);
      ghost var c := TreeCodes();
      MatchWrites(litlen, dist + 1, c, lc, dc);
      AppendAssoc(w0, w1[|w0|..], pending.writes[|w1|..]);
    }

    /** writeSymbol(l_code(litlen)) and the length's extra bits. */
    method WriteLength(litlen: int) returns (lc: int)
      requires Shape() && CodesSpan(TreeCodes()) && 0 <= litlen <= 255
      modifies pending
      ensures lc == LengthCode(litlen)
      ensures pending.writes == old(pending.writes) +
        ([SymWrite(lc, literalTree.codes, literalTree.length)] + ExtraWrite(litlen, WrittenLengthExtra(lc)))
    {
      ghost var w0 := pending.writes;
      lc := LCode(litlen);
      literalTree.WriteSymbol(lc);
      var bits := JavaDiv(lc - 261, 4);
      if bits > 0 && bits <= 5 {
        pending.WriteBits(litlen % Pow2(bits), bits);
      }
      AppendAssoc(w0, [SymWrite(lc, literalTree.codes, literalTree.length)], ExtraWrite(litlen, WrittenLengthExtra(lc)));
    }

    /** writeSymbol(d_code(dist)) and the distance's extra bits. */
    method WriteDistance(dist: int) returns (dc: int)
      requires Shape() && CodesSpan(TreeCodes()) && 0 <= dist < 32767
      modifies pending
      ensures dc == DistanceCode(dist)
      ensures pending.writes == old(pending.writes) +
        ([SymWrite(dc, distTree.codes, distTree.length)] + ExtraWrite(dist, WrittenDistExtra(dc)))
    {
      ghost var w0 := pending.writes;
      dc := DCode(dist);
      distTree.WriteSymbol(dc);
      var bits := JavaDiv(dc, 2) - 1;
      if bits > 0 {
        pending.WriteBits(dist % Pow2(bits), bits);
      }
      AppendAssoc(w0, [SymWrite(dc, distTree.codes, distTree.length)], ExtraWrite(dist, WrittenDistExtra(dc)));
    }

    /** compressBlock(): every tallied entry in order, then the end-of-block
        symbol. */
    method CompressBlock()
      requires Shape() && Buffered() && CodesSpan(TreeCodes())
      modifies pending
      ensures pending.writes == old(pending.writes) + EntryBlock(lits, dists, TreeCodes())
    {
      ghost var w0, ls, ds, c := pending.writes, lits, dists, TreeCodes();
      var n := lastLit;
      var i := 0;
      while i < n
        invariant 0 <= i <= n == |ls| == |ds|
        invariant pending.writes == w0 + BlockWrites(ls[..i], ds[..i], c)
      {
        ghost var before := BlockWrites(ls[..i], ds[..i], c);
        CompressEntry(i);
        BlockWritesPrefix(ls, ds, i, c);
        AppendAssoc(w0, before, EntryWrites(ls[i], ds[i], c));
        i := i + 1;
      }
      assert ls[..i] == ls && ds[..i] == ds;
      literalTree.WriteSymbol(EOF_SYMBOL);
      AppendAssoc(w0, BlockWrites(ls, ds, c), [SymWrite(EOF_SYMBOL, c.lc, c.ll)]);
    }

    /** The end of the static and dynamic branches of flushBlock:
        compressBlock(), then reset(). */
    method CompressAndReset()
      requires Shape() && Buffered() && CodesSpan(TreeCodes())
      modifies pending, this, literalTree, distTree, blTree, literalTree.freqs, distTree.freqs, blTree.freqs
      ensures pending.writes == old(pending.writes) + EntryBlock(old(lits), old(dists), old(TreeCodes()))
      ensures Valid() && lits == [] && dists == [] && lastLit == 0 && extraBits == 0
      ensures literalTree.root == old(literalTree.root) && distTree.root == old(distTree.root) && blTree.root == old(blTree.root)
    {
      CompressBlock();
      Reset();
    }

    /** flushStoredBlock: the stored block header, alignment, LEN, NLEN and
        the bytes, then reset(). */
    method FlushStoredBlock(storedOffset: int, storedLen: int, lastBlock: bool)
      requires Shape()
      modifies pending, this, literalTree, distTree, blTree, literalTree.freqs, distTree.freqs, blTree.freqs
      ensures pending.writes == old(pending.writes) + StoredWrites(storedOffset, storedLen, lastBlock)
      ensures
        |pending.writes| > |old(pending.writes)| && pending.writes[|old(pending.writes)|] == BlockHeader(Stored, lastBlock)
      ensures Valid() && lits == [] && dists == [] && lastLit == 0 && extraBits == 0
      ensures literalTree.root == old(literalTree.root) && distTree.root == old(distTree.root) && blTree.root == old(blTree.root)
    {
      StoredHeaderAt(pending.writes, storedOffset, storedLen, lastBlock);
      pending.WriteBits(STORED_BLOCK * 2 + LastBit(lastBlock), 3);
      pending.AlignToByte();
      pending.WriteShort(storedLen);
      pending.WriteShort(-storedLen - 1);
      pending.WriteBlock(storedOffset, storedLen);
      Reset();
    }

    /** The count of code-length code lengths sent (HCLEN + 4): from rank 18
        down while the rank is above the count (see BlTreeCodesAsWritten). */
    method CountBlTreeCodes() returns (n: int)
      requires |blTree.length| == BITLEN_NUM
      ensures n == BlTreeCodesAsWritten(blTree.length)
    {
      ghost var lens := blTree.length;
      n := 4;
      var i := 18;
      while i > n
        invariant 4 <= i <= 18 && (n == 4 || n > i)
        invariant CountDownAsWritten(lens, i, n) == BlTreeCodesAsWritten(lens)
        decreases i
      {
        BlOrderRange(i);
        if blTree.length[BL_ORDER[i]] > 0 {
          n := i + 1;
        }
        i := i - 1;
      }
    }

    /** static_len: extra_bits plus every symbol's count times its fixed
        code length. */
    method StaticLength() returns (len: int)
      requires Shape()
      ensures len == StaticLen(literalTree.freqs[..], staticLLength, distTree.freqs[..], staticDLength, extraBits)
    {
      ghost var lf, df := literalTree.freqs[..], distTree.freqs[..];
      len := extraBits;
      var i := 0;
      while i < LITERAL_NUM
        invariant 0 <= i <= LITERAL_NUM
        invariant len == extraBits + EncodedLength(lf, staticLLength, i)
      {
        len := len + literalTree.freqs[i] * staticLLength[i];
        i := i + 1;
      }
      i := 0;
      while i < DIST_NUM
        invariant 0 <= i <= DIST_NUM
        invariant len == extraBits + EncodedLength(lf, staticLLength, LITERAL_NUM) + EncodedLength(df, staticDLength, i)
      {
        len := len + distTree.freqs[i] * staticDLength[i];
        i := i + 1;
      }
    }

    /** The static branch of flushBlock: the block header, the fixed codes
        installed in both trees, compressBlock(), reset(). */
    method FlushStatic(lastBlock: bool)
      requires Shape() && Buffered()
      modifies pending, this, literalTree, distTree, blTree, literalTree.freqs, distTree.freqs, blTree.freqs
      ensures pending.writes ==
        old(pending.writes) + [Bits(STATIC_TREES * 2 + LastBit(lastBlock), 3)] + EntryBlock(old(lits), old(dists), StaticCodes())
      ensures
        |pending.writes| > |old(pending.writes)| && pending.writes[|old(pending.writes)|] == BlockHeader(Static, lastBlock)
      ensures Valid() && lits == [] && dists == [] && lastLit == 0 && extraBits == 0
      ensures literalTree.root == old(literalTree.root) && distTree.root == old(distTree.root) && blTree.root == old(blTree.root)
    {
      ghost var w0, ls, ds := pending.writes, lits, dists;
      HeaderAt(w0, BlockHeader(Static, lastBlock), EntryBlock(ls, ds, StaticCodes()), []);
      pending.WriteBits(STATIC_TREES * 2 + LastBit(lastBlock), 3);
      literalTree.SetStaticCodes(staticLCodes, staticLLength);
      distTree.SetStaticCodes(staticDCodes, staticDLength);
      CompressAndReset();
      AppendAssoc(w0, [Bits(STATIC_TREES * 2 + LastBit(lastBlock), 3)], EntryBlock(ls, ds, StaticCodes()));
    }

    /** sendAllTrees' loop: the first n code-length code lengths in BL_ORDER. */
    method WriteRanks(n: int)
      requires |blTree.length| == BITLEN_NUM && 0 <= n <= BITLEN_NUM
      modifies pending
      ensures pending.writes == old(pending.writes) + RankWrites(blTree.length, n)
    {
      ghost var w0 := pending.writes;
      var rank := 0;
      while rank < n
        invariant 0 <= rank <= n
        invariant pending.writes == w0 + RankWrites(blTree.length, rank)
      {
        BlOrderRange(rank);
        pending.WriteBits(blTree.length[BL_ORDER[rank]], 3);
        AppendAssoc(w0, RankWrites(blTree.length, rank), [Bits(RankLength(blTree.length, rank), 3)]);
        rank := rank + 1;
      }
    }

    /** The trees sendAllTrees sends with the count blTreeCodes. */
    ghost function SentTrees(blTreeCodes: int): Sent
      reads this, literalTree, distTree, blTree
    {
      Sent(literalTree.length, literalTree.numCodes, distTree.length, distTree.numCodes,
           blTree.length, blTree.codes, blTreeCodes)
    }

    /** The three buildCodes calls of sendAllTrees; the first that fails
        stops it. */
    method BuildAllCodes() returns (r: Result<()>)
      requires Shape() && Ranged(literalTree) && Ranged(distTree) && Ranged(blTree)
      modifies literalTree, distTree, blTree
      ensures Ranged(literalTree) && Ranged(distTree) && Ranged(blTree)
      ensures literalTree.length == old(literalTree.length) && literalTree.root == old(literalTree.root)
      ensures distTree.length == old(distTree.length) && distTree.root == old(distTree.root)
      ensures blTree.length == old(blTree.length) && blTree.root == old(blTree.root)
      ensures literalTree.numCodes == old(literalTree.numCodes) && distTree.numCodes == old(distTree.numCodes)
      ensures blTree.numCodes == old(blTree.numCodes)
      ensures r.Ok? <==>
        CodesFit(blTree.length, blTree.blCounts[..]) && CodesFit(literalTree.length, literalTree.blCounts[..]) &&
        CodesFit(distTree.length, distTree.blCounts[..])
      ensures r.Fail? ==> r.error == StringIndexOutOfBounds
      ensures r.Ok? ==> HasCanonicalCodes(literalTree) && HasCanonicalCodes(distTree) && HasCanonicalCodes(blTree)
    {
      r := blTree.BuildCodes();
      if r.Fail? {
        return;
      }
      r := literalTree.BuildCodes();
      if r.Fail? {
        return;
      }
      r := distTree.BuildCodes();
      if r.Fail? {
        return;
      }
      CodesAreCanonical(literalTree);
      CodesAreCanonical(distTree);
      CodesAreCanonical(blTree);
    }

    /** HLIT, HDIST, HCLEN and the code-length code lengths. */
    method WriteHeader(blTreeCodes: int)
      requires 4 <= blTreeCodes <= BITLEN_NUM && |blTree.length| == BITLEN_NUM
      modifies pending
      ensures pending.writes ==
        old(pending.writes) + TreeHeader(literalTree.numCodes, distTree.numCodes, blTreeCodes, blTree.length)
    {
      ghost var w0 := pending.writes;
      pending.WriteBits(literalTree.numCodes - 257, 5);
      pending.WriteBits(distTree.numCodes - 1, 5);
      pending.WriteBits(blTreeCodes - 4, 4);
      WriteRanks(blTreeCodes);
      AppendAssoc(w0, [Bits(literalTree.numCodes - 257, 5), Bits(distTree.numCodes - 1, 5), Bits(blTreeCodes - 4, 4)],
        RankWrites(blTree.length, blTreeCodes));
    }

    /** The writes of sendAllTrees once the codes are built. */
    method WriteAllTrees(blTreeCodes: int)
      requires Shape() && Ranged(literalTree) && Ranged(distTree) && Ranged(blTree)
      requires 4 <= blTreeCodes <= BITLEN_NUM && |blTree.codes| == BITLEN_NUM
      modifies pending
      ensures SentOk(SentTrees(blTreeCodes))
      ensures pending.writes == old(pending.writes) + SentWrites(SentTrees(blTreeCodes))
    {
      ghost var w0 := pending.writes;
      ghost var t := SentTrees(blTreeCodes);
      ghost var h := TreeHeader(t.litNum, t.distNum, blTreeCodes, t.bl);
      WriteHeader(blTreeCodes);
      literalTree.WriteTree(blTree);
      ghost var w2 := pending.writes;
      distTree.WriteTree(blTree);
      ghost var litPart := Render(Emits(Tokens(t.lit, t.litNum)), t.blCodes, t.bl);
      ghost var distPart := Render(Emits(Tokens(t.dist, t.distNum)), t.blCodes, t.bl);
      AppendAssoc(w0, h, litPart);
      AppendAssoc(w0, h + litPart, distPart);
    }

    /** sendAllTrees(blTreeCodes): the codes of the three trees, then HLIT,
        HDIST, HCLEN, the code-length code lengths and the two trees'
        lengths in the code-length code. A buildCodes that fails stops it
        before anything is written. */
    method SendAllTrees(blTreeCodes: int) returns (r: Result<()>)
      requires Shape() && Ranged(literalTree) && Ranged(distTree) && Ranged(blTree)
      requires 4 <= blTreeCodes <= BITLEN_NUM
      modifies pending, literalTree, distTree, blTree
      ensures Ranged(literalTree) && Ranged(distTree) && Ranged(blTree)
      ensures literalTree.length == old(literalTree.length) && literalTree.root == old(literalTree.root)
      ensures distTree.length == old(distTree.length) && distTree.root == old(distTree.root)
      ensures blTree.length == old(blTree.length) && blTree.root == old(blTree.root)
      ensures literalTree.numCodes == old(literalTree.numCodes) && distTree.numCodes == old(distTree.numCodes)
      ensures blTree.numCodes == old(blTree.numCodes)
      ensures r.Ok? <==>
        CodesFit(blTree.length, blTree.blCounts[..]) && CodesFit(literalTree.length, literalTree.blCounts[..]) &&
        CodesFit(distTree.length, distTree.blCounts[..])
      ensures r.Fail? ==> r.error == StringIndexOutOfBounds && pending.writes == old(pending.writes)
      ensures r.Ok? ==> HasCanonicalCodes(literalTree) && HasCanonicalCodes(distTree) && HasCanonicalCodes(blTree)
      ensures r.Ok? ==> SentOk(SentTrees(blTreeCodes))
      ensures r.Ok? ==> pending.writes == old(pending.writes) + SentWrites(SentTrees(blTreeCodes))
    {
      r := BuildAllCodes();
      if r.Ok? {
        WriteAllTrees(blTreeCodes);
      }
    }

    /** The start of flushBlock up to the code-length tree: the EOF symbol
        counted, the literal/length and distance trees built, their code
        lengths counted into blTree.freqs and the code-length tree built.
        An overflow in a buildTree throws out of flushBlock. */
    method PrepareTrees() returns (r: Result<()>)
      requires Shape() && forall s :: 0 <= s < blTree.freqs.Length ==> blTree.freqs[s] == 0
      modifies literalTree, distTree, blTree, literalTree.freqs, blTree.freqs
      modifies literalTree.blCounts, distTree.blCounts, blTree.blCounts
      ensures literalTree.freqs[..] == Tally(old(literalTree.freqs[..]), EOF_SYMBOL)
      ensures distTree.freqs[..] == old(distTree.freqs[..])
      ensures r.Fail? ==> r.error == ArrayIndexOutOfBounds
      ensures r.Ok? ==> Built(literalTree) && Built(distTree) && Built(blTree)
      ensures r.Ok? ==> Ranged(literalTree) && Ranged(distTree) && Ranged(blTree)
      ensures r.Ok? ==>
        blTree.freqs[..] == CodeLengthFreqs(literalTree.length, literalTree.numCodes, distTree.length, distTree.numCodes)
    {
      r := BuildLitDist();
      if r.Fail? {
        return;
      }
      CountBlFreqs();
      r := blTree.BuildTree();
      if r.Ok? {
        BuiltInRange(blTree);
      }
    }

    /** literalTree.freqs[EOF_SYMBOL]++, then the two buildTree calls. */
    method BuildLitDist() returns (r: Result<()>)
      requires Shape()
      modifies literalTree, distTree, literalTree.freqs, literalTree.blCounts, distTree.blCounts
      ensures literalTree.freqs[..] == Tally(old(literalTree.freqs[..]), EOF_SYMBOL)
      ensures r.Fail? ==> r.error == ArrayIndexOutOfBounds
      ensures r.Ok? ==> Built(literalTree) && Built(distTree) && Ranged(literalTree) && Ranged(distTree)
    {
      Bump(literalTree.freqs, EOF_SYMBOL);
      r := literalTree.BuildTree();
      if r.Fail? {
        return;
      }
      r := distTree.BuildTree();
      if r.Ok? {
        BuiltInRange(literalTree);
        BuiltInRange(distTree);
      }
    }

    /** The two calcBLFreq calls. */
    method CountBlFreqs()
      requires Shape() && Ranged(literalTree) && Ranged(distTree)
      requires forall s :: 0 <= s < blTree.freqs.Length ==> blTree.freqs[s] == 0
      modifies blTree.freqs
      ensures blTree.freqs[..] == CodeLengthFreqs(literalTree.length, literalTree.numCodes, distTree.length, distTree.numCodes)
    {
      literalTree.CalcBLFreq(blTree);
      distTree.CalcBLFreq(blTree);
    }

    /** The trees sendAllTrees sends once buildCodes has run. */
    ghost function DynamicTrees(blTreeCodes: int): Sent
      requires LensFit(blTree.length, blTree.blCounts[..])
      reads this, literalTree, distTree, blTree, blTree.blCounts
    {
      Sent(literalTree.length, literalTree.numCodes, distTree.length, distTree.numCodes,
           blTree.length, CanonicalCodes(blTree.length, blTree.blCounts[..]), blTreeCodes)
    }

    /** The codes compressBlock writes with once buildCodes has run. */
    ghost function DynamicCodes(): Codes
      requires LensFit(literalTree.length, literalTree.blCounts[..]) && LensFit(distTree.length, distTree.blCounts[..])
      reads this, literalTree, distTree, literalTree.blCounts, distTree.blCounts
    {
      Codes(CanonicalCodes(literalTree.length, literalTree.blCounts[..]), literalTree.length,
            CanonicalCodes(distTree.length, distTree.blCounts[..]), distTree.length)
    }

    /** The dynamic branch of flushBlock: the block header, sendAllTrees,
        compressBlock(), reset(). A failing buildCodes throws after the
        header is written. */
    method FlushDynamic(blTreeCodes: int, lastBlock: bool) returns (r: Result<()>)
      requires Shape() && Buffered() && Ranged(literalTree) && Ranged(distTree) && Ranged(blTree)
      requires 4 <= blTreeCodes <= BITLEN_NUM
      modifies pending, this, literalTree, distTree, blTree, literalTree.freqs, distTree.freqs, blTree.freqs
      ensures r.Ok? <==>
        CodesFit(old(blTree.length), blTree.blCounts[..]) && CodesFit(old(literalTree.length), literalTree.blCounts[..]) &&
        CodesFit(old(distTree.length), distTree.blCounts[..])
      ensures r.Fail? ==>
        r.error == StringIndexOutOfBounds &&
        pending.writes == old(pending.writes) + [Bits(DYN_TREES * 2 + LastBit(lastBlock), 3)]
      ensures SentOk(old(DynamicTrees(blTreeCodes)))
      ensures r.Ok? ==>
        pending.writes == old(pending.writes) + [Bits(DYN_TREES * 2 + LastBit(lastBlock), 3)] +
          SentWrites(old(DynamicTrees(blTreeCodes))) + EntryBlock(old(lits), old(dists), old(DynamicCodes()))
      ensures r.Ok? ==>
        |pending.writes| > |old(pending.writes)| && pending.writes[|old(pending.writes)|] == BlockHeader(Dynamic, lastBlock)
      ensures r.Ok? ==> Valid() && lits == [] && dists == [] && lastLit == 0 && extraBits == 0
      ensures literalTree.root == old(literalTree.root) && distTree.root == old(distTree.root) && blTree.root == old(blTree.root)
    {
      ghost var w0, ls, ds := pending.writes, lits, dists;
      ghost var t, c := DynamicTrees(blTreeCodes), DynamicCodes();
      HeaderAt(w0, BlockHeader(Dynamic, lastBlock), SentWrites(t), EntryBlock(ls, ds, c));
      pending.WriteBits(DYN_TREES * 2 + LastBit(lastBlock), 3);
      r := SendAndCompress(blTreeCodes);
    }

    /** The dynamic branch of flushBlock after the block header. */
    method SendAndCompress(blTreeCodes: int) returns (r: Result<()>)
      requires Shape() && Buffered() && Ranged(literalTree) && Ranged(distTree) && Ranged(blTree)
      requires 4 <= blTreeCodes <= BITLEN_NUM
      modifies pending, this, literalTree, distTree, blTree, literalTree.freqs, distTree.freqs, blTree.freqs
      ensures r.Ok? <==>
        CodesFit(old(blTree.length), blTree.blCounts[..]) && CodesFit(old(literalTree.length), literalTree.blCounts[..]) &&
        CodesFit(old(distTree.length), distTree.blCounts[..])
      ensures r.Fail? ==> r.error == StringIndexOutOfBounds && pending.writes == old(pending.writes)
      ensures SentOk(old(DynamicTrees(blTreeCodes)))
      ensures r.Ok? ==>
        pending.writes == old(pending.writes) + SentWrites(old(DynamicTrees(blTreeCodes))) +
          EntryBlock(old(lits), old(dists), old(DynamicCodes()))
      ensures r.Ok? ==> Valid() && lits == [] && dists == [] && lastLit == 0 && extraBits == 0
      ensures literalTree.root == old(literalTree.root) && distTree.root == old(distTree.root) && blTree.root == old(blTree.root)
    {
      ghost var t, c := DynamicTrees(blTreeCodes), DynamicCodes();
      r := SendAllTrees(blTreeCodes);
      if r.Fail? {
        return;
      }
      assert SentTrees(blTreeCodes) == t && TreeCodes() == c;
      CompressAndReset();
    }

    /** The sizes flushBlock compares once the trees are built: the count
        of code-length code lengths, opt_len and static_len. */
    method Sizes() returns (blTreeCodes: int, optLen: int, staticLen: int)
      requires Shape() && Ranged(literalTree) && Ranged(distTree) && Ranged(blTree)
      ensures blTreeCodes == BlTreeCodesAsWritten(blTree.length)
      ensures optLen == DynamicLen(blTreeCodes, EncodedLength(blTree.freqs[..], blTree.length, BITLEN_NUM),
        EncodedLength(literalTree.freqs[..], literalTree.length, LITERAL_NUM),
        EncodedLength(distTree.freqs[..], distTree.length, DIST_NUM), extraBits)
      ensures staticLen == StaticLen(literalTree.freqs[..], staticLLength, distTree.freqs[..], staticDLength, extraBits)
    {
      blTreeCodes := CountBlTreeCodes();
      var blLen := blTree.GetEncodedLength();
      var litLen := literalTree.GetEncodedLength();
      var distLen := distTree.GetEncodedLength();
      optLen := 14 + blTreeCodes * 3 + blLen + litLen + distLen + extraBits;
      staticLen := StaticLength();
    }

    /** The trees flushBlock builds for the entries ls/ds: Huffman tries
        for their counts with EOF counted once, code lengths t that fit the
        counts of each length, and the canonical codes c for those. */
    ghost predicate TreesBuilt(ls: seq<int>, ds: seq<int>, t: Sent, c: Codes)
      reads this, literalTree, distTree, blTree, literalTree.blCounts, distTree.blCounts, blTree.blCounts
    {
      |ls| == |ds| && SentOk(t) &&
      LensFit(t.lit, literalTree.blCounts[..]) && LensFit(t.dist, distTree.blCounts[..]) && LensFit(t.bl, blTree.blCounts[..]) &&
      c == Codes(CanonicalCodes(t.lit, literalTree.blCounts[..]), t.lit, CanonicalCodes(t.dist, distTree.blCounts[..]), t.dist) &&
      t.blCodes == CanonicalCodes(t.bl, blTree.blCounts[..]) &&
      TrieFor(literalTree.root, Tally(LitHist(ls, ds), EOF_SYMBOL)) &&
      LengthsFor(literalTree.root, t.lit, literalTree.blCounts[..], 15) &&
      TrieFor(distTree.root, DistHist(ls, ds)) &&
      LengthsFor(distTree.root, t.dist, distTree.blCounts[..], 15) &&
      TrieFor(blTree.root, CodeLengthFreqs(t.lit, t.litNum, t.dist, t.distNum)) &&
      LengthsFor(blTree.root, t.bl, blTree.blCounts[..], 7)
    }

    /** What flushBlock(storedOffset, storedLen, lastBlock) leaves behind
        for the entries ls/ds, starting from the writes w0: the sizes it
        estimates, the kind it picks by them, the writes of that block, and
        the trees it builds. */
    ghost predicate Flushed(ls: seq<int>, ds: seq<int>, w0: seq<Write>, storedOffset: int, storedLen: int, lastBlock: bool,
                            kind: BlockKind, dynLen: int, staticLen: int, t: Sent, c: Codes)
      reads this, pending, literalTree, distTree, blTree, literalTree.blCounts, distTree.blCounts, blTree.blCounts
    {
      Estimates(ls, ds, staticLLength, staticDLength, t, dynLen, staticLen) &&
      kind == ChooseBlock(dynLen, staticLen, storedOffset, storedLen) &&
      pending.writes == w0 + FlushWrites(kind, storedOffset, storedLen, lastBlock, ls, ds, StaticCodes(), t, c) &&
      TreesBuilt(ls, ds, t, c)
    }

    /** flushBlock: counts EOF, builds the trees, compares the dynamic, the
        static and the stored size and writes the block chosen, then
        resets. dynLen and staticLen are opt_len and static_len as
        computed, t the dynamic trees and c their codes. */
    method FlushBlock(storedOffset: int, storedLen: int, lastBlock: bool)
      returns (r: Result<BlockKind>, ghost dynLen: int, ghost staticLen: int, ghost t: Sent, ghost c: Codes)
      requires Valid()
      modifies Footprint()
      ensures r.Fail? ==> r.error == ArrayIndexOutOfBounds || r.error == StringIndexOutOfBounds
      ensures r.Ok? ==> Valid() && lits == [] && dists == [] && lastLit == 0 && extraBits == 0
      ensures r.Ok? ==>
        Flushed(old(lits), old(dists), old(pending.writes), storedOffset, storedLen, lastBlock, r.value, dynLen, staticLen, t, c)
    {
      t, c := Sent([], 0, [], 0, [], [], 0), Codes([], [], [], []);
      dynLen, staticLen := 0, 0;
      ghost var ls, ds, e, w0 := lits, dists, extraBits, pending.writes;
      ghost var lh, dh := LitHist(lits, dists), DistHist(lits, dists);
      assert literalTree.freqs[..] == lh && distTree.freqs[..] == dh;
      var p := PrepareTrees();
      if p.Fail? {
        return Fail(p.error), dynLen, staticLen, t, c;
      }
      ghost var lf, bf := literalTree.freqs[..], blTree.freqs[..];
      ghost var lr, dr, br := literalTree.root, distTree.root, blTree.root;
      ghost var ll, dl, bl := literalTree.length, distTree.length, blTree.length;
      ghost var lcs, dcs, bcs := literalTree.blCounts[..], distTree.blCounts[..], blTree.blCounts[..];
      assert lf == Tally(lh, EOF_SYMBOL) && distTree.freqs[..] == dh;
      assert TrieFor(lr, lf) && TrieFor(dr, dh) && TrieFor(br, bf);
      assert LengthsFor(lr, ll, lcs, 15) && LengthsFor(dr, dl, dcs, 15) && LengthsFor(br, bl, bcs, 7);
      assert bf == CodeLengthFreqs(ll, literalTree.numCodes, dl, distTree.numCodes);
      r, dynLen, staticLen, t, c := FlushBuilt(storedOffset, storedLen, lastBlock);
      assert literalTree.root == lr && distTree.root == dr && blTree.root == br;
      assert t.lit == ll && t.dist == dl && t.bl == bl;
      assert literalTree.blCounts[..] == lcs && distTree.blCounts[..] == dcs && blTree.blCounts[..] == bcs;
      if r.Ok? {
        EstimatesOf(ls, ds, staticLLength, staticDLength, t, dynLen, staticLen, lf, dh, bf, e);
        FlushWritesCases(pending.writes, w0, r.value, storedOffset, storedLen, lastBlock, ls, ds, StaticCodes(), t, c);
        assert TreesBuilt(ls, ds, t, c);
      }
    }

    /** flushBlock from the blTreeCodes loop on, with the trees built. */
    method FlushBuilt(storedOffset: int, storedLen: int, lastBlock: bool)
      returns (r: Result<BlockKind>, ghost dynLen: int, ghost staticLen: int, ghost t: Sent, ghost c: Codes)
      requires Shape() && Buffered() && Ranged(literalTree) && Ranged(distTree) && Ranged(blTree)
      modifies pending, this, literalTree, distTree, blTree, literalTree.freqs, distTree.freqs, blTree.freqs
      ensures r.Fail? ==> r.error == StringIndexOutOfBounds
      ensures t == old(DynamicTrees(BlTreeCodesAsWritten(blTree.length))) && c == old(DynamicCodes())
      ensures staticLen == old(StaticLen(literalTree.freqs[..], staticLLength, distTree.freqs[..], staticDLength, extraBits))
      ensures dynLen == old(DynamicLen(t.blTreeCodes, EncodedLength(blTree.freqs[..], blTree.length, BITLEN_NUM),
        EncodedLength(literalTree.freqs[..], literalTree.length, LITERAL_NUM),
        EncodedLength(distTree.freqs[..], distTree.length, DIST_NUM), extraBits))
      ensures r.Ok? ==> r.value == ChooseBlock(dynLen, staticLen, storedOffset, storedLen)
      ensures r.Ok? ==> Valid() && lits == [] && dists == [] && lastLit == 0 && extraBits == 0
      ensures SentOk(t)
      ensures r == Ok(Stored) ==> pending.writes == old(pending.writes) + StoredWrites(storedOffset, storedLen, lastBlock)
      ensures r == Ok(Static) ==>
        pending.writes ==
        old(pending.writes) + [Bits(STATIC_TREES * 2 + LastBit(lastBlock), 3)] + EntryBlock(old(lits), old(dists), StaticCodes())
      ensures r == Ok(Dynamic) ==>
        pending.writes ==
        old(pending.writes) + [Bits(DYN_TREES * 2 + LastBit(lastBlock), 3)] + SentWrites(t) + EntryBlock(old(lits), old(dists), c)
      ensures literalTree.root == old(literalTree.root) && distTree.root == old(distTree.root) && blTree.root == old(blTree.root)
    {
      var blTreeCodes, optLen, sl := Sizes();
      t, c := DynamicTrees(blTreeCodes), DynamicCodes();
      dynLen, staticLen := optLen, sl;
      if optLen >= sl {
        optLen := sl;
      }
      if storedOffset >= 0 && Int32(storedLen + 4) < optLen / 8 {
        FlushStoredBlock(storedOffset, storedLen, lastBlock);
        r := Ok(Stored);
      } else if optLen == sl {
        FlushStatic(lastBlock);
        r := Ok(Static);
      } else {
        var d := FlushDynamic(blTreeCodes, lastBlock);
        if d.Fail? {
          return Fail(d.error), dynLen, staticLen, t, c;
        }
        r := Ok(Dynamic);
      }
    }
  }
}
