/** OurDeflaterEngine: the input side of the deflater.  setInput hands the
    engine a slice of the caller's array, deflate moves its bytes into the
    lookahead queue (a CircularArrayFIFOQueue of 1024 bytes) and folds them
    into the checksum, and when the Huffman buffer is full deflateSlow
    resets the match finder and flushes the block. */
module DeflaterEngine {
  import opened JavaErrors
  import opened JavaInts
  import opened CircularQueue
  import opened PendingWrites
  import opened BlockCoding
  import opened Compressor

  /** The capacity the constructor gives the lookahead queue. */
  const LOOKAHEAD_SIZE := 1024

  /** A Java byte. */
  newtype Byte = x: int | -128 <= x < 128

  /** The bounds check of setInput, with end = off + len computed in int
      arithmetic. */
  predicate SliceRejected(off: int, len: int, length: int)
  {
    0 > off || off > Int32(off + len) || Int32(off + len) > length
  }

  /** The check catches wrap-around: for any int off and len and any array
      length, it rejects exactly the slices that do not lie inside the
      array. */
  lemma SliceCheck(off: int, len: int, length: int)
    requires IsInt(off) && IsInt(len) && 0 <= length < 0x8000_0000
    ensures SliceRejected(off, len, length) <==> !(0 <= off && 0 <= len && off + len <= length)
  {
    SumWraps(off, len);
  }

  class OurDeflaterEngine {
    /** The array of the last setInput; [] stands for the initial null.
        The engine only reads it. */
    var inputBuf: seq<Byte>
    var inputOff: int
    var inputEnd: int
    var blockStart: int
    const pending: DeflaterPending
    const huffman: HuffmanCompressor
    /** The lookahead queue buf. */
    const buf: CircularArrayFIFOQueue<Byte>
    /** The bytes passed to adler.update, in order: Adler32 is not part of
        this model and the checksum is a function of these bytes. */
    ghost var checksummed: seq<Byte>
    /** The number of lz77.reset() calls: LZ77Compressor is not part of
        this model. */
    ghost var matcherResets: nat

    /** The input fields: an int-indexed array, and the part not yet taken
        lies in it. */
    ghost predicate InputOk()
      reads this
    {
      |inputBuf| < 0x8000_0000 && 0 <= inputOff <= inputEnd <= |inputBuf| && IsInt(blockStart)
    }

    /** The input fields and the lookahead queue. */
    ghost predicate Valid()
      reads this, buf, buf.Repr
    {
      InputOk() && buf.Valid() && buf.capacity == LOOKAHEAD_SIZE && this !in buf.Repr
    }

    constructor (pending: DeflaterPending)
      ensures Valid() && huffman.Valid() && this.pending == pending == huffman.pending
      ensures buf.Repr !! huffman.Footprint()
      ensures inputOff == inputEnd == blockStart == 0 && buf.Contents() == [] && checksummed == []
      ensures huffman.lits == [] && huffman.StaticReady()
    {
      this.pending := pending;
      buf := new CircularArrayFIFOQueue<Byte>(LOOKAHEAD_SIZE);
      huffman := new HuffmanCompressor(pending);
      inputBuf, inputOff, inputEnd, blockStart := [], 0, 0, 0;
      checksummed, matcherResets := [], 0;
    }

    /** needsInput(): the last input has been taken in full. */
    method NeedsInput() returns (b: bool)
      requires InputOk()
      ensures b <==> inputBuf[inputOff..inputEnd] == []
    {
      b := inputEnd == inputOff;
    }

    /** setInput(buf, off, len): refused while input is left; otherwise a
        slice outside the array is refused and nothing changes, and a
        slice inside it becomes the input. */
    method SetInput(b: seq<Byte>, off: int, len: int) returns (r: Result<()>)
      requires InputOk() && |b| < 0x8000_0000 && IsInt(off) && IsInt(len)
      modifies this
      ensures InputOk()
      ensures old(inputOff < inputEnd) ==> r == Fail(IllegalState)
      ensures old(inputOff == inputEnd) && !(0 <= off && 0 <= len && off + len <= |b|) ==> r == Fail(ArrayIndexOutOfBounds)
      ensures r.Fail? ==> unchanged(this)
      ensures r.Ok? <==> old(inputOff == inputEnd) && 0 <= off && 0 <= len && off + len <= |b|
      ensures r.Ok? ==> inputBuf == b && inputOff == off && inputEnd == off + len
      ensures r.Ok? ==> blockStart == old(blockStart) && checksummed == old(checksummed) && matcherResets == old(matcherResets)
    {
      if inputOff < inputEnd {
        return Fail(IllegalState);
      }
      var end := Int32(off + len);
      SliceCheck(off, len, |b|);
      if 0 > off || off > end || end > |b| {
        return Fail(ArrayIndexOutOfBounds);
      }
      inputBuf := b;
      inputOff := off;
      inputEnd := end;
      r := Ok(());
    }

    /** One pass of deflate's loop up to the deflateSlow call: copy input
        bytes into the lookahead queue until it is full or the input is used up,
        fold exactly those bytes into the checksum, and allow a flush only
        once the input is used up. */
    method FillLookahead(flush: bool) returns (numNew: int, canFlush: bool)
      requires Valid()
      modifies this, buf.Repr
      ensures Valid() && buf.Repr == old(buf.Repr)
      ensures inputBuf == old(inputBuf) && inputEnd == old(inputEnd) && blockStart == old(blockStart)
      ensures matcherResets == old(matcherResets)
      ensures numNew == Min(LOOKAHEAD_SIZE - |old(buf.Contents())|, old(inputEnd - inputOff))
      ensures inputOff == old(inputOff) + numNew
      ensures buf.Contents() == old(buf.Contents()) + inputBuf[old(inputOff)..inputOff]
      ensures checksummed == old(checksummed) + inputBuf[old(inputOff)..inputOff]
      ensures |buf.Contents()| == LOOKAHEAD_SIZE || inputOff == inputEnd
      ensures canFlush <==> flush && inputOff == inputEnd
    {
      ghost var c0, off0 := buf.Contents(), inputOff;
      numNew := 0;
      var full := buf.IsFull();
      while !full && inputOff < inputEnd
        invariant Valid() && buf.Repr == old(buf.Repr)
        invariant inputBuf == old(inputBuf) && inputEnd == old(inputEnd) && blockStart == old(blockStart)
        invariant checksummed == old(checksummed) && matcherResets == old(matcherResets)
        invariant off0 <= inputOff && numNew == inputOff - off0
        invariant buf.Contents() == c0 + inputBuf[off0..inputOff]
        invariant full <==> |buf.Contents()| == LOOKAHEAD_SIZE
        decreases inputEnd - inputOff
      {
        assert inputBuf[off0..inputOff + 1] == inputBuf[off0..inputOff] + [inputBuf[inputOff]];
        TakeByte();
        numNew := numNew + 1;
        full := buf.IsFull();
      }
      checksummed := checksummed + inputBuf[inputOff - numNew..inputOff];
      canFlush := flush && inputOff == inputEnd;
    }

    /** buf.add(inputBuf[inputOff++]) */
    method TakeByte()
      requires Valid() && inputOff < inputEnd && |buf.Contents()| < LOOKAHEAD_SIZE
      modifies this, buf.Repr
      ensures Valid() && buf.Repr == old(buf.Repr)
      ensures inputBuf == old(inputBuf) && inputEnd == old(inputEnd) && blockStart == old(blockStart)
      ensures checksummed == old(checksummed) && matcherResets == old(matcherResets)
      ensures inputOff == old(inputOff) + 1
      ensures buf.Contents() == old(buf.Contents()) + [inputBuf[old(inputOff)]]
    {
      var added := buf.Add(inputBuf[inputOff]);
      inputOff := inputOff + 1;
    }

    /** The arguments deflateSlow passes to flushBlock: the block is the
        last one when finish is set and the lookahead queue is empty, and its
        stored length is inputOff - blockStart + buf.size() in int
        arithmetic. */
    method BlockArgs(finish: bool) returns (lastBlock: bool, storedLen: int)
      requires Valid()
      ensures lastBlock <==> finish && buf.Contents() == []
      ensures storedLen == Int32(inputOff - blockStart + |buf.Contents()|)
    {
      var work := buf.HasWork();
      lastBlock := finish && !work;
      var size := buf.Size();
      storedLen := Int32(inputOff - blockStart + size);
    }

    /** The branch of deflateSlow taken when huffman.isFull(): reset the
        match finder, flush the block, marked last when finish is set and
        the lookahead queue is empty, with the stored length
        inputOff - blockStart + buf.size(), move blockStart to that length,
        and return whether more is to come.  dynLen, staticLen, t and c are
        flushBlock's sizes, trees and codes.  An exception of flushBlock
        propagates. */
    method FlushFull(finish: bool)
      returns (r: Result<bool>, lastBlock: bool, kind: BlockKind,
               ghost dynLen: int, ghost staticLen: int, ghost t: Sent, ghost c: Codes)
      requires Valid() && huffman.Valid() && huffman.pending == pending && buf.Repr !! huffman.Footprint()
      requires |huffman.lits| == BUFSIZE
      modifies this, huffman.Footprint()
      ensures matcherResets == old(matcherResets) + 1
      ensures lastBlock <==> finish && old(buf.Contents()) == []
      ensures buf.Contents() == old(buf.Contents())
      ensures inputBuf == old(inputBuf) && inputOff == old(inputOff) && inputEnd == old(inputEnd)
      ensures checksummed == old(checksummed)
      ensures r.Fail? ==> r.error == ArrayIndexOutOfBounds || r.error == StringIndexOutOfBounds
      ensures r.Ok? ==> r.value == !lastBlock
      ensures Valid()
      ensures r.Ok? ==> huffman.Valid() && huffman.lits == []
      ensures r.Ok? ==> blockStart == Int32(old(inputOff - blockStart) + |buf.Contents()|)
      ensures r.Ok? ==>
        Estimates(old(huffman.lits), old(huffman.dists), huffman.staticLLength, huffman.staticDLength, t, dynLen, staticLen)
      ensures r.Ok? ==> kind == ChooseBlock(dynLen, staticLen, old(blockStart), blockStart)
      ensures r.Ok? ==>
        pending.writes ==
        old(pending.writes) +
        FlushWrites(kind, old(blockStart), blockStart, lastBlock, old(huffman.lits), old(huffman.dists), huffman.StaticCodes(), t, c)
    {
      var storedLen;
      lastBlock, storedLen := BlockArgs(finish);
      kind := Stored;
      assert this !in huffman.Footprint() && buf !in huffman.Footprint();
      var res;
      res, dynLen, staticLen, t, c := FlushHuffman(storedLen, lastBlock);
      // deflateSlow resets the match finder first; flushBlock does not
      // touch it, so the ghost count can follow the flush.
      matcherResets := matcherResets + 1;
      if res.Fail? {
        return Fail(res.error), lastBlock, kind, dynLen, staticLen, t, c;
      }
      kind := res.value;
      r := Ok(!lastBlock);
    }

    /** huffman.flushBlock(inputBuf, blockStart, storedLen, lastBlock), then
        blockStart = storedLen once it returns; nothing else of the engine
        changes. */
    method FlushHuffman(storedLen: int, lastBlock: bool)
      returns (r: Result<BlockKind>, ghost dynLen: int, ghost staticLen: int, ghost t: Sent, ghost c: Codes)
      requires Valid() && huffman.Valid() && huffman.pending == pending && buf.Repr !! huffman.Footprint()
      requires IsInt(storedLen)
      modifies this`blockStart, huffman.Footprint()
      ensures Valid() && buf.Contents() == old(buf.Contents())
      ensures blockStart == if r.Ok? then storedLen else old(blockStart)
      ensures r.Fail? ==> r.error == ArrayIndexOutOfBounds || r.error == StringIndexOutOfBounds
      ensures r.Ok? ==> huffman.Valid() && huffman.lits == []
      ensures r.Ok? ==>
        Estimates(old(huffman.lits), old(huffman.dists), huffman.staticLLength, huffman.staticDLength, t, dynLen, staticLen)
      ensures r.Ok? ==> r.value == ChooseBlock(dynLen, staticLen, old(blockStart), storedLen)
      ensures r.Ok? ==>
        pending.writes ==
        old(pending.writes) +
        FlushWrites(r.value, old(blockStart), storedLen, lastBlock, old(huffman.lits), old(huffman.dists), huffman.StaticCodes(), t, c)
    {
      assert this !in huffman.Footprint() && buf !in huffman.Footprint();
      r, dynLen, staticLen, t, c := huffman.FlushBlock(blockStart, storedLen, lastBlock);
      blockStart := if r.Ok? then storedLen else blockStart;
    }
  }

  function Min(a: int, b: int): int
  {
    if a <= b then a else b
  }
}
