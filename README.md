# A verified model of the jazzlib deflater core

This project models, in Dafny, the compression core of a DEFLATE
implementation (RFC 1951) written in Java, and proves properties of it.
The core is made of five pieces.

- **`HuffmanCompressor`** buffers literals and matches and builds the Huffman trees. It then chooses a stored, a static or a dynamic block and writes it.
  - `tallyLit` and `tallyDist` record entries in `l_buf` and `d_buf` and count symbol frequencies.
  - `l_code` and `d_code` map lengths and distances to the symbols of section 3.2.5 of RFC 1951.
  - The static initializer fills the fixed tables of section 3.2.6.
  - `Tree.buildTree` builds the Huffman trie. `buildLength` derives code lengths from it, clamped to `maxLength` and redistributed on overflow. `buildCodes` assigns canonical, bit-reversed codes (section 3.2.2).
  - `calcBLFreq` and `writeTree` count and write the run-length coding of a code-length sequence (section 3.2.7).
  - `sendAllTrees`, `compressBlock`, `flushStoredBlock` and `flushBlock` write the block.
- **`OurDeflaterEngine`** covers only its input side:
  - `setInput` with its wrap-around-safe bounds check;
  - `needsInput`;
  - the loop in `deflate` that moves input bytes into a 1024-byte lookahead queue and folds them into the checksum, and the flush gating after it;
  - the branch of `deflateSlow` taken when the Huffman buffer is full.
- **`CircularArrayFIFOQueue`** is a ring buffer of fixed capacity with indexed peek and update.
- **`ListFIFOQueue`** is a doubly linked FIFO queue between head and tail sentinels. Its `clear` only nulls the head.
- **`BitString.get` and `toString`** read a bit sequence as a binary number (first bit most significant) and spell it in `0`/`1`. These bit strings are the paths of the Huffman trie.

## How the model is organized

Classes become Dafny classes wherever the Java code updates fields in place:
`CircularArrayFIFOQueue` (over an `array`), `ListFIFOQueue` and its `Node`s,
`HuffmanCompressor.Tree` (frequency and `bl_counts` arrays), `HuffmanCompressor`
(`l_buf`/`d_buf` arrays, `last_lit`, `extra_bits`) and `OurDeflaterEngine`.
Each loop is a `while` loop with invariants. These methods are proved against
specification functions, and the properties the design promises are lemmas
about those functions.

| module | file | models |
|---|---|---|
| `JavaErrors` | errors.dfy | Java exceptions as `Result<T> = Ok(value) \| Fail(error)` |
| `Bits` | bits.dfy | `bitReverse`, powers of two |
| `BitStrings` | bitstring.dfy | `BitString.get`, `toString` |
| `CircularQueue` | circular_queue.dfy | `CircularArrayFIFOQueue` |
| `ListQueue` | list_queue.dfy | `ListFIFOQueue` |
| `DeflateCodes` | codes.dfy | `l_code`, `d_code`, the RFC length/distance tables, extra bits |
| `Canonical` | canonical.dfy | canonical codes (section 3.2.2 of RFC 1951) |
| `FixedTables` | fixed_tables.dfy | the static initializer |
| `HuffTree` | htree.dfy | the Huffman trie as a datatype, `getOverflow`, key iteration and sorting |
| `CodeLengths` | code_lengths.dfy | the run-length coding of `calcBLFreq`/`writeTree` and its decoding |
| `PendingWrites` | pending.dfy | the bit sink, as a log of calls |
| `HuffmanTree` | tree.dfy | `HuffmanCompressor.Tree` |
| `BlockCoding` | block.dfy | what a block writes, the block-size formulas, the `blTreeCodes` count, the block choice |
| `Compressor` | compressor.dfy | `HuffmanCompressor` |
| `DeflaterEngine` | engine.dfy | `OurDeflaterEngine` |

The collaborators that are not part of this model appear as follows.

- **Bit sink.** `DeflaterPending` (`PendingWrites.DeflaterPending`) keeps the sequence of calls made on it: `writeBits(value, width)`, `alignToByte`, `writeShort` and `writeBlock`. Every writing method is specified by what it appends to that sequence.
- **Checksum.** Adler32 is the ghost sequence `checksummed` of the bytes passed to `adler.update`.
- **Match finder.** `LZ77Compressor` is the ghost counter `matcherResets` of its `reset` calls.
- **Huffman trie.** The `HashTrieMap` is the datatype `HuffTree.HNode`. Its keys are iterated in trie order, with the zero branch before the one branch, each key paired with its depth.

All integers are unbounded. Where Java narrowing or wrap-around matters, it is
written out:

- `JavaInts.Int32` for int sums (`setInput`, `flushBlock`, `deflateSlow`);
- `JavaInts.ToShort` for `BitString.get` and the `(short) dist` of `tallyDist`;
- `JavaByte` for `l_buf`;
- `bitReverse`'s `charAt(value >> 12)`, which throws for arguments outside `[0, 65536)`.

## Model

Paths are relative to the repository root. `H` below is
`src/main/java/cse332/jazzlib/HuffmanCompressor.java`.

| member | source | states |
|---|---|---|
| Bits.BitReverse | src/main/java/cse332/jazzlib/HuffmanCompressor.java:428-433 | bitReverse returns normally exactly for 0 <= value < 65536; beyond that the unmasked table lookup throws |
| Bits.ReverseIsMirror | src/main/java/cse332/jazzlib/HuffmanCompressor.java:68-69 | the nibble table lookup equals reversing the 16 bits by masks and shifts |
| Bits.BitReverseMovesBits | src/main/java/cse332/jazzlib/HuffmanCompressor.java:428-433 | bit j of the result is bit 15 - j of the argument |
| Bits.BitReverseInvolutive | src/main/java/cse332/jazzlib/HuffmanCompressor.java:428-433 | reversing the result again gives back the original 16-bit value |
| Bits.ReversedCodeFits | src/main/java/cse332/jazzlib/HuffmanCompressor.java:244-245 | a code left-aligned in 16 bits with its low 16 - len bits clear reverses to a value below 2^len, so writeBits(code, len) loses no bit |
| BitStrings.Get | src/main/java/cse332/types/BitString.java:18-24 | get() returns the short narrowing of the sum of 1 << (n - i - 1) over the set bits i |
| BitStrings.ToShortAdd | src/main/java/cse332/types/BitString.java:21 | narrowing after every += gives the same short as narrowing once at the end |
| BitStrings.ShiftedSumIsValue | src/main/java/cse332/types/BitString.java:20-22 | for at most 31 bits no shift wraps, and the sum is the binary value with bit 0 most significant |
| BitStrings.GetIsValue | src/main/java/cse332/types/BitString.java:18-24 | for at most 15 bits get() is exactly that binary value, below 2^n |
| BitStrings.AllFalseIsZero | src/main/java/cse332/types/BitString.java:18-24 | an all-false sequence reads as 0 |
| BitStrings.ValueAppend | src/main/java/cse332/types/BitString.java:18-24 | one more bit at the end doubles the value and adds the bit |
| BitStrings.ValueInjective | src/main/java/cse332/types/BitString.java:18-24 | two sequences of the same length with the same value are equal |
| BitStrings.ToString | src/main/java/cse332/types/BitString.java:26-32 | the string has one character per bit; character i is '1' iff bit i is set and '0' iff it is not |
| BitStrings.ParseInvertsToString | src/main/java/cse332/types/BitString.java:26-32 | reading a toString() result back gives the original bits (round trip) |
| DeflateCodes.LCode | src/main/java/cse332/jazzlib/HuffmanCompressor.java:487-498 | the loop computes the symbol LengthCode(len); offsets 0..255 land in 257..285 |
| DeflateCodes.DCode | src/main/java/cse332/jazzlib/HuffmanCompressor.java:500-508 | the loop computes DistanceCode(distance); distances - 1 in 0..32767 land in 0..29 |
| DeflateCodes.HalvingCovers | src/main/java/cse332/jazzlib/HuffmanCompressor.java:491-497 | for offsets 0..254 the halving loop stops at a symbol in 257..284 whose RFC range holds the length |
| DeflateCodes.LengthCodeCovers | src/main/java/cse332/jazzlib/HuffmanCompressor.java:487-498 | l_code gives the RFC symbol whose base/extra range holds length offset + 3; offsets below 255 go to 257..284 and 255 is exactly the one that goes to 285 |
| DeflateCodes.LengthCodeRange | src/main/java/cse332/jazzlib/HuffmanCompressor.java:487-498 | l_code of 0..255 is in 257..285 |
| DeflateCodes.ShortLengthCodes | src/main/java/cse332/jazzlib/HuffmanCompressor.java:491-497 | offsets 0..7 map to 257 + offset |
| DeflateCodes.DistanceCodeCovers | src/main/java/cse332/jazzlib/HuffmanCompressor.java:500-508 | d_code gives the RFC symbol whose base/extra range holds the distance (d_code's argument plus 1), for every distance 1..32768 |
| DeflateCodes.DistanceCodeRange | src/main/java/cse332/jazzlib/HuffmanCompressor.java:500-508 | d_code of 0..32767 is in 0..29 |
| DeflateCodes.DistanceCodeInRange | src/main/java/cse332/jazzlib/HuffmanCompressor.java:500-508 | d_code(d) indexes the 30 distance frequencies exactly when 0 <= d < 32768: a negative argument is returned as is and 32768 or more halves to 30 or above |
| DeflateCodes.ShortDistanceCodes | src/main/java/cse332/jazzlib/HuffmanCompressor.java:501-507 | distances - 1 in 0..3 map to themselves |
| DeflateCodes.ExtraBitsAgree | src/main/java/cse332/jazzlib/HuffmanCompressor.java:680-686 | the extra-bit counts tallyDist adds equal the widths compressBlock writes (lines 538-547), and both equal the RFC table's extra bits |
| Canonical.CodeStartIsRfc | src/main/java/cse332/jazzlib/HuffmanCompressor.java:236-239 | nextCode[bits - 1] is the RFC's next_code[bits] left-aligned in 16 bits |
| Canonical.CanonicalIsRfc | src/main/java/cse332/jazzlib/HuffmanCompressor.java:241-246 | each symbol's code is next_code of its length plus its rank among symbols of that length, left-aligned |
| Canonical.SameLengthInOrder | src/main/java/cse332/jazzlib/HuffmanCompressor.java:241-246 | of two symbols of equal length, the later one has the higher rank and a code at least one step higher |
| Canonical.NextSameLength | src/main/java/cse332/jazzlib/HuffmanCompressor.java:245 | the next symbol of the same length gets exactly the next code |
| Canonical.ShorterFirst | src/main/java/cse332/jazzlib/HuffmanCompressor.java:236-239 | with the length histogram as counts, every shorter code ends before any longer code starts |
| Canonical.PrefixFree | src/main/java/cse332/jazzlib/HuffmanCompressor.java:231-248 | the code intervals of two different symbols never overlap, so no code is a prefix of another |
| FixedTables.FixedHistograms | src/main/java/cse332/jazzlib/HuffmanCompressor.java:435-465 | the RFC fixed lengths have 24/152/112 codes of lengths 7/8/9 and 32 distance codes of length 5 |
| FixedTables.StaticLitArgIsCanonical | src/main/java/cse332/jazzlib/HuffmanCompressor.java:441-456 | for every symbol below 286, the value reversed is the canonical code of its fixed length (8, 9, 7, 8 by range) |
| FixedTables.StaticDistArgIsCanonical | src/main/java/cse332/jazzlib/HuffmanCompressor.java:461-464 | i << 11 is the canonical code of distance symbol i, of length 5 |
| FixedTables.StaticLitTables | src/main/java/cse332/jazzlib/HuffmanCompressor.java:438-456 | the four loops leave each literal/length entry holding the RFC fixed length and its bit-reversed canonical code |
| FixedTables.StaticDistTables | src/main/java/cse332/jazzlib/HuffmanCompressor.java:459-464 | the distance loop leaves length 5 and the bit-reversed canonical code in every entry |
| FixedTables.StaticTables | src/main/java/cse332/jazzlib/HuffmanCompressor.java:435-465 | the static initializer fills all four tables with the fixed code of section 3.2.6 |
| HuffTree.OverflowZeroIff | src/main/java/cse332/jazzlib/HuffmanCompressor.java:88-110 | getOverflow is 0 exactly when no key of the trie is longer than maxLength |
| HuffTree.LeavesHoldSyms | src/main/java/cse332/jazzlib/HuffmanCompressor.java:184-189 | iterating the trie lists exactly the symbols it holds, counted with multiplicity |
| HuffTree.LeavesDeeper | src/main/java/cse332/jazzlib/HuffmanCompressor.java:184-195 | every key below a node is at least as deep as the node, and strictly deeper below an inner node |
| HuffTree.LeafSymbolIff | src/main/java/cse332/jazzlib/HuffmanCompressor.java:187-194 | a symbol has a key exactly when the trie holds it |
| HuffTree.LeavesDistinct | src/main/java/cse332/jazzlib/HuffmanCompressor.java:191-195 | a trie holding no symbol twice lists every symbol once |
| HuffTree.LeavesInRange | src/main/java/cse332/jazzlib/HuffmanCompressor.java:194 | every key's symbol indexes the frequency table, so length[find(k)] is in bounds |
| HuffTree.Insert | src/main/java/cse332/jazzlib/HuffmanCompressor.java:216 | one step of the stable sort adds exactly the new key |
| HuffTree.InsertSorted | src/main/java/cse332/jazzlib/HuffmanCompressor.java:216 | inserting into a depth-sorted list keeps it sorted |
| HuffTree.SortByDepth | src/main/java/cse332/jazzlib/HuffmanCompressor.java:216 | Collections.sort by key length gives a permutation of the keys in depth order |
| HuffTree.SortDistinct | src/main/java/cse332/jazzlib/HuffmanCompressor.java:216 | sorting keeps the symbols distinct |
| HuffmanTree.LeafQueueLeaves | src/main/java/cse332/jazzlib/HuffmanCompressor.java:257-264 | the first loop of buildTree queues leaves carrying their symbols' frequencies |
| HuffmanTree.LeafQueueSyms | src/main/java/cse332/jazzlib/HuffmanCompressor.java:257-264 | the queue holds exactly the symbols of nonzero frequency, each once |
| HuffmanTree.StartQueueFacts | src/main/java/cse332/jazzlib/HuffmanCompressor.java:257-269 | after the lone-leaf wrap, the queue still holds those symbols, and a single tree in it is not a leaf |
| HuffmanTree.LoneFacts | src/main/java/cse332/jazzlib/HuffmanCompressor.java:266-269 | Node(null, real) keeps the symbol and frequency of the lone leaf |
| HuffmanTree.MinIndex | src/main/java/cse332/jazzlib/HuffmanCompressor.java:277-278 | the chosen tree has the least weight, and no earlier tree is as light |
| HuffmanTree.RemoveMin | src/main/java/cse332/jazzlib/HuffmanCompressor.java:277-278 | remove() takes a lightest tree and keeps every symbol and every other tree |
| HuffmanTree.RemoveAtSyms | src/main/java/cse332/jazzlib/HuffmanCompressor.java:277-278 | taking one tree out of the queue leaves the symbols of the others |
| HuffmanTree.PairStep | src/main/java/cse332/jazzlib/HuffmanCompressor.java:276-280 | combining the two lightest trees keeps the queue's symbols and its leaves' frequencies |
| HuffmanTree.RootFacts | src/main/java/cse332/jazzlib/HuffmanCompressor.java:282-289 | the queue ends empty exactly when every frequency is 0, and otherwise its one tree holds every symbol in use |
| HuffmanTree.TrieOfQueue | src/main/java/cse332/jazzlib/HuffmanCompressor.java:282-289 | the root taken from the queue is the trie of the frequencies |
| HuffmanTree.NumCodesBound | src/main/java/cse332/jazzlib/HuffmanCompressor.java:271 | max(maxCode + 1, minNumCodes) is at least minNumCodes and above every symbol of nonzero frequency |
| HuffmanTree.LengthsBounded | src/main/java/cse332/jazzlib/HuffmanCompressor.java:192-194 | every length buildLength leaves is in [0, maxLength] |
| HuffmanTree.ExactLengths | src/main/java/cse332/jazzlib/HuffmanCompressor.java:191-195 | without overflow the lengths are the path lengths and bl_counts is their histogram |
| HuffmanTree.ReassignedLengths | src/main/java/cse332/jazzlib/HuffmanCompressor.java:216-227 | after redistribution, every symbol in use gets a length in [1, maxLength], others keep 0, and a longer path never gets a shorter length |
| HuffmanTree.SortedLengths | src/main/java/cse332/jazzlib/HuffmanCompressor.java:216-227 | lengths nondecreasing along the sorted keys are nondecreasing in path length over the trie's keys |
| HuffmanTree.EncodedLengthTally | src/main/java/cse332/jazzlib/HuffmanCompressor.java:294-300 | counting one more occurrence of s raises getEncodedLength by length[s] |
| HuffmanTree.EncodedLengthZero | src/main/java/cse332/jazzlib/HuffmanCompressor.java:294-300 | with all frequencies 0 (after reset) getEncodedLength is 0 |
| HuffmanTree.NextCodesStart | src/main/java/cse332/jazzlib/HuffmanCompressor.java:236-239 | the first loop's nextCode array holds each length's first canonical code |
| HuffmanTree.NextCodesStep | src/main/java/cse332/jazzlib/HuffmanCompressor.java:241-246 | symbol i takes its canonical code and the next code of its length moves one step on |
| HuffmanTree.CodeStep | src/main/java/cse332/jazzlib/HuffmanCompressor.java:243-246 | bitReverse fails exactly when the canonical code does not fit 16 bits; otherwise the stored code is the reversed canonical code |
| HuffmanTree.StartCodes | src/main/java/cse332/jazzlib/HuffmanCompressor.java:236-239 | the first loop of buildCodes leaves nextCode[bits] = the first left-aligned code of length bits + 1 |
| HuffmanTree.AssignCodes | src/main/java/cse332/jazzlib/HuffmanCompressor.java:241-247 | the second loop succeeds iff every canonical code fits 16 bits, and then stores each symbol's reversed canonical code (0 for no length) |
| HuffmanTree.AssignCode | src/main/java/cse332/jazzlib/HuffmanCompressor.java:242-246 | one symbol: its code is stored, or bitReverse throws because the code does not fit |
| HuffmanTree.Tree.constructor | src/main/java/cse332/jazzlib/HuffmanCompressor.java:79-86 | fresh zero frequencies of the given size, minNumCodes and maxLength as given |
| HuffmanTree.Tree.Reset | src/main/java/cse332/jazzlib/HuffmanCompressor.java:141-146 | every frequency is 0 and codes and lengths are dropped |
| HuffmanTree.Tree.WriteSymbol | src/main/java/cse332/jazzlib/HuffmanCompressor.java:148-154 | writes the symbol's code in its length |
| HuffmanTree.Tree.SetStaticCodes | src/main/java/cse332/jazzlib/HuffmanCompressor.java:170-174 | installs the given codes and lengths |
| HuffmanTree.Tree.CollectLeaves | src/main/java/cse332/jazzlib/HuffmanCompressor.java:257-264 | queues a leaf per nonzero symbol in symbol order, and maxCode is the last such symbol (0 if none) |
| HuffmanTree.Tree.Combine | src/main/java/cse332/jazzlib/HuffmanCompressor.java:276-280 | the loop ends with at most one tree, none only if there were none, holding the same symbols with the same leaf frequencies |
| HuffmanTree.Tree.MakeTrie | src/main/java/cse332/jazzlib/HuffmanCompressor.java:251-289 | root is the trie of the frequencies (None iff all are 0), and numCodes covers every symbol in use and minNumCodes |
| HuffmanTree.Tree.BuildTree | src/main/java/cse332/jazzlib/HuffmanCompressor.java:251-292 | the trie as above; the lengths of buildLength on success; failure only via an overflow that runs off bl_counts |
| HuffmanTree.Tree.ClearCounts | src/main/java/cse332/jazzlib/HuffmanCompressor.java:179-180 | bl_counts all 0 |
| HuffmanTree.Tree.CountLeaves | src/main/java/cse332/jazzlib/HuffmanCompressor.java:191-195 | each key's symbol gets min(path length, maxLength), others 0; bl_counts is the histogram and sums to the number of keys |
| HuffmanTree.Tree.CountedLengths | src/main/java/cse332/jazzlib/HuffmanCompressor.java:177-195 | a fresh length array with the clamped path lengths, and their histogram in bl_counts |
| HuffmanTree.Tree.AddCount | src/main/java/cse332/jazzlib/HuffmanCompressor.java:203-204 | bl_counts[b] changes by delta and the total by delta |
| HuffmanTree.Tree.Redistribute | src/main/java/cse332/jazzlib/HuffmanCompressor.java:197-214 | moving counts between lengths never changes their total; running off either end throws |
| HuffmanTree.Tree.NextLength | src/main/java/cse332/jazzlib/HuffmanCompressor.java:221-224 | skips exactly the lengths with a zero count, or throws when it runs past maxLength |
| HuffmanTree.Tree.PutLength | src/main/java/cse332/jazzlib/HuffmanCompressor.java:225 | sets one key's length and no other symbol's |
| HuffmanTree.Tree.AssignSorted | src/main/java/cse332/jazzlib/HuffmanCompressor.java:218-227 | hands out lengths in [1, maxLength], nondecreasing along the sorted keys, and changes no other symbol |
| HuffmanTree.Tree.Reassign | src/main/java/cse332/jazzlib/HuffmanCompressor.java:197-227 | on success the lengths and bl_counts satisfy LengthsFor (range, order, total) for the trie |
| HuffmanTree.Tree.BuildLength | src/main/java/cse332/jazzlib/HuffmanCompressor.java:176-229 | on success the lengths are well formed for the trie; only an overflow can throw |
| HuffmanTree.Tree.BuildCodes | src/main/java/cse332/jazzlib/HuffmanCompressor.java:231-248 | succeeds iff every canonical code fits 16 bits, and then codes[i] is the bit-reversed canonical code of symbol i |
| HuffmanTree.Tree.GetEncodedLength | src/main/java/cse332/jazzlib/HuffmanCompressor.java:294-300 | the sum of freqs[i] * length[i] |
| HuffmanTree.Tree.RunLength | src/main/java/cse332/jazzlib/HuffmanCompressor.java:331-336 | the inner loop stops where RunEnd says, never lowering the count |
| HuffmanTree.Tree.CountPass | src/main/java/cse332/jazzlib/HuffmanCompressor.java:311-345 | one outer pass of calcBLFreq adds the opening symbol and the closing run's symbol counts |
| HuffmanTree.Tree.CalcBLFreq | src/main/java/cse332/jazzlib/HuffmanCompressor.java:302-347 | adds to blTree.freqs[s] exactly the number of times writeTree writes s |
| HuffmanTree.Tree.WriteClosing | src/main/java/cse332/jazzlib/HuffmanCompressor.java:386-405 | a short run is written as copies, a long one as 16/17/18 and its extra bits |
| HuffmanTree.Tree.WritePass | src/main/java/cse332/jazzlib/HuffmanCompressor.java:359-405 | one outer pass of writeTree writes the rendering of that pass's tokens |
| HuffmanTree.Tree.WriteTree | src/main/java/cse332/jazzlib/HuffmanCompressor.java:349-407 | the writes are the run-length coding of length[0..numCodes) in blTree's codes, the same coding calcBLFreq counts |
| CodeLengths.RunEndFacts | src/main/java/cse332/jazzlib/HuffmanCompressor.java:331-336 | the inner loop passes only copies of curlen, counts one per position and never counts past maxCount |
| CodeLengths.PassLens | src/main/java/cse332/jazzlib/HuffmanCompressor.java:309-336 | the positions one pass covers all hold its length, and its count is within the bound |
| CodeLengths.RunSymbolCount | src/main/java/cse332/jazzlib/HuffmanCompressor.java:338-345 | what calcBLFreq adds when closing a run is the number of times writeTree (lines 386-405) writes each symbol there |
| CodeLengths.PassCount | src/main/java/cse332/jazzlib/HuffmanCompressor.java:322-345 | a pass adds its opening and closing counts to the symbol counts of what came before |
| CodeLengths.DecodeRun | src/main/java/cse332/jazzlib/HuffmanCompressor.java:386-405 | an inflater decoding a closing run gets count copies of the length |
| CodeLengths.OpenRun | src/main/java/cse332/jazzlib/HuffmanCompressor.java:370-405 | decoding one pass (opening symbol, then the run) gives the pass's lengths |
| CodeLengths.DecodeScan | src/main/java/cse332/jazzlib/HuffmanCompressor.java:357-406 | decoding what the loop emits from position i gives length[i..numCodes) |
| CodeLengths.DecodeTokens | src/main/java/cse332/jazzlib/HuffmanCompressor.java:349-407 | decoding writeTree's stream by section 3.2.7 of RFC 1951 reproduces length[0..numCodes) |
| CodeLengths.ScanTokensOk | src/main/java/cse332/jazzlib/HuffmanCompressor.java:309-346 | every length token is 0..15 and every repeat count is in 3..6, 3..10 or 11..138 |
| CodeLengths.EmitsOk | src/main/java/cse332/jazzlib/HuffmanCompressor.java:386-405 | in-range tokens write symbols 0..18 and extra fields that fit 2, 3 or 7 bits |
| CodeLengths.TokensFit | src/main/java/cse332/jazzlib/HuffmanCompressor.java:386-405 | writeTree writes only symbols 0..18, and the extra values after 16, 17, 18 fit in 2, 3, 7 bits |
| BlockCoding.ExtraSumIsWritten | src/main/java/cse332/jazzlib/HuffmanCompressor.java:680-686 | the extra_bits total tallied for a block equals the total width of the extra fields compressBlock writes (lines 538-547) |
| BlockCoding.ExtraValuesAreRfc | src/main/java/cse332/jazzlib/HuffmanCompressor.java:538-547 | the masked values written are the offsets of the length and the distance from their symbols' RFC bases |
| BlockCoding.MatchWrites | src/main/java/cse332/jazzlib/HuffmanCompressor.java:530-548 | a match writes its length symbol, length extra bits, distance symbol, distance extra bits |
| BlockCoding.JavaByte | src/main/java/cse332/jazzlib/HuffmanCompressor.java:676 | (byte) x is in [-128, 128) and agrees with x modulo 256 |
| BlockCoding.ByteRoundTrip | src/main/java/cse332/jazzlib/HuffmanCompressor.java:528 | l_buf[i] & 0xff gives back the byte stored by lines 665 and 676 |
| BlockCoding.HistSnoc | src/main/java/cse332/jazzlib/HuffmanCompressor.java:666 | tallying one more entry bumps the literal/length frequency of its symbol and, for a match, the distance frequency of its symbol (lines 679 and 684) |
| BlockCoding.EntryWidth | src/main/java/cse332/jazzlib/HuffmanCompressor.java:526-559 | one entry writes its symbols' code lengths plus its extra bits |
| BlockCoding.EntryTally | src/main/java/cse332/jazzlib/HuffmanCompressor.java:655-688 | tallying one entry raises the encoded lengths by its symbols' code lengths |
| BlockCoding.BlockSize | src/main/java/cse332/jazzlib/HuffmanCompressor.java:606-608 | compressBlock's writes take exactly the getEncodedLength sums of the tallied frequencies plus extra_bits bits |
| BlockCoding.EofTally | src/main/java/cse332/jazzlib/HuffmanCompressor.java:587 | counting EOF adds its code length |
| BlockCoding.BlockWithEofSize | src/main/java/cse332/jazzlib/HuffmanCompressor.java:563 | with the EOF symbol counted, the estimated size is the size of what compressBlock writes |
| BlockCoding.BlOrderRange | src/main/java/cse332/jazzlib/HuffmanCompressor.java:65-66 | every BL_ORDER entry is a code-length symbol |
| BlockCoding.BlRankInverse | src/main/java/cse332/jazzlib/HuffmanCompressor.java:65-66 | BL_ORDER is a permutation of 0..18 (BL_RANK is its inverse) |
| BlockCoding.CountDownAsWritten | src/main/java/cse332/jazzlib/HuffmanCompressor.java:600-605 | from rank i down with the count so far: a count already above i is kept; from 4 the result is in [4, i + 1], never 5, no rank from 5 to i at or above the result has a length, and a result above 4 has a length just below it |
| BlockCoding.BlTreeCodesAsWritten | src/main/java/cse332/jazzlib/HuffmanCompressor.java:600-605 | blTreeCodes as the loop computes it: in [4, 19], never 5, no length at ranks 5..18 from the result on, and a length at rank result - 1 when above 4 |
| BlockCoding.CountDownAgrees | src/main/java/cse332/jazzlib/HuffmanCompressor.java:600-605 | whenever rank 4 has no length, the loop as written gives the corrected count from every rank down |
| BlockCoding.BlTreeCodesAgree | src/main/java/cse332/jazzlib/HuffmanCompressor.java:600-605 | whenever rank 4 has no length, BlTreeCodesAsWritten equals the corrected BlTreeCodes |
| BlockCoding.BlTreeCodesMissesRank4 | src/main/java/cse332/jazzlib/HuffmanCompressor.java:600-605 | the loop as written returns 4 for a code-length code whose only length at rank >= 4 is at rank 4 (symbol 8), where the intended count is 5 |
| BlockCoding.CountDown | src/main/java/cse332/jazzlib/HuffmanCompressor.java:600-605 | the corrected loop: result in [4, i + 1], no length at ranks from the result to i, and a length at rank result - 1 when above 4 |
| BlockCoding.BlTreeCodes | src/main/java/cse332/jazzlib/HuffmanCompressor.java:600-605 | blTreeCodes is the larger of 4 and 1 + the last rank with a nonzero length |
| BlockCoding.SentRanksCover | src/main/java/cse332/jazzlib/HuffmanCompressor.java:517-518 | every code-length symbol with a length is among the ranks sent |
| BlockCoding.AsWrittenRanksCover | src/main/java/cse332/jazzlib/HuffmanCompressor.java:600-605 | with the count as written, every code-length symbol with a length other than symbol 8 (rank 4) is among the ranks sent |
| BlockCoding.RankWritesAt | src/main/java/cse332/jazzlib/HuffmanCompressor.java:517-518 | the k-th 3-bit write carries the length of BL_ORDER[k] |
| BlockCoding.HeaderCarriesLengths | src/main/java/cse332/jazzlib/HuffmanCompressor.java:514-518 | with the corrected count, the header carries each nonzero code-length length at its rank |
| BlockCoding.ChooseBlock | src/main/java/cse332/jazzlib/HuffmanCompressor.java:615-647 | stored iff stored_offset >= 0 and stored_len + 4, wrapped to int, is below min(opt_len, static_len) >> 3; otherwise static iff static_len <= opt_len (a tie is static) and dynamic iff opt_len < static_len |
| BlockCoding.StoredWhenSmaller | src/main/java/cse332/jazzlib/HuffmanCompressor.java:621 | without wrap-around, the stored block is chosen exactly when 8 * (stored_len + 4) + 8 bits fit in the cheaper coded size |
| BlockCoding.StoredLengthWraps | src/main/java/cse332/jazzlib/HuffmanCompressor.java:621 | for stored_len = 2^31 - 1 the sum wraps to a negative int and the block is stored whatever the coded sizes |
| BlockCoding.TiePicksStatic | src/main/java/cse332/jazzlib/HuffmanCompressor.java:615-619 | a tie between the dynamic and the static size picks static (line 629) |
| BlockCoding.FlushWrites | src/main/java/cse332/jazzlib/HuffmanCompressor.java:621-647 | every block flushBlock writes begins with the 3-bit header of its kind with BFINAL = lastBlock; the stored copy, the static header and entries in the fixed code, or the dynamic header, trees and entries |
| BlockCoding.FlushWritesCases | src/main/java/cse332/jazzlib/HuffmanCompressor.java:621-647 | the three branches' writes are FlushWrites of the branch taken |
| BlockCoding.EstimatesOf | src/main/java/cse332/jazzlib/HuffmanCompressor.java:600-614 | opt_len and static_len computed from the built trees and the tallied frequencies with EOF meet Estimates over the entries |
| Compressor.Bump | src/main/java/cse332/jazzlib/HuffmanCompressor.java:666 | freqs[s]++ changes exactly that frequency |
| Compressor.BuiltFits | src/main/java/cse332/jazzlib/HuffmanCompressor.java:291 | the lengths buildTree leaves are valid bl_counts indexes in [0, maxLength] |
| Compressor.BuiltInRange | src/main/java/cse332/jazzlib/HuffmanCompressor.java:290-291 | a built tree's lengths are accepted by calcBLFreq, writeTree and buildCodes |
| Compressor.CodesAreCanonical | src/main/java/cse332/jazzlib/HuffmanCompressor.java:231-248 | stored codes equal to each symbol's StoredCode are the tree's canonical codes |
| Compressor.TallyStep | src/main/java/cse332/jazzlib/HuffmanCompressor.java:664-666 | storing one entry keeps the buffers, extra_bits and the frequencies in step with the entries tallied |
| Compressor.MatchStep | src/main/java/cse332/jazzlib/HuffmanCompressor.java:675-686 | the same for one match with its symbols already computed |
| Compressor.HuffmanCompressor.constructor | src/main/java/cse332/jazzlib/HuffmanCompressor.java:467-477 | three fresh trees (286/257/15, 30/1/15, 19/4/7) sharing the pending buffer, fresh buffers, no entries, and the static tables hold the fixed code |
| Compressor.HuffmanCompressor.Reset | src/main/java/cse332/jazzlib/HuffmanCompressor.java:479-485 | no entries, extra_bits 0, every frequency 0, all codes and lengths dropped |
| Compressor.HuffmanCompressor.IsFull | src/main/java/cse332/jazzlib/HuffmanCompressor.java:650-653 | true iff BUFSIZE entries are buffered |
| Compressor.HuffmanCompressor.Store | src/main/java/cse332/jazzlib/HuffmanCompressor.java:664-665 | one entry at last_lit, which moves on by one |
| Compressor.HuffmanCompressor.TallyLit | src/main/java/cse332/jazzlib/HuffmanCompressor.java:655-668 | on a full buffer it throws and changes nothing; otherwise it appends (lit, 0), bumps freqs[lit] and returns true iff the buffer is now full |
| Compressor.HuffmanCompressor.TallyDist | src/main/java/cse332/jazzlib/HuffmanCompressor.java:670-688 | any int dist: a full buffer throws and changes nothing; otherwise (short) dist and (byte)(len - 3) are stored and the length symbol and its extra bits counted, then dist outside 1..32768 throws with those updates left in place, and otherwise the distance symbol and its extra bits are counted too and the result is true iff the buffer is now full; dist 32768 is counted but its short is negative, so the buffer no longer holds valid entries |
| Compressor.HuffmanCompressor.TallyLength | src/main/java/cse332/jazzlib/HuffmanCompressor.java:675-681 | the two stores at last_lit, which moves on, then the length symbol LengthCode(len - 3) counted and its extra bits added |
| Compressor.HuffmanCompressor.TallyDistance | src/main/java/cse332/jazzlib/HuffmanCompressor.java:683-687 | d_code(dist - 1) in int arithmetic; it throws exactly for dist outside 1..32768, with nothing changed; otherwise the distance symbol is counted and its extra bits added |
| Compressor.HuffmanCompressor.WriteLength | src/main/java/cse332/jazzlib/HuffmanCompressor.java:535-540 | writes the length symbol and its extra bits |
| Compressor.HuffmanCompressor.WriteDistance | src/main/java/cse332/jazzlib/HuffmanCompressor.java:542-547 | writes the distance symbol and its extra bits |
| Compressor.HuffmanCompressor.WriteMatch | src/main/java/cse332/jazzlib/HuffmanCompressor.java:530-548 | writes one match entry |
| Compressor.HuffmanCompressor.CompressEntry | src/main/java/cse332/jazzlib/HuffmanCompressor.java:526-559 | writes entry i (literal or match) |
| Compressor.HuffmanCompressor.CompressBlock | src/main/java/cse332/jazzlib/HuffmanCompressor.java:525-569 | writes every buffered entry in order, then EOF |
| Compressor.HuffmanCompressor.CompressAndReset | src/main/java/cse332/jazzlib/HuffmanCompressor.java:636-637 | the entries, EOF, then the reset state |
| Compressor.HuffmanCompressor.FlushStoredBlock | src/main/java/cse332/jazzlib/HuffmanCompressor.java:571-583 | writes the header, alignment, LEN, NLEN = ~LEN and the bytes, then resets |
| Compressor.HuffmanCompressor.CountBlTreeCodes | src/main/java/cse332/jazzlib/HuffmanCompressor.java:600-605 | the loop as written, `i > blTreeCodes`: the count BlTreeCodesAsWritten |
| Compressor.HuffmanCompressor.StaticLength | src/main/java/cse332/jazzlib/HuffmanCompressor.java:610-614 | extra_bits plus each symbol's count times its fixed length |
| Compressor.HuffmanCompressor.FlushStatic | src/main/java/cse332/jazzlib/HuffmanCompressor.java:629-638 | the static header, the entries in the fixed codes, EOF, then reset |
| Compressor.HuffmanCompressor.WriteRanks | src/main/java/cse332/jazzlib/HuffmanCompressor.java:517-518 | 3 bits per rank for the first n ranks |
| Compressor.HuffmanCompressor.BuildAllCodes | src/main/java/cse332/jazzlib/HuffmanCompressor.java:511-513 | the three buildCodes calls; success iff all three trees' codes fit |
| Compressor.HuffmanCompressor.WriteHeader | src/main/java/cse332/jazzlib/HuffmanCompressor.java:514-518 | HLIT, HDIST, HCLEN and the code-length code lengths |
| Compressor.HuffmanCompressor.WriteAllTrees | src/main/java/cse332/jazzlib/HuffmanCompressor.java:514-520 | the header, then both trees in the code-length code |
| Compressor.HuffmanCompressor.SendAllTrees | src/main/java/cse332/jazzlib/HuffmanCompressor.java:510-523 | nothing is written if a buildCodes throws; otherwise the header and both trees with canonical codes |
| Compressor.HuffmanCompressor.BuildLitDist | src/main/java/cse332/jazzlib/HuffmanCompressor.java:587-591 | EOF counted, both trees built or an overflow thrown |
| Compressor.HuffmanCompressor.CountBlFreqs | src/main/java/cse332/jazzlib/HuffmanCompressor.java:594-595 | blTree.freqs counts the symbols of both trees' code-length codings |
| Compressor.HuffmanCompressor.PrepareTrees | src/main/java/cse332/jazzlib/HuffmanCompressor.java:587-598 | EOF counted, all three trees built over those frequencies |
| Compressor.HuffmanCompressor.Sizes | src/main/java/cse332/jazzlib/HuffmanCompressor.java:600-614 | blTreeCodes as the loop computes it, opt_len and static_len by their formulas over the trees' frequencies and lengths |
| Compressor.HuffmanCompressor.FlushDynamic | src/main/java/cse332/jazzlib/HuffmanCompressor.java:639-647 | the dynamic header, the trees, the entries and EOF, then reset; a buildCodes that throws leaves only the header written |
| Compressor.HuffmanCompressor.SendAndCompress | src/main/java/cse332/jazzlib/HuffmanCompressor.java:644-646 | sendAllTrees, compressBlock, reset |
| Compressor.HuffmanCompressor.FlushBuilt | src/main/java/cse332/jazzlib/HuffmanCompressor.java:600-648 | the dynamic trees with the as-written count, opt_len and static_len over the built trees, the block ChooseBlock picks and exactly its writes, then the reset state |
| Compressor.HuffmanCompressor.FlushBlock | src/main/java/cse332/jazzlib/HuffmanCompressor.java:585-648 | on success: the three trees built over the tallied frequencies plus EOF (tries and lengths), opt_len and static_len as the formulas with the as-written count, the block ChooseBlock picks and exactly its writes, the buffer reset; failures are only the two index exceptions |
| JavaInts.Int32 | src/main/java/cse332/jazzlib/OurDeflaterEngine.java:134 | int arithmetic wraps to 32 bits and leaves int values alone |
| JavaInts.SumWraps | src/main/java/cse332/jazzlib/OurDeflaterEngine.java:134 | a sum of two ints leaving the int range wraps by exactly 2^32 |
| JavaInts.ToShort | src/main/java/cse332/jazzlib/HuffmanCompressor.java:675 | (short) x is in [-32768, 32768) |
| DeflaterEngine.SliceCheck | src/main/java/cse332/jazzlib/OurDeflaterEngine.java:134-140 | the check rejects exactly the slices not inside the array, wrap-around included |
| DeflaterEngine.OurDeflaterEngine.constructor | src/main/java/cse332/jazzlib/OurDeflaterEngine.java:67-74 | an empty 1024-slot lookahead queue, a fresh compressor on the same pending buffer, no input |
| DeflaterEngine.OurDeflaterEngine.NeedsInput | src/main/java/cse332/jazzlib/OurDeflaterEngine.java:146-148 | true iff no input is left |
| DeflaterEngine.OurDeflaterEngine.SetInput | src/main/java/cse332/jazzlib/OurDeflaterEngine.java:129-145 | throws IllegalState while input is left, before any bounds check; otherwise throws exactly for slices outside the array; on failure nothing changes; on success inputOff = off, inputEnd = off + len |
| DeflaterEngine.OurDeflaterEngine.TakeByte | src/main/java/cse332/jazzlib/OurDeflaterEngine.java:114 | appends the next input byte to the lookahead queue |
| DeflaterEngine.OurDeflaterEngine.FillLookahead | src/main/java/cse332/jazzlib/OurDeflaterEngine.java:111-118 | moves min(room, input left) bytes in order into the lookahead queue; stops only when full or out of input; checksums exactly those bytes; canFlush iff flush and the input is used up |
| DeflaterEngine.OurDeflaterEngine.BlockArgs | src/main/java/cse332/jazzlib/OurDeflaterEngine.java:99-100 | lastBlock iff finish and the lookahead queue is empty; the stored length in int arithmetic |
| DeflaterEngine.OurDeflaterEngine.FlushFull | src/main/java/cse332/jazzlib/OurDeflaterEngine.java:97-103 | one match-finder reset; lastBlock iff finish and the lookahead queue is empty; on success the sizes as Estimates, the block ChooseBlock picks from them with the int stored length, exactly FlushWrites of it, the compressor reset, blockStart set to inputOff - blockStart + buf.size() in int arithmetic, and !lastBlock returned; the lookahead queue and input untouched |
| DeflaterEngine.OurDeflaterEngine.FlushHuffman | src/main/java/cse332/jazzlib/OurDeflaterEngine.java:100-102 | flushBlock(inputBuf, blockStart, storedLen, lastBlock) with the same sizes, choice and writes, and blockStart = storedLen after it |
| CircularQueue.ModIsWrap | src/main/java/datastructures/worklists/CircularArrayFIFOQueue.java:34 | the queue's % on indexes below twice the capacity is one conditional subtraction |
| CircularQueue.WindowAt | src/main/java/datastructures/worklists/CircularArrayFIFOQueue.java:55 | element i of the contents is in slot (front + i) % length |
| CircularQueue.WindowAppend | src/main/java/datastructures/worklists/CircularArrayFIFOQueue.java:34-35 | writing slot (front + size) % length and growing size appends to the contents |
| CircularQueue.WindowUpdate | src/main/java/datastructures/worklists/CircularArrayFIFOQueue.java:88 | writing slot (front + i) % length replaces element i only |
| CircularQueue.WindowAdvance | src/main/java/datastructures/worklists/CircularArrayFIFOQueue.java:69-71 | advancing front modulo the length drops the first element |
| CircularQueue.CircularArrayFIFOQueue.constructor | src/main/java/datastructures/worklists/CircularArrayFIFOQueue.java:16-25 | an empty queue of the given capacity |
| CircularQueue.CircularArrayFIFOQueue.IsFull | src/main/java/datastructures/worklists/CircularArrayFIFOQueue.java:29 | true iff the queue holds capacity elements |
| CircularQueue.CircularArrayFIFOQueue.HasWork | src/main/java/datastructures/worklists/CircularArrayFIFOQueue.java:13 | true iff some element is waiting |
| CircularQueue.CircularArrayFIFOQueue.Size | src/main/java/datastructures/worklists/CircularArrayFIFOQueue.java:99-103 | the number of elements |
| CircularQueue.CircularArrayFIFOQueue.Add | src/main/java/datastructures/worklists/CircularArrayFIFOQueue.java:27-39 | a full queue throws IllegalState and changes nothing; otherwise work is appended, in slot (front + size) % capacity |
| CircularQueue.CircularArrayFIFOQueue.PeekAt | src/main/java/datastructures/worklists/CircularArrayFIFOQueue.java:47-63 | empty: NoSuchElement; i outside [0, size): IndexOutOfBounds; else the i-th element from the front |
| CircularQueue.CircularArrayFIFOQueue.Peek | src/main/java/datastructures/worklists/CircularArrayFIFOQueue.java:41-45 | the oldest element, or NoSuchElement |
| CircularQueue.CircularArrayFIFOQueue.Next | src/main/java/datastructures/worklists/CircularArrayFIFOQueue.java:65-79 | removes and returns the oldest element (FIFO); empty: NoSuchElement and no change |
| CircularQueue.CircularArrayFIFOQueue.Update | src/main/java/datastructures/worklists/CircularArrayFIFOQueue.java:81-97 | the errors of peek(i), without change; else element i replaced, the others kept, value returned |
| CircularQueue.CircularArrayFIFOQueue.Clear | src/main/java/datastructures/worklists/CircularArrayFIFOQueue.java:105-111 | a fresh array, size 0, front 0, same capacity |
| ListQueue.Node.Sentinel | src/main/java/datastructures/worklists/ListFIFOQueue.java:131-135 | a node without links |
| ListQueue.Node.constructor | src/main/java/datastructures/worklists/ListFIFOQueue.java:138-142 | a data node without links |
| ListQueue.ListFIFOQueue.constructor | src/main/java/datastructures/worklists/ListFIFOQueue.java:21-29 | head and tail sentinels linked both ways, size 0 |
| ListQueue.ListFIFOQueue.LinkBeforeTail | src/main/java/datastructures/worklists/ListFIFOQueue.java:40-51 | the new node goes between the last node and the tail, and the next/prev links still mirror each other |
| ListQueue.ListFIFOQueue.Add | src/main/java/datastructures/worklists/ListFIFOQueue.java:31-53 | the element is appended before the tail and size goes up by one; after clear it is linked but not offered |
| ListQueue.ListFIFOQueue.Peek | src/main/java/datastructures/worklists/ListFIFOQueue.java:55-68 | the first element; NoSuchElement when empty or cleared |
| ListQueue.ListFIFOQueue.Next | src/main/java/datastructures/worklists/ListFIFOQueue.java:70-92 | removes and returns the first element, size down by one; empty: NoSuchElement; after clear: NullPointer |
| ListQueue.ListFIFOQueue.Size | src/main/java/datastructures/worklists/ListFIFOQueue.java:94-98 | the size field, which counts the data nodes between the sentinels until clear |
| ListQueue.ListFIFOQueue.Clear | src/main/java/datastructures/worklists/ListFIFOQueue.java:100-109 | head null, size 0, the nodes left linked |
| ListQueue.ListFIFOQueue.HasWork | src/main/java/datastructures/worklists/ListFIFOQueue.java:111-117 | true iff clear has not been called, however many elements there are |

## Left out

- LZ77Compressor and the match finding in `deflateSlow`'s loop (lines 93-95 of OurDeflaterEngine.java): the suffix trie it drives is not part of this model. Only the `lz77.reset()` of the full-buffer branch is kept, as a counter.
- The `do ... while (pending.isFlushed() && progress)` loop of `deflate` and its final `flushBlock` (lines 121-125): `DeflaterPending.isFlushed` is not part of this model. The pass inside the loop is modelled (`FillLookahead`, `FlushFull`).
- `OurDeflaterEngine.reset`, `resetAdler` and `getAdler`: they only delegate to Adler32 and LZ77Compressor, which are not part of this model.
- Adler32: the checksum is the sequence of bytes passed to `adler.update`, not the Adler-32 value.
- DeflaterPending: kept as the log of its calls, not as bytes. The bit packing and `isFlushed` are not modelled.
- DeflaterEngine.OurDeflaterEngine.FlushFull: the new `blockStart` is stated as the source computes it (`inputOff - blockStart + buf.size()` in int arithmetic). It is not claimed that stored blocks hold the right bytes, because the source's arithmetic there does not track a position.
- DeflaterEngine.OurDeflaterEngine.FlushFull: does not restate the trees flushBlock builds (their tries and code lengths). `Compressor.HuffmanCompressor.FlushBlock` states them through `TreesBuilt`; the engine carries the sizes, the choice and the writes.
- Compressor.HuffmanCompressor.TallyDist: `len` is required to lie in 3..258, the match lengths of section 3.2.5 of RFC 1951. Its only caller, `LZ77Compressor.findNextMatch` (lines 44-46 of LZ77Compressor.java), passes a match size above 2 from a suffix trie built with `MAX_MATCH_LENGTH = 257` (lines 16 and 19); the trie is not part of this model. `dist` may be any int.
- BlockCoding.ChooseBlock: `opt_len` and `static_len` are unbounded integers, not wrapped to int. For at most 16384 buffered entries they stay far below 2^31.
- Compressor.HuffmanCompressor.FlushBlock: on an exception it states only which exception, not the partially updated trees Java leaves behind.
- HuffmanTree.Tree.Redistribute: states that the total of `bl_counts` is kept, not which buckets change. The overflow path is not claimed to give a complete prefix code (Kraft equality): the redistribution's arithmetic is not part of what is proved.
- HuffmanTree.Tree.BuildLength: after an overflow it promises range, ordering and count preservation only, as above.
- BlockCoding.DynamicLen: opt_len is the source's estimate. It leaves out the extra bits of the repeat codes 16/17/18 and the 3 header bits, so it is not claimed to equal the width of a dynamic block.
- `& ((1 << bits) - 1)` in `compressBlock` is modelled as `% 2^bits`, which is the same for the nonnegative values it is applied to.
- Unshown constants, taken from jazzlib's DeflaterConstants:
  - `BUFSIZE = 1 << (8 + 6) = 16384`;
  - `STORED_BLOCK = 0`, `STATIC_TREES = 1`, `DYN_TREES = 2`.
- The lookahead queue's capacity of 1024 is hard-coded at line 70 of OurDeflaterEngine.java. The LZ77 window (`DeflaterConstants.BUFFER_LENGTH`, line 73) is not part of this model.
- `java.util.PriorityQueue`'s tie-breaking is unspecified. The model takes the first lightest tree in queue order and appends new nodes at the back. Huffman optimality is not claimed.
- `HashTrieMap` is not part of this model. The trie is a datatype, iterated with the zero branch before the one branch, and `find(k)` is the symbol at the key's leaf.
- `FixedSizeFIFOWorkList.isFull`/`capacity` and `WorkList.hasWork` are not part of this model. They are taken as `size == capacity`, the constructor's capacity and `size > 0`.
- `CircularArrayFIFOQueue.compareTo`, `equals` and `hashCode` throw NotYetImplementedException and are not modelled.
- `DeflaterConstants.DEBUGGING` output, `checkEmpty` and `System.err` printing are not modelled.
- Java narrowing casts to `byte`/`short` are modelled by bounded values: `JavaByte`, `ToShort`, 16-bit codes as `bv16`. Code lengths are kept as `int`.
- The engine's initial `inputBuf == null` is modelled as the empty array. Only the fill loop (line 114) reads its bytes, and that loop is guarded by `inputOff < inputEnd`, which is then false. The array is passed on in two other places:
  - `adler.update` (line 117) gets it with `numNew = 0`, and the model's checksum then appends the empty slice;
  - `flushBlock` (lines 100 and 124) gets it only as the source of a stored block, named by offset and length. The model logs that block as `Block(offset, len)` and does not read the bytes.
- `ListFIFOQueue.Node`'s getters and setters are written as field accesses.
- `BitString`'s storage (`BString`) is not part of this model. The bits are a `seq<bool>` and `str.peek(i)` is indexing.

## Findings

| source | as written | input that shows it | evidently intended | confidence | as-written member | corrected member |
|---|---|---|---|---|---|---|
| src/main/java/cse332/jazzlib/HuffmanCompressor.java:601 | `for (int i = 18; i > blTreeCodes; i--)` stops before rank 4, so a nonzero length at rank 4 (symbol 8) is never seen | code-length lengths 1 for symbol 0 and 2 for symbols 8 and 18: the loop returns 4 and the header sends ranks 0..3 only, dropping symbol 8's length although symbol 8 has a code | `i >= blTreeCodes` (HCLEN + 4 covers the last rank with a length, section 3.2.7 of RFC 1951) | high, not executed | BlockCoding.BlTreeCodesMissesRank4 | BlockCoding.HeaderCarriesLengths |

The compressor and the engine follow the loop as written (`BlockCoding.BlTreeCodesAsWritten`, used by `CountBlTreeCodes`, `Sizes`, `FlushBlock` and `FlushFull`). The corrected count `BlockCoding.BlTreeCodes` and `HeaderCarriesLengths` stand beside it, and `BlTreeCodesAgree` shows the two agree whenever symbol 8 has no length.
