/** Powers of two and the 16-bit bit reversal that the Huffman coder applies
    to every canonical code, so that codes can be written least significant
    bit first (HuffmanCompressor.bitReverse). */
module Bits {
  import opened JavaErrors

  function Pow2(n: nat): (r: nat)
    ensures r >= 1
  {
    if n == 0 then 1 else 2 * Pow2(n - 1)
  }

  lemma {:induction false} Pow2Add(a: nat, b: nat)
    ensures Pow2(a + b) == Pow2(a) * Pow2(b)
  {
    if a > 0 {
      Pow2Add(a - 1, b);
      var p: int, q: int := Pow2(a - 1), Pow2(b);
      assert Pow2(a + b) == 2 * (p * q);
      assert Pow2(a) == 2 * p;
      DoubleMul(p, q);
    }
  }

  lemma DoubleMul(p: int, q: int)
    ensures (2 * p) * q == 2 * (p * q)
  {
  }

  lemma Pow2Succ(e: nat)
    ensures Pow2(e + 1) == 2 * Pow2(e)
  {
  }

  lemma {:induction false} Pow2Monotone(a: nat, b: nat)
    requires a <= b
    ensures Pow2(a) <= Pow2(b)
  {
    if a < b {
      Pow2Monotone(a, b - 1);
    }
  }

  /** The string constant bit4Reverse: entry x is the 4-bit mirror image of x. */
  const Bit4Reverse: seq<bv16> := [0, 8, 4, 12, 2, 10, 6, 14, 1, 9, 5, 13, 3, 11, 7, 15]

  function Nibble(x: bv16): bv16
    requires x < 16
  {
    Bit4Reverse[x as int]
  }

  /** Four nibbles placed from the most significant down. */
  function Join(a: bv16, b: bv16, c: bv16, d: bv16): bv16
  {
    (a << 12) | (b << 8) | (c << 4) | d
  }

  /** Table-driven reversal, nibble by nibble, as the Java code computes it. */
  function Reverse16(v: bv16): bv16
  {
    Join(Nibble(v & 0xf), Nibble((v >> 4) & 0xf), Nibble((v >> 8) & 0xf), Nibble(v >> 12))
  }

  /** The same reversal written with masks and shifts only, which the
      verifier can reason about bit by bit. */
  function Mirror4(x: bv16): bv16
  {
    ((x & 1) << 3) | ((x & 2) << 1) | ((x & 4) >> 1) | ((x & 8) >> 3)
  }

  function Mirror16(v: bv16): bv16
  {
    Join(Mirror4(v & 0xf), Mirror4((v >> 4) & 0xf), Mirror4((v >> 8) & 0xf), Mirror4(v >> 12))
  }

  lemma NibbleIsMirror(x: bv16)
    requires x < 16
    ensures Nibble(x) == Mirror4(x)
  {
  }

  lemma ReverseIsMirror(v: bv16)
    ensures Reverse16(v) == Mirror16(v)
  {
    NibbleIsMirror(v & 0xf);
    NibbleIsMirror((v >> 4) & 0xf);
    NibbleIsMirror((v >> 8) & 0xf);
    NibbleIsMirror(v >> 12);
  }

  /** bitReverse(value).  The lookup charAt(value >> 12) leaves the 16-entry
      table (StringIndexOutOfBoundsException) unless 0 <= value < 65536;
      the low three lookups are masked and never fail.  The short result is
      kept as its 16-bit pattern, which is what every reader of the codes
      uses (codes[code] & 0xffff). */
  function BitReverse(value: int): (r: Result<bv16>)
    ensures r.Ok? <==> 0 <= value < 65536
  {
    if 0 <= value < 65536 then Ok(Reverse16(value as bv16))
    else Fail(StringIndexOutOfBounds)
  }

  lemma MirrorInvolutive(v: bv16)
    ensures Mirror16(Mirror16(v)) == v
  {
  }

  lemma MirrorMovesBits(v: bv16, j: bv16)
    requires j < 16
    ensures (Mirror16(v) >> j) & 1 == (v >> (15 - j)) & 1
  {
  }

  lemma MirrorFits(v: bv16, len: bv16)
    requires 1 <= len <= 15 && v & ((1 << (16 - len)) - 1) == 0
    ensures Mirror16(v) < (1 << len)
  {
  }

  /** Bit j of the result is bit 15 - j of the argument. */
  lemma BitReverseMovesBits(value: int, j: bv16)
    requires 0 <= value < 65536 && j < 16
    ensures (BitReverse(value).value >> j) & 1 == ((value as bv16) >> (15 - j)) & 1
  {
    ReverseIsMirror(value as bv16);
    MirrorMovesBits(value as bv16, j);
  }

  /** Reversing the 16-bit result once more gives back the original value. */
  lemma BitReverseInvolutive(value: int)
    requires 0 <= value < 65536
    ensures BitReverse(BitReverse(value).value as int) == Ok(value as bv16)
  {
    var w := BitReverse(value).value;
    assert (w as int) as bv16 == w;
    ReverseIsMirror(value as bv16);
    ReverseIsMirror(w);
    MirrorInvolutive(value as bv16);
  }

  /** A code left-aligned in 16 bits with its low 16 - len bits clear comes
      out of the reversal below 2^len, so a write of len bits loses nothing. */
  lemma ReversedCodeFits(value: int, len: bv16)
    requires 0 <= value < 65536 && 1 <= len <= 15
    requires (value as bv16) & ((1 << (16 - len)) - 1) == 0
    ensures BitReverse(value).value < (1 << len)
  {
    ReverseIsMirror(value as bv16);
    MirrorFits(value as bv16, len);
  }
}
