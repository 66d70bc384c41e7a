/** BitString: a sequence of booleans used as a path key in the Huffman trie.
    get() reads it as a binary number whose first bit is the most
    significant; toString() spells it with '0' and '1'. */
module BitStrings {
  import opened Bits
  import opened JavaInts

  /** The value of a bit sequence, first bit most significant. */
  function Value(s: seq<bool>): (r: nat)
    ensures r < Pow2(|s|)
  {
    if |s| == 0 then 0 else (if s[0] then Pow2(|s| - 1) else 0) + Value(s[1..])
  }

  /** The int 1 << k: Java uses only the low five bits of k, and 1 << 31 is
      the negative int -2^31. */
  function IntShiftOne(k: nat): int
  {
    if k % 32 == 31 then -0x8000_0000 else Pow2(k % 32)
  }

  /** What get() adds up before the short narrowing: bit i contributes
      1 << (n - i - 1). */
  function ShiftedSum(s: seq<bool>): int
  {
    if |s| == 0 then 0 else (if s[0] then IntShiftOne(|s| - 1) else 0) + ShiftedSum(s[1..])
  }

  /** The narrowing keeps the value modulo 2^16. */
  lemma ToShortCongruent(x: int)
    ensures (ToShort(x) - x) % 65536 == 0
  {
  }

  lemma ToShortAdd(x: int, c: int)
    ensures ToShort(ToShort(x) + c) == ToShort(x + c)
  {
    var k := (x + 32768) / 65536;
    assert ToShort(x) == x - 65536 * k;
    assert (ToShort(x) + c + 32768) % 65536 == (x + c + 32768 - 65536 * k) % 65536;
    ModShift(x + c + 32768, k);
  }

  lemma ModShift(a: int, k: int)
    ensures (a - 65536 * k) % 65536 == a % 65536
  {
  }

  lemma ToShortSmall(x: int)
    requires -32768 <= x < 32768
    ensures ToShort(x) == x
  {
  }

  /** get(): the loop runs from the last bit to the first. */
  method Get(str: seq<bool>) returns (result: int)
    ensures result == ToShort(ShiftedSum(str))
  {
    result := 0;
    var i := |str| - 1;
    while i >= 0
      invariant -1 <= i < |str|
      invariant result == ToShort(ShiftedSum(str[i + 1..]))
    {
      var add := if str[i] then IntShiftOne(|str| - i - 1) else 0;
      assert ToShort(result + add) == ToShort(ShiftedSum(str[i..])) by {
        SumStep(str, i);
        ToShortAdd(ShiftedSum(str[i + 1..]), add);
      }
      result := ToShort(result + add);
      i := i - 1;
    }
    assert str[0..] == str;
  }

  /** Bit i adds its shifted one to the sum of the bits after it. */
  lemma SumStep(str: seq<bool>, i: int)
    requires 0 <= i < |str|
    ensures ShiftedSum(str[i..]) == (if str[i] then IntShiftOne(|str| - i - 1) else 0) + ShiftedSum(str[i + 1..])
  {
    assert str[i..][1..] == str[i + 1..];
  }

  /** Below 31 bits no shift wraps, so the sum is the binary value. */
  lemma {:induction false} ShiftedSumIsValue(s: seq<bool>)
    requires |s| <= 31
    ensures ShiftedSum(s) == Value(s)
  {
    if |s| > 0 {
      ShiftedSumIsValue(s[1..]);
      ShiftOneSmall(|s| - 1);
    }
  }

  lemma ShiftOneSmall(k: nat)
    requires k < 31
    ensures IntShiftOne(k) == Pow2(k)
  {
    assert k % 32 == k;
  }

  /** For at most 15 bits, get() returns exactly the binary value, which
      is below 2^n and so fits a short without change. */
  lemma GetIsValue(s: seq<bool>)
    requires |s| <= 15
    ensures ToShort(ShiftedSum(s)) == Value(s) < Pow2(|s|)
  {
    ShiftedSumIsValue(s);
    Pow2Monotone(|s|, 15);
    assert Pow2(15) == 32768 by { assert Pow2(8) == 256; }
    ToShortSmall(Value(s));
  }

  /** The all-false sequence reads as 0. */
  lemma {:induction false} AllFalseIsZero(s: seq<bool>)
    requires forall i :: 0 <= i < |s| ==> !s[i]
    ensures ShiftedSum(s) == 0 && Value(s) == 0
  {
    if |s| > 0 {
      AllFalseIsZero(s[1..]);
    }
  }

  /** One more bit at the end shifts the value left: the key of a child is
      the key of its parent doubled, plus the branch taken. */
  lemma {:induction false} ValueAppend(s: seq<bool>, b: bool)
    ensures Value(s + [b]) == 2 * Value(s) + (if b then 1 else 0)
  {
    if |s| > 0 {
      assert (s + [b])[1..] == s[1..] + [b];
      ValueAppend(s[1..], b);
    } else {
      assert (s + [b])[1..] == [];
    }
  }

  /** Equal-length sequences with equal values are equal. */
  lemma {:induction false} ValueInjective(s: seq<bool>, t: seq<bool>)
    requires |s| == |t| && Value(s) == Value(t)
    ensures s == t
  {
    if |s| > 0 {
      ValueInjective(s[1..], t[1..]);
      assert s == [s[0]] + s[1..];
      assert t == [t[0]] + t[1..];
    }
  }

  function Digit(b: bool): char
  {
    if b then '1' else '0'
  }

  /** toString(): one character per bit, appended front to back. */
  method ToString(str: seq<bool>) returns (r: string)
    ensures |r| == |str|
    ensures forall i :: 0 <= i < |str| ==> (r[i] == '1' <==> str[i]) && (r[i] == '0' <==> !str[i])
  {
    r := [];
    var i := 0;
    while i < |str|
      invariant 0 <= i <= |str| && |r| == i
      invariant forall k :: 0 <= k < i ==> r[k] == Digit(str[k])
    {
      r := r + [Digit(str[i])];
      i := i + 1;
    }
  }

  /** Reading a '0'/'1' string back into bits. */
  function ParseBits(t: string): (r: seq<bool>)
    ensures |r| == |t|
  {
    if |t| == 0 then [] else [t[0] == '1'] + ParseBits(t[1..])
  }

  /** The string toString() produces determines the bits it came from. */
  lemma {:induction false} ParseInvertsToString(str: seq<bool>, r: string)
    requires |r| == |str|
    requires forall i :: 0 <= i < |str| ==> (r[i] == '1' <==> str[i])
    ensures ParseBits(r) == str
  {
    if |r| > 0 {
      ParseInvertsToString(str[1..], r[1..]);
      assert str == [str[0]] + str[1..];
    }
  }
}
