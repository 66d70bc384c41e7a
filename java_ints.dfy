/** Java's fixed-width integers: int arithmetic wraps to 32 bits, and a
    cast to short keeps the low 16 bits. */
module JavaInts {
  /** A Java int. */
  predicate IsInt(x: int)
  {
    -0x8000_0000 <= x < 0x8000_0000
  }

  /** The Java int that an int expression of mathematical value x yields:
      x wrapped to 32 bits. */
  function Int32(x: int): (r: int)
    ensures IsInt(r)
    ensures IsInt(x) ==> r == x
  {
    (x + 0x8000_0000) % 0x1_0000_0000 - 0x8000_0000
  }

  /** The sum of two Java ints wraps by 2^32 exactly when it leaves the
      int range. */
  lemma SumWraps(a: int, b: int)
    requires IsInt(a) && IsInt(b)
    ensures a + b >= 0x8000_0000 ==> Int32(a + b) == a + b - 0x1_0000_0000
    ensures a + b < -0x8000_0000 ==> Int32(a + b) == a + b + 0x1_0000_0000
  {
    var x := a + b + 0x8000_0000;
    if a + b >= 0x8000_0000 {
      assert 0x1_0000_0000 <= x < 2 * 0x1_0000_0000;
      assert x % 0x1_0000_0000 == x - 0x1_0000_0000;
    } else if a + b < -0x8000_0000 {
      assert -0x1_0000_0000 <= x < 0;
      assert x % 0x1_0000_0000 == x + 0x1_0000_0000;
    }
  }

  /** Java's narrowing of an int to a short: the value is taken modulo 2^16
      into [-32768, 32768). */
  function ToShort(x: int): (r: int)
    ensures -32768 <= r < 32768
  {
    (x + 32768) % 65536 - 32768
  }
}
