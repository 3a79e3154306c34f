/** The C++ integers that wrap or overflow: int and size_t. */
module Integers {
  const INT_MIN: int := -0x8000_0000
  const INT_MAX: int := 0x7fff_ffff
  const SIZE_MODULUS: nat := 0x1_0000_0000_0000_0000

  /** An int converted to size_t. */
  function ToSize(n: int): (s: int)
    ensures n >= INT_MIN ==> s >= 0
  {
    if n >= 0 then n else n + SIZE_MODULUS
  }

  /** A size_t converted to int. */
  function ToInt(n: nat): (k: int)
    ensures INT_MIN <= k <= INT_MAX
  {
    var k := n % 0x1_0000_0000;
    if k <= INT_MAX then k else k - 0x1_0000_0000
  }

  /** Both conversions keep the value modulo the width of the target, which leaves one value in its range. */
  lemma Converted(n: int, k: nat)
    requires -0x8000_0000 <= n <= 0x7fff_ffff
    ensures 0 <= ToSize(n) < 0x1_0000_0000_0000_0000 && (ToSize(n) - n) % 0x1_0000_0000_0000_0000 == 0
    ensures -0x8000_0000 <= ToInt(k) <= 0x7fff_ffff && (k - ToInt(k)) % 0x1_0000_0000 == 0
    ensures k <= 0x7fff_ffff ==> ToInt(k) == k
  {
  }
}
