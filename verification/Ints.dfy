/** Go's sized integers, and division of unbounded ones. */
module Ints {
  newtype byte = x: int | 0 <= x < 0x100
  newtype int32 = x: int | -0x8000_0000 <= x < 0x8000_0000
  newtype uint32 = x: int | 0 <= x < 0x1_0000_0000
  newtype int64 = x: int | -0x8000_0000_0000_0000 <= x < 0x8000_0000_0000_0000

  const UINT32_SIZE: int := 0x1_0000_0000

  function Least(a: int, b: int): int { if a <= b then a else b }

  /** a + b on uint32, which wraps. */
  function AddUint32(a: uint32, b: uint32): uint32 {
    ((a as int + b as int) % UINT32_SIZE) as uint32
  }

  /** Quotient and remainder are unique. */
  lemma Quotient(n: nat, m: nat, q: nat, r: nat)
    requires n == m * q + r && r < m
    ensures n / m == q && n % m == r
  {
    var k: int := n / m - q;
    assert m * k == r - n % m by {
      assert m * k == m * (n / m) - m * q;
    }
    if k >= 1 {
    } else if k <= -1 {
    }
  }
}
