/** Fixed-width unsigned arithmetic as the C code performs it on `u32` and `u8`
    values: every store into a `u32` reduces modulo 2^32. */
module FixedWidth {

  const U32_LIMIT: int := 0x1_0000_0000

  type u32 = x: int | 0 <= x < U32_LIMIT
  type u8 = x: int | 0 <= x < 0x100

  /** 2^n, the value of `1 << n` before any truncation. */
  function Pow2(n: nat): (r: nat)
    ensures r > 0
  {
    if n == 0 then 1 else 2 * Pow2(n - 1)
  }

  lemma {:induction false} Pow2Monotone(m: nat, n: nat)
    requires m <= n
    ensures Pow2(m) <= Pow2(n)
  {
    if m < n {
      Pow2Monotone(m, n - 1);
    }
  }

  /** Truncation to 32 bits. */
  function Wrap32(x: int): (r: u32)
    ensures 0 <= x < U32_LIMIT ==> r == x
  {
    x % U32_LIMIT
  }

  /** Incrementing a truncated value truncates like incrementing the value. */
  lemma Wrap32Succ(x: nat)
    ensures Wrap32(Wrap32(x) + 1) == Wrap32(x + 1)
  {
  }

  /** `a + b` on u32. */
  function Add32(a: u32, b: u32): (r: u32)
    ensures a + b < U32_LIMIT ==> r == a + b
    ensures a + b >= U32_LIMIT ==> r == a + b - U32_LIMIT
  {
    Wrap32(a + b)
  }

  /** `a - b` on u32. */
  function Sub32(a: u32, b: u32): (r: u32)
    ensures b <= a ==> r == a - b
    ensures a < b ==> r == a - b + U32_LIMIT
  {
    Wrap32(a - b)
  }

  /** `a * b` on u32. */
  function Mul32(a: u32, b: u32): (r: u32)
    ensures a * b < U32_LIMIT ==> r == a * b
  {
    Wrap32(a * b)
  }

  /** `a << n` on u32. */
  function Shl32(a: u32, n: nat): (r: u32)
    requires n < 32
    ensures a * Pow2(n) < U32_LIMIT ==> r == a * Pow2(n)
  {
    Wrap32(a * Pow2(n))
  }

  function Min(a: u32, b: u32): (r: u32)
    ensures r <= a && r <= b && (r == a || r == b)
  {
    if a <= b then a else b
  }

  function Max(a: u32, b: u32): (r: u32)
    ensures r >= a && r >= b && (r == a || r == b)
  {
    if a >= b then a else b
  }
}
