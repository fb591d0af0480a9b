/** Fixed-width integers as ranges of integers, their casts, and truncating division. */
module Machine {

  const TWO63: int := 0x8000_0000_0000_0000
  const TWO64: int := 0x1_0000_0000_0000_0000

  type byte = n: int | 0 <= n < 256
  type u32 = n: int | 0 <= n < 0x1_0000_0000
  type u64 = n: int | 0 <= n < TWO64
  type i64 = n: int | -TWO63 <= n < TWO63

  predicate IsInt64(n: int) {
    -TWO63 <= n < TWO63
  }

  function AsU32(n: int): u32 {
    n % 0x1_0000_0000
  }

  function AsI32(n: int): int {
    (n + 0x8000_0000) % 0x1_0000_0000 - 0x8000_0000
  }

  /** A wrapping result, or a cast to u64. */
  function Wrap(n: int): u64 {
    n % TWO64
  }

  lemma WrapWord(n: u64)
    ensures Wrap(n) == n
  {
  }

  /** A cast of a u64 to i64. */
  function AsI64(n: u64): i64 {
    if n < TWO63 then n else n - TWO64
  }

  /** A cast of an i64 to u64: the two's complement word. */
  function AsU64(n: i64): u64 {
    if n < 0 then n + TWO64 else n
  }

  /** Division as C, Go and Rust perform it on signed integers: truncated toward zero. */
  function Quotient(a: int, b: int): int
    requires b > 0
  {
    if a >= 0 then a / b else -(-a / b)
  }
}
