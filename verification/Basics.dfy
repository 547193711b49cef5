/** What several modules share: optional values, hashes and 64-bit arithmetic. */
module Basics {
  datatype Option<+T> = None | Some(value: T)

  /** A 32-byte hash; 0 stands for the zero hash. */
  type Hash = nat

  const MAX_UINT64: nat := 0xFFFF_FFFF_FFFF_FFFF
  const TWO64: int := 0x1_0000_0000_0000_0000
  const TWO63: int := 0x8000_0000_0000_0000

  type Uint64 = x: nat | x <= MAX_UINT64

  /** A 64-bit unsigned value as a signed one. */
  function AsInt64(n: Uint64): int {
    if n < TWO63 then n else n - TWO64
  }

  function Min(a: nat, b: nat): nat { if a < b then a else b }

  function Max(a: nat, b: nat): nat { if a < b then b else a }
}
