/** Definitions shared by several models. */
module Common {

  datatype Option<+T> = None | Some(value: T)

  /** Largest value of a 64-bit unsigned counter. */
  const U64_MAX: nat := 0xFFFF_FFFF_FFFF_FFFF

  type byte = b: int | 0 <= b < 256

  function Pow2(n: nat): (r: nat)
    ensures r >= 1
  {
    if n == 0 then 1 else 2 * Pow2(n - 1)
  }

  function Min(a: nat, b: nat): nat { if a < b then a else b }

  function Max(a: nat, b: nat): nat { if a < b then b else a }
}
