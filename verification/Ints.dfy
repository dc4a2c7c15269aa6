/** Fixed-width integers of the node, the two result types, and powers of a radix. */
module Ints {
  import opened Arith

  const TWO_32 := 0x1_0000_0000
  const TWO_64 := 0x1_0000_0000_0000_0000
  const MAX_UINT32 := 0xffff_ffff
  const MAX_INT64 := 0x7fff_ffff_ffff_ffff

  type byte = x: int | 0 <= x < 0x100
  type uint16 = x: int | 0 <= x < 0x1_0000
  type uint32 = x: int | 0 <= x < 0x1_0000_0000
  type uint64 = x: int | 0 <= x < 0x1_0000_0000_0000_0000
  type int32 = x: int | -0x8000_0000 <= x < 0x8000_0000
  type int64 = x: int | -0x8000_0000_0000_0000 <= x < 0x8000_0000_0000_0000

  /** A 64-bit amount that has been found not to be negative. */
  type Amount = x: int | 0 <= x <= 0x7fff_ffff_ffff_ffff

  datatype Option<+T> = None | Some(value: T)
  datatype Result<+T, +E> = Ok(value: T) | Err(error: E)

  /** Two's complement wrap-around of a 64-bit sum. */
  function Wrap64(x: int): int64 {
    var u := x % TWO_64;
    if u <= MAX_INT64 then u else u - TWO_64
  }

  /** Wrap-around of a 32-bit unsigned sum. */
  function Wrap32(x: int): uint32 {
    x % TWO_32
  }

  /** Division that truncates toward zero. */
  function TruncDiv(a: int, b: int): int
    requires b > 0
  {
    if a >= 0 then a / b else -((-a) / b)
  }

  function Pow(b: nat, k: nat): nat {
    if k == 0 then 1 else b * Pow(b, k - 1)
  }

  lemma {:induction false} PowPositive(b: nat, k: nat)
    requires b > 0
    ensures Pow(b, k) > 0
  {
    if k > 0 {
      PowPositive(b, k - 1);
      MulLe(1, Pow(b, k - 1), b);
    }
  }

  lemma {:induction false} PowAdd(b: nat, i: nat, j: nat)
    ensures Pow(b, i + j) == Pow(b, i) * Pow(b, j)
  {
    if i > 0 {
      PowAdd(b, i - 1, j);
      MulAssoc(b, Pow(b, i - 1), Pow(b, j));
    }
  }

  lemma {:induction false} PowMonotone(b: nat, i: nat, j: nat)
    requires b > 0 && i <= j
    ensures Pow(b, i) <= Pow(b, j)
  {
    if i < j {
      PowMonotone(b, i, j - 1);
      PowPositive(b, j - 1);
      MulLe(1, b, Pow(b, j - 1));
    }
  }
}
