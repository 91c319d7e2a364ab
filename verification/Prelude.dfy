/** Datatypes shared by every module: optional values and fallible results. */
module Prelude {
  datatype Option<+T> = None | Some(value: T) {
    /** The value, or the given default when there is none. */
    function GetOr(default: T): T {
      if Some? then value else default
    }

    /** This value, or the other one when there is none. */
    function Or(other: Option<T>): Option<T> {
      if Some? then this else other
    }
  }

  datatype Result<+T, +E> = Ok(value: T) | Err(error: E)

  type Byte = b: int | 0 <= b < 256

  const U64_MAX: nat := 0xFFFF_FFFF_FFFF_FFFF

  type U64 = n: nat | n <= U64_MAX

  function SaturatingAdd(a: U64, b: U64): (r: U64)
    ensures r == Min(a + b, U64_MAX)
  {
    if a + b > U64_MAX then U64_MAX else a + b
  }

  function SaturatingSub(a: U64, b: U64): (r: U64)
    ensures r == Max(a - b, 0)
  {
    if a < b then 0 else a - b
  }

  function Min(a: int, b: int): int {
    if a <= b then a else b
  }

  function Max(a: int, b: int): int {
    if a <= b then b else a
  }
}
