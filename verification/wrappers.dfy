/** Failure-compatible wrappers used throughout the model: the Rust
    `Option<T>` and `Result<T, E>` of the game. */
module Wrappers {

  datatype Option<+T> = None | Some(value: T)

  datatype Result<+T, +E> = Ok(value: T) | Err(error: E)

  /** The unit value `()` of Rust. */
  datatype Unit = Unit

  /** `Vec::swap_remove(i)`: the last element takes the place of the
      removed one. */
  function SwapRemove<T>(s: seq<T>, i: nat): (r: seq<T>)
    requires i < |s|
    ensures |r| == |s| - 1
    ensures multiset(r) + multiset{s[i]} == multiset(s)
    ensures forall x :: x in r ==> x in s
  {
    var r := s[i := s[|s| - 1]][..|s| - 1];
    assert s == s[..i] + [s[i]] + s[i + 1..];
    assert i == |s| - 1 ==> r == s[..i];
    assert i < |s| - 1 ==> r == s[..i] + [s[|s| - 1]] + s[i + 1..|s| - 1] && s[i + 1..] == s[i + 1..|s| - 1] + [s[|s| - 1]];
    r
  }
}

/** Rust's fixed-width unsigned integers, written out over `int`. */
module Ints {
  const U8_MAX: int := 0xff
  const U32_MAX: int := 0xffff_ffff
  const U64_MAX: int := 0xffff_ffff_ffff_ffff

  type u8 = x: int | 0 <= x <= U8_MAX
  type u32 = x: int | 0 <= x <= U32_MAX
  type u64 = x: int | 0 <= x <= U64_MAX

  const I32_MIN: int := -0x8000_0000
  const I32_MAX: int := 0x7fff_ffff

  /** Two's-complement wrap-around into `i32`, as release builds compute. */
  function WrapI32(n: int): (r: int)
    ensures I32_MIN <= r <= I32_MAX
    ensures I32_MIN <= n <= I32_MAX ==> r == n
  {
    (n - I32_MIN) % 0x1_0000_0000 + I32_MIN
  }

  function Min(a: int, b: int): int { if a <= b then a else b }
  function Max(a: int, b: int): int { if a >= b then a else b }

  /** `a.saturating_sub(b)` on unsigned integers. */
  function SaturatingSub(a: nat, b: nat): (r: nat)
    ensures r == if b <= a then a - b else 0
  {
    if b <= a then a - b else 0
  }
}
