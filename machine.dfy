/** Machine integers shared by every module: bytes, the widths the kernel
    computes in, and Rust's truncating division and remainder. */
module Machine {

  datatype Option<T> = None | Some(value: T)

  /** An unsigned 8-bit value (`u8`). */
  newtype byte = x: int | 0 <= x < 256

  const U16_MAX: int := 0xFFFF
  const U32_MODULUS: int := 0x1_0000_0000
  const U64_MODULUS: int := 0x1_0000_0000_0000_0000
  const I32_MIN: int := -0x8000_0000
  const I32_MAX: int := 0x7FFF_FFFF
  const I64_MIN: int := -0x8000_0000_0000_0000
  const I64_MAX: int := 0x7FFF_FFFF_FFFF_FFFF

  predicate IsU32(x: int) { 0 <= x < U32_MODULUS }
  predicate IsU64(x: int) { 0 <= x < U64_MODULUS }
  predicate IsI32(x: int) { I32_MIN <= x <= I32_MAX }
  predicate IsI64(x: int) { I64_MIN <= x <= I64_MAX }

  function Abs(x: int): (r: nat)
    ensures r == x || r == -x
  {
    if x < 0 then -x else x
  }

  /** Rust's `as i32` on a value held in 64 bits: keep the low 32 bits and
      read them as two's complement. */
  function ToI32(x: int): (r: int)
    ensures IsI32(r)
    ensures (r - x) % U32_MODULUS == 0
  {
    var low := x % U32_MODULUS;
    if low <= I32_MAX then low else low - U32_MODULUS
  }

  /** Rust's `as i64` on a `u64`. */
  function ToI64(x: int): (r: int)
    requires IsU64(x)
    ensures IsI64(r)
    ensures r == x || r == x - U64_MODULUS
  {
    if x <= I64_MAX then x else x - U64_MODULUS
  }

  /** Rust's `/` on signed integers: the quotient is truncated toward zero. */
  function QuotT(a: int, b: int): (q: int)
    requires b != 0
    ensures 0 <= a && 0 < b ==> q == a / b
  {
    if a >= 0 && b > 0 then a / b
    else if a >= 0 then -(a / -b)
    else if b > 0 then -((-a) / b)
    else (-a) / (-b)
  }

  /** Rust's `%` on signed integers: the remainder takes the dividend's sign. */
  function RemT(a: int, b: int): (r: int)
    requires b != 0
    ensures Abs(r) < Abs(b)
    ensures a >= 0 ==> r >= 0
    ensures a <= 0 ==> r <= 0
  {
    if a >= 0 && b > 0 then a % b
    else if a >= 0 then a % -b
    else if b > 0 then -((-a) % b)
    else -((-a) % (-b))
  }

  /** Truncated quotient and remainder recombine to the dividend. */
  lemma DivisionIdentity(a: int, b: int)
    requires b != 0
    ensures a == QuotT(a, b) * b + RemT(a, b)
  {
    NonNegativeDivision(Abs(a), Abs(b));
    if a >= 0 && b < 0 {
      assert (-(a / -b)) * b == (a / -b) * (-b);
    } else if a < 0 && b < 0 {
      assert ((-a) / (-b)) * b == -(((-a) / (-b)) * (-b));
    }
  }

  lemma NonNegativeDivision(n: nat, d: nat)
    requires d > 0
    ensures n == (n / d) * d + n % d
  {
  }

  /** Multiplying by a natural number keeps the order. */
  lemma MulMono(a: nat, b: nat, c: nat)
    requires a <= b
    ensures a * c <= b * c
  {
  }
}
