/** Fixed-width integer arithmetic of the C and C++ sources, on unbounded integers. */
module MachineInts {

  datatype Option<+T> = None | Some(value: T)

  const TWO8: int := 0x100
  const TWO15: int := 0x8000
  const TWO31: int := 0x8000_0000
  const TWO32: int := 0x1_0000_0000
  const TWO63: int := 0x8000_0000_0000_0000
  const TWO64: int := 0x1_0000_0000_0000_0000

  type u64 = x: int | 0 <= x < TWO64
  type u32 = x: int | 0 <= x < TWO32
  type u8 = x: int | 0 <= x < TWO8
  type i8 = x: int | -128 <= x < 128
  type i16 = x: int | -TWO15 <= x < TWO15
  type i32 = x: int | -TWO31 <= x < TWO31
  type i64 = x: int | -TWO63 <= x < TWO63

  /** Four bytes or-ed together at their shifts. */
  function Join(b0: int, b1: int, b2: int, b3: int): int {
    b0 + 0x100 * b1 + 0x1_0000 * b2 + 0x100_0000 * b3
  }

  /** The little-endian word at address i. */
  function WordIn(bytes: seq<u8>, i: nat): u32
    requires i + 3 < |bytes|
  {
    Join(bytes[i], bytes[i + 1], bytes[i + 2], bytes[i + 3])
  }

  /** Unsigned 64-bit addition and subtraction wrap around. */
  function Add64(a: int, b: int): u64 {
    (a + b) % TWO64
  }

  function Sub64(a: int, b: int): u64 {
    (a - b) % TWO64
  }

  lemma ModUnique(x: int, q: int, r: int, m: int)
    requires m > 0 && x == m * q + r && 0 <= r < m
    ensures x % m == r && x / m == q
  {
    var q', r' := x / m, x % m;
    assert x == m * q' + r';
    var d := q - q';
    assert m * d == r' - r by {
      assert m * d == m * q - m * q';
    }
    if d >= 1 {
      MulAtLeast(m, d);
    } else if d <= -1 {
      MulAtLeast(m, -d);
    }
  }

  /** The wrapping difference of two wrapped counts is the number of ticks between them. */
  lemma Elapsed(now: int, s: int, e: u64)
    ensures Sub64(Add64(now, s + e), Add64(now, s)) == e
  {
    var a := now + s;
    ModUnique(Add64(now, s + e) - Add64(now, s), a / TWO64 - (a + e) / TWO64, e, TWO64);
  }

  lemma Quotient(x: nat, m: nat)
    requires m > 0
    ensures x == x / m * m + x % m && 0 <= x % m < m && 0 <= x / m
  {
  }

  lemma QuotientAtLeast(x: nat, m: nat, k: nat)
    requires m > 0 && x >= k * m
    ensures x / m >= k
  {
    Quotient(x, m);
    if x / m < k {
      assert (k - 1 - x / m) * m == k * m - m - x / m * m;
      MulNonNegative(k - 1 - x / m, m);
    }
  }

  lemma MulAtLeast(m: int, d: int)
    requires m >= 0 && d >= 1
    ensures m * d >= m
  {
  }

  lemma MulNonNegative(m: int, d: int)
    requires m >= 0 && d >= 0
    ensures m * d >= 0
  {
  }

  /** The value a 32-bit register keeps. */
  function Wrap32(x: int): i32 {
    (x + TWO31) % TWO32 - TWO31
  }

  lemma WrapAdd(a: int, b: int)
    ensures Wrap32(Wrap32(a) + Wrap32(b)) == Wrap32(a + b)
  {
  }

  lemma WrapSmall(x: int)
    requires -TWO31 <= x < TWO31
    ensures Wrap32(x) == x
  {
  }
}
