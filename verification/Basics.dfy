/** Option, and the machine-integer ranges of the server (64-bit target). */
module Basics {

  datatype Option<+T> = None | Some(value: T)

  function Front<T>(s: seq<T>): seq<T>
    requires s != []
  {
    s[..|s| - 1]
  }

  function Last<T>(s: seq<T>): T
    requires s != []
  {
    s[|s| - 1]
  }

  const TWO_63: int := 0x8000_0000_0000_0000
  const TWO_64: int := 0x1_0000_0000_0000_0000

  type I64 = n: int | -TWO_63 <= n < TWO_63
  type U64 = n: int | 0 <= n < TWO_64

  /** Two's-complement wrap-around of an i64 result (release profile). */
  function Wrap(n: int): I64 {
    (n + TWO_63) % TWO_64 - TWO_63
  }

  lemma WrapIsIdentityInRange(n: int)
    requires -TWO_63 <= n < TWO_63
    ensures Wrap(n) == n
  {}

  /** Wrapping once at the end is the same as wrapping at every addition. */
  lemma WrapAbsorbs(m: int, n: int)
    ensures Wrap(Wrap(m) + n) == Wrap(m + n)
  {
    var q := (m + TWO_63) / TWO_64;
    assert Wrap(m) == m - TWO_64 * q;
    ModShift(m + n + TWO_63, -q);
  }

  /** Numbers that wrap to the same result differ by a multiple of 2^64. */
  lemma SameRemainder(a: int, n: int)
    requires Wrap(a) == n
    ensures a == n || a >= n + TWO_64 || a <= n - TWO_64
  {
    var q := (a + TWO_63) / TWO_64;
    assert a == n + TWO_64 * q;
  }

  lemma ModShift(a: int, k: int)
    ensures (a + TWO_64 * k) % TWO_64 == a % TWO_64
  {
    var q, r := a / TWO_64, a % TWO_64;
    assert a + TWO_64 * k == TWO_64 * (q + k) + r;
    DivModUnique(a + TWO_64 * k, q + k, r);
  }

  lemma DivModUnique(n: int, q: int, r: int)
    requires n == TWO_64 * q + r && 0 <= r < TWO_64
    ensures n % TWO_64 == r && n / TWO_64 == q
  {}
}
