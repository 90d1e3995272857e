/**
 * Go's fixed-width integers as they appear in the modelled code: `byte`,
 * `int64` and `uint64`, together with the two's-complement wrap-around
 * that Go applies silently to `int64` arithmetic.
 */
module GoInts {

  const TWO_63: int := 0x8000_0000_0000_0000
  const TWO_64: int := 0x1_0000_0000_0000_0000

  /** A Go `byte`. */
  type Byte = b: int | 0 <= b < 0x100

  /** A Go `int64`. */
  type Int64 = x: int | -0x8000_0000_0000_0000 <= x < 0x8000_0000_0000_0000

  /** A Go `uint64`. */
  type Uint64 = x: int | 0 <= x < 0x1_0000_0000_0000_0000

  /** The `int64` that Go's two's-complement arithmetic leaves for the mathematical value `x`. */
  function Wrap64(x: int): (r: Int64)
    ensures (r - x) % TWO_64 == 0
    ensures -TWO_63 <= x < TWO_63 ==> r == x
  {
    (x + TWO_63) % TWO_64 - TWO_63
  }

  /** Two values that differ by a multiple of 2^64 wrap to the same `int64`. */
  lemma {:induction false} WrapCongruent(x: int, y: int)
    requires (x - y) % TWO_64 == 0
    ensures Wrap64(x) == Wrap64(y)
  {
    var k := (x - y) / TWO_64;
    assert x == y + k * TWO_64;
    assert (x + TWO_63) == (y + TWO_63) + k * TWO_64;
    ModAddMultiple(y + TWO_63, k);
  }

  lemma {:induction false} ModAddMultiple(a: int, k: int)
    ensures (a + k * TWO_64) % TWO_64 == a % TWO_64
  {
    var q, r := a / TWO_64, a % TWO_64;
    assert a == q * TWO_64 + r;
    assert a + k * TWO_64 == (q + k) * TWO_64 + r;
  }

  /**
   * Go evaluates `s += n * n` by wrapping the product and then the sum;
   * the result is the wrap of the exact value, so wrapping can be
   * postponed to the end of any chain of additions and products.
   */
  lemma WrapAddWrapped(s: int, p: int)
    ensures Wrap64(Wrap64(s) + Wrap64(p)) == Wrap64(s + p)
  {
    var a, b := Wrap64(s) - s, Wrap64(p) - p;
    assert a == (a / TWO_64) * TWO_64;
    assert b == (b / TWO_64) * TWO_64;
    assert a + b == (a / TWO_64 + b / TWO_64) * TWO_64;
    ModAddMultiple(0, a / TWO_64 + b / TWO_64);
    WrapCongruent(Wrap64(s) + Wrap64(p), s + p);
  }

  /** Wrapping an intermediate sum early does not change the wrapped total. */
  lemma WrapLeft(a: int, b: int)
    ensures Wrap64(Wrap64(a) + b) == Wrap64(a + b)
  {
    WrapCongruent(Wrap64(a) + b, a + b);
  }
}
