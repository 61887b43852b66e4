/** The portable overflow checks of `fr_checked.c`: what the wrap-around tests
    decide, against exact arithmetic on mathematical integers. */
module Checked {
  import opened Bytes

  /** uint64_t addition and multiplication wrap. */
  function WrapAdd(a: U64, b: U64): U64 { (a + b) % TWO_64 }

  function WrapMul(a: U64, b: U64): U64 { (a * b) % TWO_64 }

  function AddU64(a: U64, b: U64): (r: Option<U64>) {
    var sum := WrapAdd(a, b);
    if sum < a then None else Some(sum)
  }

  function MulU64(a: U64, b: U64): (r: Option<U64>) {
    if a == 0 || b == 0 then Some(0)
    else
      var product := WrapMul(a, b);
      if product / b != a then None else Some(product)
  }

  lemma AddU64Exact(a: U64, b: U64)
    ensures AddU64(a, b) == if a + b < TWO_64 then Some(a + b) else None
  {
  }

  /** The quotient test r / b == a accepts exactly the products that fit. */
  lemma MulU64Exact(a: U64, b: U64)
    ensures MulU64(a, b) == if a * b < TWO_64 then Some(a * b) else None
  {
    if a != 0 && b != 0 {
      var r := WrapMul(a, b);
      var q := r / b;
      assert b * q <= r < b * q + b;
      // a wrapped product is smaller than a * b, so its quotient misses a
      assert r == a * b <==> a * b < TWO_64;
      assert r <= a * b;
      if q < a {
        MulStep(b, q, a);
      } else if q > a {
        MulStep(b, a, q);
      }
    }
  }

  lemma MulStep(b: nat, x: nat, y: nat)
    requires x < y
    ensures b * x + b <= b * y
  {
    assert b * (y - x - 1) >= 0;
    assert b * y == b * (y - x - 1) + b * x + b;
  }

  /** size_t is 64 bits wide; the size forms go through the 64-bit ones. */
  function AddSize(a: U64, b: U64): Option<U64> { AddU64(a, b) }

  function MulSize(a: U64, b: U64): Option<U64> { MulU64(a, b) }
}
