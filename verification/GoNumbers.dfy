/** Go's fixed-width integers: subtraction and addition wrap, conversions reinterpret. */
module GoNumbers {

  const TWO_32: int := 0x1_0000_0000
  const TWO_63: int := 0x8000_0000_0000_0000
  const TWO_64: int := 0x1_0000_0000_0000_0000

  type uint64 = n: int | 0 <= n < TWO_64

  type int64 = n: int | -TWO_63 <= n < TWO_63

  /** The value of an unbounded result stored into a uint64. */
  function Wrap(n: int): (r: uint64) {
    n % TWO_64
  }

  /** The value of an unbounded result stored into an int64 (two's complement). */
  function WrapSigned(n: int): (r: int64) {
    Signed(Wrap(n))
  }

  /** Go's conversion int64(x). */
  function Signed(x: uint64): (r: int64)
    ensures (r - x) % TWO_64 == 0
  {
    if x < TWO_63 then x else x - TWO_64
  }

  /** Unsigned difference of two counters, as Go computes it. */
  function Sub(a: uint64, b: uint64): (r: uint64)
    ensures b <= a ==> r == a - b
    ensures a < b ==> r == a - b + TWO_64
  {
    Wrap(a - b)
  }

  /** Unsigned sum of two counters, as Go computes it. */
  function Add(a: uint64, b: uint64): (r: uint64)
    ensures a + b < TWO_64 ==> r == a + b
    ensures a + b >= TWO_64 ==> r == a + b - TWO_64
  {
    Wrap(a + b)
  }

  /** Wrapping early or late makes no difference to a sum. */
  lemma WrapAbsorbs(a: int, b: int)
    ensures Wrap(Wrap(a) + b) == Wrap(a + b)
  {
    assert a == (a / TWO_64) * TWO_64 + a % TWO_64;
    WrapShift(Wrap(a) + b, a / TWO_64);
  }

  lemma {:induction false} WrapShift(n: int, k: int)
    ensures Wrap(n + k * TWO_64) == Wrap(n)
    decreases if k < 0 then -k else k
  {
    if k > 0 {
      WrapShift(n, k - 1);
    } else if k < 0 {
      WrapShift(n, k + 1);
    }
  }

  lemma SubAdds(a: uint64, b: uint64, c: uint64)
    ensures Wrap(Sub(c, b) + Sub(b, a)) == Sub(c, a)
  {
  }
}
