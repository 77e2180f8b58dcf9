/** Types and arithmetic shared by the whole model: bytes, `size_t` values
    with their wrap-around, and the usual Option/Result wrappers. */
module Common {

  /** A `std::byte`: eight bits, so `+` and `^` wrap exactly as the casts in
      the C++ source truncate. */
  type byte = bv8

  const SIZE_MODULUS: int := 0x1_0000_0000_0000_0000

  /** A `size_t` value on a 64-bit target. */
  type Size = x: int | 0 <= x < SIZE_MODULUS

  /** `a + b` on `size_t`, which wraps modulo 2^64. */
  function AddWrap(a: Size, b: Size): Size
  {
    (a + b) % SIZE_MODULUS
  }

  /** `a - b` on `size_t`, which wraps modulo 2^64. */
  function SubWrap(a: Size, b: Size): Size
  {
    (a - b) % SIZE_MODULUS
  }

  /** The sum is exact unless it reaches 2^64, and then it loses 2^64. */
  lemma AddWrapValue(a: Size, b: Size)
    ensures a + b < SIZE_MODULUS ==> AddWrap(a, b) == a + b
    ensures a + b >= SIZE_MODULUS ==> AddWrap(a, b) == a + b - SIZE_MODULUS
  {
  }

  /** The difference is exact unless it is negative, and then it gains 2^64. */
  lemma SubWrapValue(a: Size, b: Size)
    ensures b <= a ==> SubWrap(a, b) == a - b
    ensures a < b ==> SubWrap(a, b) == a - b + SIZE_MODULUS
  {
  }

  /** An integer reduced to `size_t`. */
  function Wrap(x: int): Size { x % SIZE_MODULUS }

  /** A value that fits is its own reduction. */
  lemma WrapSize(x: Size)
    ensures Wrap(x) == x
  {
    DivUnique(x, SIZE_MODULUS, 0, x);
  }

  /** Adding a multiple of 2^64 changes nothing modulo 2^64. */
  lemma WrapShift(y: int, k: int)
    ensures Wrap(y + SIZE_MODULUS * k) == Wrap(y)
  {
    assert y + SIZE_MODULUS * k == (y / SIZE_MODULUS + k) * SIZE_MODULUS + y % SIZE_MODULUS;
    DivUnique(y + SIZE_MODULUS * k, SIZE_MODULUS, y / SIZE_MODULUS + k, y % SIZE_MODULUS);
  }

  /** Wrapping before or after an addition gives the same counter. */
  lemma WrapAdd(x: int, b: Size)
    ensures AddWrap(Wrap(x), b) == Wrap(x + b)
  {
    WrapShift(x + b, -(x / SIZE_MODULUS));
  }

  /** Wrapping before or after a subtraction gives the same counter. */
  lemma WrapSub(x: int, b: Size)
    ensures SubWrap(Wrap(x), b) == Wrap(x - b)
  {
    WrapShift(x - b, -(x / SIZE_MODULUS));
  }

  /** Wrapping before a subtraction of any amount gives the same counter. */
  lemma WrapSubAny(x: int, y: int)
    ensures Wrap(Wrap(x) - y) == Wrap(x - y)
  {
    WrapShift(x - y, -(x / SIZE_MODULUS));
  }

  /** Wrapping before an addition of any amount gives the same counter. */
  lemma WrapAddAny(x: int, y: int)
    ensures Wrap(Wrap(x) + y) == Wrap(x + y)
  {
    WrapShift(x + y, -(x / SIZE_MODULUS));
  }

  /** Multiplication distributes over a sum. */
  lemma MulAdd(a: nat, b: nat, c: nat)
    ensures b * c >= 0 && a * c + b * c == (a + b) * c
  {
  }

  /** Moving on by `b` from `a` to `c` moves a multiple of `d` on by `b * d`. */
  lemma MulStep(a: nat, b: nat, c: nat, d: nat)
    requires c == a + b
    ensures a * d + b * d == c * d && (a + b) * d == c * d
  {
  }

  /** The sign of a product with a positive factor. */
  lemma MulSign(g: nat, d: int)
    requires g > 0
    ensures d >= 1 ==> g * d >= g
    ensures d <= -1 ==> g * d + g <= 0
  {
    if d >= 1 {
      assert g * d == g * (d - 1) + g;
    } else if d <= -1 {
      assert g * d == g * (d + 1) - g;
    }
  }

  /** Dividing a multiple of `g` by `g` is exact. */
  lemma MulDiv(g: nat, k: nat)
    requires g > 0
    ensures (g * k) / g == k && (g * k) % g == 0
  {
    var q, r := (g * k) / g, (g * k) % g;
    assert g * (k - q) == r;
    MulSign(g, k - q);
  }

  /** The quotient and remainder of Euclidean division are unique. */
  lemma DivUnique(n: int, d: nat, q: int, r: nat)
    requires d > 0 && n == q * d + r && r < d
    ensures n / d == q && n % d == r
  {
    assert d * (q - n / d) == n % d - r;
    MulSign(d, q - n / d);
  }

  function Min(a: int, b: int): int { if a < b then a else b }
  function Max(a: int, b: int): int { if a < b then b else a }

  datatype Option<+T> = None | Some(value: T)

  datatype Result<+R, +E> = Success(value: R) | Failure(error: E)

  /** `n` zero bytes, as `memset(p, 0, n)` leaves them. */
  function Zeros(n: nat): (r: seq<byte>)
    ensures |r| == n && forall k :: 0 <= k < n ==> r[k] == 0
  {
    seq(n, _ => 0)
  }
}
