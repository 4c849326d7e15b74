/** Java's 32-bit `int`, as used by the two id counters and `compareTo`. */
module JavaInt {

  const MIN_INT: int := -0x8000_0000
  const MAX_INT: int := 0x7fff_ffff

  type Int32 = x: int | MIN_INT <= x <= MAX_INT witness 0

  /** `x++` on an `int`: two's-complement wrap-around at the top. */
  function Inc(x: Int32): Int32
  {
    if x == MAX_INT then MIN_INT else x + 1
  }

  /** `Integer.compare(a, b)`. */
  function Compare(a: Int32, b: Int32): int
  {
    if a < b then -1 else if a == b then 0 else 1
  }

  /** `Integer.compare` is the sign of `a - b`: it agrees with `<` and
      reverses when its arguments are swapped, so it is a total order. */
  lemma CompareIsTotalOrder(a: Int32, b: Int32, c: Int32)
    ensures Compare(a, b) in {-1, 0, 1}
    ensures Compare(a, b) < 0 <==> a < b
    ensures Compare(a, b) == 0 <==> a == b
    ensures Compare(a, b) == -Compare(b, a)
    ensures Compare(a, b) <= 0 && Compare(b, c) <= 0 ==> Compare(a, c) <= 0
  {
  }

  /** Two's-complement increment: counted from the bottom of the range,
      `x++` adds one modulo 2^32, so it is the successor below the top and
      wraps to the bottom at the top. */
  lemma IncWraps(x: Int32)
    ensures Inc(x) - MIN_INT == (x - MIN_INT + 1) % 0x1_0000_0000
    ensures x < MAX_INT ==> Inc(x) > x
    ensures x == MAX_INT ==> Inc(x) < x
  {
  }
}
