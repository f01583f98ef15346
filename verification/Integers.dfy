/** Go's 64-bit integers. */
module Integers {
  const INT64_LIMIT := 0x8000_0000_0000_0000

  /** What int64 arithmetic makes of a result: the value in range that differs from it by a multiple of 2^64. */
  predicate Wraps(n: int, w: int) {
    -0x8000_0000_0000_0000 <= w < 0x8000_0000_0000_0000 && (w - n) % 0x1_0000_0000_0000_0000 == 0
  }

  function Int64(n: int): (w: int)
    ensures Wraps(n, w)
    ensures -0x8000_0000_0000_0000 <= n < 0x8000_0000_0000_0000 ==> w == n
  {
    (n + INT64_LIMIT) % (2 * INT64_LIMIT) - INT64_LIMIT
  }

  lemma WrapsOnce(n: int, w: int)
    requires Wraps(n, w)
    ensures w == Int64(n)
  {
    var k, j := (w - n) / 0x1_0000_0000_0000_0000, (Int64(n) - n) / 0x1_0000_0000_0000_0000;
    assert w - n == k * 0x1_0000_0000_0000_0000 && Int64(n) - n == j * 0x1_0000_0000_0000_0000;
  }
}
