/** Go's int64: the range of its values and the wrap-around of its arithmetic. */
module Int64 {
  const TWO_63 := 0x8000_0000_0000_0000
  const TWO_64 := 0x1_0000_0000_0000_0000
  const MAX := TWO_63 - 1

  type int64 = x: int | -0x8000_0000_0000_0000 <= x < 0x8000_0000_0000_0000

  predicate Fits(x: int) { -TWO_63 <= x < TWO_63 }

  /** Two's complement truncation to 64 bits. */
  function Wrap(x: int): (r: int64)
    ensures Fits(x) <==> r == x
    ensures (r - x) % TWO_64 == 0
  {
    (x + TWO_63) % TWO_64 - TWO_63
  }
}
