/** Go's int64 (and int on 64-bit platforms): range and wrap-around. */
module Int64 {
  const TWO_63: int := 0x8000_0000_0000_0000
  const MAX_INT64: int := 0x7FFF_FFFF_FFFF_FFFF

  newtype int64 = x: int | -0x8000_0000_0000_0000 <= x < 0x8000_0000_0000_0000

  // Two's complement reading of the low 64 bits.
  function Wrap64(x: int): int {
    (x + TWO_63) % (2 * TWO_63) - TWO_63
  }

  // Wrapping changes nothing exactly on the numbers in range.
  lemma WrapInRange(x: int)
    ensures -TWO_63 <= Wrap64(x) < TWO_63
    ensures Wrap64(x) == x <==> -TWO_63 <= x < TWO_63
  {
  }

  // Wrapping after every addition is wrapping once at the end.
  lemma WrapSum(x: int, y: int)
    ensures Wrap64(Wrap64(x) + y) == Wrap64(x + y)
    ensures Wrap64(y + Wrap64(x)) == Wrap64(y + x)
  {
    var m := 2 * TWO_63;
    assert (x + TWO_63) % m == x + TWO_63 - m * ((x + TWO_63) / m);
  }
}
