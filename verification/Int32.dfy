/** 32-bit two's complement arithmetic. */
module Int32 {

  const MAX_INT32: int := 0x7FFF_FFFF
  const MIN_INT32: int := -0x8000_0000

  predicate IsInt32(n: int) { MIN_INT32 <= n <= MAX_INT32 }

  /** The 32-bit value an unbounded result wraps to. */
  function Wrap32(n: int): (r: int)
    ensures IsInt32(r)
    ensures IsInt32(n) ==> r == n
  {
    var m := n % 0x1_0000_0000;
    if m > MAX_INT32 then m - 0x1_0000_0000 else m
  }
}
