/** Shared vocabulary: optional values, answers from remote services, and Go's int64 arithmetic. */
module Common {

  datatype Option<+T> = None | Some(value: T)

  /** How a remote command ends: done, not done, or done although the caller sees an error. */
  datatype Reply = Accepted | Refused | Lost

  const MAX_INT64 := 0x7FFF_FFFF_FFFF_FFFF

  predicate FitsInt64(x: int) {
    -MAX_INT64 - 1 <= x <= MAX_INT64
  }

  /** Two's-complement wrap-around to 64 bits. */
  function Wrap(x: int): (r: int)
    ensures FitsInt64(r)
    ensures FitsInt64(x) ==> r == x
  {
    (x + MAX_INT64 + 1) % (2 * MAX_INT64 + 2) - MAX_INT64 - 1
  }

  /** Go's integer division, which truncates toward zero. */
  function Quotient(x: int, y: int): (q: int)
    requires y > 0
    ensures x >= 0 ==> q == x / y
    ensures x <= 0 ==> q == -(-x / y) <= 0
  {
    if x >= 0 then x / y else -(-x / y)
  }
}
