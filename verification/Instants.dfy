/** Instants in nanoseconds since the zero time, and signed 64-bit durations between them. */
module Instants {
  const ZERO_TIME: int := 0
  const SECOND: int := 1_000_000_000
  const MINUTE: int := 60 * SECOND
  const HOUR: int := 60 * MINUTE
  const DAY: int := 24 * HOUR
  const MAX_DURATION: int := 0x7FFF_FFFF_FFFF_FFFF

  /** The time between two instants, held at the ends of the duration range. */
  function Elapsed(since: int, now: int): (d: int)
    ensures -MAX_DURATION - 1 <= d <= MAX_DURATION
    ensures -MAX_DURATION - 1 <= now - since <= MAX_DURATION ==> d == now - since
    ensures now - since < 0 <==> d < 0
  {
    if now - since > MAX_DURATION then MAX_DURATION
    else if now - since < -MAX_DURATION - 1 then -MAX_DURATION - 1
    else now - since
  }

  /** Division that drops the remainder toward zero. */
  function Quotient(a: int, b: int): (q: int)
    requires b > 0
    ensures a >= 0 ==> q * b <= a < (q + 1) * b
    ensures a < 0 ==> (q - 1) * b < a <= q * b && q <= 0
  {
    if a >= 0 then a / b else -(-a / b)
  }

  datatype EndAt = Unbounded | Until(instant: int) {
    /** The end, when there is one, comes before the instant. */
    predicate Before(i: int) {
      Until? && instant < i
    }
  }
}
