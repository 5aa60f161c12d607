/** Vocabulary shared by every module: failure-compatible values, bytes, and the
    64-bit nanosecond clock arithmetic of the relay. */
module Prelude {
  datatype Option<+T> = None | Some(value: T)

  datatype Result<+T, +E> = Ok(value: T) | Err(error: E)

  type byte = x: int | 0 <= x < 256
  type Bytes = seq<byte>

  const MAX_INT64: int := 0x7FFF_FFFF_FFFF_FFFF
  const MIN_INT64: int := -0x8000_0000_0000_0000
  const MAX_UINT64: int := 0xFFFF_FFFF_FFFF_FFFF
  const SECOND: int := 1_000_000_000

  /** The revision of the relay protocol, and the bound of its datagrams. */
  const REVISION: nat := 1
  const MAX_DATAGRAM_BYTES: int := 1200

  /** The value an unsigned 64-bit variable holds after an assignment of `n`. */
  function Wrap64(n: nat): nat { n % (MAX_UINT64 + 1) }

  /** The value a signed 64-bit variable holds after an assignment of `n`. */
  function SignedWrap(n: int): int {
    var m := n % 0x1_0000_0000_0000_0000;
    if m > MAX_INT64 then m - 0x1_0000_0000_0000_0000 else m
  }

  /** One reading of the clock: the wall time in nanoseconds counted from Go's zero time,
      and the monotonic time in nanoseconds. */
  datatype ClockReading = ClockReading(wall: int, mono: int)

  function Min(a: int, b: int): int { if a <= b then a else b }

  /** `time.Time.Sub`: the difference clamped to the range of a duration. */
  function SubTime(a: int, b: int): int {
    if a - b > MAX_INT64 then MAX_INT64 else if a - b < MIN_INT64 then MIN_INT64 else a - b
  }

  /** The deadline `ttl` after `now`, or nothing when it is not in the future or overflows. */
  function DeadlineAfter(now: int, ttl: int): Option<int> {
    if ttl <= 0 || now > MAX_INT64 - ttl then None else Some(now + ttl)
  }

  /** The sum, or the end of time if that comes first. */
  function SaturatingAdd(deadline: int, delta: int): (sum: int)
    ensures sum == Min(deadline + delta, MAX_INT64)
  {
    if deadline > MAX_INT64 - delta then MAX_INT64 else deadline + delta
  }
}
