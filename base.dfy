/** Basic value types shared by the whole model. */
module Base {
  /** Go's `time.Time`, as nanoseconds since Go's zero time (January 1, year 1, UTC). */
  type Time = int

  /** The zero `time.Time`; `IsZero()` holds of exactly this value. */
  const ZeroTime: Time := 0

  predicate IsZero(t: Time) { t == ZeroTime }

  /** One nanosecond-resolution minute, `1 * time.Minute`. */
  const Minute: int := 60 * 1_000_000_000

  type int64 = x: int | -0x8000_0000_0000_0000 <= x < 0x8000_0000_0000_0000
  type uint64 = x: int | 0 <= x < 0x1_0000_0000_0000_0000
  type uint32 = x: int | 0 <= x < 0x1_0000_0000

  /** Go's conversion `uint64(x)` of an `int64`: two's-complement wrap-around for negative values. */
  function Int64ToUint64(x: int64): (r: uint64)
    ensures x >= 0 ==> r == x
    ensures x < 0 ==> r == x + 0x1_0000_0000_0000_0000
  {
    if x >= 0 then x else x + 0x1_0000_0000_0000_0000
  }

  datatype Option<+T> = None | Some(value: T)
}
