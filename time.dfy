/**
 * Timestamps as integer milliseconds on one local-time axis.
 * `new Date()` becomes an explicit `now` parameter; `setHours(0, 0, 0, 0)`
 * becomes StartOfDay and `setDate(getDate() + n)` becomes AddDays.
 */
module Time {

  /** Milliseconds in one calendar day (no daylight-saving shifts). */
  const MsPerDay: int := 86400000

  type Instant = int

  /** The day number of an instant; Dafny's division floors for a positive divisor. */
  function Day(t: Instant): int {
    t / MsPerDay
  }

  /** Midnight at the start of the instant's day. */
  function StartOfDay(t: Instant): (r: Instant)
    ensures r <= t < r + MsPerDay
    ensures Day(r) == Day(t)
  {
    Day(t) * MsPerDay
  }

  /** The same time of day, n days later. */
  function AddDays(t: Instant, n: int): (r: Instant)
    ensures Day(r) == Day(t) + n
    ensures StartOfDay(r) == StartOfDay(t) + n * MsPerDay
  {
    t + n * MsPerDay
  }

  /** Later instants never fall on an earlier day. */
  lemma DayMonotonic(a: Instant, b: Instant)
    requires a <= b
    ensures Day(a) <= Day(b)
  {
  }
}
