/** Millisecond timestamps, calendar days and host-local time.
    A timestamp is the number of milliseconds since the Unix epoch (JavaScript's `getTime()`).
    Host-local time is modelled by a fixed offset `hostOffset` (ms east of UTC); daylight saving is not
    modelled. */
module Time {

  const MsPerSecond: int := 1000
  const MsPerHour: int := 3_600_000
  const MsPerDay: int := 86_400_000

  /** India Standard Time is UTC+5:30 (5.5 * 60 * 60 * 1000 ms). */
  const IstOffset: int := 19_800_000

  /** Day number (days since the epoch) of the local calendar day holding `t`.
      Dafny's `/` with a positive divisor rounds towards minus infinity, as calendar days do. */
  function LocalDay(t: int, hostOffset: int): (d: int)
    ensures d * MsPerDay <= t + hostOffset < (d + 1) * MsPerDay
  {
    (t + hostOffset) / MsPerDay
  }

  /** The timestamp of local 00:00:00.000 of day number `d` (what `setHours(0, 0, 0, 0)` yields). */
  function LocalMidnight(d: int, hostOffset: int): (t: int)
    ensures LocalDay(t, hostOffset) == d
  {
    d * MsPerDay - hostOffset
  }

  /** Local midnight is the latest local midnight at or before `t`. */
  lemma LocalMidnightAtOrBefore(t: int, hostOffset: int)
    ensures LocalMidnight(LocalDay(t, hostOffset), hostOffset) <= t
    ensures t - LocalMidnight(LocalDay(t, hostOffset), hostOffset) < MsPerDay
  {
  }

  /** Day numbers are monotone in time. */
  lemma LocalDayMonotone(a: int, b: int, hostOffset: int)
    requires a <= b
    ensures LocalDay(a, hostOffset) <= LocalDay(b, hostOffset)
  {
  }
}
