/** Calendar arithmetic on instants, standing in for the subset of moment.js the
    timesheet uses: `startOf('day')`, `add(n, 'd')`, `startOf('week')` and
    `isSame(_, 'day')`.

    An instant is a whole number of milliseconds since the epoch. Days are a fixed
    86,400,000 ms long in one calendar (no time zones, no daylight-saving shifts),
    and the week starts on Sunday as in moment's default `en` locale. Epoch day 0
    (1970-01-01) was a Thursday. */
module Calendar {

  const MS_PER_HOUR: int := 3_600_000
  const MS_PER_DAY: int := 86_400_000

  /** The number of the calendar day an instant falls on (Euclidean division, so
      instants before the epoch land on negative days). */
  function DayOf(t: int): int {
    t / MS_PER_DAY
  }

  /** The first instant of day `d`. */
  function Midnight(d: int): (t: int)
    ensures DayOf(t) == d
    ensures t % MS_PER_DAY == 0
  {
    d * MS_PER_DAY
  }

  /** `moment(t).startOf('day')`. */
  function StartOfDay(t: int): (r: int)
    ensures r <= t < r + MS_PER_DAY
    ensures r % MS_PER_DAY == 0
    ensures DayOf(r) == DayOf(t)
  {
    Midnight(DayOf(t))
  }

  /** `moment(a).isSame(b, 'day')`. */
  predicate SameDay(a: int, b: int) {
    DayOf(a) == DayOf(b)
  }

  /** Day of the week of day `d`, Sunday = 0 ... Saturday = 6. */
  function Weekday(d: int): (w: int)
    ensures 0 <= w < 7
  {
    (d + 4) % 7
  }

  /** The Sunday that opens the week containing day `d`. */
  function WeekStartDay(d: int): (r: int)
    ensures r <= d < r + 7
    ensures Weekday(r) == 0
    ensures d - r == Weekday(d)
  {
    d - Weekday(d)
  }

  /** `moment(t).startOf('week')`: midnight of the Sunday on or before `t`. */
  function StartOfWeek(t: int): (r: int)
    ensures r <= t < r + 7 * MS_PER_DAY
    ensures r % MS_PER_DAY == 0
    ensures Weekday(DayOf(r)) == 0
  {
    Midnight(WeekStartDay(DayOf(t)))
  }

  /** An instant lies on day `d` exactly when it lies in the half-open interval
      from midnight of `d` to midnight of the next day. */
  lemma DayOfIff(t: int, d: int)
    ensures DayOf(t) == d <==> Midnight(d) <= t < Midnight(d + 1)
  {
  }

  /** Every day of a week has that week's Sunday as its week start. */
  lemma WeekStartWithinWeek(w: int, k: int)
    requires Weekday(w) == 0 && 0 <= k < 7
    ensures WeekStartDay(w + k) == w
  {
  }
}
