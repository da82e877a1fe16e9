/** How many hours of an entry fall on one calendar day
    (`totalHoursOnSelectedDate` and `hoursBetween`). */
module Hours {
  import opened Calendar
  import opened Entries

  function Max(a: int, b: int): int { if a >= b then a else b }
  function Min(a: int, b: int): int { if a <= b then a else b }

  /** `moment.duration(to.diff(from)).asHours()`: the signed length of the span
      from `from` to `to`, in exact hours. It is negative when `to` comes first;
      nothing clamps it. */
  function HoursBetween(from: int, to: int): (h: real)
    ensures h * (MS_PER_HOUR as real) == (to - from) as real
    ensures h >= 0.0 <==> from <= to
  {
    (to - from) as real / MS_PER_HOUR as real
  }

  /** Consecutive spans add up. */
  lemma HoursBetweenAdditive(a: int, b: int, c: int)
    ensures HoursBetween(a, b) + HoursBetween(b, c) == HoursBetween(a, c)
  {
  }

  /** The hours of `e` that lie on the calendar day containing `date`: from the
      later of the entry's start and that day's midnight, to the earlier of the
      entry's end and the next midnight. */
  function TotalHoursOnSelectedDate(date: int, e: Entry): (h: real)
    ensures h <= 24.0
    ensures h >= 0.0 <==>
      WellOrdered(e) && StartOfDay(date) <= e.endsOn && e.beginsOn <= StartOfDay(date) + MS_PER_DAY
  {
    var from := Max(e.beginsOn, StartOfDay(date));
    var to := Min(e.endsOn, StartOfDay(date) + MS_PER_DAY);
    HoursBetween(from, to)
  }

  /** An entry that starts and ends within one day contributes its whole
      duration to that day. */
  lemma WithinOneDay(date: int, e: Entry)
    requires StartOfDay(date) <= e.beginsOn <= e.endsOn <= StartOfDay(date) + MS_PER_DAY
    ensures TotalHoursOnSelectedDate(date, e) == HoursBetween(e.beginsOn, e.endsOn)
  {
  }

  /** Sum of the entry's hours over the `n` consecutive days starting at day `lo`. */
  function HoursOverDays(e: Entry, lo: int, n: nat): real
    decreases n
  {
    if n == 0 then 0.0
    else HoursOverDays(e, lo, n - 1) + TotalHoursOnSelectedDate(Midnight(lo + n - 1), e)
  }

  /** Over the first `n` days of a well-ordered entry, the per-day hours add up to
      the part of the entry before midnight of day `DayOf(beginsOn) + n`. */
  lemma {:induction false} HoursOverDaysPrefix(e: Entry, n: nat)
    requires WellOrdered(e)
    requires 1 <= n <= DayOf(e.endsOn) - DayOf(e.beginsOn) + 1
    ensures HoursOverDays(e, DayOf(e.beginsOn), n)
         == HoursBetween(e.beginsOn, Min(e.endsOn, Midnight(DayOf(e.beginsOn) + n)))
    decreases n
  {
    var lo := DayOf(e.beginsOn);
    DayOfIff(e.beginsOn, lo);
    DayOfIff(e.endsOn, DayOf(e.endsOn));
    if n > 1 {
      HoursOverDaysPrefix(e, n - 1);
      var mid := Midnight(lo + n - 1);
      assert Min(e.endsOn, mid) == mid;
      assert TotalHoursOnSelectedDate(mid, e) == HoursBetween(mid, Min(e.endsOn, Midnight(lo + n)));
      HoursBetweenAdditive(e.beginsOn, mid, Min(e.endsOn, Midnight(lo + n)));
    }
  }

  /** Splitting a well-ordered entry across every calendar day it touches loses
      and duplicates nothing: the per-day hours from its first to its last day sum
      to its whole duration. */
  lemma SplitAcrossDays(e: Entry)
    requires WellOrdered(e)
    ensures HoursOverDays(e, DayOf(e.beginsOn), DayOf(e.endsOn) - DayOf(e.beginsOn) + 1)
         == HoursBetween(e.beginsOn, e.endsOn)
  {
    var n := DayOf(e.endsOn) - DayOf(e.beginsOn) + 1;
    HoursOverDaysPrefix(e, n);
    DayOfIff(e.endsOn, DayOf(e.endsOn));
  }

  /** An entry that crosses one midnight is split between the two days it touches,
      and the two parts add up to its duration. */
  lemma AcrossMidnight(e: Entry)
    requires WellOrdered(e)
    requires DayOf(e.endsOn) == DayOf(e.beginsOn) + 1
    ensures TotalHoursOnSelectedDate(e.beginsOn, e) + TotalHoursOnSelectedDate(e.endsOn, e)
         == HoursBetween(e.beginsOn, e.endsOn)
  {
  }
}
