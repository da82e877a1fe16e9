/** The seven-day hour summary for the week containing the selected date
    (`dailyHoursFromEntriesInSelectedWeek`). */
module WeekSummary {
  import opened Calendar
  import opened Entries
  import opened Hours
  import opened DayFilter

  /** One day of the summary: its midnight, the hours logged on it, and whether
      it is the selected date. */
  datatype DailyHour = DailyHour(date: int, hours: real, isSelected: bool)

  /** The `reduce` over a day's entries: the sum of each entry's hours on the day
      of `date`. */
  function SumHours(date: int, entries: seq<Entry>): (r: real)
    // each entry adds at most one day's worth of hours
    ensures r <= 24.0 * |entries| as real
    // well-ordered entries kept by the day filter never pull the total below zero
    ensures (forall e :: e in entries ==> WellOrdered(e) && OnDay(date, e)) ==> r >= 0.0
    decreases |entries|
  {
    if entries == [] then 0.0
    else
      var e := entries[0];
      assert e in entries;
      assert forall x :: x in entries[1..] ==> x in entries;
      assert WellOrdered(e) && OnDay(date, e) ==> TotalHoursOnSelectedDate(date, e) >= 0.0 by {
        if WellOrdered(e) && OnDay(date, e) {
          HoursNonNegativeOnItsDay(date, e);
        }
      }
      TotalHoursOnSelectedDate(date, e) + SumHours(date, entries[1..])
  }

  /** Midnight of day `k` (0 = Sunday) of the week containing `selectedDate`. */
  function WeekDate(selectedDate: int, k: int): int {
    StartOfWeek(selectedDate) + k * MS_PER_DAY
  }

  /** The summary of the week (Sunday to Saturday) containing `selectedDate`:
      seven consecutive midnights, Sunday first, covering the selected date at
      the index of its weekday; each day totals the hours of the entries that
      begin or end on it, and is selected when its midnight is exactly the
      selected instant. */
  function DailyHoursFromEntriesInSelectedWeek(selectedDate: int, entries: seq<Entry>): (r: seq<DailyHour>)
    ensures |r| == 7
    ensures Weekday(DayOf(r[0].date)) == 0
    ensures forall k :: 0 <= k < 7 ==> r[k].date == Midnight(WeekStartDay(DayOf(selectedDate)) + k)
    ensures SameDay(r[Weekday(DayOf(selectedDate))].date, selectedDate)
    ensures forall k :: 0 <= k < 7 ==>
      r[k].hours == SumHours(r[k].date, EntriesForSelectedDate(r[k].date, entries))
    ensures forall k :: 0 <= k < 7 ==> (r[k].isSelected <==> r[k].date == selectedDate)
  {
    seq(7, k requires 0 <= k < 7 =>
      var date := WeekDate(selectedDate, k);
      DailyHour(date, SumHours(date, EntriesForSelectedDate(date, entries)), date == selectedDate))
  }

  /** An item is selected exactly when its midnight is the selected instant, so
      at most one item is selected. */
  lemma AtMostOneSelected(selectedDate: int, entries: seq<Entry>, i: int, j: int)
    requires 0 <= i < 7 && 0 <= j < 7
    ensures var r := DailyHoursFromEntriesInSelectedWeek(selectedDate, entries);
      r[i].isSelected && r[j].isSelected ==> i == j
  {
  }

  /** When the selected date is a midnight, exactly one item is selected: the one
      for its weekday. */
  lemma SelectedItemIsItsWeekday(selectedDate: int, entries: seq<Entry>, k: int)
    requires selectedDate % MS_PER_DAY == 0
    requires 0 <= k < 7
    ensures DailyHoursFromEntriesInSelectedWeek(selectedDate, entries)[k].isSelected
        <==> k == Weekday(DayOf(selectedDate))
  {
  }

  /** Because the comparison is on exact instants, a selected date carrying a time
      of day selects no item at all. */
  lemma NoneSelectedOffMidnight(selectedDate: int, entries: seq<Entry>, k: int)
    requires selectedDate % MS_PER_DAY != 0
    requires 0 <= k < 7
    ensures !DailyHoursFromEntriesInSelectedWeek(selectedDate, entries)[k].isSelected
  {
  }

  /** A well-ordered entry that begins or ends on a day has non-negative hours on
      it: the filter is what keeps the unclamped difference from going negative. */
  lemma HoursNonNegativeOnItsDay(date: int, e: Entry)
    requires WellOrdered(e) && OnDay(date, e)
    ensures TotalHoursOnSelectedDate(date, e) >= 0.0
  {
    DayOfIff(e.beginsOn, DayOf(date));
    DayOfIff(e.endsOn, DayOf(date));
  }

  /** Off the days it touches, a well-ordered entry has negative hours: one hour
      on day 0 counts as -47 hours on day 2. */
  lemma NegativeOffTheDay()
    ensures var e := Entry("Early", 0, MS_PER_HOUR);
      WellOrdered(e) && !OnDay(Midnight(2), e)
      && TotalHoursOnSelectedDate(Midnight(2), e) == -47.0
  {
  }

  /** If every stored entry is well-ordered, every day of the summary has a
      non-negative total. */
  lemma DailyHoursNonNegative(selectedDate: int, entries: seq<Entry>, k: int)
    requires forall e :: e in entries ==> WellOrdered(e)
    requires 0 <= k < 7
    ensures DailyHoursFromEntriesInSelectedWeek(selectedDate, entries)[k].hours >= 0.0
  {
  }

  /** A day on which no entry begins or ends shows zero hours, even when an entry
      covers it entirely. */
  lemma ZeroWithoutBoundaryOnDay(selectedDate: int, entries: seq<Entry>, k: int)
    requires 0 <= k < 7
    requires forall e :: e in entries ==> !OnDay(WeekDate(selectedDate, k), e)
    ensures DailyHoursFromEntriesInSelectedWeek(selectedDate, entries)[k].hours == 0.0
  {
    FilterEmptyIff(WeekDate(selectedDate, k), entries);
  }

  /** Summing over a concatenation sums each part. */
  lemma {:induction false} SumHoursAppend(date: int, a: seq<Entry>, b: seq<Entry>)
    ensures SumHours(date, a + b) == SumHours(date, a) + SumHours(date, b)
    decreases |a|
  {
    if a == [] {
      assert a + b == b;
    } else {
      assert (a + b)[1..] == a[1..] + b;
      SumHoursAppend(date, a[1..], b);
    }
  }

  /** Storing one more entry adds its hours to exactly the days of the week it
      begins or ends on, and leaves the other days as they were. */
  lemma AddedEntryHours(selectedDate: int, entries: seq<Entry>, e: Entry, k: int)
    requires 0 <= k < 7
    ensures var before := DailyHoursFromEntriesInSelectedWeek(selectedDate, entries);
      var after := DailyHoursFromEntriesInSelectedWeek(selectedDate, entries + [e]);
      after[k].hours == before[k].hours
        + (if OnDay(before[k].date, e) then TotalHoursOnSelectedDate(before[k].date, e) else 0.0)
  {
    var date := WeekDate(selectedDate, k);
    FilterAppend(date, entries, [e]);
    FilterSingleton(date, e);
    SumHoursAppend(date, EntriesForSelectedDate(date, entries), EntriesForSelectedDate(date, [e]));
  }

  /** An entry from Sunday noon to Wednesday noon covers Monday and Tuesday
      entirely, yet the summary shows zero hours on both. */
  lemma SpanningEntryIgnoredInBetween(sunday: int)
    requires Weekday(sunday) == 0
    ensures var e := Entry("Long shift", Midnight(sunday) + 12 * MS_PER_HOUR, Midnight(sunday + 3) + 12 * MS_PER_HOUR);
      var r := DailyHoursFromEntriesInSelectedWeek(Midnight(sunday), [e]);
      r[1].hours == 0.0 && r[2].hours == 0.0 && r[0].hours == 12.0 && r[3].hours == 12.0
  {
    var e := Entry("Long shift", Midnight(sunday) + 12 * MS_PER_HOUR, Midnight(sunday + 3) + 12 * MS_PER_HOUR);
    assert WeekStartDay(sunday) == sunday;
    forall k | 0 <= k < 4
      ensures EntriesForSelectedDate(WeekDate(Midnight(sunday), k), [e])
           == if k == 0 || k == 3 then [e] else []
    {
      assert WeekDate(Midnight(sunday), k) == Midnight(sunday + k);
      FilterSingleton(WeekDate(Midnight(sunday), k), e);
    }
    assert [e][1..] == [];
    assert SumHours(Midnight(sunday), [e]) == TotalHoursOnSelectedDate(Midnight(sunday), e);
    assert SumHours(Midnight(sunday + 3), [e]) == TotalHoursOnSelectedDate(Midnight(sunday + 3), e);
  }
}
