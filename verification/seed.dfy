/** The store's initial state (`initialData.js`), with the wall clock replaced by
    the parameter `now`. */
module Seed {
  import opened Wrappers
  import opened Calendar
  import opened Entries
  import opened Hours
  import opened DayFilter
  import opened WeekSummary
  import opened Reducer
  import opened NewEntryForm

  /** 09:00-15:30 on day `w`, the first day of the week. */
  function Mowing(w: int): Entry {
    Entry("Mowing lawns", Midnight(w) + 9 * MS_PER_HOUR, Midnight(w) + 15 * MS_PER_HOUR + 30 * 60_000)
  }

  /** 22:00 on day `w + 1` to 07:30 on day `w + 2`. */
  function Overnight(w: int): Entry {
    Entry("Overnight security watch",
      Midnight(w + 1) + 22 * MS_PER_HOUR,
      Midnight(w + 2) + 7 * MS_PER_HOUR + 30 * 60_000)
  }

  /** Today's midnight is both the selected and the draft date and both form
      bounds; the form name is empty; two example entries lie in the week of
      today, which starts on day `w`. */
  function SeedState(now: int): (s: AppState)
    ensures s.selectedDate == s.selectedDateDraft == StartOfDay(now)
    ensures !IsDraft(s)
    ensures forall e :: e in s.entries ==> ValidEntry(e) && WellOrdered(e)
    ensures SubmitForm(s) == s
  {
    var today := StartOfDay(now);
    var w := WeekStartDay(DayOf(today));
    assert !IsWhitespace("Mowing lawns"[0]);
    assert !IsWhitespace("Overnight security watch"[0]);
    AppState([Mowing(w), Overnight(w)], today, today, NewEntry("", Some(today), Some(today)))
  }

  /** Which seed entries belong to each day of the week starting on day `w`. */
  lemma SeedEntriesPerDay(w: int, k: int)
    requires 0 <= k < 7
    ensures EntriesForSelectedDate(Midnight(w + k), [Mowing(w), Overnight(w)])
        == if k == 0 then [Mowing(w)]
           else if k == 1 || k == 2 then [Overnight(w)]
           else []
  {
    var date := Midnight(w + k);
    var m := Mowing(w);
    var o := Overnight(w);
    assert [m, o] == [m] + [o];
    FilterAppend(date, [m], [o]);
    FilterSingleton(date, m);
    FilterSingleton(date, o);
    DayOfIff(m.beginsOn, w);
    DayOfIff(m.endsOn, w);
    DayOfIff(o.beginsOn, w + 1);
    DayOfIff(o.endsOn, w + 2);
  }

  /** The hours the seed entries contribute on the days that list them. */
  lemma SeedDayHours(w: int, k: int)
    requires 0 <= k < 3
    ensures SumHours(Midnight(w + k), [if k == 0 then Mowing(w) else Overnight(w)])
        == [6.5, 2.0, 7.5][k]
  {
    var date := Midnight(w + k);
    var e := if k == 0 then Mowing(w) else Overnight(w);
    assert StartOfDay(date) == date;
    assert [e][1..] == [];
    assert SumHours(date, [e]) == TotalHoursOnSelectedDate(date, e);
  }

  /** The seed week reads 6.5 hours on the first day, 2 and 7.5 on the days the
      overnight watch straddles, and nothing on the rest. */
  lemma SeedWeekHours(now: int, k: int)
    requires 0 <= k < 7
    ensures var s := SeedState(now);
      DailyHoursFromEntriesInSelectedWeek(s.selectedDate, s.entries)[k].hours
        == [6.5, 2.0, 7.5, 0.0, 0.0, 0.0, 0.0][k]
  {
    var s := SeedState(now);
    var w := WeekStartDay(DayOf(now));
    assert s.entries == [Mowing(w), Overnight(w)];
    var date := Midnight(w + k);
    assert WeekDate(s.selectedDate, k) == date;
    var hours := SumHours(date, EntriesForSelectedDate(date, s.entries));
    assert DailyHoursFromEntriesInSelectedWeek(s.selectedDate, s.entries)[k].hours == hours;
    SeedEntriesPerDay(w, k);
    if k < 3 {
      SeedDayHours(w, k);
    }
  }

  /** The item for today is the selected one. */
  lemma SeedWeekSelection(now: int, k: int)
    requires 0 <= k < 7
    ensures var s := SeedState(now);
      var r := DailyHoursFromEntriesInSelectedWeek(s.selectedDate, s.entries);
      r[k].isSelected <==> k == Weekday(DayOf(now))
  {
  }
}
