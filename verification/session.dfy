/** What the user interface can do to the store. The week summary dispatches
    SELECT_DATE, the date selector CHANGE_DATE_DRAFT and SELECT_DATE_DRAFT, the
    new-entry form UPDATE_NEW_ENTRY_FIELD and, through its submit guard only,
    ADD_ENTRY. */
module Session {
  import opened Calendar
  import opened Entries
  import opened Reducer
  import opened NewEntryForm
  import opened WeekSummary

  datatype Intent =
    | ClickWeekDay(date: int)
    | PickDraftDate(date: int)
    | PressSelect
    | EditField(update: FieldUpdate)
    | PressSubmit

  /** The state after one user intent. */
  function Step(s: AppState, i: Intent): (t: AppState)
    ensures |s.entries| <= |t.entries| <= |s.entries| + 1
    ensures t.entries[..|s.entries|] == s.entries
    ensures !i.PressSubmit? ==> t.entries == s.entries
    ensures forall e :: e in t.entries ==> e in s.entries || ValidEntry(e)
  {
    match i
    case ClickWeekDay(date) => TimesheetApp(s, SelectDate(date))
    case PickDraftDate(date) => TimesheetApp(s, ChangeDateDraft(date))
    case PressSelect => TimesheetApp(s, SelectDateDraft)
    case EditField(u) => TimesheetApp(s, UpdateNewEntryField(u))
    case PressSubmit => SubmitForm(s)
  }

  /** The state after a sequence of intents, applied one at a time in order. */
  function Run(s: AppState, intents: seq<Intent>): AppState
    decreases |intents|
  {
    if intents == [] then s else Run(Step(s, intents[0]), intents[1..])
  }

  predicate AllValid(entries: seq<Entry>) {
    forall e :: e in entries ==> ValidEntry(e)
  }

  /** Entries created through the interface all have a visible name and distinct
      bounds. */
  lemma {:induction false} RunPreservesValidEntries(s: AppState, intents: seq<Intent>)
    requires AllValid(s.entries)
    ensures AllValid(Run(s, intents).entries)
    decreases |intents|
  {
    if intents != [] {
      var t := Step(s, intents[0]);
      RunPreservesValidEntries(t, intents[1..]);
    }
  }

  /** The entry list only grows: every earlier entry stays in its place. */
  lemma {:induction false} RunAppendOnly(s: AppState, intents: seq<Intent>)
    ensures |s.entries| <= |Run(s, intents).entries|
    ensures Run(s, intents).entries[..|s.entries|] == s.entries
    decreases |intents|
  {
    if intents != [] {
      var t := Step(s, intents[0]);
      var u := Run(t, intents[1..]);
      RunAppendOnly(t, intents[1..]);
      assert u.entries[..|s.entries|] == u.entries[..|t.entries|][..|s.entries|];
    }
  }

  /** Clicking day `k` of the week summary keeps the same week on screen and
      makes exactly that day the selected one. */
  lemma ClickWeekDaySelectsIt(s: AppState, k: int, j: int)
    requires 0 <= k < 7 && 0 <= j < 7
    ensures var r := DailyHoursFromEntriesInSelectedWeek(s.selectedDate, s.entries);
      var t := Step(s, ClickWeekDay(r[k].date));
      var r' := DailyHoursFromEntriesInSelectedWeek(t.selectedDate, t.entries);
      && r'[j].date == r[j].date
      && (r'[j].isSelected <==> j == k)
  {
    var w := WeekStartDay(DayOf(s.selectedDate));
    var r := DailyHoursFromEntriesInSelectedWeek(s.selectedDate, s.entries);
    var d := Midnight(w + k);
    assert r[k].date == d;
    WeekStartWithinWeek(w, k);
    assert DayOf(d) == w + k;
    assert WeekStartDay(DayOf(d)) == w;
    var r' := DailyHoursFromEntriesInSelectedWeek(d, s.entries);
    assert Step(s, ClickWeekDay(d)) == TimesheetApp(s, SelectDate(d));
    assert r'[j].date == Midnight(WeekStartDay(DayOf(d)) + j);
    assert r'[j].date == Midnight(w + j) == r[j].date;
    assert Midnight(w + j) == d ==> j == k;
  }
}
