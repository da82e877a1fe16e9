/** The application state and the `timesheetApp` reducer. */
module Reducer {
  import opened Wrappers
  import opened Entries

  /** The new-entry form's draft. A bound is None when the date picker has been
      cleared (it reports `null`). */
  datatype NewEntry = NewEntry(name: string, beginsOn: Option<int>, endsOn: Option<int>)

  datatype AppState = AppState(
    entries: seq<Entry>,
    selectedDate: int,
    selectedDateDraft: int,
    newEntry: NewEntry)

  /** `UPDATE_NEW_ENTRY_FIELD` as a closed variant: which field, and its new value. */
  datatype FieldUpdate =
    | Name(text: string)
    | BeginsOn(at: Option<int>)
    | EndsOn(at: Option<int>)

  datatype Action =
    | SelectDate(date: int)
    | ChangeDateDraft(date: int)
    | SelectDateDraft
    | UpdateNewEntryField(update: FieldUpdate)
    | AddEntry(entry: Entry)
    | Other   // any action type the reducer does not handle, e.g. the store's own init action

  /** The form draft with one field replaced. */
  function WithField(ne: NewEntry, u: FieldUpdate): (r: NewEntry)
    ensures u.Name? ==> r.name == u.text && r.beginsOn == ne.beginsOn && r.endsOn == ne.endsOn
    ensures u.BeginsOn? ==> r.beginsOn == u.at && r.name == ne.name && r.endsOn == ne.endsOn
    ensures u.EndsOn? ==> r.endsOn == u.at && r.name == ne.name && r.beginsOn == ne.beginsOn
  {
    match u
    case Name(text) => ne.(name := text)
    case BeginsOn(at) => ne.(beginsOn := at)
    case EndsOn(at) => ne.(endsOn := at)
  }

  /** `timesheetApp(state, action)`. */
  function TimesheetApp(s: AppState, a: Action): (t: AppState)
    // the committed date changes only through SELECT_DATE and SELECT_DATE_DRAFT
    ensures !a.SelectDate? && !a.SelectDateDraft? ==> t.selectedDate == s.selectedDate
    // the draft date changes only through SELECT_DATE and CHANGE_DATE_DRAFT
    ensures !a.SelectDate? && !a.ChangeDateDraft? ==> t.selectedDateDraft == s.selectedDateDraft
    // entries are append-only, and only ADD_ENTRY appends
    ensures |t.entries| == |s.entries| + (if a.AddEntry? then 1 else 0)
    ensures t.entries[..|s.entries|] == s.entries
    // the form draft changes only through UPDATE_NEW_ENTRY_FIELD and ADD_ENTRY
    ensures !a.UpdateNewEntryField? && !a.AddEntry? ==> t.newEntry == s.newEntry
  {
    match a
    case SelectDate(date) => s.(selectedDate := date, selectedDateDraft := date)
    case ChangeDateDraft(date) => s.(selectedDateDraft := date)
    case SelectDateDraft => s.(selectedDate := s.selectedDateDraft, selectedDateDraft := s.selectedDateDraft)
    case UpdateNewEntryField(u) => s.(newEntry := WithField(s.newEntry, u))
    case AddEntry(e) => s.(newEntry := s.newEntry.(name := ""), entries := s.entries + [e])
    case Other => s
  }

  /** The date selector is in draft mode while the picked date differs from the
      committed one, that is, exactly when pressing Select would change the state. */
  predicate IsDraft(s: AppState)
    ensures IsDraft(s) <==> TimesheetApp(s, SelectDateDraft) != s
  {
    s.selectedDateDraft != s.selectedDate
  }

  /** SELECT_DATE commits the date and leaves the selector out of draft mode;
      nothing else changes. */
  lemma SelectDateEffect(s: AppState, x: int)
    ensures var t := TimesheetApp(s, SelectDate(x));
      && t.selectedDate == x && !IsDraft(t)
      && t.entries == s.entries && t.newEntry == s.newEntry
  {
  }

  /** CHANGE_DATE_DRAFT moves only the draft; the selector is in draft mode
      exactly when the new draft differs from the committed date. */
  lemma ChangeDateDraftEffect(s: AppState, x: int)
    ensures var t := TimesheetApp(s, ChangeDateDraft(x));
      && t.selectedDateDraft == x
      && t.selectedDate == s.selectedDate && t.entries == s.entries && t.newEntry == s.newEntry
      && (IsDraft(t) <==> x != s.selectedDate)
  {
  }

  /** SELECT_DATE_DRAFT commits the draft: afterwards the selector is not in
      draft mode, and committing again changes nothing. */
  lemma SelectDateDraftCommits(s: AppState)
    ensures var t := TimesheetApp(s, SelectDateDraft);
      && t.selectedDate == s.selectedDateDraft && t.selectedDateDraft == s.selectedDateDraft
      && !IsDraft(t)
      && t.entries == s.entries && t.newEntry == s.newEntry
      && TimesheetApp(t, SelectDateDraft) == t
  {
  }

  /** Picking a draft date and then pressing Select is the same as selecting
      that date directly. */
  lemma ChangeThenCommitIsSelect(s: AppState, x: int)
    ensures TimesheetApp(TimesheetApp(s, ChangeDateDraft(x)), SelectDateDraft)
         == TimesheetApp(s, SelectDate(x))
  {
  }

  /** Editing a field changes that field of the form draft and nothing else in
      the state; the last edit to a field wins, and edits to different fields
      commute. */
  lemma UpdateFieldEffect(s: AppState, u: FieldUpdate, v: FieldUpdate)
    ensures var t := TimesheetApp(s, UpdateNewEntryField(u));
      && t.entries == s.entries && t.selectedDate == s.selectedDate
      && t.selectedDateDraft == s.selectedDateDraft
      && t.newEntry == WithField(s.newEntry, u)
    ensures u.Name? == v.Name? && u.BeginsOn? == v.BeginsOn? ==>
      TimesheetApp(TimesheetApp(s, UpdateNewEntryField(u)), UpdateNewEntryField(v))
        == TimesheetApp(s, UpdateNewEntryField(v))
    ensures (u.Name? != v.Name? || u.BeginsOn? != v.BeginsOn?) ==>
      TimesheetApp(TimesheetApp(s, UpdateNewEntryField(u)), UpdateNewEntryField(v))
        == TimesheetApp(TimesheetApp(s, UpdateNewEntryField(v)), UpdateNewEntryField(u))
  {
  }

  /** ADD_ENTRY appends its entry unconditionally, clears the draft name and keeps
      the draft bounds. */
  lemma AddEntryEffect(s: AppState, e: Entry)
    ensures var t := TimesheetApp(s, AddEntry(e));
      && t.entries == s.entries + [e]
      && t.entries[|s.entries|] == e
      && t.newEntry == NewEntry("", s.newEntry.beginsOn, s.newEntry.endsOn)
      && t.selectedDate == s.selectedDate && t.selectedDateDraft == s.selectedDateDraft
  {
  }

  /** Any other action leaves the state as it was. */
  lemma OtherActionIsIdentity(s: AppState)
    ensures TimesheetApp(s, Other) == s
  {
  }
}
