/** The submit handler of the new-entry form: the only place that decides
    whether `ADD_ENTRY` is dispatched. */
module NewEntryForm {
  import opened Wrappers
  import opened Entries
  import opened Reducer

  /** The characters `String.prototype.trim` strips: the ECMAScript WhiteSpace
      and LineTerminator code points. */
  predicate IsWhitespace(c: char) {
    var n := c as int;
    || (9 <= n <= 13)          // tab, line feed, vertical tab, form feed, carriage return
    || n == 0x20 || n == 0xA0 || n == 0x1680
    || (0x2000 <= n <= 0x200A)
    || n == 0x2028 || n == 0x2029 || n == 0x202F || n == 0x205F || n == 0x3000
    || n == 0xFEFF
  }

  /** The text has a character that `trim` keeps. */
  predicate HasVisibleChar(s: string) {
    exists i :: 0 <= i < |s| && !IsWhitespace(s[i])
  }

  /** Drops leading whitespace. */
  function TrimStart(s: string): (r: string)
    ensures |r| <= |s| && r == s[|s| - |r|..]
    ensures forall i :: 0 <= i < |s| - |r| ==> IsWhitespace(s[i])
    ensures r == [] || !IsWhitespace(r[0])
    decreases |s|
  {
    if s != [] && IsWhitespace(s[0]) then TrimStart(s[1..]) else s
  }

  /** Drops trailing whitespace. */
  function TrimEnd(s: string): (r: string)
    ensures |r| <= |s| && r == s[..|r|]
    ensures forall i :: |r| <= i < |s| ==> IsWhitespace(s[i])
    ensures r == [] || !IsWhitespace(r[|r| - 1])
    decreases |s|
  {
    if s != [] && IsWhitespace(s[|s| - 1]) then TrimEnd(s[..|s| - 1]) else s
  }

  /** `String.prototype.trim`. */
  function Trim(s: string): (r: string)
    ensures r == [] <==> !HasVisibleChar(s)
    ensures r != [] ==> !IsWhitespace(r[0]) && !IsWhitespace(r[|r| - 1])
  {
    var t := TrimStart(s);
    assert t != [] ==> t[0] == s[|s| - |t|];
    TrimEnd(t)
  }

  /** The form's `onSubmit`: dispatch `ADD_ENTRY` with the form's fields only when
      the trimmed name is non-empty, both bounds are set, and the bounds differ.
      Whitespace around the name is kept in the dispatched entry. */
  function Submit(ne: NewEntry): (a: Option<Action>)
    ensures a.Some? <==>
      HasVisibleChar(ne.name) && ne.beginsOn.Some? && ne.endsOn.Some?
      && ne.beginsOn.value != ne.endsOn.value
    ensures a.Some? ==>
      a.value.AddEntry? && a.value.entry == Entry(ne.name, ne.beginsOn.value, ne.endsOn.value)
  {
    var isValid := Trim(ne.name) != [] && ne.beginsOn.Some? && ne.endsOn.Some?;
    if !isValid then None
    else if ne.beginsOn.value == ne.endsOn.value then None
    else Some(AddEntry(Entry(ne.name, ne.beginsOn.value, ne.endsOn.value)))
  }

  /** An entry the form can create. */
  predicate ValidEntry(e: Entry) {
    HasVisibleChar(e.name) && e.beginsOn != e.endsOn
  }

  /** Pressing submit, then reducing whatever was dispatched (nothing, if the
      guard returned early). A rejected submission leaves the whole state
      unchanged; an accepted one appends exactly one valid entry built from the
      draft, clears the draft name and keeps the draft bounds and the dates. */
  function SubmitForm(s: AppState): (t: AppState)
    ensures Submit(s.newEntry).None? ==> t == s
    ensures Submit(s.newEntry).Some? ==>
      t.entries == s.entries + [Entry(s.newEntry.name, s.newEntry.beginsOn.value, s.newEntry.endsOn.value)]
    ensures Submit(s.newEntry).Some? ==> ValidEntry(t.entries[|s.entries|])
    ensures Submit(s.newEntry).Some? ==> t.newEntry == NewEntry("", s.newEntry.beginsOn, s.newEntry.endsOn)
    ensures t.selectedDate == s.selectedDate && t.selectedDateDraft == s.selectedDateDraft
  {
    match Submit(s.newEntry)
    case None => s
    case Some(a) => TimesheetApp(s, a)
  }

  /** A whitespace-only name is rejected, whatever the bounds. */
  lemma BlankNameRejected(s: AppState)
    requires forall i :: 0 <= i < |s.newEntry.name| ==> IsWhitespace(s.newEntry.name[i])
    ensures SubmitForm(s) == s
  {
  }

  /** The guard only compares the bounds for equality, so an entry that ends
      before it begins is accepted. */
  lemma ReversedBoundsAccepted(s: AppState)
    requires s.newEntry == NewEntry("Backwards", Some(2 * 3_600_000), Some(3_600_000))
    ensures |SubmitForm(s).entries| == |s.entries| + 1
    ensures !WellOrdered(SubmitForm(s).entries[|s.entries|])
  {
    assert "Backwards"[0] == 'B' && !IsWhitespace('B');
    assert Submit(s.newEntry).Some?;
  }
}
