/** Which entries belong to a calendar day (`entriesForSelectedDate`). */
module DayFilter {
  import opened Calendar
  import opened Entries

  /** An entry belongs to the day of `date` when it begins or ends on that day.
      An entry that spans the whole day without beginning or ending on it does
      not belong to it. */
  predicate OnDay(date: int, e: Entry) {
    SameDay(e.beginsOn, date) || SameDay(e.endsOn, date)
  }

  /** `r` can be obtained from `s` by deleting elements, keeping the order. */
  ghost predicate IsSubsequence<T>(r: seq<T>, s: seq<T>)
    decreases |s|
  {
    if r == [] then true
    else if s == [] then false
    else (r[0] == s[0] && IsSubsequence(r[1..], s[1..])) || IsSubsequence(r, s[1..])
  }

  /** `entries.filter(...)`: the entries on the day of `date`, in their stored
      order, duplicates kept. */
  function EntriesForSelectedDate(date: int, entries: seq<Entry>): (r: seq<Entry>)
    ensures forall e :: e in r <==> e in entries && OnDay(date, e)
    ensures IsSubsequence(r, entries)
    ensures |r| <= |entries|
    decreases |entries|
  {
    if entries == [] then []
    else
      var rest := EntriesForSelectedDate(date, entries[1..]);
      if OnDay(date, entries[0]) then [entries[0]] + rest else rest
  }

  /** Filtering a concatenation filters each part; with the singleton case this
      says the filter neither reorders nor moves entries across each other. */
  lemma {:induction false} FilterAppend(date: int, a: seq<Entry>, b: seq<Entry>)
    ensures EntriesForSelectedDate(date, a + b)
         == EntriesForSelectedDate(date, a) + EntriesForSelectedDate(date, b)
    decreases |a|
  {
    if a != [] {
      assert (a + b)[1..] == a[1..] + b;
      FilterAppend(date, a[1..], b);
    } else {
      assert a + b == b;
    }
  }

  /** The filter comes back empty exactly when no entry begins or ends on the day. */
  lemma {:induction false} FilterEmptyIff(date: int, entries: seq<Entry>)
    ensures EntriesForSelectedDate(date, entries) == []
        <==> forall e :: e in entries ==> !OnDay(date, e)
    decreases |entries|
  {
    if entries != [] {
      FilterEmptyIff(date, entries[1..]);
      assert forall e :: e in entries <==> e == entries[0] || e in entries[1..];
    }
  }

  /** A single entry is kept exactly when it is on the day. */
  lemma FilterSingleton(date: int, e: Entry)
    ensures EntriesForSelectedDate(date, [e]) == if OnDay(date, e) then [e] else []
  {
  }

  /** The filter depends only on the calendar day of `date`, not its time of day. */
  lemma {:induction false} FilterIgnoresTimeOfDay(a: int, b: int, entries: seq<Entry>)
    requires SameDay(a, b)
    ensures EntriesForSelectedDate(a, entries) == EntriesForSelectedDate(b, entries)
    decreases |entries|
  {
    if entries != [] {
      FilterIgnoresTimeOfDay(a, b, entries[1..]);
    }
  }
}
