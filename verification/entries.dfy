/** The timesheet's stored record: a named activity between two instants. */
module Entries {

  /** One time entry. Bounds are instants in milliseconds; nothing forces
      `beginsOn <= endsOn`, because the form that creates entries only checks
      that the two bounds differ. */
  datatype Entry = Entry(name: string, beginsOn: int, endsOn: int)

  /** The entry does not end before it begins. */
  predicate WellOrdered(e: Entry) {
    e.beginsOn <= e.endsOn
  }
}
