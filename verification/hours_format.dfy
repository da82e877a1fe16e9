/** The parts of the `H:MM` text `formatHours` builds from a fractional hour
    count. Number-to-digit rendering is not modelled; the text is described by
    its hour part, its minute part and whether a leading `0` is written before
    the minutes. */
module HoursFormat {

  datatype HoursText = HoursText(wholeHours: int, minutes: int, padded: bool)

  /** `Math.round`: the nearest integer, halves rounded up. */
  function Round(x: real): (n: int)
    ensures n as real - 0.5 <= x < n as real + 0.5
  {
    (x + 0.5).Floor
  }

  /** Number of decimal digits used to write `n`. */
  function DigitCount(n: nat): (d: nat)
    ensures d >= 1
    ensures n < 10 <==> d == 1
  {
    if n < 10 then 1 else 1 + DigitCount(n / 10)
  }

  /** Number of characters written after the colon. */
  function MinuteWidth(t: HoursText): nat
    requires t.minutes >= 0
  {
    (if t.padded then 1 else 0) + DigitCount(t.minutes)
  }

  /** `formatHours` as written: the floor of `hours`, then the fractional part
      turned into minutes with `Math.round`, padded with a `0` only when the
      minutes are below 9. */
  function FormatHours(hours: real): (t: HoursText)
    ensures t.wholeHours as real <= hours < t.wholeHours as real + 1.0
    ensures 0 <= t.minutes <= 60
    ensures t.minutes as real - 0.5 <= (hours - t.wholeHours as real) * 60.0 < t.minutes as real + 0.5
    ensures t.padded <==> t.minutes < 9
  {
    var wholeHours := hours.Floor;
    var remainingMinutes := Round((hours - wholeHours as real) * 60.0);
    HoursText(wholeHours, remainingMinutes, remainingMinutes < 9)
  }

  lemma FormatSixAndAHalf()
    ensures FormatHours(6.5) == HoursText(6, 30, false)
    ensures FormatHours(0.0) == HoursText(0, 0, true)
  {
  }

  /** Nine minutes are written without a leading zero: 6.15 hours reads "6:9". */
  lemma NineMinutesUnpadded()
    ensures FormatHours(6.15) == HoursText(6, 9, false)
    ensures MinuteWidth(FormatHours(6.15)) == 1
  {
  }

  /** A fraction that rounds up to a full hour is not carried: 0.995 hours reads
      "0:60" instead of "1:00". */
  lemma SixtyMinutesNotCarried()
    ensures FormatHours(0.995) == HoursText(0, 60, false)
  {
  }

  /** The evidently intended formatting: round the whole amount to the minute,
      carry full hours, and pad every single-digit minute count. */
  function FormatHoursCarried(hours: real): (t: HoursText)
    ensures 0 <= t.minutes < 60
    ensures t.wholeHours * 60 + t.minutes == Round(hours * 60.0)
    ensures MinuteWidth(t) == 2
  {
    var total := Round(hours * 60.0);
    HoursText(total / 60, total % 60, total % 60 < 10)
  }

  /** Where the written code produces no 60, the two agree on hour and minute
      parts (they differ only in padding at exactly nine minutes). */
  lemma CarriedAgreesBelowSixty(hours: real)
    requires FormatHours(hours).minutes < 60
    ensures FormatHoursCarried(hours).wholeHours == FormatHours(hours).wholeHours
    ensures FormatHoursCarried(hours).minutes == FormatHours(hours).minutes
    ensures (FormatHoursCarried(hours).padded == FormatHours(hours).padded)
        <==> FormatHours(hours).minutes != 9
  {
  }
}
