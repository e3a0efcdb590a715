/**
 * .NET `DateTime` values on the Gregorian calendar and their rendering
 * with the custom format "yyyy-MM-dd".
 */
module Dates {
  import opened Text

  /** Ticks (100 ns) in one day. */
  const TicksPerDay: int := 864_000_000_000

  /** A `DateTime`: a calendar date and the time of day in ticks. */
  datatype DateTime = DateTime(year: int, month: int, day: int, timeOfDay: int)

  predicate IsLeapYear(y: int)
  {
    (y % 4 == 0 && y % 100 != 0) || y % 400 == 0
  }

  function DaysInMonth(y: int, m: int): int
    requires 1 <= m <= 12
  {
    if m == 2 then (if IsLeapYear(y) then 29 else 28)
    else if m == 4 || m == 6 || m == 9 || m == 11 then 30
    else 31
  }

  /** The values a `DateTime` can hold: years 1 to 9999 of the Gregorian calendar. */
  predicate ValidDateTime(d: DateTime)
  {
    && 1 <= d.year <= 9999
    && 1 <= d.month <= 12
    && 1 <= d.day <= DaysInMonth(d.year, d.month)
    && 0 <= d.timeOfDay < TicksPerDay
  }

  /** `d.ToString("yyyy-MM-dd")`: zero-padded year, month and day joined by '-'. */
  function FormatDate(d: DateTime): (s: string)
    requires ValidDateTime(d)
    ensures |s| == 10 && s[4] == '-' && s[7] == '-'
    ensures forall i :: 0 <= i < 10 && i != 4 && i != 7 ==> IsDigit(s[i])
  {
    PadDigits(d.year, 4) + "-" + PadDigits(d.month, 2) + "-" + PadDigits(d.day, 2)
  }

  /**
   * Round trip: the three digit groups of the rendering read back as the
   * year, the month and the day; the time of day is not rendered.
   */
  lemma FormatDateRoundTrip(d: DateTime)
    requires ValidDateTime(d)
    ensures var s := FormatDate(d);
      DigitsValue(s[..4]) == d.year && DigitsValue(s[5..7]) == d.month && DigitsValue(s[8..]) == d.day
  {
    var s := FormatDate(d);
    assert s[..4] == PadDigits(d.year, 4);
    assert s[5..7] == PadDigits(d.month, 2);
    assert s[8..] == PadDigits(d.day, 2);
    PadDigitsValue(d.year, 4);
    PadDigitsValue(d.month, 2);
    PadDigitsValue(d.day, 2);
  }

  /** Two dates render alike exactly when they fall on the same calendar day. */
  lemma FormatDateSameDay(d: DateTime, e: DateTime)
    requires ValidDateTime(d) && ValidDateTime(e)
    ensures FormatDate(d) == FormatDate(e) <==> (d.year, d.month, d.day) == (e.year, e.month, e.day)
  {
    FormatDateRoundTrip(d);
    FormatDateRoundTrip(e);
  }
}
