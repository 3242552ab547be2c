/**
 * Calendar dates, UTC timestamps, and the date-only form `YYYY-MM-DD` of
 * `datetime.fromisoformat` that the provider's "latest trading day" field uses.
 */
module Calendar {
  import opened Wrappers
  import opened Digits

  datatype Date = Date(year: nat, month: nat, day: nat)

  /** An instant in UTC: a calendar date and the microseconds elapsed since its midnight. */
  datatype Timestamp = Timestamp(date: Date, micros: nat)

  /** Midnight UTC at the start of `d`: what `fromisoformat(day).replace(tzinfo=utc)` gives. */
  function Midnight(d: Date): Timestamp {
    Timestamp(d, 0)
  }

  predicate IsLeapYear(y: nat) {
    y % 4 == 0 && (y % 100 != 0 || y % 400 == 0)
  }

  function DaysInMonth(y: nat, m: nat): nat
    requires 1 <= m <= 12
  {
    if m == 2 then (if IsLeapYear(y) then 29 else 28)
    else if m == 4 || m == 6 || m == 9 || m == 11 then 30
    else 31
  }

  /** The dates Python's `date` type can hold: years 1 to 9999 and real days of real months. */
  predicate ValidDate(d: Date) {
    1 <= d.year <= 9999 && 1 <= d.month <= 12 && 1 <= d.day <= DaysInMonth(d.year, d.month)
  }

  /** The ISO 8601 calendar-date text of `d`: four-digit year, two-digit month and day. */
  function IsoText(d: Date): string {
    Fixed(d.year, 4) + "-" + Fixed(d.month, 2) + "-" + Fixed(d.day, 2)
  }

  /** `datetime.fromisoformat(s)` for the date-only form: exactly ten characters, dashes at
      positions 4 and 7, ASCII digits elsewhere, naming a valid date. Anything else raises,
      which is `None` here. What it accepts is exactly the ISO text of the date it returns. */
  function ParseIsoDate(s: string): (r: Option<Date>)
    ensures r.Some? ==> ValidDate(r.value) && IsoText(r.value) == s
  {
    if |s| == 10 && s[4] == '-' && s[7] == '-'
       && AllDigits(s[..4]) && AllDigits(s[5..7]) && AllDigits(s[8..])
    then
      var d := Date(ValueOf(s[..4]), ValueOf(s[5..7]), ValueOf(s[8..]));
      if ValidDate(d) then
        IsoTextOfFields(s);
        Some(d)
      else None
    else None
  }

  lemma IsoTextOfFields(s: string)
    requires |s| == 10 && s[4] == '-' && s[7] == '-'
    requires AllDigits(s[..4]) && AllDigits(s[5..7]) && AllDigits(s[8..])
    ensures IsoText(Date(ValueOf(s[..4]), ValueOf(s[5..7]), ValueOf(s[8..]))) == s
  {
    var y, m, d := s[..4], s[5..7], s[8..];
    FixedOfValue(y);
    FixedOfValue(m);
    FixedOfValue(d);
    assert |y| == 4 && |m| == 2 && |d| == 2;
    assert s == y + "-" + m + "-" + d;
  }

  /** Every valid date parses back from its ISO text. */
  lemma ParseIsoText(d: Date)
    requires ValidDate(d)
    ensures ParseIsoDate(IsoText(d)) == Some(d)
  {
    var s := IsoText(d);
    assert Pow10(4) == 10000 && Pow10(2) == 100;
    FixedValue(d.year, 4);
    FixedValue(d.month, 2);
    FixedValue(d.day, 2);
    assert s[..4] == Fixed(d.year, 4);
    assert s[5..7] == Fixed(d.month, 2);
    assert s[8..] == Fixed(d.day, 2);
  }
}
