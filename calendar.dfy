/** Calendar date-times in place of JavaScript `Date` objects: a tuple of fields
    with the Gregorian validity rules that date-fns applies, the two-digit-year
    window of its `yy` token, and the `yyyy-MM-dd HH:mm:ss` rendering used on export. */
module Calendar {
  import opened Text

  /** A local date and time to the second; time zones are not modelled. */
  datatype DateTime = DateTime(year: int, month: int, day: int, hour: int, minute: int, second: int)

  /** The year of the reference date that date-fns uses for two-digit years
      (the source passes the current time; the model fixes it). */
  const ReferenceYear: int := 2025

  predicate IsLeapYear(y: int) {
    y % 4 == 0 && (y % 100 != 0 || y % 400 == 0)
  }

  function DaysInMonth(y: int, m: int): (d: int)
    requires 1 <= m <= 12
    ensures 28 <= d <= 31
    ensures d == 29 <==> m == 2 && IsLeapYear(y)
    ensures d == 28 <==> m == 2 && !IsLeapYear(y)
  {
    if m == 2 then (if IsLeapYear(y) then 29 else 28)
    else if m == 4 || m == 6 || m == 9 || m == 11 then 30
    else 31
  }

  predicate ValidDate(y: int, m: int, d: int) {
    1 <= m <= 12 && 1 <= d <= DaysInMonth(y, m)
  }

  predicate ValidTime(h: int, mi: int, s: int) {
    0 <= h <= 23 && 0 <= mi <= 59 && 0 <= s <= 59
  }

  predicate Valid(dt: DateTime) {
    ValidDate(dt.year, dt.month, dt.day) && ValidTime(dt.hour, dt.minute, dt.second)
  }

  /** A key that orders valid date-times chronologically (it stands for `getTime()`,
      which only ever serves to compare two dates here). */
  function Timestamp(dt: DateTime): int {
    ((((dt.year * 12 + (dt.month - 1)) * 31 + (dt.day - 1)) * 24 + dt.hour) * 60 + dt.minute) * 60 + dt.second
  }

  /** Chronological order, field by field. */
  predicate Before(a: DateTime, b: DateTime) {
    if a.year != b.year then a.year < b.year
    else if a.month != b.month then a.month < b.month
    else if a.day != b.day then a.day < b.day
    else if a.hour != b.hour then a.hour < b.hour
    else if a.minute != b.minute then a.minute < b.minute
    else a.second < b.second
  }

  lemma TimestampOrdersChronologically(a: DateTime, b: DateTime)
    requires Valid(a) && Valid(b)
    ensures Timestamp(a) < Timestamp(b) <==> Before(a, b)
    ensures Timestamp(a) == Timestamp(b) <==> a == b
  {
    var da := (((a.month - 1) * 31 + (a.day - 1)) * 24 + a.hour) * 60 + a.minute;
    var db := (((b.month - 1) * 31 + (b.day - 1)) * 24 + b.hour) * 60 + b.minute;
    assert 0 <= da * 60 + a.second < 12 * 31 * 24 * 60 * 60;
    assert 0 <= db * 60 + b.second < 12 * 31 * 24 * 60 * 60;
    assert Timestamp(a) == a.year * (12 * 31 * 24 * 60 * 60) + (da * 60 + a.second);
    assert Timestamp(b) == b.year * (12 * 31 * 24 * 60 * 60) + (db * 60 + b.second);
  }

  /** date-fns `normalizeTwoDigitYear` for a reference year after 50 AD: the
      century is chosen so that the year falls within fifty years of the reference. */
  function NormalizeTwoDigitYear(twoDigitYear: int, currentYear: int): (y: int)
    requires 0 <= twoDigitYear < 100 && currentYear > 50
    ensures y % 100 == twoDigitYear
    ensures currentYear - 50 <= y < currentYear + 50
  {
    var rangeEnd := currentYear + 50;
    var rangeEndCentury := (rangeEnd / 100) * 100;
    var isPreviousCentury := twoDigitYear >= rangeEnd % 100;
    twoDigitYear + rangeEndCentury - (if isPreviousCentury then 100 else 0)
  }

  /** The year date-fns `format` prints for `yyyy`: the year of the era, so
      that year 0 (1 BC) prints as 1, year -1 (2 BC) as 2, and so on. */
  function EraYear(y: int): (e: nat)
    ensures e >= 1 && (y >= 1 ==> e == y)
  {
    if y <= 0 then 1 - y else y
  }

  /** `format(date, "yyyy-MM-dd HH:mm:ss")`. */
  function FormatDateTime(dt: DateTime): (s: string)
    requires Valid(dt)
  {
    Pad(EraYear(dt.year), 4) + "-" + Pad(dt.month, 2) + "-" + Pad(dt.day, 2) + " "
      + Pad(dt.hour, 2) + ":" + Pad(dt.minute, 2) + ":" + Pad(dt.second, 2)
  }
}
