/** date-fns `parseISO` on the calendar-date forms of ISO 8601: `yyyy`, `yyyy-MM`,
    `yyyy-MM-dd` (each `-` optional), optionally followed by `T` or a space and a
    time `HH`, `HH:mm` or `HH:mm:ss` (each `:` optional). */
module Iso {
  import opened Wrappers
  import opened Text
  import opened Calendar

  predicate IsDateTimeDelimiter(c: char) { c == 'T' || c == ' ' }

  /** The index of the first `T` or space, if there is one. */
  function DelimiterIndex(s: string): (r: Option<nat>)
    ensures r.Some? ==> r.value < |s| && IsDateTimeDelimiter(s[r.value])
    ensures r.Some? ==> forall k :: 0 <= k < r.value ==> !IsDateTimeDelimiter(s[k])
    ensures r.None? ==> forall k :: 0 <= k < |s| ==> !IsDateTimeDelimiter(s[k])
  {
    if s == [] then None
    else if IsDateTimeDelimiter(s[0]) then Some(0)
    else match DelimiterIndex(s[1..]) {
      case None => None
      case Some(i) => Some(i + 1)
    }
  }

  /** Splitting on `/[T ]/`: more than two pieces, or a first piece with a colon
      (a time without a date), gives no date. */
  function SplitDateTime(s: string): Option<(string, string)> {
    match DelimiterIndex(s) {
      case None => if ':' in s then None else Some((s, ""))
      case Some(i) =>
        if DelimiterIndex(s[i + 1..]).Some? || ':' in s[..i] then None
        else Some((s[..i], s[i + 1..]))
    }
  }

  predicate TwoDigits(s: string) { |s| == 2 && AllDigits(s) }

  /** The part after the four-digit year: empty, `MM`, or `MM` and `dd`, each after an optional `-`. */
  function ParseMonthDay(r: string): Option<(int, int)> {
    var t := if |r| > 0 && r[0] == '-' then r[1..] else r;
    if t == [] then Some((1, 1))
    else if TwoDigits(t) then Some((DigitsValue(t), 1))
    else if |t| == 4 && AllDigits(t) then Some((DigitsValue(t[..2]), DigitsValue(t[2..])))
    else if |t| == 5 && t[2] == '-' && TwoDigits(t[..2]) && TwoDigits(t[3..]) then
      Some((DigitsValue(t[..2]), DigitsValue(t[3..])))
    else None
  }

  function ParseIsoDate(d: string): Option<(int, int, int)> {
    if |d| < 4 || !AllDigits(d[..4]) then None
    else match ParseMonthDay(d[4..]) {
      case None => None
      case Some((m, day)) => Some((DigitsValue(d[..4]), m, day))
    }
  }

  function DropColon(r: string): string {
    if |r| > 0 && r[0] == ':' then r[1..] else r
  }

  /** An empty time is midnight; otherwise `HH`, then optionally `mm`, then optionally `ss`. */
  function ParseIsoTime(t: string): Option<(int, int, int)> {
    if t == [] then Some((0, 0, 0))
    else if |t| < 2 || !TwoDigits(t[..2]) then None
    else
      var h := DigitsValue(t[..2]);
      var r := t[2..];
      if r == [] then Some((h, 0, 0))
      else
        var r1 := DropColon(r);
        if |r1| < 2 || !TwoDigits(r1[..2]) then None
        else
          var mi := DigitsValue(r1[..2]);
          var r2 := r1[2..];
          if r2 == [] then Some((h, mi, 0))
          else
            var r3 := DropColon(r2);
            if TwoDigits(r3) then Some((h, mi, DigitsValue(r3))) else None
  }

  /** `parseISO` followed by `isValid`: `None` is an invalid date. */
  function ParseIso(s: string): (r: Option<DateTime>)
    ensures r.Some? ==> Valid(r.value) && 0 <= r.value.year <= 9999
  {
    match SplitDateTime(s) {
      case None => None
      case Some((d, t)) =>
        match ParseIsoDate(d) {
          case None => None
          case Some((y, m, day)) =>
            match ParseIsoTime(t) {
              case None => None
              case Some((h, mi, sec)) =>
                var dt := DateTime(y, m, day, h, mi, sec);
                if Valid(dt) then Some(dt) else None
            }
        }
    }
  }

  lemma TwoDigitPad(n: nat)
    requires n < 100
    ensures TwoDigits(Pad(n, 2)) && DigitsValue(Pad(n, 2)) == n
  {
    PadWidth(n, 2);
    PadValue(n, 2);
  }

  lemma {:induction false} DelimiterIndexAfter(a: string, b: string)
    requires forall k :: 0 <= k < |a| ==> !IsDateTimeDelimiter(a[k])
    ensures DelimiterIndex(a + " " + b) == Some(|a|)
  {
    if a != [] {
      assert (a + " " + b)[1..] == a[1..] + " " + b;
      DelimiterIndexAfter(a[1..], b);
    }
  }

  lemma SplitDateTimeAt(date: string, time: string)
    requires forall k :: 0 <= k < |date| ==> !IsDateTimeDelimiter(date[k]) && date[k] != ':'
    requires forall k :: 0 <= k < |time| ==> !IsDateTimeDelimiter(time[k])
    ensures SplitDateTime(date + " " + time) == Some((date, time))
  {
    var s := date + " " + time;
    DelimiterIndexAfter(date, time);
    assert s[..|date|] == date && s[|date| + 1..] == time;
  }

  lemma IsoDatePart(y: string, mo: string, d: string)
    requires |y| == 4 && AllDigits(y) && TwoDigits(mo) && TwoDigits(d)
    ensures ParseIsoDate(y + "-" + mo + "-" + d) == Some((DigitsValue(y), DigitsValue(mo), DigitsValue(d)))
  {
    var date := y + "-" + mo + "-" + d;
    assert date[..4] == y && date[4..] == "-" + mo + "-" + d;
    MonthDayPart(mo, d);
    assert |date| >= 4 && AllDigits(date[..4]);
    assert ParseMonthDay(date[4..]) == Some((DigitsValue(mo), DigitsValue(d)));
  }

  lemma MonthDayPart(mo: string, d: string)
    requires TwoDigits(mo) && TwoDigits(d)
    ensures ParseMonthDay("-" + mo + "-" + d) == Some((DigitsValue(mo), DigitsValue(d)))
  {
    var r := "-" + mo + "-" + d;
    var t := mo + "-" + d;
    assert r[0] == '-' && r[1..] == t;
    assert |t| == 5 && t[2] == '-';
    assert t[..2] == mo && t[3..] == d;
  }

  lemma IsoTimePart(h: string, mi: string, se: string)
    requires TwoDigits(h) && TwoDigits(mi) && TwoDigits(se)
    ensures ParseIsoTime(h + ":" + mi + ":" + se) == Some((DigitsValue(h), DigitsValue(mi), DigitsValue(se)))
  {
    var time := h + ":" + mi + ":" + se;
    assert time[..2] == h && time[2..] == ":" + mi + ":" + se;
    assert DropColon(time[2..]) == mi + ":" + se;
    assert (mi + ":" + se)[..2] == mi && (mi + ":" + se)[2..] == ":" + se;
    assert DropColon(":" + se) == se;
  }

  /** What export writes, `parseISO` reads back: `yyyy-MM-dd HH:mm:ss` is an
      ISO 8601 form. The year read is the era year `format` wrote, which is the
      date's own year from year 1 on; it is `None` when that year lacks the day. */
  lemma FormatDateTimeIsIso(dt: DateTime)
    requires Valid(dt) && EraYear(dt.year) <= 9999
    ensures var e := dt.(year := EraYear(dt.year));
            ParseIso(FormatDateTime(dt)) == if Valid(e) then Some(e) else None
    ensures dt.year >= 1 ==> ParseIso(FormatDateTime(dt)) == Some(dt)
  {
    var ey := EraYear(dt.year);
    var date, time := FormattedParts(dt);
    assert ParseIsoDate(date) == Some((ey, dt.month, dt.day));
    assert ParseIsoTime(time) == Some((dt.hour, dt.minute, dt.second));
    assert DateTime(ey, dt.month, dt.day, dt.hour, dt.minute, dt.second) == dt.(year := ey);
  }

  /** The exported date-time splits into a date and a time part, which read
      as the era year, month and day, and the hour, minute and second. */
  lemma FormattedParts(dt: DateTime) returns (date: string, time: string)
    requires Valid(dt) && EraYear(dt.year) <= 9999
    ensures SplitDateTime(FormatDateTime(dt)) == Some((date, time))
    ensures ParseIsoDate(date) == Some((EraYear(dt.year), dt.month, dt.day))
    ensures ParseIsoTime(time) == Some((dt.hour, dt.minute, dt.second))
  {
    var ey := EraYear(dt.year);
    var y, mo, d := Pad(ey, 4), Pad(dt.month, 2), Pad(dt.day, 2);
    var h, mi, se := Pad(dt.hour, 2), Pad(dt.minute, 2), Pad(dt.second, 2);
    PadWidth(ey, 4);
    PadValue(ey, 4);
    TwoDigitPad(dt.month);
    TwoDigitPad(dt.day);
    TwoDigitPad(dt.hour);
    TwoDigitPad(dt.minute);
    TwoDigitPad(dt.second);
    date := y + "-" + mo + "-" + d;
    time := h + ":" + mi + ":" + se;
    assert FormatDateTime(dt) == date + " " + time;
    DigitsFieldsUndelimited(y, mo, d, '-');
    DigitsFieldsUndelimited(h, mi, se, ':');
    SplitDateTimeAt(date, time);
    IsoDatePart(y, mo, d);
    IsoTimePart(h, mi, se);
  }

  /** Year 0 does not survive export: `format` writes it as "0001", which
      `parseISO` reads as year 1, or as an invalid date on 29 February, a day
      year 0 has and year 1 lacks. */
  lemma YearZeroReadsAsYearOne(dt: DateTime)
    requires Valid(dt) && dt.year == 0
    ensures FormatDateTime(dt)[..4] == "0001"
    ensures ParseIso(FormatDateTime(dt)) == if dt.month == 2 && dt.day == 29 then None else Some(dt.(year := 1))
    ensures ParseIso(FormatDateTime(dt)) != Some(dt)
  {
    var e := dt.(year := 1);
    FormatDateTimeIsIso(dt);
    assert ParseIso(FormatDateTime(dt)) == if Valid(e) then Some(e) else None;
    LeapDayOnly(dt, 1);
    YearFieldOne(dt);
  }

  /** Moving a valid date of a leap year to a common year keeps it valid
      except on 29 February. */
  lemma LeapDayOnly(dt: DateTime, y: int)
    requires Valid(dt) && IsLeapYear(dt.year) && !IsLeapYear(y)
    ensures Valid(dt.(year := y)) <==> !(dt.month == 2 && dt.day == 29)
  {
  }

  /** A date of year 0 is written with the year field "0001". */
  lemma YearFieldOne(dt: DateTime)
    requires Valid(dt) && dt.year == 0
    ensures FormatDateTime(dt)[..4] == "0001"
  {
    PadWidth(1, 4);
    assert Pad(1, 4) == "0001";
    assert FormatDateTime(dt) == Pad(1, 4) + (FormatDateTime(dt)[4..]);
  }

  /** Digit fields joined by `-` or `:` hold no date-time delimiter, and no `:` when joined by `-`. */
  lemma DigitsFieldsUndelimited(a: string, b: string, c: string, sep: char)
    requires AllDigits(a) && AllDigits(b) && AllDigits(c) && (sep == '-' || sep == ':')
    ensures var s := a + [sep] + b + [sep] + c;
            forall k :: 0 <= k < |s| ==> !IsDateTimeDelimiter(s[k]) && (sep == '-' ==> s[k] != ':')
  {
    var s := a + [sep] + b + [sep] + c;
    forall k | 0 <= k < |s|
      ensures !IsDateTimeDelimiter(s[k]) && (sep == '-' ==> s[k] != ':')
    {
      if k < |a| { assert s[k] == a[k]; }
      else if k == |a| { assert s[k] == sep; }
      else if k < |a| + 1 + |b| { assert s[k] == b[k - |a| - 1]; }
      else if k == |a| + 1 + |b| { assert s[k] == sep; }
      else { assert s[k] == c[k - |a| - |b| - 2]; }
    }
  }
}
