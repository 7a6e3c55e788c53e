/** Civil (wall-clock) date-times at minute precision, as the moment library reads and writes
    them in this system: "YYYY-MM-DD" and "YYYY-MM-DD HH:MM" strings in the server's local zone. */
module CivilTime {
  import opened Text

  predicate IsLeapYear(y: nat) { y % 4 == 0 && (y % 100 != 0 || y % 400 == 0) }

  function DaysInYear(y: nat): nat { if IsLeapYear(y) then 366 else 365 }

  function DaysInMonth(y: nat, m: nat): (n: nat)
    requires 1 <= m <= 12
    ensures 28 <= n <= 31
  {
    if m == 2 then (if IsLeapYear(y) then 29 else 28)
    else if m == 4 || m == 6 || m == 9 || m == 11 then 30
    else 31
  }

  datatype DateTime = DateTime(year: nat, month: nat, day: nat, hour: nat, minute: nat)
  {
    /** A real wall-clock minute of the Gregorian calendar. */
    predicate Valid()
    {
      1 <= month <= 12 && 1 <= day <= DaysInMonth(year, month) && hour < 24 && minute < 60
    }
  }

  type Instant = t: DateTime | t.Valid() witness DateTime(1970, 1, 1, 0, 0)

  /** A moment value: either a valid instant or moment's "Invalid date". */
  datatype Moment = Invalid | At(t: Instant)

  function DaysBeforeYear(y: nat): nat
  {
    if y == 0 then 0 else DaysBeforeYear(y - 1) + DaysInYear(y - 1)
  }

  /** Days of year y that precede the first day of month m (m == 13: the whole year). */
  function DaysBeforeMonth(y: nat, m: nat): nat
    requires 1 <= m <= 13
  {
    (if m <= 12 then [0, 31, 59, 90, 120, 151, 181, 212, 243, 273, 304, 334][m - 1] else 365)
    + (if m > 2 && IsLeapYear(y) then 1 else 0)
  }

  lemma DaysBeforeNextMonth(y: nat, m: nat)
    requires 1 <= m <= 12
    ensures DaysBeforeMonth(y, m + 1) == DaysBeforeMonth(y, m) + DaysInMonth(y, m)
    ensures DaysBeforeMonth(y, 13) == DaysInYear(y)
  {
  }

  /** Days elapsed since 0000-01-01 (proleptic Gregorian). */
  function DayNumber(t: Instant): nat
  {
    DaysBeforeYear(t.year) + DaysBeforeMonth(t.year, t.month) + t.day - 1
  }

  /** Minutes elapsed since 0000-01-01 00:00. */
  function MinuteIndex(t: Instant): nat
  {
    DayNumber(t) * 1440 + t.hour * 60 + t.minute
  }

  /** The same wall-clock time on the following civil day. */
  function NextDay(t: Instant): (u: Instant)
    ensures u.hour == t.hour && u.minute == t.minute && u.year <= t.year + 1
    ensures DayNumber(u) == DayNumber(t) + 1
  {
    if t.day < DaysInMonth(t.year, t.month) then
      t.(day := t.day + 1)
    else if t.month < 12 then
      DaysBeforeNextMonth(t.year, t.month);
      t.(month := t.month + 1, day := 1)
    else
      DaysBeforeNextMonth(t.year, 12);
      DateTime(t.year + 1, 1, 1, t.hour, t.minute)
  }

  /** moment's add(1, 'hour') on a civil time without daylight saving. */
  function AddHour(t: Instant): (u: Instant)
    ensures MinuteIndex(u) == MinuteIndex(t) + 60
    ensures u.year <= t.year + 1
  {
    if t.hour < 23 then t.(hour := t.hour + 1)
    else NextDay(t).(hour := 0)
  }

  /** Calendar order of the civil days of two instants (time of day ignored). */
  predicate DayBefore(a: Instant, b: Instant)
  {
    a.year < b.year
    || (a.year == b.year && a.month < b.month)
    || (a.year == b.year && a.month == b.month && a.day < b.day)
  }

  predicate SameDay(a: Instant, b: Instant)
  {
    a.year == b.year && a.month == b.month && a.day == b.day
  }

  lemma {:induction false} DaysBeforeYearMonotone(y1: nat, y2: nat)
    requires y1 <= y2
    ensures DaysBeforeYear(y1) + DaysInYear(y1) <= DaysBeforeYear(y2) || y1 == y2
    decreases y2
  {
    if y1 < y2 {
      if y1 < y2 - 1 {
        DaysBeforeYearMonotone(y1, y2 - 1);
      }
    }
  }

  lemma {:induction false} DaysBeforeMonthMonotone(y: nat, m1: nat, m2: nat)
    requires 1 <= m1 < m2 <= 13
    ensures DaysBeforeMonth(y, m1) + DaysInMonth(y, m1) <= DaysBeforeMonth(y, m2)
    decreases m2 - m1
  {
    DaysBeforeNextMonth(y, m1);
    if m1 + 1 < m2 {
      DaysBeforeMonthMonotone(y, m1 + 1, m2);
    }
  }

  /** Day numbers follow calendar order, so they identify the civil day. */
  lemma DayNumberOrder(a: Instant, b: Instant)
    ensures DayBefore(a, b) <==> DayNumber(a) < DayNumber(b)
    ensures SameDay(a, b) <==> DayNumber(a) == DayNumber(b)
  {
    forall x: Instant, y: Instant | DayBefore(x, y) ensures DayNumber(x) < DayNumber(y) {
      if x.year < y.year {
        DaysBeforeYearMonotone(x.year, y.year);
        DaysBeforeMonthMonotone(x.year, x.month, 13);
      } else if x.month < y.month {
        DaysBeforeMonthMonotone(x.year, x.month, y.month);
      }
    }
  }

  /** Distinct instants have distinct minute indices: MinuteIndex is a faithful clock. */
  lemma MinuteIndexInjective(a: Instant, b: Instant)
    requires MinuteIndex(a) == MinuteIndex(b)
    ensures a == b
  {
    DayNumberOrder(a, b);
  }

  /** The instant one hour later is the unique instant sixty minutes on. */
  lemma AddHourUnique(t: Instant, u: Instant)
    requires MinuteIndex(u) == MinuteIndex(t) + 60
    ensures u == AddHour(t)
  {
    MinuteIndexInjective(u, AddHour(t));
  }

  // ---------------------------------------------------------------- text forms

  predicate DigitsAt(s: string, i: nat, n: nat)
  {
    i + n <= |s| && AllDigits(s[i..i + n])
  }

  /** "YYYY-MM-DD" at the start of s. */
  predicate DateShape(s: string)
  {
    |s| >= 10 && DigitsAt(s, 0, 4) && s[4] == '-' && DigitsAt(s, 5, 2) && s[7] == '-' && DigitsAt(s, 8, 2)
  }

  /** " HH:MM" after the date of a 16-character string. */
  predicate TimeShape(s: string)
  {
    |s| == 16 && s[10] == ' ' && DigitsAt(s, 11, 2) && s[13] == ':' && DigitsAt(s, 14, 2)
  }

  /** moment's reading of "YYYY-MM-DD" (midnight) and "YYYY-MM-DD HH:MM": fields out of range give
      an invalid date, and the ISO 8601 end-of-day form "24:00" is midnight of the following day.
      Every other string is an invalid date. */
  function Parse(s: string): (m: Moment)
    ensures m.At? ==> |s| == 10 || |s| == 16
  {
    if !(|s| == 10 || |s| == 16) || !DateShape(s) then Invalid
    else
      var y, mo, d := DigitsValue(s[0..4]), DigitsValue(s[5..7]), DigitsValue(s[8..10]);
      if !(1 <= mo <= 12 && 1 <= d <= DaysInMonth(y, mo)) then Invalid
      else if |s| == 10 then At(DateTime(y, mo, d, 0, 0))
      else if !TimeShape(s) then Invalid
      else
        var h, mi := DigitsValue(s[11..13]), DigitsValue(s[14..16]);
        if h < 24 && mi < 60 then At(DateTime(y, mo, d, h, mi))
        else if h == 24 && mi == 0 then At(NextDay(DateTime(y, mo, d, 0, 0)))
        else Invalid
  }

  /** moment's "YYYY" token: four digits, or all of them for years past 9999. */
  function YearText(y: nat): (s: string)
    ensures AllDigits(s)
    ensures y < 10000 ==> s == Pad4(y)
  {
    if y < 10000 then Pad4(y) else NatToString(y)
  }

  /** moment's format('YYYY-MM-DD'). */
  function FormatDate(t: Instant): (s: string)
    ensures t.year < 10000 ==> |s| == 10 && DateShape(s)
  {
    YearText(t.year) + "-" + Pad2(t.month) + "-" + Pad2(t.day)
  }

  /** moment's format('YYYY-MM-DD HH:mm'). */
  function FormatMinute(t: Instant): (s: string)
    ensures t.year < 10000 ==> |s| == 16 && DateShape(s) && TimeShape(s)
  {
    FormatDate(t) + " " + Pad2(t.hour) + ":" + Pad2(t.minute)
  }

  lemma FormatDateFields(t: Instant)
    requires t.year < 10000
    ensures FormatDate(t)[0..4] == Pad4(t.year)
    ensures FormatDate(t)[5..7] == Pad2(t.month)
    ensures FormatDate(t)[8..10] == Pad2(t.day)
    ensures forall k :: 0 <= k < 10 ==> FormatDate(t)[k] != ':'
  {
    var s := FormatDate(t);
    forall k | 0 <= k < 10 ensures s[k] != ':' {
      if k < 4 { assert s[k] == Pad4(t.year)[k]; }
      else if 5 <= k < 7 { assert s[k] == Pad2(t.month)[k - 5]; }
      else if 8 <= k { assert s[k] == Pad2(t.day)[k - 8]; }
    }
  }

  /** Reading back what FormatDate wrote gives midnight of the same day. */
  lemma ParseFormatDate(t: Instant)
    requires t.year < 10000
    ensures Parse(FormatDate(t)) == At(t.(hour := 0, minute := 0))
  {
    FormatDateFields(t);
  }

  /** Reading back what FormatMinute wrote gives the same instant. */
  lemma ParseFormatMinute(t: Instant)
    requires t.year < 10000
    ensures Parse(FormatMinute(t)) == At(t)
  {
    var s := FormatMinute(t);
    FormatDateFields(t);
    assert s[0..10] == FormatDate(t);
    assert s[0..4] == FormatDate(t)[0..4];
    assert s[5..7] == FormatDate(t)[5..7];
    assert s[8..10] == FormatDate(t)[8..10];
    assert s[11..13] == Pad2(t.hour);
    assert s[14..16] == Pad2(t.minute);
  }
}
