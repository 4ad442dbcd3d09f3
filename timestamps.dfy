/** Parsing of the export's date-time cells with the format "%d-%b-%y %H:%M"
    (pandas.to_datetime with errors='coerce'), and their encoding as whole minutes
    since 1970-01-01 00:00 on the proleptic Gregorian calendar. */
module Timestamps {
  import opened Wrappers
  import opened Text

  /** A local date-time at minute resolution (the format has no seconds and no zone). */
  datatype DateTime = DateTime(year: int, month: int, day: int, hour: int, minute: int)

  predicate IsLeapYear(y: int) {
    y % 4 == 0 && (y % 100 != 0 || y % 400 == 0)
  }

  function DaysInMonth(y: int, m: int): int {
    if m == 2 then (if IsLeapYear(y) then 29 else 28)
    else if m == 4 || m == 6 || m == 9 || m == 11 then 30
    else 31
  }

  function DaysInYear(y: int): int {
    if IsLeapYear(y) then 366 else 365
  }

  /** A real calendar date and a time of day (what datetime.date accepts). */
  predicate ValidDateTime(dt: DateTime) {
    && 1 <= dt.month <= 12
    && 1 <= dt.day <= DaysInMonth(dt.year, dt.month)
    && 0 <= dt.hour < 24
    && 0 <= dt.minute < 60
  }

  // ---------------------------------------------------------------------------
  // The parser. Python's strptime turns the format into the regular expression
  //   %d  3[01]|[12]\d|0[1-9]|[1-9]| [1-9]
  //   %b  the English month abbreviations, matched ignoring case
  //   %y  \d\d
  //   ' ' \s+
  //   %H  2[0-3]|[0-1]\d|\d
  //   %M  [0-5]\d|\d
  // and pandas accepts a cell only when that expression matches the whole cell.
  // The literal separators '-' and ':' cannot occur inside a field, so each field
  // is exactly the text between two separators; the functions below read one field.
  // ---------------------------------------------------------------------------

  /** The value of two ASCII digits. */
  function TwoDigitValue(t: string): (v: int)
    requires |t| == 2 && AllDigits(t)
    ensures 0 <= v < 100
  {
    (t[0] - '0') as int * 10 + (t[1] - '0') as int
  }

  /** %d: a day of month 1..31, written with one digit, two digits, or a space and one digit. */
  function DayField(t: string): (r: Option<int>)
    ensures r.Some? ==> 1 <= r.value <= 31
  {
    if |t| == 1 && '1' <= t[0] <= '9' then Some((t[0] - '0') as int)
    else if |t| == 2 && t[0] == ' ' && '1' <= t[1] <= '9' then Some((t[1] - '0') as int)
    else if |t| == 2 && AllDigits(t) && 1 <= TwoDigitValue(t) <= 31 then Some(TwoDigitValue(t))
    else None
  }

  /** %b: the month number of an English abbreviation, in any letter case. */
  function MonthField(t: string): (r: Option<int>)
    ensures r.Some? ==> 1 <= r.value <= 12
  {
    var l := Lower(t);
    if l == "jan" then Some(1) else if l == "feb" then Some(2) else if l == "mar" then Some(3)
    else if l == "apr" then Some(4) else if l == "may" then Some(5) else if l == "jun" then Some(6)
    else if l == "jul" then Some(7) else if l == "aug" then Some(8) else if l == "sep" then Some(9)
    else if l == "oct" then Some(10) else if l == "nov" then Some(11) else if l == "dec" then Some(12)
    else None
  }

  /** %y: two digits; 00..68 are 2000..2068 and 69..99 are 1969..1999 (the POSIX convention). */
  function YearField(t: string): (r: Option<int>)
    ensures r.Some? ==> 1969 <= r.value <= 2068
  {
    if |t| == 2 && AllDigits(t) then
      var v := TwoDigitValue(t);
      Some(if v <= 68 then 2000 + v else 1900 + v)
    else None
  }

  /** %H: an hour 00..23 in two digits, or a single digit. */
  function HourField(t: string): (r: Option<int>)
    ensures r.Some? ==> 0 <= r.value < 24
  {
    if |t| == 1 && IsDigit(t[0]) then Some((t[0] - '0') as int)
    else if |t| == 2 && AllDigits(t) && TwoDigitValue(t) <= 23 then Some(TwoDigitValue(t))
    else None
  }

  /** %M: a minute 00..59 in two digits, or a single digit. */
  function MinuteField(t: string): (r: Option<int>)
    ensures r.Some? ==> 0 <= r.value < 60
  {
    if |t| == 1 && IsDigit(t[0]) then Some((t[0] - '0') as int)
    else if |t| == 2 && AllDigits(t) && TwoDigitValue(t) <= 59 then Some(TwoDigitValue(t))
    else None
  }

  /** Length (1 or 2) of the field before separator sep at the start of s, if any. */
  function FieldLength(s: string, sep: char): (k: nat)
    ensures k == 0 || ((k == 1 || k == 2) && k < |s| && s[k] == sep)
  {
    if |s| >= 2 && s[1] == sep then 1
    else if |s| >= 3 && s[2] == sep then 2
    else 0
  }

  /** The time part "%H:%M" after the whitespace run. */
  function ParseTime(s: string): (r: Option<(int, int)>)
    ensures r.Some? ==> 0 <= r.value.0 < 24 && 0 <= r.value.1 < 60
  {
    var k := FieldLength(s, ':');
    if k == 0 then None
    else
      match (HourField(s[..k]), MinuteField(s[k + 1..]))
      case (Some(h), Some(mi)) => Some((h, mi))
      case _ => None
  }

  /** pd.to_datetime(cell, format='%d-%b-%y %H:%M', errors='coerce') for a text cell:
      the date-time it denotes, or None (NaT) when the text does not match the format
      exactly or names a day the month does not have. */
  function Parse(s: string): (r: Option<DateTime>)
    ensures r.Some? ==> ValidDateTime(r.value) && 1969 <= r.value.year <= 2068
  {
    var k := FieldLength(s, '-');
    if k == 0 || |s| < k + 7 || s[k + 4] != '-' then None
    else
      var rest := s[k + 7..];
      var time := TrimStart(rest);
      if |time| == |rest| then None  // \s+ needs at least one whitespace character
      else
        match (DayField(s[..k]), MonthField(s[k + 1..k + 4]), YearField(s[k + 5..k + 7]), ParseTime(time))
        case (Some(d), Some(m), Some(y), Some((h, mi))) =>
          if d <= DaysInMonth(y, m) then Some(DateTime(y, m, d, h, mi)) else None
        case _ => None
  }

  // ---------------------------------------------------------------------------
  // Rendering in the export's format; parsing inverts it.
  // ---------------------------------------------------------------------------

  const MonthAbbreviations: seq<string> :=
    ["Jan", "Feb", "Mar", "Apr", "May", "Jun", "Jul", "Aug", "Sep", "Oct", "Nov", "Dec"]

  function TwoDigits(n: int): (r: string)
    requires 0 <= n < 100
    ensures |r| == 2 && AllDigits(r) && TwoDigitValue(r) == n
  {
    [Digit(n / 10), Digit(n % 10)]
  }

  /** The cell text the export writes for a date-time, e.g. "05-Jan-24 14:32". */
  function Format(dt: DateTime): (s: string)
    requires ValidDateTime(dt) && 1969 <= dt.year <= 2068
  {
    TwoDigits(dt.day) + "-" + MonthAbbreviations[dt.month - 1] + "-" + TwoDigits(dt.year % 100)
      + " " + TwoDigits(dt.hour) + ":" + TwoDigits(dt.minute)
  }

  lemma MonthFieldOfAbbreviation(m: int)
    requires 1 <= m <= 12
    ensures MonthField(MonthAbbreviations[m - 1]) == Some(m)
  {
    var a := MonthAbbreviations[m - 1];
    var l := Lower(a);
    assert l == [LowerChar(a[0]), LowerChar(a[1]), LowerChar(a[2])];
  }

  lemma ParseTimeOf(h: int, mi: int)
    requires 0 <= h < 24 && 0 <= mi < 60
    ensures ParseTime(TwoDigits(h) + ":" + TwoDigits(mi)) == Some((h, mi))
  {
    var time := TwoDigits(h) + ":" + TwoDigits(mi);
    assert FieldLength(time, ':') == 2;
    assert time[..2] == TwoDigits(h);
    assert time[3..] == TwoDigits(mi);
  }

  lemma YearFieldOf(y: int)
    requires 1969 <= y <= 2068
    ensures YearField(TwoDigits(y % 100)) == Some(y)
  {
  }

  /** Where the parser finds each field of a cell laid out as the export writes it. */
  lemma FieldsOfLayout(dd: string, mon: string, yy: string, time: string)
    requires |dd| == 2 && dd[1] != '-' && |mon| == 3 && |yy| == 2 && |time| >= 1 && !IsSpace(time[0])
    ensures var s := dd + "-" + mon + "-" + yy + " " + time;
      && FieldLength(s, '-') == 2 && |s| >= 9 && s[..2] == dd && s[3..6] == mon && s[6] == '-'
      && s[7..9] == yy && TrimStart(s[9..]) == time && |TrimStart(s[9..])| < |s[9..]|
  {
    var s := dd + "-" + mon + "-" + yy + " " + time;
    assert s[9..][1..] == time;
  }

  /** Every date-time the two-digit-year format can express is read back exactly. */
  lemma ParseFormat(dt: DateTime)
    requires ValidDateTime(dt) && 1969 <= dt.year <= 2068
    ensures Parse(Format(dt)) == Some(dt)
  {
    var dd, mon, yy := TwoDigits(dt.day), MonthAbbreviations[dt.month - 1], TwoDigits(dt.year % 100);
    var time := TwoDigits(dt.hour) + ":" + TwoDigits(dt.minute);
    assert Format(dt) == dd + "-" + mon + "-" + yy + " " + time;
    FieldsOfLayout(dd, mon, yy, time);
    assert DayField(dd) == Some(dt.day);
    MonthFieldOfAbbreviation(dt.month);
    YearFieldOf(dt.year);
    ParseTimeOf(dt.hour, dt.minute);
  }

  /** The export's sample cell reads as the date-time it shows. */
  lemma ParseSample()
    ensures Parse("05-Jan-24 14:32") == Some(DateTime(2024, 1, 5, 14, 32))
  {
    var dt := DateTime(2024, 1, 5, 14, 32);
    assert TwoDigits(5) == "05" && TwoDigits(24) == "24" && TwoDigits(14) == "14" && TwoDigits(32) == "32";
    assert Format(dt) == "05-Jan-24 14:32";
    ParseFormat(dt);
  }

  /** The two-digit-year pivot, and cells that are not date-times of the format. */
  lemma ParseRejects()
    ensures YearField("68") == Some(2068) && YearField("69") == Some(1969)
    ensures Parse("29-Feb-23 10:00") == None
    ensures Parse("05-Jan-24") == None
  {
    var s := "29-Feb-23 10:00";
    assert FieldLength(s, '-') == 2 && s[6] == '-';
    assert s[..2] == "29" && s[3..6] == MonthAbbreviations[1] && s[7..9] == "23";
    MonthFieldOfAbbreviation(2);
    assert DayField("29") == Some(29) && YearField("23") == Some(2023);
    assert DaysInMonth(2023, 2) == 28;
    var t := "05-Jan-24";
    assert FieldLength(t, '-') == 2 && t[6] == '-' && t[9..] == [];
  }

  /** str() of a pandas Timestamp at minute resolution: "2024-01-05 14:32:00". */
  function IsoString(dt: DateTime): string {
    PadInt(dt.year, 4) + "-" + PadInt(dt.month, 2) + "-" + PadInt(dt.day, 2) + " "
      + PadInt(dt.hour, 2) + ":" + PadInt(dt.minute, 2) + ":00"
  }

  /** str() of the monthly Period of a Timestamp (to_period('M')): "2024-01". */
  function MonthString(dt: DateTime): string {
    PadInt(dt.year, 4) + "-" + PadInt(dt.month, 2)
  }

  // ---------------------------------------------------------------------------
  // Minutes since the epoch, so that a difference of two stamps is the number of
  // whole minutes between them (pandas' total_seconds() / 60 at minute resolution).
  // ---------------------------------------------------------------------------

  /** Leap years in 1 .. y - 1 (for y >= 1). */
  function LeapYearsBefore(y: int): int {
    (y - 1) / 4 - (y - 1) / 100 + (y - 1) / 400
  }

  /** Days from 1970-01-01 to January 1st of year y. */
  function DaysBeforeYear(y: int): int {
    365 * (y - 1970) + LeapYearsBefore(y) - LeapYearsBefore(1970)
  }

  /** Days from January 1st to the first day of month m (1..13; 13 stands for the next January). */
  function DaysBeforeMonth(y: int, m: int): int {
    var cumulative := [0, 31, 59, 90, 120, 151, 181, 212, 243, 273, 304, 334, 365];
    if m < 1 || m > 13 then 0
    else cumulative[m - 1] + (if IsLeapYear(y) && m > 2 then 1 else 0)
  }

  /** Days since 1970-01-01 (negative before it). */
  function DayNumber(y: int, m: int, d: int): int {
    DaysBeforeYear(y) + DaysBeforeMonth(y, m) + d - 1
  }

  function ToMinutes(dt: DateTime): int {
    DayNumber(dt.year, dt.month, dt.day) * 1440 + dt.hour * 60 + dt.minute
  }

  // y / k grows by one exactly at the multiples of k.
  lemma DivStep4(y: int)
    ensures y / 4 - (y - 1) / 4 == if y % 4 == 0 then 1 else 0
  {
  }

  lemma DivStep100(y: int)
    ensures y / 100 - (y - 1) / 100 == if y % 100 == 0 then 1 else 0
  {
  }

  lemma DivStep400(y: int)
    ensures y / 400 - (y - 1) / 400 == if y % 400 == 0 then 1 else 0
  {
  }

  lemma LeapYearsStep(y: int)
    ensures LeapYearsBefore(y + 1) == LeapYearsBefore(y) + (if IsLeapYear(y) then 1 else 0)
  {
    DivStep4(y);
    DivStep100(y);
    DivStep400(y);
    CenturiesAreLeapCandidates(y);
  }

  lemma CenturiesAreLeapCandidates(y: int)
    ensures y % 100 == 0 ==> y % 4 == 0
    ensures y % 400 == 0 ==> y % 100 == 0
  {
    if y % 100 == 0 {
      assert y == (y / 100 * 25) * 4;
    }
    if y % 400 == 0 {
      assert y == (y / 400 * 4) * 100;
    }
  }

  lemma DaysInYearStep(y: int)
    ensures DaysBeforeYear(y + 1) == DaysBeforeYear(y) + DaysInYear(y)
  {
    LeapYearsStep(y);
  }

  lemma MonthStep(y: int, m: int)
    requires 1 <= m <= 12
    ensures DaysBeforeMonth(y, m + 1) == DaysBeforeMonth(y, m) + DaysInMonth(y, m)
    ensures DaysBeforeMonth(y, 13) == DaysInYear(y)
  {
  }

  /** The day after a valid date, with month and year carries. */
  function NextDay(y: int, m: int, d: int): (int, int, int) {
    if d < DaysInMonth(y, m) then (y, m, d + 1)
    else if m < 12 then (y, m + 1, 1)
    else (y + 1, 1, 1)
  }

  /** The minute after dt, carrying into hours, days, months and years. */
  function Succ(dt: DateTime): DateTime {
    if dt.minute < 59 then dt.(minute := dt.minute + 1)
    else if dt.hour < 23 then dt.(hour := dt.hour + 1, minute := 0)
    else
      var (y, m, d) := NextDay(dt.year, dt.month, dt.day);
      DateTime(y, m, d, 0, 0)
  }

  /** Consecutive calendar days have consecutive day numbers, across month ends,
      29 February and year ends. */
  lemma NextDayNumber(y: int, m: int, d: int)
    requires 1 <= m <= 12 && 1 <= d <= DaysInMonth(y, m)
    ensures var (y', m', d') := NextDay(y, m, d);
      1 <= m' <= 12 && 1 <= d' <= DaysInMonth(y', m')
      && DayNumber(y', m', d') == DayNumber(y, m, d) + 1
  {
    MonthStep(y, m);
    if d == DaysInMonth(y, m) && m == 12 {
      DaysInYearStep(y);
    }
  }

  /** The encoding counts minutes: the next minute is one more. */
  lemma SuccMinutes(dt: DateTime)
    requires ValidDateTime(dt)
    ensures ValidDateTime(Succ(dt))
    ensures ToMinutes(Succ(dt)) == ToMinutes(dt) + 1
  {
    NextDayNumber(dt.year, dt.month, dt.day);
  }

  /** Chronological order of date-times. */
  predicate Before(a: DateTime, b: DateTime) {
    || a.year < b.year
    || (a.year == b.year && a.month < b.month)
    || (a.year == b.year && a.month == b.month && a.day < b.day)
    || (a.year == b.year && a.month == b.month && a.day == b.day && a.hour < b.hour)
    || (a.year == b.year && a.month == b.month && a.day == b.day && a.hour == b.hour && a.minute < b.minute)
  }

  lemma {:induction false} DaysBeforeYearMonotone(y1: int, y2: int)
    requires y1 < y2
    ensures DaysBeforeYear(y1) + DaysInYear(y1) <= DaysBeforeYear(y2)
    decreases y2 - y1
  {
    DaysInYearStep(y1);
    if y1 + 1 < y2 {
      DaysBeforeYearMonotone(y1 + 1, y2);
    }
  }

  lemma DayInYearBounds(y: int, m: int, d: int)
    requires 1 <= m <= 12 && 1 <= d <= DaysInMonth(y, m)
    ensures 0 <= DaysBeforeMonth(y, m) + d - 1 < DaysInYear(y)
  {
  }

  lemma DaysBeforeMonthMonotone(y: int, m1: int, m2: int)
    requires 1 <= m1 < m2 <= 12
    ensures DaysBeforeMonth(y, m1) + DaysInMonth(y, m1) <= DaysBeforeMonth(y, m2)
  {
  }

  /** The encoding preserves chronological order, so it is one-to-one on valid
      date-times and the sign of a difference says which event came first. */
  lemma ToMinutesMonotone(a: DateTime, b: DateTime)
    requires ValidDateTime(a) && ValidDateTime(b) && Before(a, b)
    ensures ToMinutes(a) < ToMinutes(b)
  {
    DayInYearBounds(a.year, a.month, a.day);
    DayInYearBounds(b.year, b.month, b.day);
    if a.year < b.year {
      DaysBeforeYearMonotone(a.year, b.year);
    } else if a.month < b.month {
      DaysBeforeMonthMonotone(a.year, a.month, b.month);
    }
  }
}
