/** The parts of Go's `time` package that the booking tools use, for one fixed time zone
    (Asia/Tokyo and UTC both have no daylight-saving changes). An instant is a civil date and
    time; `Date` is Go's `time.Date`, which normalises out-of-range fields, and `Seconds` is the
    instant's position on the time line in seconds. Nanoseconds are not modelled. */
module GoTime {
  import opened Wrappers
  import opened GoStrings

  datatype DateTime = DateTime(year: int, month: int, day: int, hour: int, minute: int, second: int)

  // ---------------------------------------------------------------------------
  // The proleptic Gregorian calendar

  predicate IsLeap(year: int) { year % 4 == 0 && (year % 100 != 0 || year % 400 == 0) }

  function YearLength(year: int): int { if IsLeap(year) then 366 else 365 }

  function DaysIn(year: int, month: int): (n: int)
    requires 1 <= month <= 12
    ensures 28 <= n <= 31
  {
    if month == 2 then (if IsLeap(year) then 29 else 28)
    else if month == 4 || month == 6 || month == 9 || month == 11 then 30
    else 31
  }

  /** A date-time whose fields are all in range: what every Go time.Time shows through its accessors. */
  predicate Valid(t: DateTime) {
    1 <= t.month <= 12 && 1 <= t.day <= DaysIn(t.year, t.month)
    && 0 <= t.hour < 24 && 0 <= t.minute < 60 && 0 <= t.second < 60
  }

  /** The number of leap years in 1..x (counted the same way below 1). */
  function Leaps(x: int): int { x / 4 - x / 100 + x / 400 }

  /** Days from 1970-01-01 to the first of January of year. */
  function DaysBeforeYear(year: int): int { 365 * (year - 1970) + Leaps(year - 1) - Leaps(1969) }

  /** Days from the first of January to the first of month, in year. */
  function DaysBeforeMonth(year: int, month: int): int
    requires 1 <= month <= 12
  {
    [0, 31, 59, 90, 120, 151, 181, 212, 243, 273, 304, 334][month - 1]
    + (if month > 2 && IsLeap(year) then 1 else 0)
  }

  /** Days from 1970-01-01 to the given day; day may be outside the month. */
  function DayNumber(year: int, month: int, day: int): int
    requires 1 <= month <= 12
  {
    DaysBeforeYear(year) + DaysBeforeMonth(year, month) + day - 1
  }

  /** The instant Go's time.Date denotes, in seconds from 1970-01-01T00:00:00 of the zone: the month
      is carried into the year, and day, hour, minute and second count linearly, whatever their range. */
  function AbsSeconds(year: int, month: int, day: int, hour: int, minute: int, second: int): int
  {
    var y := year + (month - 1) / 12;
    var m := (month - 1) % 12 + 1;
    DayNumber(y, m, day) * 86400 + hour * 3600 + minute * 60 + second
  }

  /** Where t lies on the time line. */
  function Seconds(t: DateTime): int
  {
    AbsSeconds(t.year, t.month, t.day, t.hour, t.minute, t.second)
  }

  lemma MulBounds(x: int, k: int)
    requires k > 0
    ensures x >= 1 ==> x * k >= k
    ensures x <= -1 ==> x * k <= -k
  {
  }

  lemma DivUnique(a: int, k: int, q: int, r: int)
    requires k > 0 && 0 <= r < k && a == q * k + r
    ensures a / k == q
  {
    var q', r' := a / k, a % k;
    assert (q - q') * k == r' - r;
    MulBounds(q - q', k);
  }

  lemma DivStep(x: int, k: int)
    requires k > 0
    ensures x / k - (x - 1) / k == (if x % k == 0 then 1 else 0)
  {
    var q, r := x / k, x % k;
    if r == 0 {
      assert x - 1 == (q - 1) * k + (k - 1);
      DivUnique(x - 1, k, q - 1, k - 1);
    } else {
      assert x - 1 == q * k + (r - 1);
      DivUnique(x - 1, k, q, r - 1);
    }
  }

  /** The leap-year count grows by one exactly at the leap years. */
  lemma LeapStep(y: int)
    ensures Leaps(y) - Leaps(y - 1) == (if IsLeap(y) then 1 else 0)
  {
    DivStep(y, 4);
    DivStep(y, 100);
    DivStep(y, 400);
    if y % 400 == 0 {
      assert y == 100 * (4 * (y / 400));
      assert y == 4 * (100 * (y / 400));
    } else if y % 100 == 0 {
      assert y == 4 * (25 * (y / 100));
    }
  }

  lemma YearStep(y: int)
    ensures DaysBeforeYear(y + 1) == DaysBeforeYear(y) + YearLength(y)
  {
    LeapStep(y);
  }

  lemma MonthStep(y: int, m: int)
    requires 1 <= m <= 12
    ensures DaysBeforeMonth(y, m) + DaysIn(y, m) == (if m == 12 then YearLength(y) else DaysBeforeMonth(y, m + 1))
  {
  }

  /** The valid date with the same day number as (year, month, day): Go's carry of an out-of-range
      day of the month into the following or preceding months. */
  function CarryDays(year: int, month: int, day: int): (r: (int, int, int))
    requires 1 <= month <= 12
    ensures 1 <= r.1 <= 12 && 1 <= r.2 <= DaysIn(r.0, r.1)
    ensures DayNumber(r.0, r.1, r.2) == DayNumber(year, month, day)
    decreases if day < 1 then 1 - day else 0, if day < 1 then 0 else day
  {
    if day < 1 then
      if month == 1 then
        YearStep(year - 1);
        MonthStep(year - 1, 12);
        CarryDays(year - 1, 12, day + 31)
      else
        MonthStep(year, month - 1);
        CarryDays(year, month - 1, day + DaysIn(year, month - 1))
    else if day > DaysIn(year, month) then
      if month == 12 then
        YearStep(year);
        MonthStep(year, 12);
        CarryDays(year + 1, 1, day - 31)
      else
        MonthStep(year, month);
        CarryDays(year, month + 1, day - DaysIn(year, month))
    else
      (year, month, day)
  }

  /** time.Date(year, month, day, hour, minute, second, 0, zone): the valid date-time at
      the instant the arguments denote. */
  function Date(year: int, month: int, day: int, hour: int, minute: int, second: int): (t: DateTime)
    ensures Valid(t)
    ensures Seconds(t) == AbsSeconds(year, month, day, hour, minute, second)
  {
    var y := year + (month - 1) / 12;
    var mo := (month - 1) % 12 + 1;
    var clock := CarryClock(hour, minute, second);
    var c := CarryDays(y, mo, day + clock.0);
    DateSeconds(year, month, day, hour, minute, second, clock, c);
    DateTime(c.0, c.1, c.2, clock.1, clock.2, clock.3)
  }

  /** Go's carry of seconds into minutes, minutes into hours and hours into days: the days carried
      and the hour, minute and second left in range. */
  function CarryClock(hour: int, minute: int, second: int): (r: (int, int, int, int))
    ensures 0 <= r.1 < 24 && 0 <= r.2 < 60 && 0 <= r.3 < 60
    ensures r.0 * 86400 + r.1 * 3600 + r.2 * 60 + r.3 == hour * 3600 + minute * 60 + second
  {
    var mi := minute + second / 60;
    var h := hour + mi / 60;
    assert mi * 60 + second % 60 == minute * 60 + second;
    assert h * 3600 + mi % 60 * 60 == hour * 3600 + mi * 60;
    assert h / 24 * 86400 + h % 24 * 3600 == h * 3600;
    (h / 24, h % 24, mi % 60, second % 60)
  }

  lemma DateSeconds(year: int, month: int, day: int, hour: int, minute: int, second: int,
                    clock: (int, int, int, int), c: (int, int, int))
    requires clock.0 * 86400 + clock.1 * 3600 + clock.2 * 60 + clock.3 == hour * 3600 + minute * 60 + second
    requires 1 <= c.1 <= 12
    requires DayNumber(c.0, c.1, c.2) == DayNumber(year + (month - 1) / 12, (month - 1) % 12 + 1, day + clock.0)
    ensures AbsSeconds(c.0, c.1, c.2, clock.1, clock.2, clock.3) == AbsSeconds(year, month, day, hour, minute, second)
  {
    var y := year + (month - 1) / 12;
    var mo := (month - 1) % 12 + 1;
    assert (c.1 - 1) / 12 == 0 && (c.1 - 1) % 12 + 1 == c.1;
    assert DayNumber(y, mo, day + clock.0) == DayNumber(y, mo, day) + clock.0;
  }

  /** time.Date leaves a date-time that is already in range as it is. */
  lemma DateOfValid(t: DateTime)
    requires Valid(t)
    ensures Date(t.year, t.month, t.day, t.hour, t.minute, t.second) == t
  {
    SecondsInjective(Date(t.year, t.month, t.day, t.hour, t.minute, t.second), t);
  }

  // ---------------------------------------------------------------------------
  // The order of instants

  /** a comes before b in the calendar: its fields are lexicographically smaller. */
  predicate FieldsBefore(a: DateTime, b: DateTime) {
    a.year < b.year || (a.year == b.year && (a.month < b.month || (a.month == b.month && (a.day < b.day
    || (a.day == b.day && (a.hour < b.hour || (a.hour == b.hour && (a.minute < b.minute
    || (a.minute == b.minute && a.second < b.second)))))))))
  }

  lemma {:induction false} YearsOrdered(y1: int, y2: int)
    requires y1 < y2
    ensures DaysBeforeYear(y1) + YearLength(y1) <= DaysBeforeYear(y2)
    decreases y2 - y1
  {
    YearStep(y1);
    if y1 + 1 < y2 {
      YearsOrdered(y1 + 1, y2);
    }
  }

  lemma {:induction false} MonthsOrdered(y: int, m1: int, m2: int)
    requires 1 <= m1 < m2 <= 12
    ensures DaysBeforeMonth(y, m1) + DaysIn(y, m1) <= DaysBeforeMonth(y, m2)
    decreases m2 - m1
  {
    MonthStep(y, m1);
    if m1 + 1 < m2 {
      MonthsOrdered(y, m1 + 1, m2);
    }
  }

  /** A valid day lies inside its year. */
  lemma DayInYear(y: int, m: int, d: int)
    requires 1 <= m <= 12 && 1 <= d <= DaysIn(y, m)
    ensures DaysBeforeYear(y) <= DayNumber(y, m, d) < DaysBeforeYear(y) + YearLength(y)
  {
    MonthStep(y, 12);
    if m < 12 {
      MonthsOrdered(y, m, 12);
    }
  }

  lemma DayNumberOrdered(a: DateTime, b: DateTime)
    requires Valid(a) && Valid(b)
    requires a.year < b.year || (a.year == b.year && (a.month < b.month || (a.month == b.month && a.day < b.day)))
    ensures DayNumber(a.year, a.month, a.day) < DayNumber(b.year, b.month, b.day)
  {
    if a.year < b.year {
      DayInYear(a.year, a.month, a.day);
      DayInYear(b.year, b.month, b.day);
      YearsOrdered(a.year, b.year);
    } else if a.month < b.month {
      MonthsOrdered(a.year, a.month, b.month);
    }
  }

  lemma SecondsOfValid(t: DateTime)
    requires Valid(t)
    ensures Seconds(t) == DayNumber(t.year, t.month, t.day) * 86400 + t.hour * 3600 + t.minute * 60 + t.second
  {
    assert (t.month - 1) / 12 == 0 && (t.month - 1) % 12 + 1 == t.month;
  }

  lemma SecondsBefore(a: DateTime, b: DateTime)
    requires Valid(a) && Valid(b) && FieldsBefore(a, b)
    ensures Seconds(a) < Seconds(b)
  {
    SecondsOfValid(a);
    SecondsOfValid(b);
    var da, db := DayNumber(a.year, a.month, a.day), DayNumber(b.year, b.month, b.day);
    if a.year < b.year || (a.year == b.year && (a.month < b.month || (a.month == b.month && a.day < b.day))) {
      DayNumberOrdered(a, b);
      assert da * 86400 + 86400 <= db * 86400;
    }
  }

  /** The time line orders valid date-times as the calendar does. */
  lemma SecondsOrder(a: DateTime, b: DateTime)
    requires Valid(a) && Valid(b)
    ensures Seconds(a) < Seconds(b) <==> FieldsBefore(a, b)
  {
    if FieldsBefore(a, b) {
      SecondsBefore(a, b);
    } else if a != b {
      assert FieldsBefore(b, a);
      SecondsBefore(b, a);
    }
  }

  /** Different valid date-times are different instants. */
  lemma SecondsInjective(a: DateTime, b: DateTime)
    requires Valid(a) && Valid(b) && Seconds(a) == Seconds(b)
    ensures a == b
  {
    SecondsOrder(a, b);
    SecondsOrder(b, a);
  }

  /** Time.After */
  predicate After(t: DateTime, u: DateTime) { Seconds(t) > Seconds(u) }

  /** Time.Before */
  predicate Before(t: DateTime, u: DateTime) { Seconds(t) < Seconds(u) }

  // ---------------------------------------------------------------------------
  // Arithmetic

  /** Time.Add for a whole number of seconds. */
  function Add(t: DateTime, seconds: int): (r: DateTime)
    ensures Valid(r)
    ensures Seconds(r) == Seconds(t) + seconds
  {
    Date(t.year, t.month, t.day, t.hour, t.minute, t.second + seconds)
  }

  /** Time.AddDate: the fields are added and the result is normalised as by time.Date. */
  function AddDate(t: DateTime, years: int, months: int, days: int): (r: DateTime)
    ensures Valid(r)
    ensures Seconds(r) == AbsSeconds(t.year + years, t.month + months, t.day + days, t.hour, t.minute, t.second)
  {
    Date(t.year + years, t.month + months, t.day + days, t.hour, t.minute, t.second)
  }

  /** In a zone without daylight saving, AddDate(0, 0, 1) moves exactly 86400 seconds on. */
  lemma AddOneDay(t: DateTime)
    ensures Seconds(AddDate(t, 0, 0, 1)) == Seconds(t) + 86400
  {
  }

  /** The calendar day after a valid day: the next day of the month, else the first of the next
      month, else the first of January of the next year. */
  function NextDay(y: int, m: int, d: int): (r: (int, int, int))
    requires 1 <= m <= 12 && 1 <= d <= DaysIn(y, m)
    ensures 1 <= r.1 <= 12 && 1 <= r.2 <= DaysIn(r.0, r.1)
    ensures DayNumber(r.0, r.1, r.2) == DayNumber(y, m, d) + 1
  {
    MonthStep(y, m);
    if d < DaysIn(y, m) then (y, m, d + 1)
    else if m < 12 then (y, m + 1, 1)
    else
      YearStep(y);
      (y + 1, 1, 1)
  }

  /** Two clock readings of the same day are as far apart as their hours and minutes say. */
  lemma SameDayDistance(y: int, mo: int, d: int, h1: int, m1: int, h2: int, m2: int)
    ensures AbsSeconds(y, mo, d, h2, m2, 0) - AbsSeconds(y, mo, d, h1, m1, 0) == ((h2 - h1) * 60 + m2 - m1) * 60
  {
  }

  /** Go's integer division of a by b > 0, which truncates toward zero. */
  function Quo(a: int, b: int): (q: int)
    requires b > 0
    ensures a >= 0 ==> q == a / b
    ensures a < 0 ==> q == -((-a) / b)
  {
    if a >= 0 then a / b else -((-a) / b)
  }

  const Second: int := 1_000_000_000

  /** Time.Sub: the Duration t - u in nanoseconds, saturated to the int64 range. */
  function Sub(t: DateTime, u: DateTime): (d: int)
    ensures MinInt64 <= d <= MaxInt64
  {
    var ns := (Seconds(t) - Seconds(u)) * Second;
    if ns > MaxInt64 then MaxInt64 else if ns < MinInt64 then MinInt64 else ns
  }

  /** The largest number of whole seconds a Duration holds. */
  const MaxDurationSeconds: int := 9_223_372_036

  /** int(t.Sub(u) / time.Second): the distance in seconds, saturated at about 292 years. */
  function SubSeconds(t: DateTime, u: DateTime): (r: int)
    ensures -MaxDurationSeconds <= r <= MaxDurationSeconds
    ensures -MaxDurationSeconds <= Seconds(t) - Seconds(u) <= MaxDurationSeconds ==> r == Seconds(t) - Seconds(u)
    ensures Seconds(t) - Seconds(u) > MaxDurationSeconds ==> r == MaxDurationSeconds
    ensures Seconds(t) - Seconds(u) < -MaxDurationSeconds ==> r == -MaxDurationSeconds
  {
    Quo(Sub(t, u), Second)
  }

  // ---------------------------------------------------------------------------
  // Time.Format

  /** t.Format("20060102T1504") */
  function FormatPrefix(t: DateTime): (r: string)
    ensures r != [] && NoSpace(r)
  {
    GraphicNotSpace('T');
    NoSpaceConcat(DateDigits(t), "T");
    NoSpaceConcat(DateDigits(t) + "T", ClockDigits(t));
    DateDigits(t) + "T" + ClockDigits(t)
  }

  /** "20060102": the year on four digits, the month and the day on two. */
  function DateDigits(t: DateTime): (r: string)
    ensures r != [] && NoSpace(r)
  {
    NoSpaceConcat(AppendInt(t.year, 4), AppendInt(t.month, 2));
    NoSpaceConcat(AppendInt(t.year, 4) + AppendInt(t.month, 2), AppendInt(t.day, 2));
    AppendInt(t.year, 4) + AppendInt(t.month, 2) + AppendInt(t.day, 2)
  }

  /** "1504": the hour and the minute on two digits each. */
  function ClockDigits(t: DateTime): (r: string)
    ensures r != [] && NoSpace(r)
  {
    NoSpaceConcat(AppendInt(t.hour, 2), AppendInt(t.minute, 2));
    AppendInt(t.hour, 2) + AppendInt(t.minute, 2)
  }

  /** t.Format("0601021504.05"): "06" is the year's last two digits, taken from its magnitude. */
  function FormatAt(t: DateTime): string
  {
    Stamp((if t.year < 0 then -t.year else t.year) % 100, t.month, t.day, t.hour, t.minute, t.second)
  }

  /** Six numbers on two digits each, a dot before the last. */
  function Stamp(x0: int, x1: int, x2: int, x3: int, x4: int, x5: int): string
  {
    AppendInt(x0, 2) + AppendInt(x1, 2) + AppendInt(x2, 2) + AppendInt(x3, 2) + AppendInt(x4, 2)
    + "." + AppendInt(x5, 2)
  }

  /** The minute that contains t: t with its seconds cleared. */
  function MinuteOf(t: DateTime): DateTime { t.(second := 0) }

  lemma Pow10Small()
    ensures Pow10(2) == 100 && Pow10(4) == 10000
  {
  }

  lemma DatePart(t: DateTime)
    requires Valid(t) && 0 <= t.year <= 9999
    ensures var p := DateDigits(t);
      AllDigits(p) && |p| == 8 && DigitsValue(p) == t.year * 10000 + t.month * 100 + t.day
  {
    Pow10Small();
    var y, m, d := AppendInt(t.year, 4), AppendInt(t.month, 2), AppendInt(t.day, 2);
    AppendIntFixed(t.year, 4);
    AppendIntFixed(t.month, 2);
    AppendIntFixed(t.day, 2);
    DigitsValueAppend(y, m);
    DigitsValueAppend(y + m, d);
  }

  lemma ClockPart(t: DateTime)
    requires Valid(t)
    ensures var p := ClockDigits(t);
      AllDigits(p) && |p| == 4 && DigitsValue(p) == t.hour * 100 + t.minute
  {
    Pow10Small();
    AppendIntFixed(t.hour, 2);
    AppendIntFixed(t.minute, 2);
    DigitsValueAppend(AppendInt(t.hour, 2), AppendInt(t.minute, 2));
  }

  /** Equal-width digit strings are equal exactly when their values are. */
  lemma FixedWidthEqual(a: string, b: string)
    requires |a| == |b| && AllDigits(a) && AllDigits(b)
    ensures a == b <==> DigitsValue(a) == DigitsValue(b)
  {
    LessTotal(a, b);
    LessFixedWidth(a, b);
    LessFixedWidth(b, a);
  }

  /** Stamps made of a digit field, a separator and a second digit field, both of fixed widths,
      compare as the pair of their values. */
  lemma StampOrder(pa: string, qa: string, pb: string, qb: string, sep: string)
    requires |pa| == |pb| && |qa| == |qb|
    requires AllDigits(pa) && AllDigits(pb) && AllDigits(qa) && AllDigits(qb)
    ensures Less(pa + sep + qa, pb + sep + qb) <==>
      DigitsValue(pa) < DigitsValue(pb) || (DigitsValue(pa) == DigitsValue(pb) && DigitsValue(qa) < DigitsValue(qb))
    ensures pa + sep + qa == pb + sep + qb <==> DigitsValue(pa) == DigitsValue(pb) && DigitsValue(qa) == DigitsValue(qb)
  {
    assert pa + sep + qa == pa + (sep + qa);
    assert pb + sep + qb == pb + (sep + qb);
    LessAppend(pa, sep + qa, pb, sep + qb);
    LessAppend(sep, qa, sep, qb);
    LessIrreflexive(sep);
    LessFixedWidth(pa, pb);
    LessFixedWidth(qa, qb);
    FixedWidthEqual(pa, pb);
    FixedWidthEqual(qa, qb);
    SplitEqual(pa, sep + qa, pb, sep + qb);
    SplitEqual(sep, qa, sep, qb);
  }

  /** The text order of two stamps compares their date digits first, then their clock digits. */
  lemma PrefixTextOrder(a: DateTime, b: DateTime)
    requires Valid(a) && Valid(b) && 0 <= a.year <= 9999 && 0 <= b.year <= 9999
    ensures var da, db := a.year * 10000 + a.month * 100 + a.day, b.year * 10000 + b.month * 100 + b.day;
      var ca, cb := a.hour * 100 + a.minute, b.hour * 100 + b.minute;
      (Less(FormatPrefix(a), FormatPrefix(b)) <==> da < db || (da == db && ca < cb))
      && (FormatPrefix(a) == FormatPrefix(b) <==> da == db && ca == cb)
  {
    DatePart(a);
    DatePart(b);
    ClockPart(a);
    ClockPart(b);
    StampOrder(DateDigits(a), ClockDigits(a), DateDigits(b), ClockDigits(b), "T");
  }

  lemma SplitEqual(p: string, x: string, q: string, y: string)
    requires |p| == |q|
    ensures p + x == q + y <==> p == q && x == y
  {
    if p + x == q + y {
      assert p == (p + x)[..|p|] && q == (q + y)[..|q|];
      assert x == (p + x)[|p|..] && y == (q + y)[|q|..];
    }
  }

  /** Comparing y*10000 + m*100 + d (and h*100 + min) compares the fields lexicographically. */
  lemma DigitNumbersOrder(a: DateTime, b: DateTime)
    requires Valid(a) && Valid(b)
    ensures var da, db := a.year * 10000 + a.month * 100 + a.day, b.year * 10000 + b.month * 100 + b.day;
      var ca, cb := a.hour * 100 + a.minute, b.hour * 100 + b.minute;
      (da < db || (da == db && ca < cb) <==> FieldsBefore(MinuteOf(a), MinuteOf(b)))
      && (da == db && ca == cb <==> MinuteOf(a) == MinuteOf(b))
  {
  }

  /** For years of four digits, the text order of "20060102T1504" stamps is the time order of
      the minutes they name, and equal stamps name the same minute. */
  lemma FormatPrefixOrder(a: DateTime, b: DateTime)
    requires Valid(a) && Valid(b) && 0 <= a.year <= 9999 && 0 <= b.year <= 9999
    ensures Less(FormatPrefix(a), FormatPrefix(b)) <==> Seconds(MinuteOf(a)) < Seconds(MinuteOf(b))
    ensures FormatPrefix(a) == FormatPrefix(b) <==> Seconds(MinuteOf(a)) == Seconds(MinuteOf(b))
  {
    PrefixTextOrder(a, b);
    DigitNumbersOrder(a, b);
    var ma, mb := MinuteOf(a), MinuteOf(b);
    SecondsOrder(ma, mb);
    if Seconds(ma) == Seconds(mb) {
      SecondsInjective(ma, mb);
    }
  }

  lemma Chunks(u0: string, u1: string, u2: string, u3: string, u4: string, u5: string, u6: string)
    requires |u0| == |u1| == |u2| == |u3| == |u4| == |u6| == 2 && |u5| == 1
    ensures var r := u0 + u1 + u2 + u3 + u4 + u5 + u6;
      |r| == 13 && r[10] == u5[0] && r[0..2] == u0 && r[2..4] == u1 && r[4..6] == u2
      && r[6..8] == u3 && r[8..10] == u4 && r[11..] == u6
  {
    var r := u0 + u1 + u2 + u3 + u4 + u5 + u6;
    var h := u0 + u1 + u2 + u3 + u4;
    assert r == h + (u5 + u6);
    assert forall k :: 0 <= k < 10 ==> h[k] == [u0, u1, u2, u3, u4][k / 2][k % 2];
    assert r[0..2] == u0 && r[2..4] == u1 && r[4..6] == u2 && r[6..8] == u3 && r[8..10] == u4 && r[11..] == u6;
  }

  /** r reads as "0601021504.05" with the numbers x0 … x5: ten digits, a dot and two digits. */
  predicate StampReads(r: string, x0: int, x1: int, x2: int, x3: int, x4: int, x5: int)
  {
    |r| == 13 && r[10] == '.' && AllDigits(r[0..2]) && AllDigits(r[2..4]) && AllDigits(r[4..6])
    && AllDigits(r[6..8]) && AllDigits(r[8..10]) && AllDigits(r[11..])
    && DigitsValue(r[0..2]) == x0 && DigitsValue(r[2..4]) == x1 && DigitsValue(r[4..6]) == x2
    && DigitsValue(r[6..8]) == x3 && DigitsValue(r[8..10]) == x4 && DigitsValue(r[11..]) == x5
  }

  lemma TwoDigitsValue(x: int)
    requires 0 <= x < 100
    ensures |AppendInt(x, 2)| == 2 && AllDigits(AppendInt(x, 2)) && DigitsValue(AppendInt(x, 2)) == x
  {
    Pow10Small();
    AppendIntFixed(x, 2);
  }

  /** Reading a "0601021504.05" stamp back: ten digits, a dot and two digits, holding the six
      numbers it was made from (for FormatAt, the year's last two digits, the month, day, hour,
      minute and second). */
  lemma StampFields(x0: int, x1: int, x2: int, x3: int, x4: int, x5: int)
    requires 0 <= x0 < 100 && 0 <= x1 < 100 && 0 <= x2 < 100 && 0 <= x3 < 100 && 0 <= x4 < 100 && 0 <= x5 < 100
    ensures StampReads(Stamp(x0, x1, x2, x3, x4, x5), x0, x1, x2, x3, x4, x5)
  {
    TwoDigitsValue(x0);
    TwoDigitsValue(x1);
    TwoDigitsValue(x2);
    TwoDigitsValue(x3);
    TwoDigitsValue(x4);
    TwoDigitsValue(x5);
    Chunks(AppendInt(x0, 2), AppendInt(x1, 2), AppendInt(x2, 2), AppendInt(x3, 2), AppendInt(x4, 2), ".", AppendInt(x5, 2));
  }

  // ---------------------------------------------------------------------------
  // time.Parse for the layouts the tools use

  datatype ParseError = BadValue | OutOfRange | ExtraText | DayOutOfRange

  /** getnum: one or two leading decimal digits; with fixed, exactly two. */
  function GetNum(s: string, fixed: bool): (r: Result<(int, string), ParseError>)
    ensures r.Ok? <==> |s| >= 1 && IsDigit(s[0]) && (fixed ==> |s| >= 2 && IsDigit(s[1]))
    ensures r.Ok? && |s| >= 2 && IsDigit(s[1]) ==> r.value == (DigitsValue(s[..2]), s[2..])
    ensures r.Ok? && !(|s| >= 2 && IsDigit(s[1])) ==> r.value == (DigitsValue(s[..1]), s[1..])
  {
    if |s| == 0 || !IsDigit(s[0]) then Err(BadValue)
    else if |s| < 2 || !IsDigit(s[1]) then
      if fixed then Err(BadValue)
      else
        LeadingDigitsValue(s);
        Ok((DigitValue(s[0]), s[1..]))
    else
      LeadingDigitsValue(s);
      Ok((DigitValue(s[0]) * 10 + DigitValue(s[1]), s[2..]))
  }

  /** The value of the one or two digits that open s. */
  lemma LeadingDigitsValue(s: string)
    requires |s| >= 1 && IsDigit(s[0])
    ensures DigitsValue(s[..1]) == DigitValue(s[0])
    ensures |s| >= 2 && IsDigit(s[1]) ==> DigitsValue(s[..2]) == DigitValue(s[0]) * 10 + DigitValue(s[1])
  {
    assert s[..1][..0] == [];
    if |s| >= 2 && IsDigit(s[1]) {
      assert s[..2][..1] == s[..1];
    }
  }

  /** A literal code point of the layout must open the value. */
  function SkipChar(s: string, c: char): (r: Result<string, ParseError>)
    ensures r.Ok? <==> |s| >= 1 && s[0] == c
    ensures r.Ok? ==> r.value == s[1..]
  {
    if |s| >= 1 && s[0] == c then Ok(s[1..]) else Err(BadValue)
  }

  /** The number of ASCII spaces that open s. */
  function Blanks(s: string): (n: nat)
    ensures n <= |s| && (forall k :: 0 <= k < n ==> s[k] == ' ') && (n < |s| ==> s[n] != ' ')
  {
    if s != [] && s[0] == ' ' then 1 + Blanks(s[1..]) else 0
  }

  /** A space of the layout matches any number of spaces of the value, but the value may not go
      on with anything else. */
  function SkipSpaces(s: string): (r: Result<string, ParseError>)
    ensures r.Ok? <==> s == [] || s[0] == ' '
    ensures r.Ok? ==> r.value == s[Blanks(s)..]
  {
    if s != [] && s[0] != ' ' then Err(BadValue) else Ok(s[Blanks(s)..])
  }

  /** A fraction of a second that follows the seconds in the value without one in the layout is
      read and dropped (nanoseconds are not modelled). */
  function SkipFraction(s: string): (r: string)
    ensures |s| >= 2 && (s[0] == '.' || s[0] == ',') && IsDigit(s[1]) ==> |r| < |s| - 1 && r == s[|s| - |r|..] && AllDigits(s[1..|s| - |r|]) && (r != [] ==> !IsDigit(r[0]))
    ensures !(|s| >= 2 && (s[0] == '.' || s[0] == ',') && IsDigit(s[1])) ==> r == s
  {
    if |s| >= 2 && (s[0] == '.' || s[0] == ',') && IsDigit(s[1]) then
      var n := DigitRun(s[1..]);
      assert s[1..][..n] == s[1..1 + n];
      s[1 + n..]
    else s
  }

  /** The number of decimal digits that open s. */
  function DigitRun(s: string): (n: nat)
    ensures n <= |s| && AllDigits(s[..n]) && (n < |s| ==> !IsDigit(s[n]))
  {
    if s != [] && IsDigit(s[0]) then
      var n := 1 + DigitRun(s[1..]);
      assert forall k :: 1 <= k < n ==> s[..n][k] == s[1..][..n - 1][k - 1];
      n
    else 0
  }

  const MonthNames: seq<string> := ["Jan", "Feb", "Mar", "Apr", "May", "Jun", "Jul", "Aug", "Sep", "Oct", "Nov", "Dec"]

  function Lower(c: char): char { if 'A' <= c <= 'Z' then (c as int + 32) as char else c }

  predicate FoldEqualChar(a: char, b: char) { a == b || ('a' <= Lower(a) <= 'z' && Lower(a) == Lower(b)) }

  /** Go's match: equal up to the case of ASCII letters. */
  predicate FoldEqual(a: string, b: string) {
    |a| == |b| && forall k :: 0 <= k < |a| ==> FoldEqualChar(a[k], b[k])
  }

  /** lookup(shortMonthNames, s): the first month whose name opens s, ignoring case. */
  function LookupMonth(s: string): (r: Result<(int, string), ParseError>)
    ensures r.Ok? ==> 1 <= r.value.0 <= 12 && |s| >= 3 && FoldEqual(s[..3], MonthNames[r.value.0 - 1]) && r.value.1 == s[3..]
    ensures r.Err? ==> forall i :: 0 <= i < 12 ==> !(|s| >= 3 && FoldEqual(s[..3], MonthNames[i]))
  {
    LookupMonthFrom(s, 0)
  }

  function LookupMonthFrom(s: string, i: nat): (r: Result<(int, string), ParseError>)
    requires i <= 12
    ensures r.Ok? ==> i < r.value.0 <= 12 && |s| >= 3 && FoldEqual(s[..3], MonthNames[r.value.0 - 1]) && r.value.1 == s[3..]
    ensures r.Err? ==> forall j :: i <= j < 12 ==> !(|s| >= 3 && FoldEqual(s[..3], MonthNames[j]))
    decreases 12 - i
  {
    if i == 12 then Err(BadValue)
    else if |s| >= 3 && FoldEqual(s[..3], MonthNames[i]) then Ok((i + 1, s[3..]))
    else LookupMonthFrom(s, i + 1)
  }

  /** time.Parse("1504", v): hour and minute of January 1st of year 0. */
  function ParseClock(v: string): (r: Result<DateTime, ParseError>)
    ensures r.Ok? ==> Valid(r.value) && r.value.year == 0 && r.value.month == 1 && r.value.day == 1 && r.value.second == 0
  {
    var h :- GetNum(v, false);
    if h.0 >= 24 then Err(OutOfRange)
    else
      var m :- GetNum(h.1, true);
      if m.0 >= 60 then Err(OutOfRange)
      else if m.1 != [] then Err(ExtraText)
      else Ok(DateTime(0, 1, 1, h.0, m.0, 0))
  }

  /** time.Parse("01021504", v): month, day, hour and minute of year 0, a leap year, so that
      February 29th is accepted. */
  function ParseMonthDayClock(v: string): (r: Result<DateTime, ParseError>)
    ensures r.Ok? ==> Valid(r.value) && r.value.year == 0 && r.value.second == 0
  {
    var mo :- GetNum(v, true);
    if mo.0 < 1 || mo.0 > 12 then Err(OutOfRange)
    else
      var d :- GetNum(mo.1, true);
      var h :- GetNum(d.1, false);
      if h.0 >= 24 then Err(OutOfRange)
      else
        var mi :- GetNum(h.1, true);
        if mi.0 >= 60 then Err(OutOfRange)
        else if mi.1 != [] then Err(ExtraText)
        else if d.0 < 1 || d.0 > DaysIn(0, mo.0) then Err(DayOutOfRange)
        else Ok(DateTime(0, mo.0, d.0, h.0, mi.0, 0))
  }

  /** time.Parse("2006Jan2 15:04:05", v). */
  function ParseYearMonthDayClock(v: string): (r: Result<DateTime, ParseError>)
    ensures r.Ok? ==> Valid(r.value) && 0 <= r.value.year <= 9999
  {
    if |v| < 4 || !IsDigit(v[0]) || !AllDigits(v[..4]) then Err(BadValue)
    else
      var year := DigitsValue(v[..4]);
      DigitsValueBound(v[..4]);
      assert Pow10(4) == 10000;
      var mo :- LookupMonth(v[4..]);
      ParseDayClock(year, mo.0, mo.1)
  }

  /** The "2 15:04:05" part of that layout, once year and month are read. */
  function ParseDayClock(year: int, month: int, v: string): (r: Result<DateTime, ParseError>)
    requires 1 <= month <= 12
    ensures r.Ok? ==> Valid(r.value) && r.value.year == year && r.value.month == month
  {
    var d :- GetNum(v, false);
    var v1 :- SkipSpaces(d.1);
    var c :- ParseHms(v1);
    if c.3 != [] then Err(ExtraText)
    else if d.0 < 1 || d.0 > DaysIn(year, month) then Err(DayOutOfRange)
    else Ok(DateTime(year, month, d.0, c.0, c.1, c.2))
  }

  /** The "15:04:05" part: hour, minute, second and what is left of the value. */
  function ParseHms(v: string): (r: Result<(int, int, int, string), ParseError>)
    ensures r.Ok? ==> 0 <= r.value.0 < 24 && 0 <= r.value.1 < 60 && 0 <= r.value.2 < 60
  {
    var h :- GetNum(v, false);
    if h.0 >= 24 then Err(OutOfRange)
    else
      var v2 :- SkipChar(h.1, ':');
      var mi :- GetNum(v2, true);
      if mi.0 >= 60 then Err(OutOfRange)
      else
        var v3 :- SkipChar(mi.1, ':');
        var sec :- GetNum(v3, true);
        if sec.0 >= 60 then Err(OutOfRange)
        else Ok((h.0, mi.0, sec.0, SkipFraction(sec.1)))
  }

  /** Four digits are read as HHMM exactly when they name an hour and a minute. */
  lemma ParseClockDigits(s: string)
    requires |s| == 4 && AllDigits(s)
    ensures ParseClock(s).Ok? <==> DigitsValue(s[..2]) < 24 && DigitsValue(s[2..]) < 60
    ensures ParseClock(s).Ok? ==> ParseClock(s).value == DateTime(0, 1, 1, DigitsValue(s[..2]), DigitsValue(s[2..]), 0)
  {
    assert s[2..][..2] == s[2..] && s[2..][2..] == [];
  }

  /** Eight digits are read as MMDDHHMM exactly when they name a month, a day of that month in a
      leap year, an hour and a minute. */
  lemma ParseMonthDayClockDigits(s: string)
    requires |s| == 8 && AllDigits(s)
    ensures var mo, d, h, mi := DigitsValue(s[..2]), DigitsValue(s[2..4]), DigitsValue(s[4..6]), DigitsValue(s[6..]);
      (ParseMonthDayClock(s).Ok? <==> 1 <= mo <= 12 && 1 <= d <= DaysIn(0, mo) && h < 24 && mi < 60)
      && (ParseMonthDayClock(s).Ok? ==> ParseMonthDayClock(s).value == DateTime(0, mo, d, h, mi, 0))
  {
    assert s[2..][..2] == s[2..4] && s[2..][2..] == s[4..];
    assert s[4..][..2] == s[4..6] && s[4..][2..] == s[6..];
    assert s[6..][..2] == s[6..] && s[6..][2..] == [];
  }

  lemma MonthNamesDistinct(i: int, j: int)
    requires 0 <= i < 12 && 0 <= j < 12 && FoldEqual(MonthNames[i], MonthNames[j])
    ensures i == j
  {
    assert FoldEqualChar(MonthNames[i][0], MonthNames[j][0]);
    assert FoldEqualChar(MonthNames[i][1], MonthNames[j][1]);
    assert FoldEqualChar(MonthNames[i][2], MonthNames[j][2]);
  }

  lemma LookupMonthName(m: int, rest: string)
    requires 1 <= m <= 12
    ensures LookupMonth(MonthNames[m - 1] + rest) == Ok((m, rest))
  {
    var s := MonthNames[m - 1] + rest;
    assert s[..3] == MonthNames[m - 1];
    assert FoldEqual(s[..3], MonthNames[m - 1]);
    var r := LookupMonth(s);
    if r.Ok? {
      MonthNamesDistinct(m - 1, r.value.0 - 1);
      assert s[3..] == rest;
    }
  }

  /** getnum reads back a number written on two digits. */
  lemma GetNumTwoDigits(x: int, rest: string, fixed: bool)
    requires 0 <= x < 100 && (rest == [] || !IsDigit(rest[0]))
    ensures GetNum(AppendInt(x, 2) + rest, fixed) == Ok((x, rest))
  {
    Pow10Small();
    AppendIntFixed(x, 2);
    var s := AppendInt(x, 2) + rest;
    assert s[..2] == AppendInt(x, 2) && s[2..] == rest;
  }

  /** getnum without fixed reads back strconv.Itoa of a number below 100. */
  lemma GetNumItoa(x: int, rest: string)
    requires 0 <= x < 100 && (rest == [] || !IsDigit(rest[0]))
    ensures GetNum(Itoa(x) + rest, false) == Ok((x, rest))
  {
    var s := Itoa(x) + rest;
    if x < 10 {
      NatDigitsLength(x, 1);
      assert Itoa(x) == NatDigits(x) && |Itoa(x)| == 1;
      assert s[..1] == Itoa(x) && s[1..] == rest;
    } else {
      assert Pow10(2) == 100;
      AppendIntFixed(x, 2);
      NatDigitsLength(x, 2);
      assert Itoa(x) == AppendInt(x, 2);
      assert s[..2] == Itoa(x) && s[2..] == rest;
    }
  }

  /** "15:04:05": hour, minute and second on two digits each. */
  function HmsText(t: DateTime): string
  {
    AppendInt(t.hour, 2) + (":" + (AppendInt(t.minute, 2) + (":" + AppendInt(t.second, 2))))
  }

  lemma ParseHmsOfText(t: DateTime)
    requires Valid(t)
    ensures ParseHms(HmsText(t)) == Ok((t.hour, t.minute, t.second, []))
  {
    var ss := AppendInt(t.second, 2);
    GetNumTwoDigits(t.hour, ":" + (AppendInt(t.minute, 2) + (":" + ss)), false);
    GetNumTwoDigits(t.minute, ":" + ss, true);
    GetNumTwoDigits(t.second, [], true);
    assert ss + [] == ss;
  }

  lemma ParseDayClockSteps(year: int, month: int, day: int, d: string, c: string, h: int, mi: int, sec: int)
    requires 1 <= month <= 12 && 1 <= day <= DaysIn(year, month)
    requires GetNum(d + (" " + c), false) == Ok((day, " " + c))
    requires c != [] && c[0] != ' '
    requires ParseHms(c) == Ok((h, mi, sec, []))
    ensures ParseDayClock(year, month, d + (" " + c)) == Ok(DateTime(year, month, day, h, mi, sec))
  {
    assert Blanks(" " + c) == 1;
    assert (" " + c)[1..] == c;
  }

  lemma ParseDayClockOfText(t: DateTime)
    requires Valid(t)
    ensures ParseDayClock(t.year, t.month, Itoa(t.day) + (" " + HmsText(t))) == Ok(t)
  {
    var c := HmsText(t);
    GetNumItoa(t.day, " " + c);
    Pow10Small();
    AppendIntFixed(t.hour, 2);
    ParseHmsOfText(t);
    ParseDayClockSteps(t.year, t.month, t.day, Itoa(t.day), c, t.hour, t.minute, t.second);
  }

  lemma ParseYearMonthDaySteps(y: string, month: int, rest: string)
    requires |y| == 4 && AllDigits(y) && 1 <= month <= 12
    ensures ParseYearMonthDayClock(y + (MonthNames[month - 1] + rest)) == ParseDayClock(DigitsValue(y), month, rest)
  {
    var v := y + (MonthNames[month - 1] + rest);
    assert v[..4] == y && v[4..] == MonthNames[month - 1] + rest;
    LookupMonthName(month, rest);
  }

  /** The text "<year><Mon><day> <hh>:<mm>:<ss>" that the `atq` listing supplies is read back
      as the date-time it names. */
  lemma ParseYearMonthDayClockOfText(t: DateTime)
    requires Valid(t) && 0 <= t.year <= 9999
    ensures ParseYearMonthDayClock(AppendInt(t.year, 4) + (MonthNames[t.month - 1] + (Itoa(t.day) + (" " + HmsText(t))))) == Ok(t)
  {
    var y := AppendInt(t.year, 4);
    assert |y| == 4 && AllDigits(y) && DigitsValue(y) == t.year by {
      Pow10Small();
      AppendIntFixed(t.year, 4);
    }
    ParseYearMonthDaySteps(y, t.month, Itoa(t.day) + (" " + HmsText(t)));
    ParseDayClockOfText(t);
  }
}
