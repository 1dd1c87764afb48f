/**
 * The `performed_at` timestamp as the exporter writes it: a UTC instant
 * (whole seconds from 1970-01-01T00:00:00Z, as the date and time picker
 * produces it) turned into calendar fields and formatted as an RFC 3339
 * `date-time` (section 5.6 of RFC 3339) the way the `time` crate's `Rfc3339`
 * format does: four-digit year, two-digit fields, `T`, and `Z` for UTC.
 */
module Rfc3339 {
  import opened Wrappers
  import opened Text
  import opened DateTimePicker

  // ---------------------------------------------------------------------------
  // Calendar arithmetic

  function YearLength(y: int): int { if IsLeapYear(y) then 366 else 365 }

  /**
   * Day number of March 1 of year `y`, counted year by year from March 1 of
   * year 0: from March 1 of `y - 1` to March 1 of `y` there are as many days
   * as year `y` has, because the leap day falls in that stretch.
   */
  function MarchStart(y: int): int
    decreases if y >= 0 then y else -y
  {
    if y == 0 then -719468
    else if y > 0 then MarchStart(y - 1) + YearLength(y)
    else MarchStart(y + 1) - YearLength(y + 1)
  }

  /** Days from March 1 to the first of month `m`, in the March-based year. */
  function MonthOffset(m: int): int
    requires 1 <= m <= 12
  {
    var mp := if m > 2 then m - 3 else m + 9;
    (153 * mp + 2) / 5
  }

  /** Day number of the first of month `m` of year `y` (January and February belong to the March-based year before). */
  function MonthStart(y: int, m: int): int
    requires 1 <= m <= 12
  {
    (if m <= 2 then MarchStart(y - 1) else MarchStart(y)) + MonthOffset(m)
  }

  /** Day number of January 1 of year `y`. */
  function YearStart(y: int): int { MonthStart(y, 1) }

  /** Day number of the first day after month `m` of year `y`. */
  function MonthEnd(y: int, m: int): int
    requires 1 <= m <= 12
  {
    if m == 12 then YearStart(y + 1) else MonthStart(y, m + 1)
  }

  lemma MarchStep(y: int)
    ensures MarchStart(y) == MarchStart(y - 1) + YearLength(y)
  {
    if y <= 0 {
      assert MarchStart(y - 1) == MarchStart(y) - YearLength(y);
    }
  }

  /** The closed form of `DaysFromCivil` at March 1, once the year is split into 400-year eras. */
  lemma ClosedFormMarch(y: int, era: int, yoe: int)
    requires y == era * 400 + yoe && 0 <= yoe < 400
    ensures DaysFromCivil(Ymd(y, 3, 1)) == era * 146097 + yoe * 365 + yoe / 4 - yoe / 100 - 719468
  {
    DivModUnique(y, 400, era, yoe);
  }

  /** Going from `k - 1` to `k` raises `k / n` exactly when `n` divides `k`. */
  lemma DivStep(k: int, n: int)
    requires n > 0
    ensures k / n - (k - 1) / n == if k % n == 0 then 1 else 0
  {
    var q, r := (k - 1) / n, (k - 1) % n;
    if r == n - 1 {
      DivModUnique(k, n, q + 1, 0);
    } else {
      DivModUnique(k, n, q, r + 1);
    }
  }

  /** Leap years, read off the position of the year inside its 400-year era. */
  lemma LeapInEra(y: int, era: int, yoe: int)
    requires y == era * 400 + yoe && 0 <= yoe < 400
    ensures IsLeapYear(y) <==> yoe % 4 == 0 && (yoe % 100 != 0 || yoe == 0)
  {
    DivModUnique(y, 400, era, yoe);
    DivModUnique(y, 4, era * 100 + yoe / 4, yoe % 4);
    DivModUnique(y, 100, era * 4 + yoe / 100, yoe % 100);
  }

  /** Inside an era, one more year adds 365 days, one more on every fourth year but not on every hundredth. */
  lemma EraYearStep(yoe: int)
    requires 1 <= yoe < 400
    ensures yoe * 365 + yoe / 4 - yoe / 100 - ((yoe - 1) * 365 + (yoe - 1) / 4 - (yoe - 1) / 100)
      == 365 + (if yoe % 4 == 0 then 1 else 0) - (if yoe % 100 == 0 then 1 else 0)
  {
    DivStep(yoe, 4);
    DivStep(yoe, 100);
  }

  /** The closed form of `DaysFromCivil` steps by a year's length from one March 1 to the next. */
  lemma ClosedFormMarchStep(y: int)
    ensures DaysFromCivil(Ymd(y, 3, 1)) == DaysFromCivil(Ymd(y - 1, 3, 1)) + YearLength(y)
  {
    var era, yoe := y / 400, y % 400;
    ClosedFormMarch(y, era, yoe);
    LeapInEra(y, era, yoe);
    if yoe == 0 {
      ClosedFormMarch(y - 1, era - 1, 399);
    } else {
      ClosedFormMarch(y - 1, era, yoe - 1);
      EraYearStep(yoe);
      assert yoe % 100 == 0 ==> yoe % 4 == 0 by {
        if yoe % 100 == 0 {
          DivModUnique(yoe, 4, yoe / 100 * 25, 0);
        }
      }
    }
  }

  /** The year-by-year count agrees with the closed form. */
  lemma {:induction false} MarchStartIsClosedForm(y: int)
    ensures MarchStart(y) == DaysFromCivil(Ymd(y, 3, 1))
    decreases if y >= 0 then y else -y
  {
    if y > 0 {
      MarchStartIsClosedForm(y - 1);
      AgreeForward(y);
    } else if y < 0 {
      MarchStartIsClosedForm(y + 1);
      AgreeBackward(y + 1);
    }
  }

  lemma AgreeForward(y: int)
    requires MarchStart(y - 1) == DaysFromCivil(Ymd(y - 1, 3, 1))
    ensures MarchStart(y) == DaysFromCivil(Ymd(y, 3, 1))
  {
    MarchStep(y);
    ClosedFormMarchStep(y);
  }

  lemma AgreeBackward(y: int)
    requires MarchStart(y) == DaysFromCivil(Ymd(y, 3, 1))
    ensures MarchStart(y - 1) == DaysFromCivil(Ymd(y - 1, 3, 1))
  {
    MarchStep(y);
    ClosedFormMarchStep(y);
  }

  /** `DaysFromCivil` is the month's first day number plus the day of the month, minus one. */
  lemma DaysFromCivilIsMonthStart(d: Ymd)
    requires 1 <= d.month <= 12
    ensures DaysFromCivil(d) == MonthStart(d.year, d.month) + d.day - 1
  {
    var y := if d.month <= 2 then d.year - 1 else d.year;
    MarchStartIsClosedForm(y);
  }

  /** Consecutive years start `YearLength` days apart. */
  lemma YearStep(y: int)
    ensures YearStart(y + 1) == YearStart(y) + YearLength(y)
  {
    MarchStep(y);
  }

  /** Every month is as long as `DaysInMonth` says. */
  lemma MonthLength(y: int, m: int)
    requires 1 <= m <= 12
    ensures MonthEnd(y, m) == MonthStart(y, m) + DaysInMonth(y, m)
  {
    if m == 2 {
      MarchStep(y);
    }
  }

  lemma {:induction false} YearStartMonotone(a: int, b: int)
    requires a <= b
    ensures YearStart(a) <= YearStart(b)
    decreases b - a
  {
    if a < b {
      YearStep(a);
      YearStartMonotone(a + 1, b);
    }
  }

  /** Only one year contains a given day number. */
  lemma YearUnique(z: int, y1: int, y2: int)
    requires YearStart(y1) <= z < YearStart(y1 + 1)
    requires YearStart(y2) <= z < YearStart(y2 + 1)
    ensures y1 == y2
  {
    if y1 < y2 {
      YearStartMonotone(y1 + 1, y2);
    } else if y2 < y1 {
      YearStartMonotone(y2 + 1, y1);
    }
  }

  /** Only one month of a year contains a given day number. */
  lemma MonthUnique(z: int, y: int, m1: int, m2: int)
    requires 1 <= m1 <= 12 && 1 <= m2 <= 12
    requires MonthStart(y, m1) <= z < MonthEnd(y, m1)
    requires MonthStart(y, m2) <= z < MonthEnd(y, m2)
    ensures m1 == m2
  {
    if m1 < m2 {
      MonthEndMonotone(y, m1, m2);
    } else if m2 < m1 {
      MonthEndMonotone(y, m2, m1);
    }
  }

  // ---------------------------------------------------------------------------
  // From a day number back to the calendar

  function FindYearUp(z: int, y: int): (r: int)
    requires YearStart(y) <= z
    ensures YearStart(r) <= z < YearStart(r + 1)
    decreases z - YearStart(y)
  {
    YearStep(y);
    if z < YearStart(y + 1) then y else FindYearUp(z, y + 1)
  }

  function FindYearDown(z: int, y: int): (r: int)
    requires z < YearStart(y + 1)
    ensures YearStart(r) <= z < YearStart(r + 1)
    decreases YearStart(y + 1) - z
  {
    YearStep(y);
    if YearStart(y) <= z then y else FindYearDown(z, y - 1)
  }

  /** The year day `z` falls in. */
  function YearOfDay(z: int): (y: int)
    ensures YearStart(y) <= z < YearStart(y + 1)
  {
    if z >= YearStart(0) then FindYearUp(z, 0) else FindYearDown(z, -1)
  }

  function FindMonth(z: int, y: int, m: int): (r: int)
    requires 1 <= m <= 12 && YearStart(y) <= z < MonthEnd(y, m)
    ensures 1 <= r <= m && MonthStart(y, r) <= z < MonthEnd(y, r)
    decreases m
  {
    if MonthStart(y, m) <= z || m == 1 then m else FindMonth(z, y, m - 1)
  }

  /** The calendar date of day number `z`: a real date whose day number is `z`. */
  function CivilFromDays(z: int): (d: Ymd)
    ensures 1 <= d.month <= 12 && 1 <= d.day <= DaysInMonth(d.year, d.month)
    ensures DaysFromCivil(d) == z
  {
    var y := YearOfDay(z);
    var m := FindMonth(z, y, 12);
    MonthLength(y, m);
    DaysFromCivilIsMonthStart(Ymd(y, m, z - MonthStart(y, m) + 1));
    Ymd(y, m, z - MonthStart(y, m) + 1)
  }

  /** A calendar date is the only one with its day number. */
  lemma DaysFromCivilInjective(a: Ymd, b: Ymd)
    requires 1 <= a.month <= 12 && 1 <= a.day <= DaysInMonth(a.year, a.month)
    requires 1 <= b.month <= 12 && 1 <= b.day <= DaysInMonth(b.year, b.month)
    requires DaysFromCivil(a) == DaysFromCivil(b)
    ensures a == b
  {
    var z := DaysFromCivil(a);
    InYearAndMonth(a);
    InYearAndMonth(b);
    YearUnique(z, a.year, b.year);
    MonthUnique(z, a.year, a.month, b.month);
    DaysFromCivilIsMonthStart(a);
    DaysFromCivilIsMonthStart(b);
  }

  /** A date lies inside its year and its month. */
  lemma InYearAndMonth(d: Ymd)
    requires 1 <= d.month <= 12 && 1 <= d.day <= DaysInMonth(d.year, d.month)
    ensures YearStart(d.year) <= DaysFromCivil(d) < YearStart(d.year + 1)
    ensures MonthStart(d.year, d.month) <= DaysFromCivil(d) < MonthEnd(d.year, d.month)
  {
    DaysFromCivilIsMonthStart(d);
    MonthLength(d.year, d.month);
    MonthStartInYear(d.year, d.month);
  }

  lemma MonthStartInYear(y: int, m: int)
    requires 1 <= m <= 12
    ensures YearStart(y) <= MonthStart(y, m) && MonthEnd(y, m) <= YearStart(y + 1)
  {
    MarchStep(y);
  }

  lemma {:induction false} MonthEndMonotone(y: int, m: int, n: int)
    requires 1 <= m < n <= 12
    ensures MonthEnd(y, m) <= MonthStart(y, n)
    decreases n - m
  {
    if m + 1 < n {
      MonthLength(y, m + 1);
      MonthEndMonotone(y, m + 1, n);
    }
  }

  /** `CivilFromDays` inverts `DaysFromCivil` on real dates. */
  lemma CivilFromDaysOfDate(d: Ymd)
    requires 1 <= d.month <= 12 && 1 <= d.day <= DaysInMonth(d.year, d.month)
    ensures CivilFromDays(DaysFromCivil(d)) == d
  {
    DaysFromCivilInjective(CivilFromDays(DaysFromCivil(d)), d);
  }

  // ---------------------------------------------------------------------------
  // UTC date-times

  /** An `OffsetDateTime` at offset zero with whole seconds, as calendar fields. */
  datatype DateTime = DateTime(date: Ymd, hour: int, minute: int, second: int)

  predicate ValidDateTime(t: DateTime) {
    && 1 <= t.date.month <= 12 && 1 <= t.date.day <= DaysInMonth(t.date.year, t.date.month)
    && 0 <= t.hour < 24 && 0 <= t.minute < 60 && 0 <= t.second < 60
  }

  /** Seconds since 1970-01-01T00:00:00Z. */
  function UnixTimestamp(t: DateTime): int
    requires 1 <= t.date.month <= 12
  {
    DaysFromCivil(t.date) * 86400 + t.hour * 3600 + t.minute * 60 + t.second
  }

  /** `OffsetDateTime::from_unix_timestamp`: the day and the time of day of a Unix timestamp, at UTC. */
  function FromUnixTimestamp(ts: int): (t: DateTime)
    ensures ValidDateTime(t)
    ensures UnixTimestamp(t) == ts
  {
    var days, secs := ts / 86400, ts % 86400;
    SecondsOfDay(secs);
    DateTime(CivilFromDays(days), secs / 3600, secs % 3600 / 60, secs % 60)
  }

  lemma SecondsOfDay(secs: int)
    requires 0 <= secs < 86400
    ensures 0 <= secs / 3600 < 24 && 0 <= secs % 3600 / 60 < 60 && 0 <= secs % 60 < 60
    ensures (secs / 3600) * 3600 + (secs % 3600 / 60) * 60 + secs % 60 == secs
  {
    var h, rest := secs / 3600, secs % 3600;
    var m, sec := rest / 60, rest % 60;
    DivModUnique(secs, 60, h * 60 + m, sec);
  }

  /** A valid date-time is recovered from its timestamp. */
  lemma FromUnixTimestampOfDateTime(t: DateTime)
    requires ValidDateTime(t)
    ensures FromUnixTimestamp(UnixTimestamp(t)) == t
  {
    var ts := UnixTimestamp(t);
    var secs := t.hour * 3600 + t.minute * 60 + t.second;
    DivModUnique(ts, 86400, DaysFromCivil(t.date), secs);
    DivModUnique(secs, 3600, t.hour, t.minute * 60 + t.second);
    DivModUnique(t.minute * 60 + t.second, 60, t.minute, t.second);
    DivModUnique(secs, 60, t.hour * 60 + t.minute, t.second);
    CivilFromDaysOfDate(t.date);
  }

  // ---------------------------------------------------------------------------
  // Formatting

  function Pow10(n: nat): nat { if n == 0 then 1 else 10 * Pow10(n - 1) }

  /**
   * `format_number_pad_zero::<width>` on a value of at most `width` digits:
   * exactly `width` decimal digits, zeros in front.
   */
  function PadZero(n: nat, width: nat): (r: string)
    requires n < Pow10(width)
    ensures |r| == width && AllDigits(r) && DigitsValue(r) == n
  {
    if width == 0 then ""
    else
      var r := PadZero(n / 10, width - 1) + [DigitChar(n % 10)];
      assert r[..|r| - 1] == PadZero(n / 10, width - 1);
      r
  }

  /** The error `time` reports for a year that does not fit four digits. */
  const YEAR_ERROR: string := "The year component cannot be formatted into the requested format."

  function DatePart(y: nat, m: nat, d: nat): (r: string)
    requires y < 10000 && m < 100 && d < 100
  {
    PadZero(y, 4) + "-" + PadZero(m, 2) + "-" + PadZero(d, 2)
  }

  function TimePart(h: nat, m: nat, s: nat): (r: string)
    requires h < 100 && m < 100 && s < 100
  {
    PadZero(h, 2) + ":" + PadZero(m, 2) + ":" + PadZero(s, 2)
  }

  /**
   * `OffsetDateTime::format(&Rfc3339)` on a UTC date-time with whole seconds:
   * years outside 0 to 9999 are refused; otherwise the date, `T`, the time
   * and `Z`.  No fraction is written because the nanoseconds are zero.
   */
  function Format(t: DateTime): (r: Result<string, string>)
    requires ValidDateTime(t)
  {
    var y := t.date.year;
    if !(0 <= y < 10000) then Err(YEAR_ERROR)
    else Ok(DatePart(y, t.date.month, t.date.day) + "T" + TimePart(t.hour, t.minute, t.second) + "Z")
  }

  // ---------------------------------------------------------------------------
  // The `date-time` production of section 5.6 of RFC 3339

  predicate DigitsIn(s: string, lo: int, hi: int) {
    AllDigits(s) && lo <= DigitsValue(s) <= hi
  }

  /** `full-date = date-fullyear "-" date-month "-" date-mday`, the day within its month (section 5.7). */
  predicate FullDate(s: string) {
    && |s| == 10
    && AllDigits(s[..4]) && s[4] == '-' && DigitsIn(s[5..7], 1, 12) && s[7] == '-' && AllDigits(s[8..])
    && 1 <= DigitsValue(s[8..]) <= DaysInMonth(DigitsValue(s[..4]), DigitsValue(s[5..7]))
  }

  /** `time-secfrac = "." 1*DIGIT`. */
  predicate SecFrac(s: string) {
    |s| >= 2 && s[0] == '.' && AllDigits(s[1..])
  }

  /** `partial-time = time-hour ":" time-minute ":" time-second [time-secfrac]`. */
  predicate PartialTime(s: string) {
    && |s| >= 8
    && DigitsIn(s[..2], 0, 23) && s[2] == ':' && DigitsIn(s[3..5], 0, 59) && s[5] == ':' && DigitsIn(s[6..8], 0, 60)
    && (|s| == 8 || SecFrac(s[8..]))
  }

  /** `time-numoffset = ("+" / "-") time-hour ":" time-minute`. */
  predicate NumOffset(s: string) {
    |s| == 6 && (s[0] == '+' || s[0] == '-') && DigitsIn(s[1..3], 0, 23) && s[3] == ':' && DigitsIn(s[4..], 0, 59)
  }

  /** The `partial-time` in front of the offset: one character for `Z`, six for a numeric offset. */
  function PartialOf(s: string): string
    requires |s| >= 6
  {
    if s[|s| - 1] == 'Z' || s[|s| - 1] == 'z' then s[..|s| - 1] else s[..|s| - 6]
  }

  /** `full-time = partial-time time-offset`, with `time-offset = "Z" / time-numoffset` (`z` also allowed). */
  predicate FullTime(s: string) {
    && |s| >= 9
    && (s[|s| - 1] == 'Z' || s[|s| - 1] == 'z' || (|s| >= 14 && NumOffset(s[|s| - 6..])))
    && PartialTime(PartialOf(s))
  }

  /** `date-time = full-date "T" full-time` (`t` also allowed). */
  predicate IsDateTime(s: string) {
    |s| >= 20 && FullDate(s[..10]) && (s[10] == 'T' || s[10] == 't') && FullTime(s[11..])
  }

  /** The calendar fields of a `date-time`, read from its `full-date` and `partial-time`. */
  function FieldsOf(s: string): (t: DateTime)
    requires IsDateTime(s)
  {
    var date, time := s[..10], PartialOf(s[11..]);
    DateTime(Ymd(DigitsValue(date[..4]), DigitsValue(date[5..7]), DigitsValue(date[8..])),
             DigitsValue(time[..2]), DigitsValue(time[3..5]), DigitsValue(time[6..8]))
  }

  lemma DatePartShape(y: nat, m: nat, d: nat)
    requires y < 10000 && m < 100 && d < 100
    ensures var r := DatePart(y, m, d);
      && |r| == 10 && r[..4] == PadZero(y, 4) && r[4] == '-' && r[5..7] == PadZero(m, 2)
      && r[7] == '-' && r[8..] == PadZero(d, 2)
  {
  }

  lemma TimePartShape(h: nat, m: nat, s: nat)
    requires h < 100 && m < 100 && s < 100
    ensures var r := TimePart(h, m, s);
      && |r| == 8 && r[..2] == PadZero(h, 2) && r[2] == ':' && r[3..5] == PadZero(m, 2)
      && r[5] == ':' && r[6..] == PadZero(s, 2)
  {
  }

  lemma JoinedShape(date: string, time: string)
    requires |date| == 10 && |time| == 8
    ensures var r := date + "T" + time + "Z";
      && |r| == 20 && r[..10] == date && r[10] == 'T' && r[11..] == time + "Z"
      && r[11..][..|r[11..]| - 1] == time && r[11..][|r[11..]| - 1] == 'Z'
  {
    var r := date + "T" + time + "Z";
    assert r[11..] == time + "Z";
  }

  /**
   * A formatted date-time is an RFC 3339 `date-time` ending in `Z`, twenty
   * characters long, whose fields read back as the date-time formatted.
   */
  lemma FormatIsDateTime(t: DateTime)
    requires ValidDateTime(t) && Format(t).Ok?
    ensures IsDateTime(Format(t).value)
    ensures |Format(t).value| == 20 && Format(t).value[19] == 'Z'
    ensures FieldsOf(Format(t).value) == t
  {
    var y, m, d := t.date.year, t.date.month, t.date.day;
    var date := DatePart(y, m, d);
    var time := TimePart(t.hour, t.minute, t.second);
    DatePartShape(y, m, d);
    TimePartShape(t.hour, t.minute, t.second);
    JoinedShape(date, time);
    var r := Format(t).value;
    assert r == date + "T" + time + "Z";
    assert FullDate(r[..10]);
    assert PartialOf(r[11..]) == time;
    assert PartialTime(time);
  }

  /** Formatting fails exactly for years outside 0 to 9999, with `time`'s year error. */
  lemma FormatErrors(t: DateTime)
    requires ValidDateTime(t)
    ensures Format(t).Err? <==> !(0 <= t.date.year <= 9999)
    ensures Format(t).Err? ==> Format(t).error == YEAR_ERROR
  {
  }

  // ---------------------------------------------------------------------------
  // Timestamps from the picker

  /** The first second of year 0. */
  const YEAR_ZERO_TIMESTAMP: int := -62167219200

  /** The timestamp as the exporter formats it. */
  function FormatTimestamp(ts: int): (r: Result<string, string>)
  {
    Format(FromUnixTimestamp(ts))
  }

  lemma YearStartValues(y: int, expected: int)
    requires (y == 0 && expected == -719528) || (y == 10000 && expected == 2932897)
    ensures YearStart(y) == expected
  {
    DaysFromCivilIsMonthStart(Ymd(y, 1, 1));
  }

  /** A day number's year is at least `y` exactly when the day is not before that year starts. */
  lemma YearOfDayBound(z: int, y: int)
    ensures YearOfDay(z) >= y <==> z >= YearStart(y)
  {
    var yz := YearOfDay(z);
    if yz >= y {
      YearStartMonotone(y, yz);
    } else {
      YearStartMonotone(yz + 1, y);
    }
  }

  /**
   * Over the picker's timestamp range the only formatting failure is a year
   * before 0, that is a timestamp before 0000-01-01T00:00:00Z.
   */
  lemma PickerTimestampsFormat(ts: int)
    requires MIN_TIMESTAMP <= ts <= MAX_TIMESTAMP
    ensures FormatTimestamp(ts).Err? <==> ts < YEAR_ZERO_TIMESTAMP
    ensures FormatTimestamp(ts).Ok? ==> IsDateTime(FormatTimestamp(ts).value)
  {
    var days := ts / 86400;
    var t := FromUnixTimestamp(ts);
    assert t.date.year == YearOfDay(days);
    YearStartValues(0, -719528);
    YearStartValues(10000, 2932897);
    YearOfDayBound(days, 0);
    YearOfDayBound(days, 10000);
    assert days < 2932897;
    assert days >= -719528 <==> ts >= YEAR_ZERO_TIMESTAMP;
    if FormatTimestamp(ts).Ok? {
      FormatIsDateTime(t);
    }
  }
}
