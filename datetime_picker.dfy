/**
 * The date and time picker: the calendar date, hour and minute the user
 * chooses, and their conversion from local wall-clock time to a UTC instant
 * (Unix seconds).  The clock and the local time zone are outside the model:
 * `SetNow` carries the clock's reading, and the conversion takes the offsets
 * the local zone allows at the chosen wall-clock time.
 */
module DateTimePicker {
  import opened Wrappers
  import opened Text

  /** Rust's `i32`. */
  type I32 = x: int | I32_MIN <= x <= I32_MAX

  function Clamp(v: int, lo: int, hi: int): (r: int)
    requires lo <= hi
    ensures lo <= r <= hi
    ensures lo <= v <= hi ==> r == v
    ensures v < lo ==> r == lo
    ensures v > hi ==> r == hi
  {
    if v < lo then lo else if v > hi then hi else v
  }

  // ---------------------------------------------------------------------------
  // Calendar dates

  /** The years chrono's `NaiveDate` can hold. */
  const MIN_YEAR: int := -262143
  const MAX_YEAR: int := 262142

  /** A year, month and day of the proleptic Gregorian calendar. */
  datatype Ymd = Ymd(year: int, month: int, day: int)

  predicate IsLeapYear(y: int)
  {
    y % 4 == 0 && (y % 100 != 0 || y % 400 == 0)
  }

  function DaysInMonth(y: int, m: int): (r: int)
    requires 1 <= m <= 12
    ensures 28 <= r <= 31
  {
    if m == 2 then (if IsLeapYear(y) then 29 else 28)
    else if m == 4 || m == 6 || m == 9 || m == 11 then 30
    else 31
  }

  predicate IsValidYmd(d: Ymd)
  {
    && MIN_YEAR <= d.year <= MAX_YEAR
    && 1 <= d.month <= 12
    && 1 <= d.day <= DaysInMonth(d.year, d.month)
  }

  /** chrono's `NaiveDate`: only dates that exist. */
  type NaiveDate = d: Ymd | IsValidYmd(d) witness Ymd(1970, 1, 1)

  /** `NaiveDate::from_ymd_opt`. */
  function FromYmd(year: int, month: int, day: int): (r: Option<NaiveDate>)
    ensures r.Some? <==> IsValidYmd(Ymd(year, month, day))
    ensures r.Some? ==> r.value == Ymd(year, month, day)
  {
    var d := Ymd(year, month, day);
    if IsValidYmd(d) then var nd: NaiveDate := d; Some(nd) else None
  }

  /**
   * The days from 1970-01-01 to `d` (negative before it): the usual
   * era-of-400-years count, with the year starting on March 1 so that the
   * leap day is the last day of the year.
   */
  function DaysFromCivil(d: Ymd): int
    requires 1 <= d.month <= 12
  {
    var y := if d.month <= 2 then d.year - 1 else d.year;
    var era := y / 400;
    var yoe := y - era * 400;
    var mp := if d.month > 2 then d.month - 3 else d.month + 9;
    var doy := (153 * mp + 2) / 5 + d.day - 1;
    var doe := yoe * 365 + yoe / 4 - yoe / 100 + doy;
    era * 146097 + doe - 719468
  }

  /** `NaiveDate::and_hms_opt(h, m, 0)`: the wall-clock time as seconds from 1970-01-01 00:00. */
  function AndHm(d: NaiveDate, hour: int, minute: int): (r: Option<int>)
    ensures r.Some? <==> 0 <= hour < 24 && 0 <= minute < 60
  {
    if 0 <= hour < 24 && 0 <= minute < 60 then
      Some(DaysFromCivil(d) * 86400 + hour * 3600 + minute * 60)
    else None
  }

  // ---------------------------------------------------------------------------
  // The picker

  type Hour = x: int | 0 <= x <= 23
  type Minute = x: int | 0 <= x <= 59

  /** What the clock reports for "now", in local time: chrono's hours and minutes are always in range. */
  datatype ClockReading = ClockReading(date: NaiveDate, hour: Hour, minute: Minute)

  /** `DateTimeModel` as a value. */
  datatype State = State(date: NaiveDate, hour: I32, minute: I32)

  /** `DateTimeMsg`. */
  datatype Msg =
    | SetDate(date: NaiveDate)
    | SetHour(h: I32)
    | SetMinute(m: I32)
    | SetNow(now: ClockReading)

  /** `DateTimeModel::default`: the clock's reading. */
  function Default(now: ClockReading): State
  {
    State(now.date, now.hour, now.minute)
  }

  /** The hour and minute are in range. */
  predicate Valid(s: State)
  {
    0 <= s.hour <= 23 && 0 <= s.minute <= 59
  }

  /** `update` as a value. */
  function Step(s: State, msg: Msg): State
  {
    match msg
    case SetDate(d) => s.(date := d)
    case SetHour(h) => s.(hour := Clamp(h, 0, 23))
    case SetMinute(m) => s.(minute := Clamp(m, 0, 59))
    case SetNow(now) => Default(now)
  }

  function Run(s: State, msgs: seq<Msg>): State
  {
    if msgs == [] then s else Step(Run(s, msgs[..|msgs| - 1]), msgs[|msgs| - 1])
  }

  // ---------------------------------------------------------------------------
  // Conversion to UTC

  /** `OffsetDateTime::from_unix_timestamp` accepts years -9999 to 9999. */
  const MIN_TIMESTAMP: int := -377705116800
  const MAX_TIMESTAMP: int := 253402300799

  const HOUR_ERROR: string := "Hour must be 0-23"
  const MINUTE_ERROR: string := "Minute must be 0-59"
  const DATE_ERROR: string := "Invalid calendar date or time"
  const LOCAL_ERROR: string := "Invalid local date/time (likely skipped by offset)"
  const TIMESTAMP_ERROR: string := "Failed to construct timestamp: timestamp must be in the range -377705116800..=253402300799"

  /**
   * `to_offset_datetime`: the chosen local time as a UTC instant.  `offsets`
   * are the UTC offsets (seconds east of Greenwich) the local zone gives to
   * that wall-clock time: none in a gap, two in an overlap.
   */
  function ToOffsetDateTime(s: State, offsets: seq<int>): (r: Result<int, string>)
  {
    if !(0 <= s.hour <= 23) then Err(HOUR_ERROR)
    else if !(0 <= s.minute <= 59) then Err(MINUTE_ERROR)
    else
      match FromYmd(s.date.year, s.date.month, s.date.day)
      case None => Err(DATE_ERROR)
      case Some(d) =>
        match AndHm(d, s.hour, s.minute)
        case None => Err(DATE_ERROR)
        case Some(local) =>
          if |offsets| != 1 then Err(LOCAL_ERROR)
          else
            var utc := local - offsets[0];
            if MIN_TIMESTAMP <= utc <= MAX_TIMESTAMP then Ok(utc) else Err(TIMESTAMP_ERROR)
  }

  /** `format_two`: the value clamped to 0..99, as exactly two digits. */
  function FormatTwo(n: I32): (r: string)
    ensures |r| == 2 && AllDigits(r)
    ensures DigitsValue(r) == Clamp(n, 0, 99)
  {
    var v := Clamp(n, 0, 99);
    var r := [DigitChar(v / 10), DigitChar(v % 10)];
    assert r[..1] == [DigitChar(v / 10)];
    assert [DigitChar(v / 10)][..0] == [];
    assert DigitsValue(r[..1]) == v / 10;
    assert DigitsValue(r) == (v / 10) * 10 + v % 10;
    r
  }

  // ---------------------------------------------------------------------------
  // Properties

  /** Each setter changes its own field only; hour and minute are clamped. */
  lemma SettersTouchOneField(s: State, d: NaiveDate, v: I32)
    ensures Step(s, SetDate(d)) == State(d, s.hour, s.minute)
    ensures Step(s, SetHour(v)) == State(s.date, Clamp(v, 0, 23), s.minute)
    ensures Step(s, SetMinute(v)) == State(s.date, s.hour, Clamp(v, 0, 59))
    ensures Valid(s) ==> Valid(Step(s, SetDate(d))) && Valid(Step(s, SetHour(v))) && Valid(Step(s, SetMinute(v)))
  {
  }

  /** `SetNow` replaces all three fields with the clock's reading. */
  lemma SetNowReadsClock(s: State, now: ClockReading)
    ensures Step(s, SetNow(now)) == State(now.date, now.hour, now.minute)
    ensures Valid(Step(s, SetNow(now)))
  {
  }

  lemma StepValid(s: State, msg: Msg)
    requires Valid(s)
    ensures Valid(Step(s, msg))
  {
  }

  /** From the default picker, every sequence of messages keeps hour and minute in range. */
  lemma {:induction false} ReachableValid(now: ClockReading, msgs: seq<Msg>)
    ensures Valid(Run(Default(now), msgs))
  {
    if msgs != [] {
      ReachableValid(now, msgs[..|msgs| - 1]);
      StepValid(Run(Default(now), msgs[..|msgs| - 1]), msgs[|msgs| - 1]);
    }
  }

  /**
   * The conversion's errors, in the order they are checked: the hour first,
   * then the minute, then the zone, then the timestamp range.  A date the
   * picker holds always exists, so the calendar error never occurs.
   */
  lemma ConversionErrors(s: State, offsets: seq<int>)
    ensures var r := ToOffsetDateTime(s, offsets);
      && (r == Err(HOUR_ERROR) <==> !(0 <= s.hour <= 23))
      && (r == Err(MINUTE_ERROR) <==> 0 <= s.hour <= 23 && !(0 <= s.minute <= 59))
      && r != Err(DATE_ERROR)
      && (r == Err(LOCAL_ERROR) <==> Valid(s) && |offsets| != 1)
  {
  }

  /**
   * A successful conversion is the wall-clock time minus the zone's single
   * offset: shifted back by the offset, the instant falls on the chosen day,
   * at the chosen hour and minute, on the full minute.
   */
  lemma ConversionReadsBack(s: State, offsets: seq<int>)
    requires ToOffsetDateTime(s, offsets).Ok?
    ensures |offsets| == 1
    ensures var local := ToOffsetDateTime(s, offsets).value + offsets[0];
      && local / 86400 == DaysFromCivil(s.date)
      && local % 86400 / 3600 == s.hour
      && local % 3600 / 60 == s.minute
      && local % 60 == 0
  {
    var local := ToOffsetDateTime(s, offsets).value + offsets[0];
    DayTimeSplit(DaysFromCivil(s.date), s.hour, s.minute);
  }

  /** A valid picker converts whenever the zone gives one offset and the instant is representable. */
  lemma ValidConverts(s: State, offsets: seq<int>)
    requires Valid(s) && |offsets| == 1
    ensures var local := DaysFromCivil(s.date) * 86400 + s.hour * 3600 + s.minute * 60;
      ToOffsetDateTime(s, offsets)
        == if MIN_TIMESTAMP <= local - offsets[0] <= MAX_TIMESTAMP then Ok(local - offsets[0]) else Err(TIMESTAMP_ERROR)
  {
  }

  lemma DayTimeSplit(days: int, hour: int, minute: int)
    requires 0 <= hour < 24 && 0 <= minute < 60
    ensures var t := days * 86400 + hour * 3600 + minute * 60;
      && t / 86400 == days
      && t % 86400 == hour * 3600 + minute * 60
      && t % 86400 / 3600 == hour
      && t % 3600 / 60 == minute
      && t % 60 == 0
  {
    var t := days * 86400 + hour * 3600 + minute * 60;
    var r := hour * 3600 + minute * 60;
    assert 0 <= r < 86400;
    DivModUnique(t, 86400, days, r);
    DivModUnique(r, 3600, hour, minute * 60);
    DivModUnique(t, 3600, days * 24 + hour, minute * 60);
    DivModUnique(minute * 60, 60, minute, 0);
    DivModUnique(t, 60, days * 1440 + hour * 60 + minute, 0);
  }

  /** Euclidean division is determined by quotient and remainder. */
  lemma DivModUnique(a: int, b: int, q: int, r: int)
    requires b > 0 && 0 <= r < b && a == q * b + r
    ensures a / b == q && a % b == r
  {
    var q0, r0 := a / b, a % b;
    assert a == q0 * b + r0 && 0 <= r0 < b;
    MulDistance(q0, q, b);
    assert (q0 - q) * b == r - r0;
    if q0 != q {
      MulAtLeast(if q0 > q then q0 - q else q - q0, b);
    }
  }

  lemma MulDistance(x: int, y: int, b: int)
    ensures x * b - y * b == (x - y) * b
  {
  }

  lemma MulAtLeast(k: int, b: int)
    requires k >= 1 && b > 0
    ensures k * b >= b
  {
  }

  /** 1970-01-01 is day 0, and moving to the next day of the same month adds one day. */
  lemma EpochIsDayZero()
    ensures DaysFromCivil(Ymd(1970, 1, 1)) == 0
  {
  }

  lemma NextDayAddsOne(d: Ymd)
    requires 1 <= d.month <= 12
    ensures DaysFromCivil(d.(day := d.day + 1)) == DaysFromCivil(d) + 1
  {
  }

  /** `format_two` keeps values from 0 to 99 and clamps the rest: negative values read `"00"`, large ones `"99"`. */
  lemma FormatTwoClamps(n: I32)
    ensures n < 0 ==> FormatTwo(n) == "00"
    ensures n > 99 ==> FormatTwo(n) == "99"
    ensures 10 <= n <= 99 ==> FormatTwo(n) == NatToString(n)
  {
    if 10 <= n <= 99 {
      assert NatToString(n) == NatToString(n / 10) + [DigitChar(n % 10)];
    }
  }

  // ---------------------------------------------------------------------------
  // The model object

  /** `DateTimeModel`. */
  class DateTimeModel {
    var date: NaiveDate
    var hour: I32
    var minute: I32

    function Snapshot(): State
      reads this
    {
      State(date, hour, minute)
    }

    /** `DateTimeModel::default`. */
    constructor (now: ClockReading)
      ensures Snapshot() == Default(now)
    {
      date := now.date;
      hour := now.hour;
      minute := now.minute;
    }

    /** `set_to_now`. */
    method SetToNow(now: ClockReading)
      modifies this
      ensures Snapshot() == Default(now)
    {
      date := now.date;
      hour := now.hour;
      minute := now.minute;
    }

    /** `update`. */
    method Update(msg: Msg)
      modifies this
      ensures Snapshot() == Step(old(Snapshot()), msg)
    {
      match msg
      case SetDate(d) => date := d;
      case SetHour(h) => hour := Clamp(h, 0, 23);
      case SetMinute(m) => minute := Clamp(m, 0, 59);
      case SetNow(now) => SetToNow(now);
    }
  }
}
