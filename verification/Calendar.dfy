/**
 The calendar arithmetic of `crates/sql/src/datetime.rs` (`from_unix`, `to_unix`, `julian_day`,
 `is_formattable`) and of `crates/redlinedb/src/value_conv.rs` (`days_from_civil`, `valid_date`).

 The closed forms are related to the calendar itself: `NextDay` walks one day at a time by the
 month lengths and the leap-year rule, and everything else is proved against that walk.
 Fields are unbounded integers; the one narrowing cast that matters (`as i32` on the year) is
 `WrapI32`. `/` and `%` are Euclidean here, like `div_euclid`/`rem_euclid`; the truncating `/`
 of `julian_day` is `TruncDiv`.
 */
module Calendar {
  import opened Machine

  const I32_MIN := -0x8000_0000
  const I32_MAX := 0x7FFF_FFFF

  datatype Date = Date(year: int, month: int, day: int)

  datatype DateTime = DateTime(
    year: int, month: int, day: int,
    hour: int, minute: int, second: int, micro: int,
    outOfRange: bool)
  {
    function CivilDate(): Date {
      Date(year, month, day)
    }
  }

  function WrapI32(n: int): int {
    (n - I32_MIN) % 0x1_0000_0000 + I32_MIN
  }

  // ---- The calendar, one day at a time -------------------------------------------------------

  predicate IsLeapYear(year: int) {
    (year % 4 == 0 && year % 100 != 0) || year % 400 == 0
  }

  function DaysInMonth(year: int, month: int): int {
    if month in {1, 3, 5, 7, 8, 10, 12} then 31
    else if month in {4, 6, 9, 11} then 30
    else if month == 2 then if IsLeapYear(year) then 29 else 28
    else 0
  }

  predicate ValidDate(date: Date) {
    1 <= date.month <= 12 && 1 <= date.day <= DaysInMonth(date.year, date.month)
  }

  predicate ValidDateTime(t: DateTime) {
    ValidDate(t.CivilDate()) && 0 <= t.hour <= 23 && 0 <= t.minute <= 59 && 0 <= t.second <= 59
  }

  function NextDay(date: Date): Date {
    if date.day < DaysInMonth(date.year, date.month) then date.(day := date.day + 1)
    else if date.month < 12 then Date(date.year, date.month + 1, 1)
    else Date(date.year + 1, 1, 1)
  }

  predicate Before(a: Date, b: Date) {
    a.year < b.year || (a.year == b.year &&
                        (a.month < b.month || (a.month == b.month && a.day < b.day)))
  }

  // ---- The closed forms of the source --------------------------------------------------------

  // value_conv.rs
  function DaysFromCivil(date: Date): int {
    var adjustedYear := date.year - (if date.month <= 2 then 1 else 0);
    var era := adjustedYear / 400;
    var yearOfEra := adjustedYear % 400;
    var shiftedMonth := if date.month > 2 then date.month - 3 else date.month + 9;
    var dayOfYear := (153 * shiftedMonth + 2) / 5 + date.day - 1;
    var dayOfEra := yearOfEra * 365 + yearOfEra / 4 - yearOfEra / 100 + dayOfYear;
    era * 146_097 + dayOfEra - 719_468
  }

  // datetime.rs
  function ToUnix(t: DateTime): int {
    var y := t.year - if t.month <= 2 then 1 else 0;
    var era := y / 400;
    var yoe := y % 400;
    var m := if t.month > 2 then t.month - 3 else t.month + 9;
    var doy := (153 * m + 2) / 5 + t.day - 1;
    var doe := yoe * 365 + yoe / 4 - yoe / 100 + doy;
    var days := era * 146_097 + doe - 719_468;
    days * 86_400 + t.hour * 3600 + t.minute * 60 + t.second
  }

  function YearOfEra(doe: int): int {
    (doe - doe / 1460 + doe / 36_524 - doe / 146_096) / 365
  }

  /** The date part of `from_unix`, before the year is narrowed to 32 bits. */
  function CivilFromDays(days: int): Date {
    var d := days + 719_468;
    var era := d / 146_097;
    var doe := d % 146_097;
    var yoe := YearOfEra(doe);
    var y := yoe + era * 400;
    var doy := doe - (365 * yoe + yoe / 4 - yoe / 100);
    DateInMarchYear(y, doy)
  }

  function DateInMarchYear(y: int, doy: int): Date {
    var mp := (5 * doy + 2) / 153;
    var day := doy - (153 * mp + 2) / 5 + 1;
    var month := if mp < 10 then mp + 3 else mp - 9;
    Date(y + (if month <= 2 then 1 else 0), month, day)
  }

  function FromUnix(secs: int, micro: int): DateTime {
    var s := secs % 86_400;
    var date := CivilFromDays(secs / 86_400);
    DateTime(WrapI32(date.year), date.month, date.day,
             s / 3600, s % 3600 / 60, s % 3600 % 60, micro, false)
  }

  function JulianDayNumber(date: Date): int {
    var a := TruncDiv(14 - date.month, 12);
    var y2 := date.year + 4800 - a;
    var m2 := date.month + 12 * a - 3;
    date.day + TruncDiv(153 * m2 + 2, 5) + 365 * y2
    + TruncDiv(y2, 4) - TruncDiv(y2, 100) + TruncDiv(y2, 400) - 32_045
  }

  function JulianDay(t: DateTime): real {
    JulianDayNumber(t.CivilDate()) as real
    + (t.hour as real - 12.0) / 24.0
    + t.minute as real / 1440.0
    + t.second as real / 86_400.0
    + t.micro as real / 86_400_000_000.0
  }

  const MAX_JULIAN_DAY := 5_373_484.5

  predicate IsFormattable(t: DateTime) {
    !t.outOfRange
    && !(t.year > 9999 || t.year < -4713)
    && !(t.year == -4713 && (t.month < 11 || (t.month == 11 && t.day < 24)))
  }

  // ---- March-based years ---------------------------------------------------------------------
  // A year that starts on 1 March ends with the leap day, so its first day has a simple formula.

  function MarchYear(date: Date): int {
    date.year - if date.month <= 2 then 1 else 0
  }

  function MarchMonth(month: int): int {
    if month > 2 then month - 3 else month + 9
  }

  function YearStart(y: int): int {
    365 * y + y / 4 - y / 100 + y / 400
  }

  function MonthStart(mp: int): int {
    (153 * mp + 2) / 5
  }

  lemma YearStartStep(y: int)
    ensures YearStart(y + 1) == YearStart(y) + if IsLeapYear(y + 1) then 366 else 365
  {
    assert (y + 1) / 4 == y / 4 + if (y + 1) % 4 == 0 then 1 else 0;
    assert (y + 1) / 100 == y / 100 + if (y + 1) % 100 == 0 then 1 else 0;
    assert (y + 1) / 400 == y / 400 + if (y + 1) % 400 == 0 then 1 else 0;
  }

  lemma {:induction false} YearStartMonotone(y1: int, y2: int)
    requires y1 <= y2
    ensures YearStart(y1) + 365 * (y2 - y1) <= YearStart(y2)
    decreases y2 - y1
  {
    if y1 < y2 {
      YearStartMonotone(y1, y2 - 1);
      YearStartStep(y2 - 1);
    }
  }

  lemma EraYearStart(era: int, yoe: int)
    requires 0 <= yoe <= 399
    ensures YearStart(400 * era + yoe) == era * 146_097 + 365 * yoe + yoe / 4 - yoe / 100
  {
    var y := 400 * era + yoe;
    assert y / 400 == era;
    assert y / 100 == 4 * era + yoe / 100;
    assert y / 4 == 100 * era + yoe / 4;
  }

  lemma DaysByMarchYear(date: Date)
    ensures DaysFromCivil(date)
            == YearStart(MarchYear(date)) + MonthStart(MarchMonth(date.month)) + date.day - 1 - 719_468
  {
    var y := MarchYear(date);
    EraYearStart(y / 400, y % 400);
    assert 400 * (y / 400) + y % 400 == y;
  }

  /** A valid date lies inside its March year. */
  lemma DayOfYearBounds(date: Date)
    requires ValidDate(date)
    ensures 0 <= MonthStart(MarchMonth(date.month)) + date.day - 1
                 < YearStart(MarchYear(date) + 1) - YearStart(MarchYear(date))
  {
    YearStartStep(MarchYear(date));
  }

  // ---- The closed-form day count is the calendar ---------------------------------------------

  lemma EpochIsDayZero()
    ensures DaysFromCivil(Date(1970, 1, 1)) == 0
    ensures CivilFromDays(0) == Date(1970, 1, 1)
  {
    hide CivilFromDays;
    assert DaysFromCivil(Date(1970, 1, 1)) == 0 by {
      assert 1969 / 400 == 4 && 1969 % 400 == 369;
    }
    DaysFromCivilIsInverse(Date(1970, 1, 1));
  }

  /** Advancing one calendar day adds exactly one to the closed-form day count. */
  lemma NextDayAddsOne(date: Date)
    requires ValidDate(date)
    ensures ValidDate(NextDay(date))
    ensures DaysFromCivil(NextDay(date)) == DaysFromCivil(date) + 1
  {
    hide DaysFromCivil;
    DaysByMarchYear(date);
    DaysByMarchYear(NextDay(date));
    if date.day == DaysInMonth(date.year, date.month) {
      MonthLength(date.year, date.month);
    }
  }

  /** The month table of the closed form has the calendar's month lengths. */
  lemma MonthLength(year: int, month: int)
    requires 1 <= month <= 12
    ensures var mp := MarchMonth(month);
            var y := MarchYear(Date(year, month, 1));
            MonthStart(mp) + DaysInMonth(year, month)
            == if mp < 11 then MonthStart(mp + 1) else YearStart(y + 1) - YearStart(y)
  {
    if month == 2 {
      YearStartStep(year - 1);
    }
  }

  /** The day count orders valid dates exactly as the calendar does. */
  lemma DaysAreChronological(a: Date, b: Date)
    requires ValidDate(a) && ValidDate(b)
    ensures Before(a, b) <==> DaysFromCivil(a) < DaysFromCivil(b)
    ensures a == b <==> DaysFromCivil(a) == DaysFromCivil(b)
  {
    EarlierHasFewerDays(a, b);
    EarlierHasFewerDays(b, a);
  }

  lemma EarlierHasFewerDays(a: Date, b: Date)
    requires ValidDate(a) && ValidDate(b)
    ensures Before(a, b) ==> DaysFromCivil(a) < DaysFromCivil(b)
  {
    if Before(a, b) {
      DaysByMarchYear(a);
      DaysByMarchYear(b);
      DayOfYearBounds(a);
      DayOfYearBounds(b);
      if MarchYear(a) < MarchYear(b) {
        YearStartMonotone(MarchYear(a) + 1, MarchYear(b));
      } else {
        MonthsDoNotOverlap(a, b);
      }
    }
  }

  lemma MonthsDoNotOverlap(a: Date, b: Date)
    requires ValidDate(a) && ValidDate(b) && Before(a, b) && MarchYear(a) == MarchYear(b)
    ensures MonthStart(MarchMonth(a.month)) + a.day < MonthStart(MarchMonth(b.month)) + b.day
  {
  }

  // ---- The inverse: days back to a date ------------------------------------------------------

  // Splits a day of a 400-year era into century, 4-year cycle and day of the cycle.
  lemma YearOfEraBySplit(c: int, k: int, s: int)
    requires 0 <= c <= 3 && 0 <= k <= 24 && 0 <= s < 1461 && 1461 * k + s < 36_524
    ensures YearOfEra(36_524 * c + 1461 * k + s)
            == 100 * c + 4 * k + if s < 1095 then s / 365 else 3
  {
    var doe := 36_524 * c + 1461 * k + s;
    assert doe / 1460 == 25 * c + k + (24 * c + k + s) / 1460;
    assert doe / 36_524 == c;
    assert doe / 146_096 == 0;
  }

  lemma YearStartBySplit(c: int, k: int, j: int)
    requires 0 <= c <= 3 && 0 <= k <= 24 && 0 <= j <= 3
    ensures YearStart(100 * c + 4 * k + j) == 36_524 * c + 1461 * k + 365 * j
  {
    var y := 100 * c + 4 * k + j;
    assert y / 4 == 25 * c + k;
    assert y / 100 == c;
  }

  lemma NextYearStartBySplit(c: int, k: int, j: int)
    requires 0 <= c <= 3 && 0 <= k <= 24 && 0 <= j <= 3
    ensures YearStart(100 * c + 4 * k + j + 1)
            == if j < 3 then 36_524 * c + 1461 * k + 365 * j + 365
               else if k < 24 then 36_524 * c + 1461 * k + 1461
               else if c < 3 then 36_524 * c + 36_524 else 146_097
  {
    if j < 3 {
      YearStartBySplit(c, k, j + 1);
    } else if k < 24 {
      YearStartBySplit(c, k + 1, 0);
    } else if c < 3 {
      YearStartBySplit(c + 1, 0, 0);
    }
  }

  lemma LastDayOfEra()
    ensures YearOfEra(146_096) == 399
  {
  }

  /** The division formula finds the March year of era that contains the day. */
  lemma YearOfEraIsEnclosing(doe: int)
    requires 0 <= doe < 146_097
    ensures 0 <= YearOfEra(doe) <= 399
    ensures YearStart(YearOfEra(doe)) <= doe < YearStart(YearOfEra(doe) + 1)
  {
    hide YearOfEra;
    if doe == 146_096 {
      LastDayOfEra();
    } else {
      var c, r := doe / 36_524, doe % 36_524;
      var k, s := r / 1461, r % 1461;
      var j := if s < 1095 then s / 365 else 3;
      YearOfEraBySplit(c, k, s);
      YearStartBySplit(c, k, j);
      NextYearStartBySplit(c, k, j);
    }
  }

  lemma MonthOfDay(doy: int)
    requires 0 <= doy <= 365
    ensures 0 <= (5 * doy + 2) / 153 <= 11
    ensures MonthStart((5 * doy + 2) / 153) <= doy
    ensures (5 * doy + 2) / 153 < 11 ==> doy < MonthStart((5 * doy + 2) / 153 + 1)
  {
  }

  lemma DateInMarchYearIsValid(y: int, doy: int)
    requires 0 <= doy < YearStart(y + 1) - YearStart(y)
    ensures var date := DateInMarchYear(y, doy);
            ValidDate(date) && DaysFromCivil(date) == YearStart(y) + doy - 719_468
  {
    hide DaysFromCivil, YearStart;
    var date := DateInMarchYear(y, doy);
    YearStartStep(y);
    MonthOfDay(doy);
    DaysByMarchYear(date);
    MonthLength(date.year, date.month);
  }

  /** `from_unix` always yields a real calendar day, and `days_from_civil` undoes it. */
  lemma CivilFromDaysIsInverse(days: int)
    ensures ValidDate(CivilFromDays(days))
    ensures DaysFromCivil(CivilFromDays(days)) == days
  {
    hide CivilFromDays, DaysFromCivil, DateInMarchYear, YearStart;
    var y, doy := MarchYearOfDay(days);
    DateInMarchYearIsValid(y, doy);
  }

  lemma MarchYearOfDay(days: int) returns (y: int, doy: int)
    ensures 0 <= doy < YearStart(y + 1) - YearStart(y)
    ensures days == YearStart(y) + doy - 719_468
    ensures CivilFromDays(days) == DateInMarchYear(y, doy)
  {
    hide YearOfEra, YearStart, DateInMarchYear;
    var d := days + 719_468;
    var era, doe := d / 146_097, d % 146_097;
    var yoe := YearOfEra(doe);
    YearOfEraIsEnclosing(doe);
    ErasAreAlike(era, yoe);
    y, doy := yoe + era * 400, doe - YearStart(yoe);
  }

  lemma ErasAreAlike(era: int, yoe: int)
    requires 0 <= yoe <= 399
    ensures YearStart(400 * era + yoe) == 146_097 * era + YearStart(yoe)
    ensures YearStart(400 * era + yoe + 1) == 146_097 * era + YearStart(yoe + 1)
    ensures YearStart(yoe) == 365 * yoe + yoe / 4 - yoe / 100
  {
    EraYearStart(0, yoe);
    EraYearStart(era, yoe);
    YearStartStep(400 * era + yoe);
    YearStartStep(yoe);
    LeapYearsRepeat(yoe + 1, era);
  }

  lemma RepeatsEvery4(y: int, k: int)
    ensures (y + 4 * k) % 4 == y % 4
  {
    assert y + 4 * k == 4 * (y / 4 + k) + y % 4;
  }

  lemma RepeatsEvery100(y: int, k: int)
    ensures (y + 100 * k) % 100 == y % 100
  {
    assert y + 100 * k == 100 * (y / 100 + k) + y % 100;
  }

  lemma RepeatsEvery400(y: int, k: int)
    ensures (y + 400 * k) % 400 == y % 400
  {
    assert y + 400 * k == 400 * (y / 400 + k) + y % 400;
  }

  lemma LeapYearsRepeat(y: int, era: int)
    ensures IsLeapYear(y + 400 * era) <==> IsLeapYear(y)
  {
    RepeatsEvery4(y, 100 * era);
    RepeatsEvery100(y, 4 * era);
    RepeatsEvery400(y, era);
  }

  lemma DaysFromCivilIsInverse(date: Date)
    requires ValidDate(date)
    ensures CivilFromDays(DaysFromCivil(date)) == date
  {
    CivilFromDaysIsInverse(DaysFromCivil(date));
    DaysAreChronological(date, CivilFromDays(DaysFromCivil(date)));
  }

  /** The dates `from_unix` produces are the calendar, day after day from 1970-01-01, both ways. */
  lemma CivilFollowsTheCalendar(days: int)
    ensures CivilFromDays(days + 1) == NextDay(CivilFromDays(days))
  {
    CivilFromDaysIsInverse(days);
    NextDayAddsOne(CivilFromDays(days));
    DaysFromCivilIsInverse(NextDay(CivilFromDays(days)));
  }

  // ---- Seconds -------------------------------------------------------------------------------

  /** `to_unix` and `days_from_civil` count the same days. */
  lemma ToUnixCountsDays(t: DateTime)
    ensures ToUnix(t) == 86_400 * DaysFromCivil(t.CivilDate()) + 3600 * t.hour + 60 * t.minute + t.second
  {
  }

  // The first second of the year I32_MIN and the last second of the year I32_MAX.
  const MIN_UNIX := -67_768_100_567_971_200
  const MAX_UNIX := 67_767_976_233_532_799

  lemma LimitsAreYearEnds()
    ensures MIN_UNIX == 86_400 * DaysFromCivil(Date(I32_MIN, 1, 1))
    ensures MAX_UNIX == 86_400 * DaysFromCivil(Date(I32_MAX, 12, 31)) + 86_399
  {
    assert -2_147_483_649 / 400 == -5_368_710 && -2_147_483_649 % 400 == 351;
    assert 2_147_483_647 / 400 == 5_368_709 && 2_147_483_647 % 400 == 47;
  }

  lemma YearFitsExactly(secs: int)
    ensures I32_MIN <= CivilFromDays(secs / 86_400).year <= I32_MAX <==> MIN_UNIX <= secs <= MAX_UNIX
  {
    hide CivilFromDays, DaysFromCivil;
    var date := CivilFromDays(secs / 86_400);
    CivilFromDaysIsInverse(secs / 86_400);
    DaysAreChronological(date, Date(I32_MIN, 1, 1));
    DaysAreChronological(Date(I32_MAX, 12, 31), date);
    LimitsAreYearEnds();
  }

  /**
   Every second is split into a valid date-time, whatever its sign, except that a leap day stays one
   when its year is narrowed to a year that has none.
   */
  lemma FromUnixIsValid(secs: int, micro: int)
    ensures var t := FromUnix(secs, micro);
            && 1 <= t.month <= 12 && 0 <= t.hour <= 23 && 0 <= t.minute <= 59 && 0 <= t.second <= 59
            && I32_MIN <= t.year <= I32_MAX && t.micro == micro && !t.outOfRange
            && (MIN_UNIX <= secs <= MAX_UNIX ==> ValidDateTime(t))
    ensures var t, date := FromUnix(secs, micro), CivilFromDays(secs / 86_400);
            ValidDateTime(t) <==> !(date.month == 2 && date.day == 29 && !IsLeapYear(WrapI32(date.year)))
  {
    hide CivilFromDays, DaysFromCivil;
    CivilFromDaysIsInverse(secs / 86_400);
    YearFitsExactly(secs);
  }

  /** The leap day of 2147483796 is narrowed to one in -2147483500, and does not come back. */
  lemma WrappedLeapDay()
    ensures var secs := 86_400 * DaysFromCivil(Date(2_147_483_796, 2, 29));
            && FromUnix(secs, 0).CivilDate() == Date(-2_147_483_500, 2, 29)
            && !ValidDateTime(FromUnix(secs, 0)) && ToUnix(FromUnix(secs, 0)) != secs
  {
    hide CivilFromDays, DaysFromCivil, ToUnix;
    var date := Date(2_147_483_796, 2, 29);
    var secs := 86_400 * DaysFromCivil(date);
    DaysFromCivilIsInverse(date);
    assert WrapI32(date.year) == -2_147_483_500;
    FromUnixIsValid(secs, 0);
    YearFitsExactly(secs);
    ToUnixUndoesFromUnix(secs, 0);
  }

  /** `to_unix` undoes `from_unix` exactly on the seconds whose civil year fits `i32`. */
  lemma ToUnixUndoesFromUnix(secs: int, micro: int)
    ensures ToUnix(FromUnix(secs, micro)) == secs <==> MIN_UNIX <= secs <= MAX_UNIX
  {
    hide CivilFromDays, DaysFromCivil, ToUnix;
    var date := CivilFromDays(secs / 86_400);
    YearFitsExactly(secs);
    SameSecondsSameDay(secs, micro);
    if WrapI32(date.year) != date.year {
      YearChangesTheDay(date, WrapI32(date.year));
    }
  }

  lemma SameSecondsSameDay(secs: int, micro: int)
    ensures var date := CivilFromDays(secs / 86_400);
            ToUnix(FromUnix(secs, micro)) == secs
            <==> DaysFromCivil(date.(year := WrapI32(date.year))) == DaysFromCivil(date)
  {
    hide CivilFromDays, DaysFromCivil, ToUnix;
    CivilFromDaysIsInverse(secs / 86_400);
    ToUnixCountsDays(FromUnix(secs, micro));
    SecondsRecombine(secs);
  }

  lemma SecondsRecombine(secs: int)
    ensures var s := secs % 86_400;
            3600 * (s / 3600) + 60 * (s % 3600 / 60) + s % 3600 % 60 == s
    ensures 86_400 * (secs / 86_400) + secs % 86_400 == secs
  {
  }

  lemma YearChangesTheDay(date: Date, year: int)
    requires year != date.year
    ensures DaysFromCivil(date.(year := year)) != DaysFromCivil(date)
  {
  }

  /** `from_unix` undoes `to_unix` on every valid civil date-time, before 1970 too. */
  lemma FromUnixUndoesToUnix(t: DateTime)
    requires ValidDateTime(t) && I32_MIN <= t.year <= I32_MAX && !t.outOfRange
    ensures FromUnix(ToUnix(t), t.micro) == t
    ensures MIN_UNIX <= ToUnix(t) <= MAX_UNIX
  {
    hide CivilFromDays, DaysFromCivil, ToUnix;
    ToUnixCountsDays(t);
    DaysFromCivilIsInverse(t.CivilDate());
    DayAndTimeSeparate(DaysFromCivil(t.CivilDate()), t.hour, t.minute, t.second);
    YearFitsExactly(ToUnix(t));
  }

  lemma DayAndTimeSeparate(days: int, hour: int, minute: int, second: int)
    requires 0 <= hour <= 23 && 0 <= minute <= 59 && 0 <= second <= 59
    ensures var secs := 86_400 * days + 3600 * hour + 60 * minute + second;
            var s := secs % 86_400;
            secs / 86_400 == days && s / 3600 == hour && s % 3600 / 60 == minute && s % 3600 % 60 == second
  {
  }

  // ---- The Julian day ------------------------------------------------------------------------

  function JulianYear(date: Date): int {
    MarchYear(date) + 4800
  }

  lemma TruncatedLeapDays(y: int)
    ensures TruncDiv(y, 4) - TruncDiv(y, 100) + TruncDiv(y, 400)
            == y / 4 - y / 100 + y / 400 + if y < 0 && !IsLeapYear(y) then 1 else 0
  {
    if y < 0 {
      TruncDivOfNegative(y, 4);
      TruncDivOfNegative(y, 100);
      TruncDivOfNegative(y, 400);
    }
  }

  lemma TruncDivOfNegative(y: int, b: int)
    requires y < 0 && (b == 4 || b == 100 || b == 400)
    ensures TruncDiv(y, b) == y / b + if y % b == 0 then 0 else 1
  {
  }

  /**
   The Julian day number is the day count shifted by 2440588, except that the truncating
   divisions put it one day ahead in the non-leap March years before -4800.
   */
  lemma JulianDayNumberIsDayCount(date: Date)
    requires 1 <= date.month <= 12
    ensures JulianDayNumber(date) == DaysFromCivil(date) + 2_440_588
                                     + if JulianYear(date) < 0 && !IsLeapYear(JulianYear(date)) then 1 else 0
  {
    var y2 := JulianYear(date);
    assert TruncDiv(14 - date.month, 12) == if date.month <= 2 then 1 else 0;
    DaysByMarchYear(date);
    TruncatedLeapDays(y2);
    EraYearStart(12 + MarchYear(date) / 400, MarchYear(date) % 400);
    EraYearStart(MarchYear(date) / 400, MarchYear(date) % 400);
    assert 400 * (MarchYear(date) / 400) + MarchYear(date) % 400 == MarchYear(date);
  }

  /** The last day of a March year before -4800 and the first day of the next share a number. */
  lemma TwoDaysOneNumber()
    ensures NextDay(Date(-4800, 2, 29)) == Date(-4800, 3, 1)
    ensures JulianDayNumber(Date(-4800, 2, 29)) == JulianDayNumber(Date(-4800, 3, 1))
  {
    hide JulianDayNumber, DaysFromCivil;
    assert -4800 % 400 == 0 && -1 % 4 == 3 && IsLeapYear(-4800) && !IsLeapYear(-1);
    NextDayAddsOne(Date(-4800, 2, 29));
    JulianDayNumberIsDayCount(Date(-4800, 2, 29));
    JulianDayNumberIsDayCount(Date(-4800, 3, 1));
  }

  /** Seconds since 1970, with the microseconds. */
  function Instant(t: DateTime): real {
    ToUnix(t) as real + t.micro as real / 1_000_000.0
  }

  /** The Julian day is the instant in days, counted from noon, one more where the day number is. */
  lemma JulianDayIsInstant(t: DateTime)
    requires ValidDateTime(t)
    ensures JulianDay(t) == 2_440_587.5 + Instant(t) / 86_400.0
                            + if JulianYear(t.CivilDate()) < 0 && !IsLeapYear(JulianYear(t.CivilDate())) then 1.0 else 0.0
  {
    hide DaysFromCivil, JulianDayNumber, ToUnix, IsLeapYear;
    JulianDayNumberIsDayCount(t.CivilDate());
    ToUnixCountsDays(t);
    DayFraction(t);
  }

  lemma DayFraction(t: DateTime)
    ensures (t.hour as real - 12.0) / 24.0 + t.minute as real / 1440.0 + t.second as real / 86_400.0
            == (3600 * t.hour + 60 * t.minute + t.second) as real / 86_400.0 - 0.5
  {
  }

  /** From -4800-03-01 on, Julian days are in the order of the instants. */
  lemma JulianOrderIsTimeOrder(a: DateTime, b: DateTime)
    requires ValidDateTime(a) && ValidDateTime(b)
    requires !Before(a.CivilDate(), Date(-4800, 3, 1)) && !Before(b.CivilDate(), Date(-4800, 3, 1))
    ensures JulianDay(a) < JulianDay(b) <==> Instant(a) < Instant(b)
  {
    hide JulianDay, Instant, IsLeapYear, DaysInMonth;
    JulianDayIsInstant(a);
    JulianDayIsInstant(b);
  }

  /**
   A date-time that is not flagged out of range is formattable exactly when its exact Julian day
   lies in [-0.5, MAX_JULIAN_DAY).
   */
  lemma FormattableIsJulianRange(t: DateTime)
    requires ValidDateTime(t) && 0 <= t.micro < 1_000_000 && !t.outOfRange
    ensures IsFormattable(t) <==> -0.5 <= JulianDay(t) < MAX_JULIAN_DAY
  {
    hide DaysFromCivil, JulianDay, JulianDayNumber, IsLeapYear;
    var date := t.CivilDate();
    FractionDecidesByDay(t);
    JulianDayNumberIsDayCount(date);
    BoundsOfFormat(date);
  }

  lemma BoundsOfFormat(date: Date)
    requires ValidDate(date)
    ensures Before(date, Date(-4713, 11, 24)) <==> DaysFromCivil(date) < -2_440_588
    ensures Before(date, Date(10_000, 1, 1)) <==> DaysFromCivil(date) < 2_932_897
    ensures JulianYear(date) < 0 ==> DaysFromCivil(date) < -2_472_632
  {
    hide DaysFromCivil;
    DaysOfLandmarks();
    DaysAreChronological(date, Date(-4713, 11, 24));
    DaysAreChronological(date, Date(10_000, 1, 1));
    DaysAreChronological(date, Date(-4800, 3, 1));
  }

  lemma DaysOfLandmarks()
    ensures DaysFromCivil(Date(-4713, 11, 24)) == -2_440_588
    ensures DaysFromCivil(Date(10_000, 1, 1)) == 2_932_897
    ensures DaysFromCivil(Date(-4800, 3, 1)) == -2_472_632
  {
    assert -4713 / 400 == -12 && -4713 % 400 == 87;
    assert 9999 / 400 == 24 && 9999 % 400 == 399;
    assert -4800 / 400 == -12 && -4800 % 400 == 0;
  }

  lemma FractionDecidesByDay(t: DateTime)
    requires ValidDateTime(t) && 0 <= t.micro < 1_000_000
    ensures -0.5 <= JulianDay(t) <==> 0 <= JulianDayNumber(t.CivilDate())
    ensures JulianDay(t) < MAX_JULIAN_DAY <==> JulianDayNumber(t.CivilDate()) < 5_373_485
  {
  }
}
