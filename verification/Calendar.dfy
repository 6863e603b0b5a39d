/** Dates to seconds since the epoch: the closed form of section 4.16 of POSIX.1-2017 Base Definitions,
    against the plain count of days. */
module Calendar {
  const INT_MAX: int := 0x7fff_ffff
  const INT_MIN: int := -0x8000_0000

  const SEC_PER_DAY: int := 86400

  datatype Result = Ok(value: int) | FormatError

  // ---------------------------------------------------------------------------------------------
  // The program's functions

  predicate YearIsLeap(year: int) {
    (year % 4 == 0 && year % 100 != 0) || year % 400 == 0
  }

  const DAYS_PER_MONTH: seq<seq<int>> := [
    [31, 28, 31, 30, 31, 30, 31, 31, 30, 31, 30, 31],
    [31, 29, 31, 30, 31, 30, 31, 31, 30, 31, 30, 31]]

  const CUMULATIVE_DAYS: seq<seq<int>> := [
    [0, 31, 59, 90, 120, 151, 181, 212, 243, 273, 304, 334],
    [0, 31, 60, 91, 121, 152, 182, 213, 244, 274, 305, 335]]

  function LeapRow(year: int): nat {
    if YearIsLeap(year) then 1 else 0
  }

  predicate DatePartsValid(year: int, month: int, day: int) {
    year >= 1970 && 0 < month <= 12 && 0 < day <= DAYS_PER_MONTH[LeapRow(year)][month - 1]
  }

  predicate TimePartsValid(hour: int, minute: int, second: int) {
    0 <= hour < 24 && 0 <= minute < 60 && 0 <= second < 60
  }

  function DayOfYear(year: int, month: int, day: int): Result {
    if DatePartsValid(year, month, day) then Ok(CUMULATIVE_DAYS[LeapRow(year)][month - 1] + day) else FormatError
  }

  /** A date, a time of day and the offset of the time zone in seconds. */
  datatype Parts = Parts(year: int, month: int, day: int, hour: int, minute: int, second: int)

  /** The summands of the closed form. The divisions are of numbers that are not negative from 1970 on. */
  function Summands(p: Parts, tz: int, dayOfYear: int): (r: seq<int>)
    ensures |r| == 9
  {
    [-1 * tz, p.second, p.minute * 60, p.hour * 3600, (dayOfYear - 1) * 86400, (p.year - 1900 - 70) * 31536000,
     (p.year - 1900 - 69) / 4 * 86400, -((p.year - 1900 - 1) / 100 * 86400), (p.year - 1900 + 299) / 400 * 86400]
  }

  /** The totals reached when the summands are added from left to right. */
  function Totals(s: seq<int>): (r: seq<int>)
    requires |s| == 9
    ensures |r| == 9
  {
    var t1 := s[0] + s[1];
    var t2 := t1 + s[2];
    var t3 := t2 + s[3];
    var t4 := t3 + s[4];
    var t5 := t4 + s[5];
    var t6 := t5 + s[6];
    var t7 := t6 + s[7];
    [s[0], t1, t2, t3, t4, t5, t6, t7, t7 + s[8]]
  }

  function EpochFromParts(p: Parts, tz: int): Result {
    if !TimePartsValid(p.hour, p.minute, p.second) then FormatError
    else
      match DayOfYear(p.year, p.month, p.day)
      case FormatError => FormatError
      case Ok(dayOfYear) => Ok(Totals(Summands(p, tz, dayOfYear))[8])
  }

  /** A remainder in C has the sign of the dividend; it is zero for the same numbers. */
  predicate TzPartsValid(tzHour: int, tzMinute: int) {
    (-12 < tzHour < 14 && tzMinute % 15 == 0) || (tzHour == -12 && tzMinute == 0) || (tzHour == 14 && tzMinute == 0)
  }

  function TzOffsetSeconds(tzHour: int, tzMinute: int): Result {
    if !TzPartsValid(tzHour, tzMinute) then FormatError
    else if tzHour < 0 then Ok(-(-tzHour * 3600 + tzMinute * 60))
    else Ok(tzHour * 3600 + tzMinute * 60)
  }

  // ---------------------------------------------------------------------------------------------
  // The calendar, counted

  function YearLength(year: int): int {
    if YearIsLeap(year) then 366 else 365
  }

  function MonthLength(year: int, month: int): int
    requires 1 <= month <= 12
  {
    if month == 2 then (if YearIsLeap(year) then 29 else 28)
    else if month in {4, 6, 9, 11} then 30
    else 31
  }

  /** Days in the whole years since 1970. */
  function YearsBefore(year: int): int
    requires year >= 1970
    decreases year
  {
    if year == 1970 then 0 else YearsBefore(year - 1) + YearLength(year - 1)
  }

  /** Days in the whole months of a year before the given one. */
  function MonthsBefore(year: int, month: int): int
    requires 1 <= month <= 12
    decreases month
  {
    if month == 1 then 0 else MonthsBefore(year, month - 1) + MonthLength(year, month - 1)
  }

  predicate Real(p: Parts) {
    && p.year >= 1970 && 1 <= p.month <= 12 && 1 <= p.day <= MonthLength(p.year, p.month)
    && 0 <= p.hour < 24 && 0 <= p.minute < 60 && 0 <= p.second < 60
  }

  function Days(p: Parts): int
    requires p.year >= 1970 && 1 <= p.month <= 12
  {
    YearsBefore(p.year) + MonthsBefore(p.year, p.month) + p.day - 1
  }

  function TimeOfDay(p: Parts): int {
    p.hour * 3600 + p.minute * 60 + p.second
  }

  /** Seconds since the epoch, counted in whole days and time of day. */
  function Seconds(p: Parts, tz: int): int
    requires p.year >= 1970 && 1 <= p.month <= 12
  {
    Days(p) * SEC_PER_DAY + TimeOfDay(p) - tz
  }

  // ---------------------------------------------------------------------------------------------
  // Agreement

  /** The year terms of the closed form, in days. */
  function ClosedForm(year: int): int {
    (year - 1970) * 365 + (year - 1969) / 4 - (year - 1901) / 100 + (year - 1601) / 400
  }

  lemma {:induction false} YearsClosedForm(year: int)
    requires year >= 1970
    ensures ClosedForm(year) == YearsBefore(year)
    decreases year
  {
    if year > 1970 {
      hide ClosedForm;
      YearsClosedForm(year - 1);
      ClosedFormNext(year - 1);
    }
  }

  lemma ClosedFormNext(year: int)
    requires year >= 1970
    ensures ClosedForm(year + 1) == ClosedForm(year) + YearLength(year)
  {
    Every4(year);
    Every100(year);
    Every400(year);
    Multiples(year);
  }

  lemma Multiples(n: int)
    ensures n % 100 == 0 ==> n % 4 == 0
    ensures n % 400 == 0 ==> n % 100 == 0
  {
    if n % 100 == 0 {
      assert n == 4 * (25 * (n / 100));
    }
    if n % 400 == 0 {
      assert n == 100 * (4 * (n / 400));
    }
  }

  lemma Every4(year: int)
    requires year >= 1970
    ensures (year + 1 - 1969) / 4 == (year - 1969) / 4 + (if year % 4 == 0 then 1 else 0)
  {
  }

  lemma Every100(year: int)
    requires year >= 1970
    ensures (year + 1 - 1901) / 100 == (year - 1901) / 100 + (if year % 100 == 0 then 1 else 0)
  {
  }

  lemma Every400(year: int)
    requires year >= 1970
    ensures (year + 1 - 1601) / 400 == (year - 1601) / 400 + (if year % 400 == 0 then 1 else 0)
  {
  }

  lemma MonthTable(year: int, month: int)
    requires 1 <= month <= 12
    ensures DAYS_PER_MONTH[LeapRow(year)][month - 1] == MonthLength(year, month)
    ensures CUMULATIVE_DAYS[LeapRow(year)][month - 1] == MonthsBefore(year, month)
    ensures MonthsBefore(year, month) + MonthLength(year, month) <= YearLength(year)
    decreases month
  {
    if month > 1 {
      MonthTable(year, month - 1);
    }
  }

  /** Valid parts are exactly the real dates and times, and their epoch is the counted number of seconds. */
  lemma EpochIsCount(p: Parts, tz: int)
    ensures EpochFromParts(p, tz).Ok? <==> Real(p)
    ensures Real(p) ==> EpochFromParts(p, tz) == Ok(Seconds(p, tz))
  {
    if 1 <= p.month <= 12 {
      MonthTable(p.year, p.month);
    }
    if Real(p) {
      YearsClosedForm(p.year);
    }
  }

  // ---------------------------------------------------------------------------------------------
  // Order

  predicate Before(p: Parts, q: Parts) {
    if p.year != q.year then p.year < q.year
    else if p.month != q.month then p.month < q.month
    else if p.day != q.day then p.day < q.day
    else if p.hour != q.hour then p.hour < q.hour
    else if p.minute != q.minute then p.minute < q.minute
    else p.second < q.second
  }

  lemma {:induction false} YearsGrow(a: int, b: int)
    requires 1970 <= a < b
    ensures YearsBefore(a) + YearLength(a) <= YearsBefore(b)
    decreases b
  {
    if a + 1 < b {
      YearsGrow(a, b - 1);
    }
  }

  lemma {:induction false} MonthsGrow(year: int, a: int, b: int)
    requires 1 <= a < b <= 12
    ensures MonthsBefore(year, a) + MonthLength(year, a) <= MonthsBefore(year, b)
    decreases b
  {
    if a + 1 < b {
      MonthsGrow(year, a, b - 1);
    }
  }

  lemma {:induction false} MonthsWithin(year: int, month: int)
    requires 1 <= month <= 12
    ensures 0 <= MonthsBefore(year, month)
    decreases month
  {
    if month > 1 {
      MonthsWithin(year, month - 1);
    }
  }

  lemma DaysGrow(p: Parts, q: Parts)
    requires Real(p) && Real(q)
    requires p.year < q.year || (p.year == q.year && (p.month < q.month || (p.month == q.month && p.day < q.day)))
    ensures Days(p) < Days(q)
  {
    if p.year < q.year {
      YearsGrow(p.year, q.year);
      MonthTable(p.year, p.month);
      MonthsWithin(q.year, q.month);
    } else if p.month < q.month {
      MonthsGrow(p.year, p.month, q.month);
    }
  }

  /** A later date or time has a larger epoch. */
  lemma EpochIncreases(p: Parts, q: Parts, tz: int)
    requires EpochFromParts(p, tz).Ok? && EpochFromParts(q, tz).Ok? && Before(p, q)
    ensures EpochFromParts(p, tz).value < EpochFromParts(q, tz).value
  {
    EpochIsCount(p, tz);
    EpochIsCount(q, tz);
    if p.year == q.year && p.month == q.month && p.day == q.day {
      assert TimeOfDay(p) < TimeOfDay(q);
    } else {
      DaysGrow(p, q);
      assert TimeOfDay(p) < SEC_PER_DAY && 0 <= TimeOfDay(q);
    }
  }

  // ---------------------------------------------------------------------------------------------
  // Width

  predicate Fits(n: int) {
    INT_MIN <= n <= INT_MAX
  }

  /** Every summand and every total on the way fits a 32-bit int. */
  predicate NoOverflow(p: Parts, tz: int, dayOfYear: int) {
    var s := Summands(p, tz, dayOfYear);
    forall i :: 0 <= i < 9 ==> Fits(s[i]) && Fits(Totals(s)[i])
  }

  /** The values of the year terms up to and including 2038. */
  lemma YearTerms(year: int)
    requires 1970 <= year <= 2038
    ensures 0 <= (year - 1969) / 4 <= 17 && 0 <= (year - 1901) / 100 <= 1 && 0 <= (year - 1601) / 400 <= 1
    ensures (year - 1901) / 100 == (if year > 2000 then 1 else 0)
      && (year - 1601) / 400 == (if year > 2000 then 1 else 0)
  {
  }

  /** Years from 2039 on are too far for the year term alone. */
  lemma LateYears(year: int)
    requires year >= 2039
    ensures YearsBefore(year) >= 69 * 365 + 17
    decreases year
  {
    YearsClosedForm(2039);
    if year > 2039 {
      LateYears(year - 1);
    }
  }

  /** Summands of the sizes that occur up to 2038: the largest total is the last. */
  lemma TotalsFit(s: seq<int>)
    requires |s| == 9 && -50400 <= s[0] <= 43200 && 0 <= s[1] < 60 && 0 <= s[2] < 3600 && 0 <= s[3] < 86400
    requires 0 <= s[4] < 366 * 86400 && 0 <= s[5] <= 68 * 31536000 && 0 <= s[6] <= 17 * 86400 && s[7] == -s[8]
      && 0 <= s[8] <= 86400
    ensures (forall i :: 0 <= i < 9 ==> Fits(s[i]) && Fits(Totals(s)[i])) <==> Totals(s)[8] <= INT_MAX
  {
    var t := Totals(s);
    assert t[0] <= t[1] <= t[2] <= t[3] <= t[4] <= t[5] <= t[6] == t[8] && t[7] <= t[8];
    assert t[0] >= -50400 && t[7] >= t[0] - 86400;
  }

  lemma LateSummand(s: seq<int>)
    requires |s| == 9 && s[5] >= 69 * 31536000
    ensures !(forall i :: 0 <= i < 9 ==> Fits(s[i]) && Fits(Totals(s)[i]))
  {
    assert !Fits(s[5]);
  }

  /** For the offsets of real time zones the calculation stays inside 32 bits exactly when its result does. */
  lemma FitsIff(p: Parts, tz: int)
    requires Real(p) && -43200 <= tz <= 50400
    ensures NoOverflow(p, tz, DayOfYear(p.year, p.month, p.day).value) <==> Seconds(p, tz) <= INT_MAX
  {
    hide Totals, MonthsBefore, MonthLength, YearLength, YearIsLeap, YearsBefore;
    MonthTable(p.year, p.month);
    MonthsWithin(p.year, p.month);
    YearAtMost(p.year);
    EpochIsCount(p, tz);
    var s := Summands(p, tz, DayOfYear(p.year, p.month, p.day).value);
    if p.year >= 2039 {
      LateYears(p.year);
      LateSummand(s);
    } else {
      YearTerms(p.year);
      TotalsFit(s);
    }
  }

  lemma YearAtMost(year: int)
    ensures 365 <= YearLength(year) <= 366
  {
  }

  /** Through 2037 nothing overflows. */
  lemma FitsThrough2037(p: Parts, tz: int)
    requires Real(p) && p.year <= 2037 && -43200 <= tz <= 50400
    ensures NoOverflow(p, tz, DayOfYear(p.year, p.month, p.day).value)
  {
    hide NoOverflow, YearsBefore, MonthsBefore, MonthLength, YearLength;
    FitsIff(p, tz);
    MonthTable(p.year, p.month);
    YearsGrow(p.year, 2038);
    YearsClosedForm(2038);
  }

  /** The first second that does not fit, in universal time. */
  lemma FirstOverflow()
    ensures var p := Parts(2038, 1, 19, 3, 14, 7); Real(p) && NoOverflow(p, 0, 19)
    ensures var p := Parts(2038, 1, 19, 3, 14, 8); Real(p) && !NoOverflow(p, 0, 19)
  {
    hide NoOverflow, YearsBefore;
    YearsClosedForm(2038);
    FitsIff(Parts(2038, 1, 19, 3, 14, 7), 0);
    FitsIff(Parts(2038, 1, 19, 3, 14, 8), 0);
  }

  /** A zone ahead of universal time reaches every time of day earlier, by its offset. */
  lemma ZoneShifts(p: Parts, tz: int)
    requires EpochFromParts(p, tz).Ok?
    ensures EpochFromParts(p, 0) == Ok(EpochFromParts(p, tz).value + tz)
    ensures p == Parts(1970, 1, 1, 0, 0, 0) ==> EpochFromParts(p, tz) == Ok(-tz)
  {
    EpochIsCount(p, tz);
    EpochIsCount(p, 0);
    if p == Parts(1970, 1, 1, 0, 0, 0) {
      assert YearsBefore(1970) == 0 && MonthsBefore(1970, 1) == 0;
    }
    hide EpochFromParts;
  }

  // ---------------------------------------------------------------------------------------------
  // Time zones

  /** Minutes count in the direction of the hour; at both ends of the range only whole hours are accepted. */
  lemma OffsetIs(h: int, m: int)
    ensures TzOffsetSeconds(h, m).Ok? <==> (-12 < h < 14 && m % 15 == 0) || (h in {-12, 14} && m == 0)
    ensures TzOffsetSeconds(h, m).Ok? ==>
      TzOffsetSeconds(h, m).value == h * 3600 + (if h < 0 then -60 else 60) * m
  {
  }

  /** With minutes of an hour every accepted offset lies between minus twelve and plus fourteen hours and is a
      multiple of a quarter hour. */
  lemma OffsetRange(tzHour: int, tzMinute: int)
    requires 0 <= tzMinute < 60 && TzOffsetSeconds(tzHour, tzMinute).Ok?
    ensures -43200 <= TzOffsetSeconds(tzHour, tzMinute).value <= 50400
    ensures TzOffsetSeconds(tzHour, tzMinute).value % 900 == 0
  {
    assert tzMinute in {0, 15, 30, 45};
  }

  /** Hour and minutes give every such offset except those less than an hour behind universal time, because
      the sign is that of the hour. */
  lemma OffsetReached(offset: int)
    requires -43200 <= offset <= 50400 && offset % 900 == 0
    ensures (exists h: int, m: int :: 0 <= m < 60 && TzOffsetSeconds(h, m) == Ok(offset)) <==> !(-3600 < offset < 0)
  {
    if !(-3600 < offset < 0) {
      var q := offset / 900;
      assert offset == 900 * q;
      var n := if q < 0 then -q else q;
      var h, m := n / 4, n % 4 * 15;
      assert TzOffsetSeconds(if offset < 0 then -h else h, m) == Ok(offset);
    }
  }
}
