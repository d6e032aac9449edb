/**
 * Date helpers of `src/lib/utils.ts`. An instant is a count of milliseconds;
 * a calendar date is a (year, month index 0..11, day) record as the `Date`
 * getters report it, and a time of day is hours, minutes, seconds and
 * milliseconds. "Now" is always a parameter.
 */
module Dates {
  import opened Wrappers
  import opened Decimal

  datatype CalendarDate = CalendarDate(year: int, month: nat, day: nat)

  datatype TimeOfDay = TimeOfDay(hours: nat, minutes: nat, seconds: nat, millis: nat)

  /** A `Date` seen through its calendar getters. */
  datatype DateTime = DateTime(date: CalendarDate, time: TimeOfDay)

  predicate IsLeapYear(year: int)
  {
    (year % 4 == 0 && year % 100 != 0) || year % 400 == 0
  }

  /** Days in a month of the proleptic Gregorian calendar (`month` is the 0-based index). */
  function DaysInMonth(year: int, month: nat): (n: nat)
    requires month < 12
    ensures 28 <= n <= 31
  {
    if month == 1 then (if IsLeapYear(year) then 29 else 28)
    else if month == 3 || month == 5 || month == 8 || month == 10 then 30
    else 31
  }

  /** What a `Date` can hold: a month index below 12 and a day that exists in that month. */
  predicate ValidDate(d: CalendarDate)
  {
    d.month < 12 && 1 <= d.day <= DaysInMonth(d.year, d.month)
  }

  predicate ValidTime(t: TimeOfDay)
  {
    t.hours < 24 && t.minutes < 60 && t.seconds < 60 && t.millis < 1000
  }

  // ---------------------------------------------------------------------
  // Token expiry

  /** The lifetime of a verification or reset token: one hour. */
  const TokenLifetimeMs: int := 3600000

  /** `isDateExpired`: an expiry instant has passed once it is not later than now. */
  predicate IsDateExpired(expiry: int, now: int)
  {
    expiry <= now
  }

  /** `getTokenExpiryDate`: one hour after now; live now, expired one hour later. */
  function GetTokenExpiryDate(now: int): (expiry: int)
    ensures expiry > now && !IsDateExpired(expiry, now)
    ensures IsDateExpired(expiry, now + 3600000)
    ensures forall later :: now < later < now + 3600000 ==> !IsDateExpired(expiry, later)
  {
    now + TokenLifetimeMs
  }

  /** A token issued at `issued` is unexpired at `now` exactly while `now` is before the end of its hour. */
  lemma TokenLiveWindow(issued: int, now: int)
    ensures !IsDateExpired(GetTokenExpiryDate(issued), now) <==> now < issued + 3600000
  {
  }

  /** Setting an expiry to the current instant makes it expired at once, and for ever after. */
  lemma ExpiryAtNowIsExpired(now: int, later: int)
    requires now <= later
    ensures IsDateExpired(now, now) && IsDateExpired(now, later)
  {
  }

  // ---------------------------------------------------------------------
  // Calendar dates

  /** `formatDate`: the UTC year, month index + 1 and day as `YYYY-MM-DD`, month and day padded to two digits. */
  function FormatDate(d: CalendarDate): (s: string)
  {
    IntToString(d.year) + "-" + PadStart2(NatToString(d.month + 1)) + "-" + PadStart2(NatToString(d.day))
  }

  /** `getTodayDate`: the current UTC date in the same format. */
  function GetTodayDate(nowUtc: CalendarDate): (s: string)
    requires ValidDate(nowUtc)
    ensures ParseFormattedDate(s) == Some(nowUtc)
  {
    FormatDateRoundTrip(nowUtc);
    FormatDate(nowUtc)
  }

  /** Reads `year-MM-DD` back: a year, then two-digit month (01..) and day separated by `-`. */
  function ParseFormattedDate(s: string): Option<CalendarDate>
  {
    if |s| < 7 then None
    else
      var n := |s|;
      var dd := s[n - 2..];
      var mm := s[n - 5..n - 3];
      if s[n - 3] != '-' || s[n - 6] != '-' || !AllDigits(dd) || !AllDigits(mm) then None
      else if DigitsValue(mm) == 0 then None
      else match ParseInt(s[..n - 6])
        case None => None
        case Some(y) => Some(CalendarDate(y, DigitsValue(mm) - 1, DigitsValue(dd)))
  }

  /** Reading back a year, a dash, two month digits, a dash and two day digits. */
  lemma ParseJoined(y: string, mm: string, dd: string)
    requires |mm| == 2 && |dd| == 2 && AllDigits(mm) && AllDigits(dd) && DigitsValue(mm) >= 1
    requires |y| >= 1 && ParseInt(y).Some?
    ensures ParseFormattedDate(y + "-" + mm + "-" + dd)
            == Some(CalendarDate(ParseInt(y).value, DigitsValue(mm) - 1, DigitsValue(dd)))
  {
    var s := y + "-" + mm + "-" + dd;
    var n := |s|;
    assert n == |y| + 6;
    assert s[n - 2..] == dd;
    assert s[n - 5..n - 3] == mm;
    assert s[n - 3] == '-' && s[n - 6] == '-';
    assert s[..n - 6] == y;
  }

  /** Every date `formatDate` writes reads back as the same date, so the format loses nothing. */
  lemma FormatDateRoundTrip(d: CalendarDate)
    requires ValidDate(d)
    ensures |FormatDate(d)| >= 7
    ensures ParseFormattedDate(FormatDate(d)) == Some(d)
  {
    var y := IntToString(d.year);
    var mm := PadStart2(NatToString(d.month + 1));
    var dd := PadStart2(NatToString(d.day));
    TwoDigitsRoundTrip(d.month + 1);
    TwoDigitsRoundTrip(d.day);
    IntToStringRoundTrip(d.year);
    ParseJoined(y, mm, dd);
    assert FormatDate(d) == y + "-" + mm + "-" + dd;
  }

  /** `isDateToday`: the local day, month and full year agree with now's. */
  predicate IsDateToday(d: DateTime, now: DateTime)
  {
    d.date.day == now.date.day && d.date.month == now.date.month && d.date.year == now.date.year
  }

  /** Being "today" is sameness of calendar date, whatever the time of day. */
  lemma IsDateTodayIsSameDate(d: DateTime, now: DateTime, t: TimeOfDay)
    ensures IsDateToday(d, now) <==> d.date == now.date
    ensures IsDateToday(DateTime(d.date, t), now) == IsDateToday(d, now)
  {
  }

  // ---------------------------------------------------------------------
  // Remaining months and days

  /** The year `new Date(year, month, day)` builds: 0 to 99 stand for 1900 to 1999. */
  function ConstructorYear(year: int): int
  {
    if 0 <= year <= 99 then 1900 + year else year
  }

  /**
   * `new Date(year, month, 0).getDate()`: the length of the month before
   * `month` (December of the year before for January), in the year the
   * constructor takes `year` to mean.
   */
  function DaysInPreviousMonth(year: int, month: nat): (n: nat)
    requires month < 12
    ensures 28 <= n <= 31
    ensures month == 0 ==> n == 31
    ensures month != 0 ==> n == DaysInMonth(ConstructorYear(year), month - 1)
  {
    var y := ConstructorYear(year);
    if month == 0 then DaysInMonth(y - 1, 11) else DaysInMonth(y, month - 1)
  }

  /**
   * The two-digit year mapping reaches the borrow: March of year 0 borrows
   * February 1900 (28 days), not February of the leap year 0, while March
   * of 2000 borrows the leap February of 2000.
   */
  lemma TwoDigitYearBorrow()
    ensures DaysInPreviousMonth(0, 2) == 28 && DaysInPreviousMonth(2000, 2) == 29
    ensures RemainingMonthsAndDays(CalendarDate(0, 1, 15), CalendarDate(0, 2, 1)) == (0, 14)
  {
  }

  /** The whole-month distance from `current` to `target`, ignoring days. */
  function MonthsBetween(current: CalendarDate, target: CalendarDate): int
  {
    (target.year - current.year) * 12 + (target.month - current.month)
  }

  /** The result `getRemainingMonthsAndDays` computes, as the source writes it. */
  function RemainingMonthsAndDays(current: CalendarDate, target: CalendarDate): (r: (int, int))
    requires ValidDate(target)
  {
    if target.day >= current.day then (MonthsBetween(current, target), target.day - current.day)
    else (MonthsBetween(current, target) - 1, DaysInPreviousMonth(target.year, target.month) + (target.day - current.day))
  }

  /**
   * `getRemainingMonthsAndDays`: whole months from now to the target, then
   * the days left; when the target's day is earlier in the month than
   * today's, one month is borrowed as the length of the month before the target.
   */
  method GetRemainingMonthsAndDays(current: CalendarDate, target: CalendarDate) returns (months: int, days: int)
    requires ValidDate(current) && ValidDate(target)
    ensures (months, days) == RemainingMonthsAndDays(current, target)
    ensures target.day >= current.day ==> months == MonthsBetween(current, target) && days == target.day - current.day
    ensures target.day < current.day ==> months == MonthsBetween(current, target) - 1
  {
    months := (target.year - current.year) * 12 + (target.month - current.month);
    days := target.day - current.day;
    if days < 0 {
      months := months - 1;
      var lastMonthDays := DaysInPreviousMonth(target.year, target.month);
      days := lastMonthDays + days;
    }
  }

  /** Lexicographic order of calendar dates. */
  predicate NotAfter(a: CalendarDate, b: CalendarDate)
  {
    a.year < b.year || (a.year == b.year && (a.month < b.month || (a.month == b.month && a.day <= b.day)))
  }

  /** For a target not before today, the months are never negative, and the same date leaves nothing. */
  lemma RemainingForFutureTarget(current: CalendarDate, target: CalendarDate)
    requires ValidDate(current) && ValidDate(target)
    requires NotAfter(current, target)
    ensures RemainingMonthsAndDays(current, target).0 >= 0
    ensures current == target ==> RemainingMonthsAndDays(current, target) == (0, 0)
  {
    if target.year > current.year {
      assert MonthsBetween(current, target) >= 12 + (target.month - current.month);
    }
  }

  /** The remaining days are a proper day count whenever today's day exists in the month before the target. */
  lemma RemainingDaysInRange(current: CalendarDate, target: CalendarDate)
    requires ValidDate(current) && ValidDate(target)
    requires current.day <= DaysInPreviousMonth(target.year, target.month)
    ensures 0 <= RemainingMonthsAndDays(current, target).1 < 31
  {
  }

  /** As written, the days can come out negative: from 31 January 2023 to 1 March 2023 it gives one month and -2 days. */
  lemma RemainingDaysNegativeExample()
    ensures RemainingMonthsAndDays(CalendarDate(2023, 0, 31), CalendarDate(2023, 2, 1)) == (1, -2)
  {
  }

  /**
   * The borrow step with today's day clamped to the length of the borrowed
   * month, so that stepping one month forward from the 31st lands on that
   * month's last day.
   */
  function RemainingMonthsAndDaysClamped(current: CalendarDate, target: CalendarDate): (r: (int, int))
    requires ValidDate(current) && ValidDate(target)
    ensures r.1 >= 0
    ensures r.0 == (if target.day >= current.day then MonthsBetween(current, target) else MonthsBetween(current, target) - 1)
  {
    if target.day >= current.day then (MonthsBetween(current, target), target.day - current.day)
    else
      var lastMonthDays := DaysInPreviousMonth(target.year, target.month);
      var from := if current.day <= lastMonthDays then current.day else lastMonthDays;
      (MonthsBetween(current, target) - 1, lastMonthDays - from + target.day)
  }

  /** The clamped form differs from the source only where the source's days go wrong. */
  lemma ClampedAgreesWhenDayExists(current: CalendarDate, target: CalendarDate)
    requires ValidDate(current) && ValidDate(target)
    ensures current.day <= DaysInPreviousMonth(target.year, target.month)
            ==> RemainingMonthsAndDaysClamped(current, target) == RemainingMonthsAndDays(current, target)
    ensures target.day < current.day && current.day > DaysInPreviousMonth(target.year, target.month)
            ==> RemainingMonthsAndDays(current, target).1 < RemainingMonthsAndDaysClamped(current, target).1
  {
  }

  // ---------------------------------------------------------------------
  // Start and end of day

  const StartOfDay: TimeOfDay := TimeOfDay(0, 0, 0, 0)
  const EndOfDay: TimeOfDay := TimeOfDay(23, 59, 59, 999)

  /** Chronological order of two times of day. */
  predicate TimeNotAfter(a: TimeOfDay, b: TimeOfDay)
  {
    a.hours < b.hours || (a.hours == b.hours &&
      (a.minutes < b.minutes || (a.minutes == b.minutes &&
        (a.seconds < b.seconds || (a.seconds == b.seconds && a.millis <= b.millis)))))
  }

  /** 00:00:00.000 is the first and 23:59:59.999 the last time of every day. */
  lemma DayBounds(t: TimeOfDay)
    requires ValidTime(t)
    ensures ValidTime(StartOfDay) && ValidTime(EndOfDay)
    ensures TimeNotAfter(StartOfDay, t) && TimeNotAfter(t, EndOfDay)
  {
  }

  /** A mutable `Date`, seen through its local calendar getters. */
  class JsDate {
    var date: CalendarDate
    var time: TimeOfDay

    constructor (value: DateTime)
      ensures date == value.date && time == value.time
    {
      date := value.date;
      time := value.time;
    }

    /** `setHours(h, m, s, ms)` with in-range arguments: the calendar date stays, the time becomes h:m:s.ms. */
    method SetHours(hours: nat, minutes: nat, seconds: nat, millis: nat)
      requires ValidTime(TimeOfDay(hours, minutes, seconds, millis))
      modifies this
      ensures date == old(date)
      ensures time == TimeOfDay(hours, minutes, seconds, millis)
    {
      time := TimeOfDay(hours, minutes, seconds, millis);
    }
  }

  /** `getStartDate`: the parsed date at 00:00:00.000. */
  method GetStartDate(parsed: DateTime) returns (r: JsDate)
    ensures fresh(r)
    ensures r.date == parsed.date && r.time == StartOfDay
  {
    r := new JsDate(parsed);
    r.SetHours(0, 0, 0, 0);
  }

  /** `getEndDate`: the parsed date at 23:59:59.999. */
  method GetEndDate(parsed: DateTime) returns (r: JsDate)
    ensures fresh(r)
    ensures r.date == parsed.date && r.time == EndOfDay
  {
    r := new JsDate(parsed);
    r.SetHours(23, 59, 59, 999);
  }

  /** `getExpiryDateFromDate`: the parsed date at 23:59:59.999. */
  method GetExpiryDateFromDate(parsed: DateTime) returns (r: JsDate)
    ensures fresh(r)
    ensures r.date == parsed.date && r.time == EndOfDay
  {
    r := new JsDate(parsed);
    r.SetHours(23, 59, 59, 999);
  }

  /** `getTodayExpiryDate`: today at 23:59:59.999. */
  method GetTodayExpiryDate(now: DateTime) returns (r: JsDate)
    ensures fresh(r)
    ensures r.date == now.date && r.time == EndOfDay
  {
    r := new JsDate(now);
    r.SetHours(23, 59, 59, 999);
  }
}
