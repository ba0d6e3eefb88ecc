/** Calendar arithmetic of the RMC time parser (src/gnss/time.rs): seconds since the Epoch as defined in
    section 4.16 of the Base Definitions of IEEE Std 1003.1-2017. */
module Calendar {
  import opened Prelude

  datatype TimeError = ParseError | OutOfRange

  predicate LeapYear(year: u16) {
    year % 4 == 0 && (year % 100 != 0 || year % 400 == 0)
  }

  function DaysInMonth(year: u16, month: u8): (days: Option<u8>)
    ensures days.Some? <==> 1 <= month <= 12
    ensures days.Some? ==> 28 <= days.value <= 31
  {
    match month
    case 1 => Some(31)
    case 3 => Some(31)
    case 5 => Some(31)
    case 7 => Some(31)
    case 8 => Some(31)
    case 10 => Some(31)
    case 12 => Some(31)
    case 4 => Some(30)
    case 6 => Some(30)
    case 9 => Some(30)
    case 11 => Some(30)
    case 2 => Some(if LeapYear(year) then 29 else 28)
    case _ => None
  }

  /** The closed form: the days of the years 1 to `year - 1`. */
  function DaysBeforeYear(year: u16): nat
    requires year >= 1
  {
    var before := year - 1;
    365 * before + before / 4 - before / 100 + before / 400
  }

  function DaysOrZero(year: u16, month: u8): nat {
    match DaysInMonth(year, month)
    case None => 0
    case Some(days) => days
  }

  /** The days of the months before `month`. */
  function DaysBeforeMonth(year: u16, month: u8): nat
    decreases month
  {
    if month <= 1 then 0 else DaysBeforeMonth(year, month - 1) + DaysOrZero(year, month - 1)
  }

  /** Lines 120-128. */
  method DaysBeforeMonthLoop(year: u16, month: u8) returns (days: nat)
    ensures days == DaysBeforeMonth(year, month)
  {
    days := 0;
    var current := 1;
    while current < month
      invariant current == 1 || 1 < current <= month
      invariant days == DaysBeforeMonth(year, current)
    {
      days := days + DaysOrZero(year, current);
      current := current + 1;
    }
  }

  lemma YearsAfter1970(year: u16)
    requires year >= 1970
    ensures DaysBeforeYear(year) >= DaysBeforeYear(1970)
  {
    Grows(year - 1, 1969);
  }

  /** The quarters lost at the centuries are made up by the years between. */
  lemma Grows(a: nat, b: nat)
    requires a >= b
    ensures 365 * a + a / 4 - a / 100 + a / 400 >= 365 * b + b / 4 - b / 100 + b / 400
  {
    assert a / 100 - b / 100 <= a - b;
  }

  /** The whole days since 1970-01-01. */
  function DaysSinceEpoch(year: u16, month: u8, day: u8): nat
    requires year >= 1970 && day >= 1
  {
    hide DaysBeforeYear, DaysBeforeMonth;
    YearsAfter1970(year);
    DaysBeforeYear(year) - DaysBeforeYear(1970) + DaysBeforeMonth(year, month) + (day - 1)
  }

  /** to_unix_seconds; its callers pass a day of at least 1. */
  function ToUnixSeconds(year: u16, month: u8, day: u8, hour: u8, minute: u8, second: u8): Result<u32, TimeError>
    requires day >= 1
  {
    if year < 1970 then Err(OutOfRange)
    else
      hide DaysSinceEpoch;
      var days := DaysSinceEpoch(year, month, day);
      var seconds := days * 86_400 + hour * 3_600 + minute * 60 + Min(second, 59) + (if second == 60 then 1 else 0);
      if seconds < U32_LIMIT then Ok(seconds) else Err(OutOfRange)
  }

  // ---- The calendar, day by day

  function DaysInYear(year: u16): nat {
    if LeapYear(year) then 366 else 365
  }

  /** The days from 1970 to the start of a year, one year at a time. */
  function DaysSince1970(year: u16): nat
    decreases year
  {
    if year <= 1970 then 0 else DaysSince1970(year - 1) + DaysInYear(year - 1)
  }

  lemma YearStep(year: u16)
    requires 1 <= year < 0xffff
    ensures DaysBeforeYear(year + 1) == DaysBeforeYear(year) + DaysInYear(year)
  {
    Multiples(year);
    assert year % 100 == 0 ==> year % 4 == 0;
    assert year % 400 == 0 ==> year % 100 == 0;
  }

  lemma Multiples(year: u16)
    requires year >= 1
    ensures year / 4 == (year - 1) / 4 + if year % 4 == 0 then 1 else 0
    ensures year / 100 == (year - 1) / 100 + if year % 100 == 0 then 1 else 0
    ensures year / 400 == (year - 1) / 400 + if year % 400 == 0 then 1 else 0
  {
  }

  /** The closed form counts the days of every year since 1970. */
  lemma {:induction false} ClosedFormCountsYears(year: u16)
    requires year >= 1970
    ensures DaysBeforeYear(year) - DaysBeforeYear(1970) == DaysSince1970(year)
    decreases year
  {
    if year > 1970 {
      ClosedFormCountsYears(year - 1);
      YearStep(year - 1);
    }
  }

  lemma MonthStarts(year: u16)
    ensures var leap := if LeapYear(year) then 1 else 0;
            && DaysBeforeMonth(year, 1) == 0 && DaysBeforeMonth(year, 2) == 31
            && DaysBeforeMonth(year, 3) == 59 + leap && DaysBeforeMonth(year, 4) == 90 + leap
            && DaysBeforeMonth(year, 5) == 120 + leap && DaysBeforeMonth(year, 6) == 151 + leap
            && DaysBeforeMonth(year, 7) == 181 + leap && DaysBeforeMonth(year, 8) == 212 + leap
            && DaysBeforeMonth(year, 9) == 243 + leap && DaysBeforeMonth(year, 10) == 273 + leap
            && DaysBeforeMonth(year, 11) == 304 + leap && DaysBeforeMonth(year, 12) == 334 + leap
            && DaysBeforeMonth(year, 13) == DaysInYear(year)
  {
    assert DaysBeforeMonth(year, 3) == DaysBeforeMonth(year, 2) + DaysOrZero(year, 2);
    assert DaysBeforeMonth(year, 5) == DaysBeforeMonth(year, 4) + DaysOrZero(year, 4);
    assert DaysBeforeMonth(year, 7) == DaysBeforeMonth(year, 6) + DaysOrZero(year, 6);
    assert DaysBeforeMonth(year, 9) == DaysBeforeMonth(year, 8) + DaysOrZero(year, 8);
    assert DaysBeforeMonth(year, 11) == DaysBeforeMonth(year, 10) + DaysOrZero(year, 10);
  }

  // ---- Dates and times

  datatype DateTime = DateTime(year: u16, month: u8, day: u8, hour: u8, minute: u8, second: u8)

  predicate ValidDate(t: DateTime) {
    1970 <= t.year && 1 <= t.month <= 12 && 1 <= t.day <= DaysOrZero(t.year, t.month)
  }

  /** A date with a time of day; `second` is at most 59. */
  predicate Valid(t: DateTime) {
    ValidDate(t) && t.hour < 24 && t.minute < 60 && t.second < 60
  }

  function DayNumber(t: DateTime): nat
    requires t.day >= 1
  {
    DaysSince1970(t.year) + DaysBeforeMonth(t.year, t.month) + (t.day - 1)
  }

  function SecondOfDay(t: DateTime): nat {
    t.hour * 3_600 + t.minute * 60 + t.second
  }

  /** Seconds since 1970-01-01 00:00:00, unbounded. */
  function Seconds(t: DateTime): nat
    requires t.day >= 1
  {
    DayNumber(t) * 86_400 + SecondOfDay(t)
  }

  function ToUnix(t: DateTime): Result<u32, TimeError>
    requires t.day >= 1
  {
    ToUnixSeconds(t.year, t.month, t.day, t.hour, t.minute, t.second)
  }

  /** Seconds Since the Epoch, from the broken-down time of the standard. */
  function PosixSeconds(t: DateTime): int
    requires t.day >= 1
  {
    var tmYear := t.year - 1900;
    var tmYday := DaysBeforeMonth(t.year, t.month) + (t.day - 1);
    t.second + t.minute * 60 + t.hour * 3_600 + tmYday * 86_400 + (tmYear - 70) * 31_536_000
    + (tmYear - 69) / 4 * 86_400 - (tmYear - 1) / 100 * 86_400 + (tmYear + 299) / 400 * 86_400
  }

  lemma LeapDays(year: u16)
    requires year >= 1970
    ensures DaysBeforeYear(year) - DaysBeforeYear(1970) ==
            365 * (year - 1970) + (year - 1969) / 4 - (year - 1901) / 100 + (year - 1601) / 400
  {
    assert (year - 1969) / 4 == (year - 1) / 4 - 492;
    assert (year - 1901) / 100 == (year - 1) / 100 - 19;
    assert (year - 1601) / 400 == (year - 1) / 400 - 4;
  }

  /** The conversion is the standard's formula and the day-by-day count, for leap seconds too, and
      fails exactly before 1970 and past the u32 range. */
  lemma UnixSecondsArePosix(t: DateTime)
    requires t.day >= 1 && t.second <= 60
    ensures t.year < 1970 ==> ToUnix(t) == Err(OutOfRange)
    ensures t.year >= 1970 ==>
              && PosixSeconds(t) == Seconds(t)
              && ToUnix(t) == if Seconds(t) < U32_LIMIT then Ok(Seconds(t)) else Err(OutOfRange)
  {
    if t.year >= 1970 {
      ClosedFormCountsYears(t.year);
      LeapDays(t.year);
      hide DaysBeforeYear, DaysSince1970, DaysBeforeMonth;
    }
  }

  // ---- Strictly increasing, onto, and the leap second

  predicate Before(a: DateTime, b: DateTime) {
    a.year < b.year || (a.year == b.year &&
    (a.month < b.month || (a.month == b.month &&
    (a.day < b.day || (a.day == b.day &&
    (a.hour < b.hour || (a.hour == b.hour &&
    (a.minute < b.minute || (a.minute == b.minute && a.second < b.second)))))))))
  }

  lemma DayInYear(t: DateTime)
    requires ValidDate(t)
    ensures DaysBeforeMonth(t.year, t.month) + t.day <= DaysBeforeMonth(t.year, t.month + 1) <= DaysInYear(t.year)
  {
    MonthStarts(t.year);
  }

  lemma {:induction false} MonthsGrow(year: u16, a: u8, b: u8)
    requires 1 <= a <= b
    ensures DaysBeforeMonth(year, a) <= DaysBeforeMonth(year, b)
    decreases b
  {
    if a < b {
      MonthsGrow(year, a, b - 1);
    }
  }

  lemma {:induction false} YearsGrow(a: u16, b: u16)
    requires a <= b
    ensures DaysSince1970(a) <= DaysSince1970(b)
    decreases b
  {
    if a < b {
      YearsGrow(a, b - 1);
    }
  }

  lemma LaterYear(a: DateTime, b: DateTime)
    requires ValidDate(a) && ValidDate(b) && a.year < b.year
    ensures DayNumber(a) < DayNumber(b)
  {
    DayInYear(a);
    YearEnds(a.year);
    YearsGrow(a.year + 1, b.year);
    hide DaysBeforeMonth, DaysSince1970, DaysInYear, DaysOrZero;
  }

  lemma LaterMonth(a: DateTime, b: DateTime)
    requires ValidDate(a) && ValidDate(b) && a.year == b.year && a.month < b.month
    ensures DayNumber(a) < DayNumber(b)
  {
    hide DaysBeforeMonth, DaysSince1970, DaysInYear, DaysOrZero, DaysInMonth, LeapYear;
    DayInYear(a);
    MonthsGrow(a.year, a.month + 1, b.month);
  }

  /** A later date has a larger day number. */
  lemma DaysIncrease(a: DateTime, b: DateTime)
    requires ValidDate(a) && ValidDate(b)
    requires a.year < b.year || (a.year == b.year && (a.month < b.month || (a.month == b.month && a.day < b.day)))
    ensures DayNumber(a) < DayNumber(b)
  {
    hide DaysBeforeMonth, DaysSince1970;
    if a.year < b.year {
      LaterYear(a, b);
    } else if a.month < b.month {
      LaterMonth(a, b);
    }
  }

  lemma YearEnds(year: u16)
    requires 1970 <= year < 0xffff
    ensures DaysSince1970(year + 1) == DaysSince1970(year) + DaysInYear(year)
  {
  }

  /** Later times have larger values. */
  lemma SecondsIncrease(a: DateTime, b: DateTime)
    requires Valid(a) && Valid(b) && Before(a, b)
    ensures Seconds(a) < Seconds(b)
  {
    if a.year == b.year && a.month == b.month && a.day == b.day {
      assert DayNumber(a) == DayNumber(b);
    } else {
      DaysIncrease(a, b);
    }
    hide DayNumber;
  }

  /** No two times share a value. */
  lemma SecondsAreUnique(a: DateTime, b: DateTime)
    requires Valid(a) && Valid(b) && Seconds(a) == Seconds(b)
    ensures a == b
  {
    hide Seconds;
    if Before(a, b) {
      SecondsIncrease(a, b);
    } else if Before(b, a) {
      SecondsIncrease(b, a);
    }
  }

  /** The year in which a day falls. */
  lemma {:induction false} YearOf(day: nat, limit: u16) returns (year: u16)
    requires day < DaysSince1970(limit)
    ensures 1970 <= year < limit && DaysSince1970(year) <= day < DaysSince1970(year) + DaysInYear(year)
    decreases limit
  {
    if DaysSince1970(limit - 1) <= day {
      year := limit - 1;
    } else {
      year := YearOf(day, limit - 1);
    }
  }

  lemma {:induction false} MonthOf(year: u16, day: nat, limit: u8) returns (month: u8)
    requires day < DaysBeforeMonth(year, limit) && limit <= 13
    ensures 1 <= month < limit
    ensures DaysBeforeMonth(year, month) <= day < DaysBeforeMonth(year, month) + DaysOrZero(year, month)
    decreases limit
  {
    if DaysBeforeMonth(year, limit - 1) <= day {
      month := limit - 1;
    } else {
      month := MonthOf(year, day, limit - 1);
    }
  }

  lemma DateOf(day: nat, limit: u16) returns (t: DateTime)
    requires day < DaysSince1970(limit)
    ensures ValidDate(t) && DayNumber(t) == day && t.hour == 0 && t.minute == 0 && t.second == 0 && t.year < limit
  {
    var year := YearOf(day, limit);
    MonthStarts(year);
    var rest := day - DaysSince1970(year);
    var month := MonthOf(year, rest, 13);
    t := DateTime(year, month, rest - DaysBeforeMonth(year, month) + 1, 0, 0, 0);
  }

  /** Every u32 second is the value of a date and time, and of only one. */
  lemma EverySecondIsHit(seconds: u32) returns (t: DateTime)
    ensures Valid(t) && ToUnix(t) == Ok(seconds)
    ensures forall u: DateTime | Valid(u) && ToUnix(u) == Ok(seconds) :: u == t
  {
    ClosedFormCountsYears(2107);
    assert DaysSince1970(2107) == 50_038;
    var date := DateOf(seconds / 86_400, 2107);
    var rest := seconds % 86_400;
    t := date.(hour := rest / 3_600, minute := rest / 60 % 60, second := rest % 60);
    hide DaysSince1970, DaysBeforeMonth, ToUnix;
    TimeSplits(rest);
    assert DayNumber(t) == DayNumber(date);
    assert Seconds(t) == seconds;
    UnixSecondsArePosix(t);
    forall u: DateTime | Valid(u) && ToUnix(u) == Ok(seconds)
      ensures u == t
    {
      UnixSecondsArePosix(u);
      SecondsAreUnique(t, u);
    }
  }

  lemma TimeSplits(rest: nat)
    requires rest < 86_400
    ensures rest / 3_600 < 24 && rest / 3_600 * 3_600 + rest / 60 % 60 * 60 + rest % 60 == rest
  {
  }

  /** Midnight of the following day. */
  function NextDay(t: DateTime): DateTime
    requires ValidDate(t) && t.year < 0xffff
  {
    var midnight := t.(hour := 0, minute := 0, second := 0);
    if t.day < DaysOrZero(t.year, t.month) then midnight.(day := t.day + 1)
    else if t.month < 12 then midnight.(day := 1, month := t.month + 1)
    else midnight.(day := 1, month := 1, year := t.year + 1)
  }

  lemma NextDayFollows(t: DateTime)
    requires ValidDate(t) && t.year < 0xffff
    ensures Valid(NextDay(t)) && DayNumber(NextDay(t)) == DayNumber(t) + 1
  {
    YearEnds(t.year);
    MonthStarts(t.year);
    MonthStarts(NextDay(t).year);
    hide DaysSince1970;
  }

  /** The first second of the following minute. */
  function NextMinute(t: DateTime): DateTime
    requires Valid(t) && t.year < 0xffff
  {
    if t.minute < 59 then t.(minute := t.minute + 1, second := 0)
    else if t.hour < 23 then t.(hour := t.hour + 1, minute := 0, second := 0)
    else NextDay(t)
  }

  lemma NextMinuteSeconds(t: DateTime)
    requires Valid(t) && t.year < 0xffff
    ensures Valid(NextMinute(t)) && Seconds(NextMinute(t)) == Seconds(t.(second := 0)) + 60
  {
    NextDayFollows(t);
    var next := NextMinute(t);
    assert DayNumber(t.(second := 0)) == DayNumber(t);
    if t.minute < 59 || t.hour < 23 {
      assert DayNumber(next) == DayNumber(t);
    }
    hide DayNumber, NextDay, DaysOrZero;
  }

  /** A leap second counts as the first second of the following minute. */
  lemma LeapSecondIsNextMinute(t: DateTime)
    requires Valid(t) && t.year < 0xffff
    ensures Valid(NextMinute(t)) && ToUnix(t.(second := 60)) == ToUnix(NextMinute(t))
  {
    var leap, zero := t.(second := 60), t.(second := 0);
    assert DayNumber(leap) == DayNumber(zero) && Seconds(leap) == Seconds(zero) + 60;
    hide Seconds, ToUnix, PosixSeconds, NextMinute, DaysOrZero;
    NextMinuteSeconds(t);
    UnixSecondsArePosix(leap);
    UnixSecondsArePosix(NextMinute(t));
  }

  /** Every validated date of the two-digit years fits. */
  lemma TwoDigitYearsFit(t: DateTime)
    requires ValidDate(t) && 1980 <= t.year <= 2079 && t.hour < 24 && t.minute < 60 && t.second <= 60
    ensures ToUnix(t) == Ok(PosixSeconds(t))
  {
    UnixSecondsArePosix(t);
    DayInYear(t);
    YearEnds(t.year);
    YearsGrow(t.year + 1, 2080);
    ClosedFormCountsYears(2080);
    assert DaysSince1970(2080) == 40_177;
    hide DaysSince1970, DaysBeforeMonth, PosixSeconds, ToUnix;
  }

  // ---- Parsing the RMC fields (lines 41-112)

  const ZERO: u8 := 48 // b'0'
  const PLUS: u8 := 43 // b'+'
  const DOT: u8 := 46  // b'.'

  predicate IsDigit(b: u8) {
    ZERO <= b <= ZERO + 9
  }

  /** `parse::<u8>` on two bytes, which takes a plus sign before a single digit. */
  function ParseTwo(a: u8, b: u8): Option<u8> {
    if IsDigit(a) && IsDigit(b) then Some(10 * (a - ZERO) + (b - ZERO))
    else if a == PLUS && IsDigit(b) then Some(b - ZERO)
    else None
  }

  /** The value of a digit. */
  function DigitValue(b: u8): (d: nat)
    ensures IsDigit(b) ==> d <= 9
  {
    if b >= ZERO then b - ZERO else 0
  }

  function OrError<T>(o: Option<T>): Result<T, TimeError> {
    if o.Some? then Ok(o.value) else Err(ParseError)
  }

  /** Two digits stand for 1980 to 2079. */
  function YearOfTwoDigits(short: u8): u16 {
    var n: int := short;
    if n >= 80 then 1900 + n else 2000 + n
  }

  function ParseDate(field: seq<u8>): (r: Result<(u16, u8, u8), TimeError>)
    ensures r.Ok? ==>
              && 1980 <= r.value.0 <= 2079 && r.value.2 >= 1
              && ValidDate(DateTime(r.value.0, r.value.1, r.value.2, 0, 0, 0))
  {
    if |field| != 6 then Err(ParseError)
    else
      var day :- OrError(ParseTwo(field[0], field[1]));
      var month :- OrError(ParseTwo(field[2], field[3]));
      var short :- OrError(ParseTwo(field[4], field[5]));
      var year := YearOfTwoDigits(short);
      var last := DaysInMonth(year, month);
      if last.None? || day == 0 || day > last.value then Err(OutOfRange) else Ok((year, month, day))
  }

  /** The number that decimal digits stand for. */
  function Decimal(digits: seq<u8>): nat
    requires forall i | 0 <= i < |digits| :: IsDigit(digits[i])
  {
    if digits == [] then 0 else 10 * Decimal(digits[..|digits| - 1]) + DigitValue(digits[|digits| - 1])
  }

  /** The milliseconds of a fraction: its first three digits, missing ones being zero. */
  function Milliseconds(fraction: seq<u8>): (ms: u16)
    requires forall i | 0 <= i < |fraction| :: IsDigit(fraction[i])
    ensures ms <= 999
  {
    var d0 := if |fraction| > 0 then DigitValue(fraction[0]) else 0;
    var d1 := if |fraction| > 1 then DigitValue(fraction[1]) else 0;
    var d2 := if |fraction| > 2 then DigitValue(fraction[2]) else 0;
    100 * d0 + 10 * d1 + d2
  }

  /** Lines 69-76. */
  method MillisecondsLoop(fraction: seq<u8>) returns (value: nat)
    requires forall i | 0 <= i < |fraction| :: IsDigit(fraction[i])
    ensures value == Milliseconds(fraction)
  {
    value := 0;
    for index := 0 to 3
      invariant index == 0 ==> value == 0
      invariant index == 1 ==> value == if |fraction| > 0 then DigitValue(fraction[0]) else 0
      invariant index == 2 ==>
                  10 * value == Milliseconds(fraction) - if |fraction| > 2 then DigitValue(fraction[2]) else 0
      invariant index == 3 ==> value == Milliseconds(fraction)
    {
      value := value * 10;
      if index < |fraction| {
        value := value + DigitValue(fraction[index]);
      }
    }
  }

  function Pow10(n: nat): (p: nat)
    ensures p > 0
  {
    if n == 0 then 1 else 10 * Pow10(n - 1)
  }

  /** The fraction of a second is cut off, not rounded, to whole milliseconds. */
  lemma {:induction false} MillisecondsTruncate(fraction: seq<u8>)
    requires |fraction| >= 1 && forall i | 0 <= i < |fraction| :: IsDigit(fraction[i])
    ensures Milliseconds(fraction) * Pow10(|fraction|) <= 1000 * Decimal(fraction)
            < (Milliseconds(fraction) + 1) * Pow10(|fraction|)
  {
    var n := |fraction| - 1;
    if n < 3 {
      ShortFraction(fraction);
    } else {
      MillisecondsTruncate(fraction[..n]);
      var ms, p := Milliseconds(fraction), Pow10(n);
      assert Milliseconds(fraction[..n]) == ms && Pow10(n + 1) == 10 * p;
      PowTen(n);
      Multiple(ms + 1, p);
      var d := DigitValue(fraction[n]);
      assert Decimal(fraction) == 10 * Decimal(fraction[..n]) + d;
      hide Milliseconds, Pow10, Decimal, DigitValue, IsDigit;
      OneMoreDigit(ms * p, (ms + 1) * p, Decimal(fraction[..n]), d);
      TimesTen(ms, p);
      TimesTen(ms + 1, p);
    }
  }

  lemma OneMoreDigit(low: nat, high: nat, n: nat, d: nat)
    requires low <= 1000 * n < high && high % 1000 == 0 && d <= 9
    ensures 10 * low <= 1000 * (10 * n + d) < 10 * high
  {
  }

  lemma TimesTen(a: nat, p: nat)
    ensures a * (10 * p) == 10 * (a * p)
  {
  }

  lemma ShortFraction(fraction: seq<u8>)
    requires 1 <= |fraction| <= 3 && forall i | 0 <= i < |fraction| :: IsDigit(fraction[i])
    ensures Milliseconds(fraction) * Pow10(|fraction|) == 1000 * Decimal(fraction)
  {
    assert Pow10(1) == 10 && Pow10(2) == 100 && Pow10(3) == 1000;
    assert Decimal(fraction[..0]) == 0;
    assert fraction[..1][..0] == fraction[..0] && Decimal(fraction[..1]) == DigitValue(fraction[0]);
    if |fraction| >= 2 {
      assert fraction[..2][..1] == fraction[..1];
      assert Decimal(fraction[..2]) == 10 * Decimal(fraction[..1]) + (DigitValue(fraction[1]));
    }
    if |fraction| == 3 {
      assert fraction[..3][..2] == fraction[..2];
    }
    assert fraction[..|fraction|] == fraction;
  }

  lemma {:induction false} PowTen(n: nat)
    requires n >= 3
    ensures Pow10(n) % 1000 == 0
  {
    if n == 3 {
      assert Pow10(3) == 1000;
    } else {
      PowTen(n - 1);
    }
  }

  lemma Multiple(a: nat, p: nat)
    requires p % 1000 == 0
    ensures a * p % 1000 == 0
  {
    var q := p / 1000;
    assert a * p == 1000 * (a * q);
  }

  function ParseTime(field: seq<u8>): (r: Result<(u8, u8, u8, u16), TimeError>)
    ensures r.Ok? ==> r.value.0 < 24 && r.value.1 < 60 && r.value.2 <= 60 && r.value.3 <= 999
  {
    if |field| < 6 then Err(ParseError)
    else
      var hour :- OrError(ParseTwo(field[0], field[1]));
      var minute :- OrError(ParseTwo(field[2], field[3]));
      var second :- OrError(ParseTwo(field[4], field[5]));
      if hour >= 24 || minute >= 60 || second > 60 then Err(OutOfRange)
      else if |field| == 6 then Ok((hour, minute, second, 0))
      else if field[6] != DOT || |field| == 7 || exists i | 7 <= i < |field| :: !IsDigit(field[i]) then Err(ParseError)
      else Ok((hour, minute, second, Milliseconds(field[7..])))
  }

  // ---- Written times are read back

  function TwoDigits(n: nat): (s: seq<u8>)
    requires n < 100
    ensures |s| == 2
  {
    [ZERO + n / 10, ZERO + n % 10]
  }

  function ThreeDigits(n: nat): seq<u8>
    requires n < 1000
  {
    [ZERO + n / 100] + TwoDigits(n % 100)
  }

  lemma TwoDigitsParse(n: nat)
    requires n < 100
    ensures ParseTwo(TwoDigits(n)[0], TwoDigits(n)[1]) == Some(n)
  {
  }

  /** The two bytes are the two digits of the number, or a plus sign and its one digit. */
  predicate WritesTwo(a: u8, b: u8, n: nat) {
    n < 100 && ([a, b] == TwoDigits(n) || (n < 10 && a == PLUS && b == ZERO + n))
  }

  lemma ParseTwoExactly(a: u8, b: u8, n: u8)
    ensures ParseTwo(a, b) == Some(n) <==> WritesTwo(a, b, n)
  {
    assert [a, b] == TwoDigits(n % 100) <==> a == TwoDigits(n % 100)[0] && b == TwoDigits(n % 100)[1];
    if IsDigit(a) && IsDigit(b) {
      var v := 10 * (a - ZERO) + (b - ZERO);
      assert v / 10 == a - ZERO && v % 10 == b - ZERO;
    }
  }

  /** `ms` is the fraction in whole milliseconds, rounded down. */
  predicate IsMilliseconds(fraction: seq<u8>, ms: nat) {
    && |fraction| >= 1 && (forall i | 0 <= i < |fraction| :: IsDigit(fraction[i]))
    && ms * Pow10(|fraction|) <= 1000 * Decimal(fraction) < (ms + 1) * Pow10(|fraction|)
  }

  lemma MillisecondsExactly(fraction: seq<u8>, ms: nat)
    requires |fraction| >= 1 && forall i | 0 <= i < |fraction| :: IsDigit(fraction[i])
    ensures IsMilliseconds(fraction, ms) <==> ms == Milliseconds(fraction)
  {
    MillisecondsTruncate(fraction);
    hide Milliseconds, Decimal, Pow10;
    if IsMilliseconds(fraction, ms) {
      QuotientIsUnique(ms, Milliseconds(fraction), Pow10(|fraction|), 1000 * Decimal(fraction));
    }
  }

  predicate WritesClock(field: seq<u8>, hour: u8, minute: u8, second: u8) {
    && |field| >= 6 && WritesTwo(field[0], field[1], hour) && WritesTwo(field[2], field[3], minute)
    && WritesTwo(field[4], field[5], second)
  }

  /** Exactly the fields hhmmss and hhmmss.f... with a valid time of day are accepted: the first stands for
      the full second, and of the fraction of the second whole milliseconds are kept. */
  lemma TimeParsesExactly(field: seq<u8>, hour: u8, minute: u8, second: u8, ms: u16)
    ensures ParseTime(field) == Ok((hour, minute, second, ms)) <==>
              && WritesClock(field, hour, minute, second) && hour < 24 && minute < 60 && second <= 60
              && if |field| == 6 then ms == 0 else field[6] == DOT && IsMilliseconds(field[7..], ms)
    ensures ParseTime(field) == Err(OutOfRange) && WritesClock(field, hour, minute, second) ==>
              hour >= 24 || minute >= 60 || second > 60
  {
    if |field| >= 6 {
      ParseTwoExactly(field[0], field[1], hour);
      ParseTwoExactly(field[2], field[3], minute);
      ParseTwoExactly(field[4], field[5], second);
      hide ParseTwo, WritesTwo;
      if |field| > 7 && forall i | 7 <= i < |field| :: IsDigit(field[i]) {
        MillisecondsExactly(field[7..], ms);
        hide IsMilliseconds, Milliseconds;
      } else if |field| > 7 {
        var i :| 7 <= i < |field| && !IsDigit(field[i]);
        assert field[7..][i - 7] == field[i];
      }
      hide Milliseconds, Decimal, Pow10;
    }
  }

  /** Exactly the fields ddmmyy of dates of 1980 to 2079 are accepted. */
  lemma DateParsesExactly(field: seq<u8>, t: DateTime)
    ensures ParseDate(field) == Ok((t.year, t.month, t.day)) <==>
              && |field| == 6 && WritesTwo(field[0], field[1], t.day) && WritesTwo(field[2], field[3], t.month)
              && WritesTwo(field[4], field[5], t.year % 100) && 1980 <= t.year <= 2079 && ValidDate(t)
  {
    if |field| == 6 {
      ParseTwoExactly(field[0], field[1], t.day);
      ParseTwoExactly(field[2], field[3], t.month);
      ParseTwoExactly(field[4], field[5], t.year % 100);
      ParseTwoBound(field[4], field[5]);
      DayOfMonth(t);
      hide ParseTwo, WritesTwo, ValidDate, DaysInMonth, ParseDate;
      DateIsParsed(field);
      YearOfShort(t.year);
    }
  }

  lemma DayOfMonth(t: DateTime)
    ensures ValidDate(t) <==>
              1970 <= t.year && DaysInMonth(t.year, t.month).Some?
              && 1 <= t.day <= DaysInMonth(t.year, t.month).value
  {
    hide LeapYear;
  }

  lemma YearOfShort(year: u16)
    ensures 1980 <= year <= 2079 ==> YearOfTwoDigits(year % 100) == year
  {
  }

  /** The date of the three numbers in a field. */
  lemma DateIsParsed(field: seq<u8>)
    requires |field| == 6
    ensures var day, month, short := ParseTwo(field[0], field[1]), ParseTwo(field[2], field[3]),
                                     ParseTwo(field[4], field[5]);
            if day.Some? && month.Some? && short.Some? then
              var year := YearOfTwoDigits(short.value);
              var last := DaysInMonth(year, month.value);
              ParseDate(field) == if last.Some? && 1 <= day.value <= last.value
                                  then Ok((year, month.value, day.value)) else Err(OutOfRange)
            else ParseDate(field) == Err(ParseError)
  {
    hide ParseTwo, DaysInMonth;
  }

  lemma ParseTwoBound(a: u8, b: u8)
    ensures ParseTwo(a, b).Some? ==> ParseTwo(a, b).value < 100
  {
  }

  /** hhmmss.mmm */
  lemma WrittenTimeIsRead(hour: u8, minute: u8, second: u8, ms: u16)
    requires hour < 24 && minute < 60 && second <= 60 && ms <= 999
    ensures ParseTime(TwoDigits(hour) + TwoDigits(minute) + TwoDigits(second) + [DOT] + ThreeDigits(ms)) ==
            Ok((hour, minute, second, ms))
  {
    TwoDigitsParse(hour);
    TwoDigitsParse(minute);
    TwoDigitsParse(second);
    var field := TwoDigits(hour) + TwoDigits(minute) + TwoDigits(second) + [DOT] + ThreeDigits(ms);
    assert field[7..] == ThreeDigits(ms);
    assert Milliseconds(ThreeDigits(ms)) == ms;
    forall i | 7 <= i < |field|
      ensures IsDigit(field[i])
    {
      assert field[i] == ThreeDigits(ms)[i - 7];
    }
    hide ParseTwo, TwoDigits, ThreeDigits, Milliseconds;
  }

  /** ddmmyy, for the years 1980 to 2079 */
  lemma WrittenDateIsRead(t: DateTime)
    requires ValidDate(t) && 1980 <= t.year <= 2079
    ensures ParseDate(TwoDigits(t.day) + TwoDigits(t.month) + TwoDigits(t.year % 100)) == Ok((t.year, t.month, t.day))
  {
    TwoDigitsParse(t.day);
    TwoDigitsParse(t.month);
    TwoDigitsParse(t.year % 100);
    hide ParseTwo, TwoDigits;
  }

  /** Whatever the fields parse to has a u32 value, and it is the standard's. */
  lemma ParsedTimesConvert(date: seq<u8>, time: seq<u8>)
    requires ParseDate(date).Ok? && ParseTime(time).Ok?
    ensures var (year, month, day) := ParseDate(date).value;
            var (hour, minute, second, _) := ParseTime(time).value;
            var t := DateTime(year, month, day, hour, minute, second);
            t.day >= 1 && ToUnix(t) == Ok(PosixSeconds(t))
  {
    var (year, month, day) := ParseDate(date).value;
    var (hour, minute, second, _) := ParseTime(time).value;
    hide ParseDate, ParseTime, ToUnix, PosixSeconds;
    TwoDigitYearsFit(DateTime(year, month, day, hour, minute, second));
  }
}
