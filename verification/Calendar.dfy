/** Unix time and the Gregorian calendar, as converted by genie_time.c. */
module Calendar {
  import opened Bits

  const MINU: nat := 60
  const HOUR: nat := 60 * MINU
  const DAY: nat := 24 * HOUR

  /** Months count from 0, days from 1, and weekday 0 is Sunday. */
  datatype Utc = Utc(year: int, month: int, day: int, hour: int, minutes: int, seconds: int, weekday: int)

  // ----- the calendar itself -----

  /** `is_leap_year` */
  predicate IsLeapYear(year: int) {
    (year % 4 == 0 && year % 100 != 0) || year % 400 == 0
  }

  function YearDays(year: int): nat { if IsLeapYear(year) then 366 else 365 }

  /** The days of a year before a month: `g_noleap_daysbeforemonth` with the leap day. */
  function MonthStart(year: int, month: int): nat
    requires 0 <= month <= 12
  {
    var days := [0, 31, 59, 90, 120, 151, 181, 212, 243, 273, 304, 334, 365];
    days[month] + if month >= 2 && IsLeapYear(year) then 1 else 0
  }

  function MonthDays(year: int, month: int): nat
    requires 0 <= month < 12
  {
    MonthStart(year, month + 1) - MonthStart(year, month)
  }

  predicate IsDate(u: Utc) {
    1970 <= u.year && 0 <= u.month < 12 && 1 <= u.day <= MonthDays(u.year, u.month)
  }

  /** The days from 1970-01-01 to the start of a year, year by year. */
  function YearStart(year: int): nat
    requires year >= 1970
    decreases year
  {
    if year == 1970 then 0 else YearStart(year - 1) + YearDays(year - 1)
  }

  /** The number of a date, counted from 1970-01-01. */
  function DayNumber(u: Utc): nat
    requires IsDate(u)
  {
    YearStart(u.year) + MonthStart(u.year, u.month) + u.day - 1
  }

  /** The day after a date. */
  function Tomorrow(u: Utc): (t: Utc)
    requires IsDate(u)
    ensures IsDate(t)
  {
    if u.day < MonthDays(u.year, u.month) then u.(day := u.day + 1)
    else if u.month < 11 then u.(month := u.month + 1, day := 1)
    else u.(year := u.year + 1, month := 0, day := 1)
  }

  lemma TomorrowIsNext(u: Utc)
    requires IsDate(u)
    ensures DayNumber(Tomorrow(u)) == DayNumber(u) + 1
  {
  }

  lemma {:induction false} LaterYear(y: int, z: int)
    requires 1970 <= y < z
    ensures YearStart(y) + YearDays(y) <= YearStart(z)
    decreases z
  {
    if z > y + 1 {
      LaterYear(y, z - 1);
    }
  }

  lemma LaterMonth(year: int, m: int, n: int)
    requires 0 <= m < n <= 12
    ensures MonthStart(year, m) + MonthDays(year, m) <= MonthStart(year, n) && MonthStart(year, 12) == YearDays(year)
  {
  }

  /** A day number belongs to one date only. */
  lemma SameDate(u: Utc, v: Utc)
    requires IsDate(u) && IsDate(v) && DayNumber(u) == DayNumber(v)
    ensures SameDay(u, v)
  {
    LaterMonth(u.year, u.month, 12);
    LaterMonth(v.year, v.month, 12);
    if u.year < v.year {
      LaterYear(u.year, v.year);
    } else if v.year < u.year {
      LaterYear(v.year, u.year);
    } else if u.month < v.month {
      LaterMonth(u.year, u.month, v.month);
    } else if v.month < u.month {
      LaterMonth(u.year, v.month, u.month);
    }
  }

  /** The date `n` days after 1970-01-01, one day after another. */
  ghost function DateOf(n: nat): (u: Utc)
    ensures IsDate(u)
  {
    if n == 0 then Utc(1970, 0, 1, 0, 0, 0, 0) else Tomorrow(DateOf(n - 1))
  }

  lemma {:induction false} DateOfNumber(n: nat)
    ensures DayNumber(DateOf(n)) == n
  {
    if n > 0 {
      DateOfNumber(n - 1);
      TomorrowIsNext(DateOf(n - 1));
    }
  }

  predicate SameDay(u: Utc, v: Utc) { u.year == v.year && u.month == v.month && u.day == v.day }

  /** Counting days from 1970-01-01 and adding up years and months are the same. */
  lemma DayNumberIsDate(u: Utc, n: nat)
    requires IsDate(u)
    ensures DayNumber(u) == n <==> SameDay(u, DateOf(n))
  {
    DateOfNumber(n);
    if DayNumber(u) == n {
      SameDate(u, DateOf(n));
    }
  }

  // ----- unix2UTC -----

  /** What is right for every instant: time of day and weekday. */
  predicate ClockOk(u: Utc, time: nat) {
    && u.hour == time % DAY / HOUR && u.minutes == time % HOUR / MINU && u.seconds == time % MINU
    && u.weekday == (time / DAY + 4) % 7
  }

  /** The day number that `unix2UTC` works with: from 2102-01-02 on it takes every fourth year for a
      leap year although 2100 was none. */
  function CountedDay(day: nat): nat { if day < 48213 then day else day - 1 }

  /** `unix2UTC`: the date is right exactly before 2102-01-02, and one day behind afterwards. */
  method UnixToUtc(unixTime: nat) returns (u: Utc)
    requires unixTime < WORD
    ensures ClockOk(u, unixTime) && IsDate(u)
    ensures DayNumber(u) == CountedDay(unixTime / DAY)
    ensures SameDay(u, DateOf(unixTime / DAY)) <==> unixTime / DAY < 48213
  {
    DayRight(unixTime / DAY);
    hide DayNumber, DateOf;
    hide MonthStart, MonthDays, YearStart, YearDays, CountedDay;
    Fields(unixTime);
    var epoch := unixTime;
    var jdn := epoch / DAY;
    epoch := epoch - DAY * jdn;
    var weekday := (jdn + 4) % 7;
    var hour := epoch / HOUR;
    epoch := epoch - HOUR * hour;
    var minutes := epoch / MINU;
    epoch := epoch - MINU * minutes;
    var sec := epoch;

    var year, rest := FindYear(jdn);
    var month := FindMonth(year, rest);
    MonthDaysIs(year, month);
    rest := rest - MonthStart(year, month);
    u := Utc(year, month, rest + 1, hour, minutes, sec, weekday);
    DayNumberOf(u);
    DayNumberIsDate(u, jdn);
  }

  lemma DayRight(day: nat)
    ensures CountedDay(day) == day <==> day < 48213
  {
  }

  lemma DayNumberOf(u: Utc)
    requires IsDate(u)
    ensures DayNumber(u) == YearStart(u.year) + MonthStart(u.year, u.month) + u.day - 1
  {
  }

  lemma MonthDaysIs(year: int, month: int)
    requires 0 <= month < 12
    ensures MonthStart(year, month) + MonthDays(year, month) == MonthStart(year, month + 1)
  {
  }

  lemma Fields(t: nat)
    ensures t - DAY * (t / DAY) == t % DAY
    ensures t % DAY - HOUR * (t % DAY / HOUR) == t % HOUR
    ensures t % HOUR / MINU == (t % DAY - HOUR * (t % DAY / HOUR)) / MINU
    ensures t % HOUR - MINU * (t % HOUR / MINU) == t % MINU
  {
    var r := t % DAY;
    var h := r / HOUR;
    HourIs(t, 24 * (t / DAY) + h, r - HOUR * h);
    var m := t % HOUR / MINU;
    MinuteIs(t, 60 * (t / HOUR) + m, t % HOUR - MINU * m);
  }

  lemma HourIs(t: nat, q: nat, r: nat)
    requires t == HOUR * q + r && r < HOUR
    ensures t % HOUR == r && t / HOUR == q
  {
  }

  lemma MinuteIs(t: nat, q: nat, r: nat)
    requires t == MINU * q + r && r < MINU
    ensures t % MINU == r
  {
  }

  /** Whole four-year periods first, then single years. */
  method FindYear(day: nat) returns (year: int, rest: nat)
    requires day < WORD / DAY + 1
    ensures year >= 1970 && rest < YearDays(year) && YearStart(year) + rest == CountedDay(day)
  {
    year := day / 1461;
    rest := day - year * 1461;
    FourYears(year);
    year := year * 4;
    var leap := IsLeapYear(year + 1970);
    var days := if leap then 366 else 365;
    while rest >= days
      invariant year >= 0 && YearStart(year + 1970) + rest == CountedDay(day)
      invariant days == YearDays(year + 1970)
      decreases rest
    {
      year := year + 1;
      rest := rest - days;
      leap := IsLeapYear(year + 1970);
      days := if leap then 366 else 365;
    }
    year := year + 1970;
  }

  /** Four-year periods have 1461 days up to 2097; the period from 2098 on lacks a leap day. */
  lemma {:induction false} FourYears(k: nat)
    requires k <= 34
    ensures YearStart(4 * k + 1970) == if k <= 32 then 1461 * k else 1461 * k - 1
  {
    if k > 0 {
      FourYears(k - 1);
      var y := 4 * k + 1970;
      assert YearStart(y) == YearStart(y - 4) + YearDays(y - 4) + YearDays(y - 3) + YearDays(y - 2) + YearDays(y - 1) by {
        assert YearStart(y - 1) == YearStart(y - 2) + YearDays(y - 2);
        assert YearStart(y - 2) == YearStart(y - 3) + YearDays(y - 3);
      }
    }
  }

  /** The binary search for the month. */
  method FindMonth(year: int, rest: nat) returns (value: int)
    requires rest < YearDays(year)
    ensures 0 <= value < 12 && MonthStart(year, value) <= rest < MonthStart(year, value + 1)
  {
    var min, max := 0, 11;
    value := 0;
    while true
      invariant 0 <= min <= max <= 11
      invariant MonthStart(year, min) <= rest < MonthStart(year, max + 1)
      decreases max - min
    {
      value := (min + max) / 2;
      if MonthStart(year, value + 1) > rest {
        if MonthStart(year, value) > rest {
          max := value - 1;
        } else {
          break;
        }
      } else {
        min := value + 1;
      }
      value := min;
      if !(min < max) {
        break;
      }
    }
  }

  // ----- UTC2unix -----

  /** `UTC2unix`, in 32-bit arithmetic: every fourth year counts as a leap year, and the day may lie
      beyond the end of its month. */
  function UtcToUnix(u: Utc): int
    requires 0 <= u.month <= 12
  {
    var days := (u.year - 1970) * 365 + (u.year - 1969) / 4 + MonthStart(u.year, u.month) + u.day - 1;
    (((days * 24 + u.hour) * 60 + u.minutes) * 60 + u.seconds) % WORD
  }

  /** The leap years the formula counts are the real ones up to the end of 2100, and one too many
      from 2101 to the end of the counter's range. */
  lemma {:induction false} LeapCount(year: int)
    requires 1970 <= year <= 2200
    ensures (year - 1970) * 365 + (year - 1969) / 4 == YearStart(year) + if year <= 2100 then 0 else 1
    decreases year
  {
    if year > 1970 {
      LeapCount(year - 1);
      LeapIn(year - 1);
      hide IsLeapYear;
      var q := (year - 1970) / 4;
      assert (year - 1969) / 4 == if year % 4 == 1 then q + 1 else q;
    }
  }

  lemma LeapIn(year: int)
    requires 1970 <= year < 2200
    ensures IsLeapYear(year) <==> year % 4 == 0 && year != 2100
  {
  }

  function Seconds(u: Utc): int { u.hour * HOUR + u.minutes * MINU + u.seconds }

  /** What `UTC2unix` returns, in days and seconds. */
  lemma UtcToUnixIs(u: Utc)
    requires 1970 <= u.year <= 2200 && 0 <= u.month < 12
    ensures
      var days := YearStart(u.year) + MonthStart(u.year, u.month) + u.day - 1 + if u.year <= 2100 then 0 else 1;
      0 <= days * DAY + Seconds(u) < WORD ==> UtcToUnix(u) == days * DAY + Seconds(u)
  {
    LeapCount(u.year);
    hide MonthStart, YearStart, YearDays;
    var days := YearStart(u.year) + MonthStart(u.year, u.month) + u.day - 1 + if u.year <= 2100 then 0 else 1;
    Combine(days, u.hour, u.minutes, u.seconds);
  }

  lemma Combine(days: int, h: int, m: int, s: int)
    ensures
      var t := days * DAY + (h * HOUR + m * MINU + s);
      0 <= t < WORD ==> (((days * 24 + h) * 60 + m) * 60 + s) % WORD == t
  {
  }

  /** The round trip fails for the days from 2101-01-01 to 2102-01-01 and for no others. */
  lemma RoundTrip(u: Utc, unixTime: nat)
    requires unixTime < WORD && ClockOk(u, unixTime) && IsDate(u) && DayNumber(u) == CountedDay(unixTime / DAY)
    ensures UtcToUnix(u) == unixTime <==> unixTime / DAY < 47847 || unixTime / DAY >= 48213
  {
    hide *;
    DateBounds(u);
    DayNumberOf(u);
    SecondsOfDay(u, unixTime);
    Counted(unixTime);
    YearOf(u);
    UtcToUnixIs(u);
    RoundTripDays(DayNumber(u), unixTime, if u.year <= 2100 then 0 else 1, UtcToUnix(u));
  }

  lemma DateBounds(u: Utc)
    requires IsDate(u)
    ensures 1970 <= u.year && 0 <= u.month < 12
  {
  }

  lemma Counted(t: nat)
    requires t < WORD
    ensures CountedDay(t / DAY) < 49711
    ensures CountedDay(t / DAY) == if t / DAY < 48213 then t / DAY else t / DAY - 1
  {
  }

  lemma RoundTripDays(n: nat, t: nat, extra: nat, r: int)
    requires t < WORD && n == (if t / DAY < 48213 then t / DAY else t / DAY - 1)
    requires extra == if n < 47847 then 0 else 1
    requires 0 <= (n + extra) * DAY + t % DAY < WORD ==> r == (n + extra) * DAY + t % DAY
    ensures r == t <==> t / DAY < 47847 || t / DAY >= 48213
  {
    assert t == t / DAY * DAY + t % DAY;
  }

  lemma SecondsOfDay(u: Utc, t: nat)
    requires ClockOk(u, t)
    ensures Seconds(u) == t % DAY
  {
    Fields(t);
  }

  lemma YearOf(u: Utc)
    requires IsDate(u) && DayNumber(u) < 49711
    ensures u.year <= 2106 && (u.year <= 2100 <==> DayNumber(u) < 47847)
  {
    LaterMonth(u.year, u.month, 12);
    FourYears(32);
    assert YearStart(2098) == 46752;
    assert YearStart(2099) == 47117;
    assert YearStart(2100) == 47482;
    assert YearStart(2101) == 47847;
    FourYears(34);
    assert YearStart(2106) == 49673;
    assert YearStart(2107) == 50038;
    if u.year > 2106 { if u.year > 2107 { LaterYear(2107, u.year); } }
    if u.year < 2101 { LaterYear(u.year, 2101); }
    if u.year > 2101 { LaterYear(2101, u.year); }
  }
}
