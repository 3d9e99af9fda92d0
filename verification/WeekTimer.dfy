/** The ticking clock and the weekly timers of genie_time.c. */
module WeekTimers {
  import opened Bits
  import opened Calendar

  const SLOTS: nat := 40

  // ----- schedules -----

  /** Is a weekday in a 7-bit schedule? Bit 0 is Monday, bit 6 is Sunday. */
  predicate OnSchedule(weekday: int, schedule: nat) { BitAt(schedule, (weekday + 6) % 7) }

  /** Is the weekday `k` days after a weekday in the schedule? */
  predicate DueIn(weekday: nat, schedule: nat, k: nat) { OnSchedule((weekday + k) % 7, schedule) }

  /** Two copies of the mask, shifted to start at a weekday, read one week ahead. */
  lemma MaskRead(schedule: nat, weekday: nat, d: nat)
    requires schedule < 128 && weekday < 7 && d < 7
    ensures
      var now := if weekday == 0 then 7 else weekday;
      BitAt(And(ShiftRight(Or(schedule, ShiftLeft(schedule, 7)), now - 1), 0x7F), d) <==> DueIn(weekday, schedule, d)
  {
    hide And, Or, ShiftLeft, ShiftRight, BitAt;
    var now := if weekday == 0 then 7 else weekday;
    var k := now - 1 + d;
    AndBit(ShiftRight(Or(schedule, ShiftLeft(schedule, 7)), now - 1), 0x7F, d);
    AllSeven(d);
    ShiftRightBit(Or(schedule, ShiftLeft(schedule, 7)), now - 1, d);
    OrBit(schedule, ShiftLeft(schedule, 7), k);
    ShiftLeftBit(schedule, 7, k);
    if k >= 7 {
      NoBit(schedule, k);
    }
  }

  lemma AllSeven(d: nat)
    requires d < 7
    ensures BitAt(0x7F, d)
  {
    assert BitAt(1, 0) && BitAt(3, 1) && BitAt(7, 2) && BitAt(15, 3) && BitAt(31, 4);
    assert BitAt(3, 0) && BitAt(7, 0) && BitAt(15, 0) && BitAt(31, 0) && BitAt(63, 0) && BitAt(127, 0);
    assert BitAt(7, 1) && BitAt(15, 2) && BitAt(31, 3) && BitAt(63, 4);
    assert BitAt(15, 1) && BitAt(31, 2) && BitAt(63, 3) && BitAt(31, 1) && BitAt(63, 2) && BitAt(63, 1);
    assert BitAt(63, 5) && BitAt(127, 6) && BitAt(127, 5) && BitAt(127, 4) && BitAt(127, 3) && BitAt(127, 2) && BitAt(127, 1);
  }

  lemma NoBit(x: nat, k: nat)
    requires x < 128 && k >= 7
    ensures !BitAt(x, k)
  {
    assert Pow2(7) == 128 by { assert Pow2(3) == 8; }
    PowGrows(7, k);
    HighBit(x, k);
  }

  /** `next_weekday_diff_get`: the days until the first scheduled weekday, counting today as 0. */
  method NextWeekdayDiff(weekday: nat, schedule: nat) returns (d: nat)
    requires schedule < 128 && weekday < 7
    ensures d <= 7 && (forall k :: 0 <= k < d ==> !DueIn(weekday, schedule, k))
    ensures d < 7 ==> DueIn(weekday, schedule, d)
    ensures d == 7 <==> schedule == 0
  {
    hide And, Or, ShiftLeft, ShiftRight, BitAt, DueIn;
    var now := if weekday == 0 then 7 else weekday;
    var mask := And(ShiftRight(Or(schedule, ShiftLeft(schedule, 7)), now - 1), 0x7F);
    d := 0;
    while d < 7
      invariant d <= 7 && forall k :: 0 <= k < d ==> !DueIn(weekday, schedule, k)
    {
      MaskRead(schedule, weekday, d);
      if BitAt(mask, d) {
        break;
      }
      d := d + 1;
    }
    SomeDay(schedule, weekday, d);
  }

  lemma SomeDay(schedule: nat, weekday: nat, d: nat)
    requires schedule < 128 && weekday < 7 && d <= 7
    requires forall k :: 0 <= k < d ==> !DueIn(weekday, schedule, k)
    requires d < 7 ==> DueIn(weekday, schedule, d)
    ensures d == 7 <==> schedule == 0
  {
    if schedule == 0 {
      if d < 7 { ZeroBit(((weekday + d) % 7 + 6) % 7); }
    } else if d == 7 {
      forall k | 0 <= k < 7 ensures !BitAt(schedule, k) {
        NotOn(schedule, weekday, k);
      }
      assert Pow2(7) == 128 by { assert Pow2(3) == 8; }
      NoBits(schedule, 7);
    }
  }

  lemma NotOn(schedule: nat, weekday: nat, k: nat)
    requires weekday < 7 && k < 7 && forall j :: 0 <= j < 7 ==> !DueIn(weekday, schedule, j)
    ensures !BitAt(schedule, k)
  {
    hide BitAt;
    var j := (k + 8 - weekday) % 7;
    assert !DueIn(weekday, schedule, j);
    assert ((weekday + j) % 7 + 6) % 7 == k;
  }

  lemma {:induction false} NoBits(x: nat, n: nat)
    requires x < Pow2(n) && forall k :: 0 <= k < n ==> !BitAt(x, k)
    ensures x == 0
  {
    if n > 0 {
      assert !BitAt(x, 0);
      forall k | 0 <= k < n - 1 ensures !BitAt(x / 2, k) { assert !BitAt(x, k + 1); }
      NoBits(x / 2, n - 1);
    }
  }

  // ----- the clock -----

  function Weekday(t: nat): nat { (t / DAY + 4) % 7 }

  lemma Decompose(t: nat, d: nat, h: nat, m: nat, s: nat)
    requires t == DAY * d + HOUR * h + MINU * m + s && h < 24 && m < 60 && s < 60
    ensures t / DAY == d && t % DAY / HOUR == h && t % HOUR / MINU == m && t % MINU == s
  {
    MinuteIs(t, 60 * 24 * d + 60 * h + m, s);
    HourIs(t, 24 * d + h, MINU * m + s);
    DayIs(t, d, HOUR * h + MINU * m + s);
  }

  lemma DayIs(t: nat, q: nat, r: nat)
    requires t == DAY * q + r && r < DAY
    ensures t % DAY == r && t / DAY == q
  {
  }

  /** The carries of a one-second step. */
  lemma ClockStep(t: nat)
    ensures
      var h, m, s := t % DAY / HOUR, t % HOUR / MINU, t % MINU;
      var c0 := s == 59;
      var c1 := c0 && m == 59;
      var c2 := c1 && h == 23;
      && (t + 1) % MINU == (if c0 then 0 else s + 1)
      && (t + 1) % HOUR / MINU == (if c1 then 0 else if c0 then m + 1 else m)
      && (t + 1) % DAY / HOUR == (if c2 then 0 else if c1 then h + 1 else h)
      && (t + 1) / DAY == (if c2 then t / DAY + 1 else t / DAY)
  {
    Fields(t);
    var d, h, m, s := t / DAY, t % DAY / HOUR, t % HOUR / MINU, t % MINU;
    assert t == DAY * d + HOUR * h + MINU * m + s;
    if s < 59 {
      Decompose(t + 1, d, h, m, s + 1);
    } else if m < 59 {
      Decompose(t + 1, d, h, m + 1, 0);
    } else if h < 23 {
      Decompose(t + 1, d, h + 1, 0, 0);
    } else {
      Decompose(t + 1, d + 1, 0, 0, 0);
    }
  }

  /** What a running clock keeps of a date: the day may be 0. */
  predicate Loose(u: Utc) {
    1970 <= u.year && 0 <= u.month < 12 && 0 <= u.day <= MonthDays(u.year, u.month)
  }

  function Number(u: Utc): int
    requires Loose(u)
  {
    YearStart(u.year) + MonthStart(u.year, u.month) + u.day - 1
  }

  /** Months, counted from year 0. */
  function Months(u: Utc): int { 12 * u.year + u.month }

  /** The number of the first day of a month. */
  function FirstDay(m: int): int
    requires m >= 12 * 1970
  {
    YearStart(m / 12) + MonthStart(m / 12, m % 12)
  }

  /** Is a clock set in month `m` behind by `l` days, when it would be day `day` by a right clock?
      It has then just come through `l` months of one day too many each. */
  ghost predicate Behind(day: int, m: int, l: nat) {
    m >= 12 * 1970 && day - l < FirstDay(m + l + 1) && (l > 0 ==> FirstDay(m + l) <= day - l + 1)
  }

  lemma {:induction false} FirstDayMono(m: int, n: int)
    requires 12 * 1970 <= m < n
    ensures FirstDay(m) < FirstDay(n)
    decreases n
  {
    MonthTable((n - 1) / 12, (n - 1) % 12);
    if n > m + 1 {
      FirstDayMono(m, n - 1);
    }
    MonthStep(n - 1);
  }

  lemma MonthStep(m: int)
    requires m >= 12 * 1970
    ensures FirstDay(m + 1) == FirstDay(m) + MonthDays(m / 12, m % 12)
    ensures MonthDays(m / 12, m % 12) > 0
  {
    MonthTable(m / 12, m % 12);
    if m % 12 == 11 {
      assert (m + 1) / 12 == m / 12 + 1 && (m + 1) % 12 == 0;
      MonthTable(m / 12 + 1, 0);
    } else {
      assert (m + 1) / 12 == m / 12 && (m + 1) % 12 == m % 12 + 1;
    }
  }

  lemma MonthHolds(u: Utc)
    requires Loose(u)
    ensures
      var m := Months(u);
      m >= 12 * 1970 && FirstDay(m) - 1 <= Number(u) < FirstDay(m + 1) && (u.day >= 1 ==> FirstDay(m) <= Number(u))
  {
    hide MonthStart, YearStart;
    var m := Months(u);
    assert m / 12 == u.year && m % 12 == u.month;
    MonthStep(m);
  }

  /** The days behind are determined by the day and the month in which the clock was set. */
  lemma BehindUnique(day: int, m: int, l: nat, l': nat)
    requires Behind(day, m, l) && Behind(day, m, l')
    ensures l == l'
  {
    hide FirstDay;
    if l < l' {
      Later(day, m, l, l');
    } else if l' < l {
      Later(day, m, l', l);
    }
  }

  lemma Later(day: int, m: int, l: nat, l': nat)
    requires l < l' && Behind(day, m, l)
    ensures !Behind(day, m, l')
  {
    hide FirstDay;
    if l' > l + 1 {
      FirstDayMono(m + l + 1, m + l');
    }
  }

  lemma StillBehind(day: int, m: int, l: nat)
    requires m >= 12 * 1970 && FirstDay(m + l) - 1 <= day - l < FirstDay(m + l + 1)
    ensures Behind(day, m, l)
  {
  }

  /** Nothing is lost exactly while the true date is in the month of the start. */
  lemma InMonth(day: nat, u: Utc, l: nat)
    requires Behind(day, Months(u), l) && FirstDay(Months(u)) <= day
    ensures l == 0 <==> Months(DateOf(day)) == Months(u)
  {
    hide FirstDay, Months, DateOf, MonthStart, YearStart;
    var today, m := DateOf(day), Months(u);
    DateOfNumber(day);
    MonthHolds(today);
    var n := Months(today);
    if n < m && n + 1 < m {
      FirstDayMono(n + 1, m);
    } else if m < n && m + 1 < n {
      FirstDayMono(m + 1, n);
    }
    if l > 1 {
      FirstDayMono(m + 1, m + l);
    }
  }

  lemma MonthTable(year: int, month: int)
    requires 0 <= month < 12
    ensures
      var list := [31, if IsLeapYear(year) then 29 else 28, 31, 30, 31, 30, 31, 31, 30, 31, 30, 31];
      list[month] == MonthDays(year, month)
    ensures MonthStart(year, 0) == 0 && MonthStart(year, 12) == YearDays(year)
    ensures MonthStart(year, month + 1) == MonthStart(year, month) + MonthDays(year, month)
  {
  }

  class Clock {
    var local: Utc

    /** `month_update` */
    method MonthUpdate()
      modifies this
      ensures local == if old(local).month + 1 >= 12 then old(local).(month := 0, year := old(local).year + 1)
                       else old(local).(month := old(local).month + 1)
    {
      local := local.(month := local.month + 1);
      if local.month >= 12 {
        local := local.(month := 0);
        local := local.(year := local.year + 1);
      }
    }

    /** `days_update`: at the end of a month the day becomes 0, so the date falls behind by a day. */
    method DaysUpdate()
      requires Loose(local) && 0 <= local.weekday < 7
      modifies this
      ensures Loose(local) && local.weekday == (old(local).weekday + 1) % 7
      ensures
        var monthEnd := old(local).day == MonthDays(old(local).year, old(local).month);
        && Months(local) == Months(old(local)) + (if monthEnd then 1 else 0)
        && local.day == if monthEnd then 0 else old(local).day + 1
      ensures Number(local) == Number(old(local)) + if old(local).day == MonthDays(old(local).year, old(local).month) then 0 else 1
      ensures local.hour == old(local).hour && local.minutes == old(local).minutes && local.seconds == old(local).seconds
    {
      hide MonthStart, MonthDays, YearDays, IsLeapYear;
      MonthTable(local.year, local.month);
      local := local.(day := local.day + 1);
      var list := [31, 28, 31, 30, 31, 30, 31, 31, 30, 31, 30, 31];
      if IsLeapYear(local.year) {
        list := [31, 29, 31, 30, 31, 30, 31, 31, 30, 31, 30, 31];
      }
      if local.day > list[local.month] {
        local := local.(day := 0);
        MonthUpdate();
        MonthTable(local.year, local.month);
      }
      local := local.(weekday := (local.weekday + 1) % 7);
    }

    /** `seconds_update` and the updates it carries into, `time` being the local time before. */
    method SecondsUpdate(ghost time: nat)
      requires Loose(local) && ClockOk(local, time)
      modifies this
      ensures Loose(local) && ClockOk(local, time + 1)
      ensures
        var midnight, monthEnd := (time + 1) / DAY > time / DAY, old(local).day == MonthDays(old(local).year, old(local).month);
        && Number(local) == Number(old(local)) + (if midnight && !monthEnd then 1 else 0)
        && Months(local) == Months(old(local)) + (if midnight && monthEnd then 1 else 0)
        && ((midnight && monthEnd) || local.day >= old(local).day)
    {
      hide Loose, MonthDays, Number;
      ClockStep(time);
      local := local.(seconds := local.seconds + 1);
      Frame(old(local), local);
      if local.seconds == 60 {
        local := local.(seconds := 0);
        local := local.(minutes := local.minutes + 1);
        Frame(old(local), local);
        if local.minutes == 60 {
          local := local.(minutes := 0);
          local := local.(hour := local.hour + 1);
          Frame(old(local), local);
          if local.hour == 24 {
            local := local.(hour := 0);
            Frame(old(local), local);
            DaysUpdate();
          }
        }
      }
    }

    /** Only year, month and day matter for a date. */
    lemma Frame(u: Utc, v: Utc)
      requires Loose(u) && SameDay(u, v)
      ensures Loose(v) && Number(v) == Number(u)
    {
    }
  }

  // ----- periodic timers -----

  /** An armed timer: its schedule and the next instant it waits for. */
  datatype Timer = Timer(index: nat, schedule: nat, unixMatch: nat)

  /** What happened to a timer: first instant it was set for, when, and the instants it fired at. */
  datatype History = History(first: nat, armedAt: nat, log: seq<nat>)

  /** The instants a timer should fire at: the first one, and whole days after it on scheduled
      weekdays of local time. */
  ghost predicate Due(first: nat, schedule: nat, tz: int, t: nat) {
    t == first || (t > first && (t - first) % DAY == 0 && t + tz * HOUR >= 0 && OnSchedule(Weekday(t + tz * HOUR), schedule))
  }

  /** All due instants after `from` up to `to`, in order. */
  ghost function DueList(first: nat, schedule: nat, tz: int, from: nat, to: nat): seq<nat> {
    if to <= from then []
    else DueList(first, schedule, tz, from, to - 1) + if Due(first, schedule, tz, to) then [to] else []
  }

  lemma {:induction false} DueListHolds(first: nat, schedule: nat, tz: int, from: nat, to: nat, t: nat)
    ensures t in DueList(first, schedule, tz, from, to) <==> from < t <= to && Due(first, schedule, tz, t)
  {
    if to > from {
      DueListHolds(first, schedule, tz, from, to - 1, t);
    }
  }

  /** The timer fired at exactly the due instants so far and waits for the next one; a timer set
      for an instant not in the future never fires. */
  ghost predicate TimerOk(tm: Timer, h: History, tz: int, now: nat) {
    && 0 < tm.schedule < 128 && h.armedAt <= now
    && if h.first > h.armedAt then
         && h.log == DueList(h.first, tm.schedule, tz, h.armedAt, now)
         && NextDue(h.first, tm.schedule, tz, now, tm.unixMatch)
       else
         h.log == [] && tm.unixMatch == h.first
  }

  /** `m` is the first due instant after `now`. */
  ghost predicate NextDue(first: nat, schedule: nat, tz: int, now: nat, m: nat) {
    now < m && Due(first, schedule, tz, m) && forall t :: now < t < m ==> !Due(first, schedule, tz, t)
  }

  lemma DaysLater(t: nat, k: nat)
    ensures Weekday(t + k * DAY) == (Weekday(t) + k) % 7
  {
    DayIs(t + k * DAY, t / DAY + k, t % DAY);
    Mod7(t / DAY + 4, k);
  }

  lemma Mod7(x: nat, k: nat)
    ensures (x % 7 + k) % 7 == (x + k) % 7
  {
  }

  /** Re-arming with the distance to the next scheduled weekday finds the next due instant. */
  lemma Rearm(first: nat, schedule: nat, tz: int, m: nat, d: nat)
    requires Due(first, schedule, tz, m) && first <= m && m + tz * HOUR >= 0 && -12 <= tz <= 12
    requires
      var tomorrow := (Weekday(m + tz * HOUR) + 1) % 7;
      d < 7 && DueIn(tomorrow, schedule, d) && forall k :: 0 <= k < d ==> !DueIn(tomorrow, schedule, k)
    ensures NextDue(first, schedule, tz, m, m + (1 + d) * DAY)
  {
    hide OnSchedule, Weekday;
    var w := Weekday(m + tz * HOUR);
    DaysLater(m + tz * HOUR, 1 + d);
    Mod7(w + 1, d);
    DayMultiple(m - first, 1 + d);
    forall t | m < t < m + (1 + d) * DAY ensures !Due(first, schedule, tz, t) {
      if (t - first) % DAY == 0 {
        NotBetween(first, schedule, tz, m, d, t, (w + 1) % 7);
      }
    }
  }

  lemma NotBetween(first: nat, schedule: nat, tz: int, m: nat, d: nat, t: nat, tomorrow: nat)
    requires first <= m < t < m + (1 + d) * DAY && (m - first) % DAY == 0 && (t - first) % DAY == 0 && m + tz * HOUR >= 0
    requires tomorrow == (Weekday(m + tz * HOUR) + 1) % 7 && forall k :: 0 <= k < d ==> !DueIn(tomorrow, schedule, k)
    ensures t + tz * HOUR >= 0 && !OnSchedule(Weekday(t + tz * HOUR), schedule)
  {
    hide OnSchedule, Weekday;
    var w := Weekday(m + tz * HOUR);
    var k := WholeDays(t, m, first);
    DaysLater(m + tz * HOUR, k);
    Mod7(w + 1, k - 1);
    assert !DueIn(tomorrow, schedule, k - 1);
  }

  lemma DayMultiple(x: nat, k: nat)
    requires x % DAY == 0
    ensures (x + k * DAY) % DAY == 0
  {
    DayIs(x + k * DAY, x / DAY + k, 0);
  }

  lemma WholeDays(t: nat, m: nat, first: nat) returns (k: nat)
    requires first <= m < t && (t - first) % DAY == 0 && (m - first) % DAY == 0
    ensures k >= 1 && t == m + k * DAY
  {
    k := (t - first) / DAY - (m - first) / DAY;
  }

  datatype Status = Ok | ParamError | NoResource

  class TimeService {
    const clock: Clock
    const tz: int
    var unixTime: nat
    var timers: seq<Timer>
    ghost var history: seq<History>
    /** Days by which the local date is behind. */
    ghost var lag: nat

    ghost predicate Inv()
      reads this, clock
    {
      && ClockInv()
      && |history| == |timers| <= SLOTS
      && forall i :: 0 <= i < |timers| ==> TimerOk(timers[i], history[i], tz, unixTime)
    }

    /** Time of day and weekday are those of local time; the date is behind by `lag` days, and a date
        of the calendar when it is not behind. */
    ghost predicate ClockInv()
      reads this`unixTime, this`lag, clock
    {
      && -12 <= tz <= 12 && unixTime < WORD && 0 <= LocalTime()
      && Loose(clock.local) && ClockOk(clock.local, LocalTime())
      && Number(clock.local) + lag == LocalTime() / DAY
      && (lag == 0 ==> clock.local.day >= 1)
    }

    ghost function LocalTime(): int
      reads this`unixTime
    {
      unixTime + tz * HOUR
    }

    /** The true local day, counted from 1970-01-01. */
    ghost function Today(): int
      reads this`unixTime
    {
      LocalTime() / DAY
    }

    /** A synchronisation, `genie_time_local_time_update`, with nothing armed. */
    constructor (unixTime: nat, tz: int)
      requires -12 <= tz <= 12 && unixTime < WORD && 0 <= unixTime + tz * HOUR < WORD
      ensures Inv() && this.unixTime == unixTime && this.tz == tz && timers == [] && fresh(clock)
      ensures lag == 0 <==> (unixTime + tz * HOUR) / DAY < 48213
    {
      this.unixTime, this.tz, timers, history := unixTime, tz, [], [];
      clock := new Clock;
      lag := 0;
      new;
      hide MonthStart, YearStart, MonthDays;
      var u := UnixToUtc(unixTime + tz * HOUR);
      clock.local := u;
      DayNumberOf(u);
      Counted(unixTime + tz * HOUR);
      lag := LocalTime() / DAY - DayNumber(u);
    }

    /** `timer_update`, and the work item it submits. The date falls behind by one more day at each
        month's end. */
    method Tick() returns (fired: seq<nat>, ghost at: seq<nat>)
      requires Inv() && unixTime + 8 * DAY < WORD
      modifies this, clock
      ensures Inv() && unixTime == old(unixTime) + 1 && |timers| == old(|timers|)
      ensures Rings(old(timers), old(history), history, unixTime, fired, at)
      ensures lag == old(lag) + if MonthEnds(old(clock.local), old(LocalTime())) then 1 else 0
      ensures Months(clock.local) - lag == Months(old(clock.local)) - old(lag)
      ensures forall i :: 0 <= i < |timers| ==> SameTimer(old(timers)[i], old(history)[i], timers[i], history[i])
    {
      assert 0 <= LocalTime();
      hide TimerOk, SameTimer, MonthEnds, ClockInv, Rings;
      AdvanceClock();
      fired, at := DoWork();
    }

    method AdvanceClock()
      requires ClockInv() && unixTime + DAY < WORD
      modifies this`unixTime, this`lag, clock
      ensures ClockInv() && unixTime == old(unixTime) + 1
      ensures lag == old(lag) + if MonthEnds(old(clock.local), old(LocalTime())) then 1 else 0
      ensures Months(clock.local) - lag == Months(old(clock.local)) - old(lag)
    {
      hide Number, ClockOk, MonthDays;
      ghost var before := clock.local;
      DayStep(LocalTime());
      clock.SecondsUpdate(LocalTime());
      if MonthEnds(before, LocalTime()) {
        lag := lag + 1;
      }
      unixTime := unixTime + 1;
    }

    /** `genie_time_do_work`: timers whose instant has come fire, in list order, and are re-armed. `fired`
        are the indices called back, `at` the places of their timers in the list. */
    method DoWork() returns (fired: seq<nat>, ghost at: seq<nat>)
      requires ClockInv() && 0 < unixTime < WORD - 7 * DAY && |history| == |timers| <= SLOTS && unixTime - 1 + tz * HOUR >= 0
      requires forall i :: 0 <= i < |timers| ==> TimerOk(timers[i], history[i], tz, unixTime - 1)
      modifies this`timers, this`history
      ensures Inv() && |timers| == old(|timers|) && Rings(old(timers), old(history), history, unixTime, fired, at)
      ensures |fired| == |at| && forall k :: 0 <= k < |at| ==> at[k] < old(|timers|) && fired[k] == old(timers)[at[k]].index
      ensures forall i, j :: 0 <= i < j < |at| ==> at[i] < at[j]
      ensures forall i :: 0 <= i < old(|timers|) ==> (i in at <==> old(timers)[i].unixMatch == unixTime)
      ensures forall i :: 0 <= i < |timers| ==> SameTimer(old(timers)[i], old(history)[i], timers[i], history[i])
    {
      hide TimerOk, SameTimer, ClockInv, Rings;
      fired, at := [], [];
      ghost var t0, h0 := timers, history;
      for i := 0 to |timers|
        invariant ClockInv() && |history| == |timers| == |t0| && |fired| == |at|
        invariant forall k :: 0 <= k < |at| ==> at[k] < i && fired[k] == t0[at[k]].index
        invariant forall j, k :: 0 <= j < k < |at| ==> at[j] < at[k]
        invariant forall j :: 0 <= j < i ==> (j in at <==> t0[j].unixMatch == unixTime)
        invariant forall j :: 0 <= j < i ==> history[j].log == h0[j].log + if j in at then [unixTime] else []
        invariant forall j :: 0 <= j < i ==> TimerOk(timers[j], history[j], tz, unixTime)
        invariant forall j :: 0 <= j < i ==> SameTimer(t0[j], h0[j], timers[j], history[j])
        invariant forall j :: i <= j < |timers| ==> timers[j] == t0[j] && history[j] == h0[j]
      {
        var tm := timers[i];
        ghost var at0 := at;
        Parts(tm, history[i]);
        if tm.unixMatch == unixTime {
          fired, at := fired + [tm.index], at + [i];
          var d := NextWeekdayDiff((clock.local.weekday + 1) % 7, tm.schedule);
          Fire(tm, history[i], tz, unixTime, d);
          timers := timers[i := tm.(unixMatch := (tm.unixMatch + (1 + d) * DAY) % WORD)];
          history := history[i := history[i].(log := history[i].log + [unixTime])];
        } else {
          Quiet(tm, history[i], tz, unixTime);
        }
        assert forall j :: 0 <= j < i ==> (j in at <==> j in at0);
      }
      RingsNow(t0, h0, history, unixTime, fired, at);
    }

    lemma RingsNow(timers: seq<Timer>, h: seq<History>, h': seq<History>, now: nat, fired: seq<nat>, at: seq<nat>)
      requires |h| == |h'| == |timers| && |fired| == |at|
      requires forall k :: 0 <= k < |at| ==> at[k] < |timers| && fired[k] == timers[at[k]].index
      requires forall i :: 0 <= i < |h| ==> h'[i].log == h[i].log + if i in at then [now] else []
      ensures Rings(timers, h, h', now, fired, at)
    {
    }

    lemma Parts(tm: Timer, h: History)
      requires ClockInv() && unixTime > 0 && TimerOk(tm, h, tz, unixTime - 1)
      ensures 0 < tm.schedule < 128 && clock.local.weekday == Weekday(LocalTime()) && -12 <= tz <= 12 && 0 <= LocalTime()
    {
    }

    /** `genie_time_find`: the position of the timer with an index, if it is armed and the index is
        below the number of slots. */
    method Find(index: nat) returns (at: nat)
      ensures at <= |timers| && (at < |timers| ==> index < SLOTS && timers[at].index == index)
      ensures index < SLOTS ==> forall i :: 0 <= i < at ==> timers[i].index != index
    {
      if index >= SLOTS {
        return |timers|;
      }
      at := 0;
      while at < |timers| && timers[at].index != index
        invariant at <= |timers| && forall i :: 0 <= i < at ==> timers[i].index != index
      {
        at := at + 1;
      }
    }

    /** `genie_time_periodic_start`, for an offset in minutes of at most 12 bits and a 7-bit schedule.
        The timer is set for the offset into the first scheduled day from today on, as many days
        early as the local date is behind. An index from 40 on is never found again, so each start
        with one takes another slot. */
    method PeriodicStart(index: nat, periodicTime: nat, schedule: nat) returns (st: Status, ghost d: nat)
      requires Inv() && schedule < 128 && periodicTime <= 4095 * 60 && unixTime + 16 * DAY < WORD
      modifies this`timers, this`history
      ensures Inv()
      ensures
        var again := index < SLOTS && exists i :: 0 <= i < old(|timers|) && old(timers)[i].index == index;
        && st == (if schedule == 0 then ParamError else if !again && old(|timers|) == SLOTS then NoResource else Ok)
        && (st == Ok ==> |timers| == if again then old(|timers|) else old(|timers|) + 1)
      ensures st != Ok ==> timers == old(timers) && history == old(history)
      ensures st == Ok ==>
                && |timers| > 0 && timers[|timers| - 1].index == index && timers[|timers| - 1].schedule == schedule
                && history[|timers| - 1] == History(timers[|timers| - 1].unixMatch, unixTime, [])
                && (forall i :: 0 <= i < |timers| - 1 ==> timers[i] in old(timers))
                && (forall tm :: tm in old(timers) && (tm.index != index || index >= SLOTS) ==> tm in timers)
      ensures st == Ok ==>
                var today := clock.local.weekday;
                && 0 <= today < 7 && d < 7 && DueIn(today, schedule, d) && (forall k :: 0 <= k < d ==> !DueIn(today, schedule, k))
      ensures st == Ok && clock.local.year <= 2100 && LocalTime() / DAY - lag >= 1 ==>
                timers[|timers| - 1].unixMatch == (LocalTime() / DAY - lag + d) * DAY + periodicTime - tz * HOUR
    {
      hide TimerOk, DueIn, ClockInv, LocalTime;
      d := 0;
      if schedule == 0 {
        return ParamError, 0;
      }
      var at := Find(index);
      if at == |timers| {
        if |timers| == SLOTS {
          return NoResource, 0;
        }
      } else {
        Disarm(at);
      }
      var m, diff := FirstInstant(periodicTime, schedule);
      d := diff;
      NewTimer(Timer(index, schedule, m), tz, unixTime);
      timers := timers + [Timer(index, schedule, m)];
      history := history + [History(m, unixTime, [])];
      return Ok, diff;
    }

    method Disarm(at: nat)
      requires Inv() && at < |timers|
      modifies this`timers, this`history
      ensures Inv() && |timers| == old(|timers|) - 1
      ensures forall tm :: tm in timers ==> tm in old(timers)
      ensures forall tm :: tm in old(timers) && tm != old(timers)[at] ==> tm in timers
    {
      hide TimerOk, ClockInv;
      timers := timers[..at] + timers[at + 1..];
      history := history[..at] + history[at + 1..];
    }

    lemma TodayIs()
      requires ClockInv()
      ensures 0 <= clock.local.month < 12 && 0 <= clock.local.weekday < 7
    {
    }

    /** The instant a periodic timer is first set for. */
    method FirstInstant(periodicTime: nat, schedule: nat) returns (m: nat, diff: nat)
      requires ClockInv() && 0 < schedule < 128 && periodicTime <= 4095 * 60 && unixTime + 16 * DAY < WORD
      ensures
        var today := clock.local.weekday;
        && 0 <= today < 7 && diff < 7 && DueIn(today, schedule, diff) && forall k :: 0 <= k < diff ==> !DueIn(today, schedule, k)
      ensures clock.local.year <= 2100 && LocalTime() / DAY - lag >= 1 ==>
                m == (LocalTime() / DAY - lag + diff) * DAY + periodicTime - tz * HOUR
    {
      hide DueIn, Number, Loose, MonthStart, MonthDays, YearStart, UtcToUnix, ClockOk;
      TodayIs();
      var utc := clock.local.(hour := 0, minutes := 0, seconds := 0);
      diff := NextWeekdayDiff(clock.local.weekday, schedule);
      utc := utc.(day := utc.day + diff);
      m := (UtcToUnix(utc) + periodicTime - tz * HOUR) % WORD;
      if utc.year <= 2100 && LocalTime() / DAY - lag >= 1 {
        ghost var n := LocalTime() / DAY - lag + diff;
        DayBound(unixTime, tz);
        assert n * DAY + periodicTime + 12 * HOUR < WORD;
        MidnightLater(clock.local, diff);
        FirstMatch(n, periodicTime, tz);
      }
    }

    /** Ticking for any number of seconds. After a run from a right date, the date is right if and
        only if the true local date is still in the month of the start; and in any case the days
        lost are those of `Behind`, one for each month that the clock has begun. */
    method Run(seconds: nat) returns (called: seq<Callback>)
      requires Inv() && unixTime + seconds + 8 * DAY < WORD
      modifies this, clock
      ensures Inv() && unixTime == old(unixTime) + seconds && |timers| == old(|timers|)
      ensures forall i :: 0 <= i < |timers| ==> SameTimer(old(timers)[i], old(history)[i], timers[i], history[i])
      ensures |history| == |timers|
      ensures forall t: nat, x: nat :: Callback(t, x) in called <==>
                old(unixTime) < t <= unixTime &&
                (exists i :: 0 <= i < |timers| && timers[i].index == x &&
                               history[i].first > history[i].armedAt && Due(history[i].first, timers[i].schedule, tz, t))
      ensures lag - old(lag) == Months(clock.local) - Months(old(clock.local)) >= 0
      ensures Behind(Today() - old(lag), Months(old(clock.local)), lag - old(lag))
      ensures 0 <= Today() && (old(lag) == 0 ==>
                                 (SameDay(clock.local, DateOf(Today())) <==> Months(DateOf(Today())) == Months(old(clock.local))))
    {
      hide Inv, SameTimer, Months, Behind, DateOf, FirstDay, SameDay, LocalTime, Today, Logged, Rings, Due;
      ghost var t0, h0, u0, lag0, day0 := timers, history, clock.local, lag, Today();
      Standing();
      Sizes();
      forall i | 0 <= i < |timers| ensures SameTimer(t0[i], h0[i], timers[i], history[i]) { SameTimerRefl(t0[i], h0[i]); }
      called := [];
      NoneLogged();
      assert forall i :: 0 <= i < |history| ==> h0[i].armedAt <= old(unixTime);
      for k := 0 to seconds
        invariant Logged(called, timers, history, old(unixTime))
        invariant Inv() && unixTime == old(unixTime) + k && |timers| == |t0| == |h0| == |history|
        invariant forall i :: 0 <= i < |timers| ==> SameTimer(t0[i], h0[i], timers[i], history[i])
        invariant lag >= lag0 && Months(clock.local) - lag == Months(u0) - lag0 && day0 <= Today()
      {
        ghost var t1, h1 := timers, history;
        var fired, at := Second();
        Sizes();
        var now := unixTime;
        var more := seq(|fired|, j requires 0 <= j < |fired| => Callback(now, fired[j]));
        forall i | 0 <= i < |timers| ensures timers[i].index == t1[i].index { SameIndex(t1[i], h1[i], timers[i], history[i]); }
        LoggedMore(called, t1, timers, h1, history, old(unixTime), unixTime, fired, at, more);
        called := called + more;
        forall i | 0 <= i < |timers| ensures SameTimer(t0[i], h0[i], timers[i], history[i]) {
          SameTimerTrans(t0[i], h0[i], t1[i], h1[i], timers[i], history[i]);
        }
      }
      forall i | 0 <= i < |timers| ensures history[i].armedAt <= old(unixTime) { SameIndex(t0[i], h0[i], timers[i], history[i]); }
      CalledWhenDue(called, old(unixTime));
      Standing();
      RightIff();
      StillBehind(Today() - lag0, Months(u0), lag - lag0);
      if lag0 == 0 {
        InMonth(Today(), u0, lag);
      }
    }

    lemma NoneLogged()
      requires Inv()
      ensures Logged([], timers, history, unixTime) && forall i :: 0 <= i < |history| ==> history[i].armedAt <= unixTime
    {
      forall i, t {:trigger t in history[i].log} | 0 <= i < |timers| && t in history[i].log ensures t <= unixTime {
        FiredExactly(i, t);
      }
    }

    /** What is in the logs since is what was due since. */
    lemma CalledWhenDue(called: seq<Callback>, from: nat)
      requires Inv() && Logged(called, timers, history, from) && |timers| == |history|
      requires forall i :: 0 <= i < |timers| ==> history[i].armedAt <= from
      ensures forall t: nat, x: nat :: Callback(t, x) in called <==>
                from < t <= unixTime &&
                (exists i :: 0 <= i < |timers| && timers[i].index == x &&
                               history[i].first > history[i].armedAt && Due(history[i].first, timers[i].schedule, tz, t))
    {
      hide Inv, Due;
      forall t: nat, x: nat ensures Callback(t, x) in called <==>
                from < t <= unixTime &&
                (exists i :: 0 <= i < |timers| && timers[i].index == x &&
                               history[i].first > history[i].armedAt && Due(history[i].first, timers[i].schedule, tz, t))
      {
        forall i | 0 <= i < |timers| ensures t in history[i].log && t > from <==>
          from < t <= unixTime && history[i].first > history[i].armedAt && Due(history[i].first, timers[i].schedule, tz, t)
        {
          FiredExactly(i, t);
        }
        if Callback(t, x) in called {
          var i :| 0 <= i < |timers| && timers[i].index == x && t in history[i].log && t > from;
        }
      }
    }

    method Second() returns (fired: seq<nat>, ghost at: seq<nat>)
      requires Inv() && unixTime + 8 * DAY < WORD
      modifies this, clock
      ensures Inv() && unixTime == old(unixTime) + 1 && |timers| == old(|timers|) && Today() >= old(Today())
      ensures forall i :: 0 <= i < |timers| ==> SameTimer(old(timers)[i], old(history)[i], timers[i], history[i])
      ensures lag >= old(lag) && Months(clock.local) - lag == Months(old(clock.local)) - old(lag)
      ensures Rings(old(timers), old(history), history, unixTime, fired, at)
    {
      hide Inv, SameTimer, Months, Rings;
      Sizes();
      DayStep(LocalTime());
      fired, at := Tick();
    }

    /** The local date lies in its month, or on the day before it. */
    lemma Standing()
      requires Inv()
      ensures
        var m, day := Months(clock.local), Today();
        m >= 12 * 1970 && FirstDay(m) - 1 <= day - lag < FirstDay(m + 1) && (lag == 0 ==> FirstDay(m) <= day)
    {
      MonthHolds(clock.local);
    }

    lemma TodayAt()
      ensures tz == 0 ==> Today() == unixTime / DAY
    {
    }

    lemma MondayNoon()
      requires Inv() && tz == 0 && unixTime == 4 * DAY + 12 * HOUR && lag == 0
      ensures clock.local.weekday == 1 && DueIn(1, 1, 0) && clock.local.year <= 2100 && LocalTime() / DAY == 4
    {
      assert BitAt(1, 0);
    }

    /** One month after January 1970, one day behind on the first. */
    lemma ShowsDay()
      requires Inv() && lag == 1 && Today() == 31 && Months(clock.local) == 12 * 1970 + 1
      ensures clock.local.year == 1970 && clock.local.month == 1 && clock.local.day == 0
    {
    }

    /** The date is right exactly when it is not behind. */
    lemma RightIff()
      requires Inv()
      ensures 0 <= Today() && (SameDay(clock.local, DateOf(Today())) <==> lag == 0)
    {
      hide MonthStart, YearStart, DateOf;
      var day := Today();
      DateOfNumber(day);
      if lag == 0 {
        SameDate(clock.local, DateOf(day));
      }
    }

    lemma Sizes()
      requires Inv()
      ensures |history| == |timers| && 0 <= LocalTime()
    {
    }

    /** After any run, a timer has fired at exactly the due instants since it was armed, or never if
        it was not set for the future. */
    lemma FiredExactly(i: nat, t: nat)
      requires Inv() && i < |timers| && i < |history|
      ensures
        var h := history[i];
        t in h.log <==> h.first > h.armedAt && h.armedAt < t <= unixTime && Due(h.first, timers[i].schedule, tz, t)
    {
      var h := history[i];
      assert TimerOk(timers[i], h, tz, unixTime);
      DueListHolds(h.first, timers[i].schedule, tz, h.armedAt, unixTime, t);
    }
  }

  /** Set on 1970-01-31, the clock shows day 0 of February on the first of that month. */
  method DayZero() returns (s: TimeService)
    ensures s.Inv() && s.Today() == 31
    ensures s.clock.local.year == 1970 && s.clock.local.month == 1 && s.clock.local.day == 0
  {
    hide s.Inv, Months, Behind, DateOf, FirstDay, SameDay, s.LocalTime, s.Today;
    s := new TimeService(30 * DAY, 0);
    s.TodayAt();
    s.Standing();
    January(Months(s.clock.local), 30);
    var _ := s.Run(DAY);
    s.TodayAt();
    OneBehind();
    BehindUnique(31, 12 * 1970, s.lag, 1);
    s.ShowsDay();
  }

  /** The only month that a day of January 1970 belongs to. */
  lemma January(m: int, day: int)
    requires m >= 12 * 1970 && FirstDay(m) <= day < 31
    ensures m == 12 * 1970
  {
    hide FirstDay;
    OneBehind();
    if m > 12 * 1970 + 1 { FirstDayMono(12 * 1970 + 1, m); }
  }

  lemma OneBehind()
    ensures FirstDay(12 * 1970 + 1) == 31 && FirstDay(12 * 1970) == 0 && Behind(31, 12 * 1970, 1)
  {
    assert (12 * 1970 + 2) / 12 == 1970 && (12 * 1970 + 2) % 12 == 2;
  }

  lemma MidnightLater(u: Utc, d: nat)
    requires Loose(u) && u.year <= 2100 && 0 <= (Number(u) + d) * DAY < WORD
    ensures UtcToUnix(u.(hour := 0, minutes := 0, seconds := 0, day := u.day + d)) == (Number(u) + d) * DAY
  {
    hide MonthStart, MonthDays, YearStart, UtcToUnix;
    UtcToUnixIs(u.(hour := 0, minutes := 0, seconds := 0, day := u.day + d));
  }

  lemma DayBound(t: nat, tz: int)
    requires -12 <= tz <= 12 && 0 <= t + tz * HOUR && t + 16 * DAY < WORD
    ensures (t + tz * HOUR) / DAY * DAY <= t + 12 * HOUR
  {
  }

  lemma FirstMatch(days: nat, offset: nat, tz: int)
    requires 1 <= days && -12 <= tz <= 12 && days * DAY + offset + 12 * HOUR < WORD
    ensures 0 <= days * DAY < WORD && (days * DAY + offset - tz * HOUR) % WORD == days * DAY + offset - tz * HOUR
  {
  }

  lemma NewTimer(tm: Timer, tz: int, now: nat)
    requires 0 < tm.schedule < 128
    ensures TimerOk(tm, History(tm.unixMatch, now, []), tz, now)
  {
  }

  /** While the local date is right, a timer with an offset below one day is set for a scheduled
      weekday, and it is set for the future unless today is scheduled and the time has passed. */
  lemma SetForSchedule(local: nat, tz: int, schedule: nat, d: nat, offset: nat)
    requires -12 <= tz <= 12 && local - tz * HOUR >= 0 && offset < DAY && d < 7 && DueIn(Weekday(local), schedule, d)
    ensures
      var m := (local / DAY + d) * DAY + offset - tz * HOUR;
      && m + tz * HOUR >= 0 && OnSchedule(Weekday(m + tz * HOUR), schedule)
      && (m > local - tz * HOUR <==> d > 0 || offset > local % DAY)
  {
    hide OnSchedule;
    var t := (local / DAY + d) * DAY + offset;
    DayIs(t, local / DAY + d, offset);
    Mod7(local / DAY + 4, d);
    assert local == local / DAY * DAY + local % DAY;
  }

  /** At noon on Monday 1970-01-05 a timer for Mondays at six is started: it is set for six hours ago
      and, two weeks later, has not fired. */
  method MissedToday() returns (s: TimeService)
    ensures s.Inv() && s.unixTime == 18 * DAY + 12 * HOUR && |s.timers| == |s.history| == 1
    ensures s.timers[0].schedule == 1 && s.history[0].first == 4 * DAY + 6 * HOUR && s.history[0].log == []
  {
    hide s.Inv, DueIn, Months, Behind, DateOf, SameDay, s.Today, SameTimer;
    s := new TimeService(4 * DAY + 12 * HOUR, 0);
    s.MondayNoon();
    var st, d := s.PeriodicStart(0, 6 * HOUR, 1);
    assert st == Ok && d == 0;
    s.Sizes();
    ghost var tm, h := s.timers[0], s.history[0];
    var _ := s.Run(14 * DAY);
    s.Sizes();
    StillSame(tm, h, s.timers[0], s.history[0]);
    NeverFired(s);
  }

  lemma StillSame(tm: Timer, h: History, tm': Timer, h': History)
    requires SameTimer(tm, h, tm', h')
    ensures tm'.schedule == tm.schedule && h'.first == h.first && h'.armedAt == h.armedAt
  {
  }

  lemma NeverFired(s: TimeService)
    requires s.Inv() && |s.timers| == |s.history| == 1 && s.history[0].first <= s.history[0].armedAt
    ensures s.history[0].log == []
  {
    hide s.Inv;
    var log := s.history[0].log;
    if log != [] {
      assert log[0] in log;
      s.FiredExactly(0, log[0]);
    }
  }

  /** An index from 40 on takes a slot with every start. */
  method TwoSlots() returns (s: TimeService)
    ensures s.Inv() && |s.timers| == 2 && s.timers[0].index == s.timers[1].index == 40
  {
    hide s.Inv, DueIn;
    s := new TimeService(4 * DAY, 0);
    var _, _ := s.PeriodicStart(40, 0, 1);
    ghost var first := s.timers[0];
    var _, _ := s.PeriodicStart(40, 0, 1);
    assert first in s.timers;
  }

  /** Is the local date about to move past the end of its month? */
  predicate MonthEnds(u: Utc, t: nat)
  {
    (t + 1) / DAY > t / DAY && 0 <= u.month < 12 && u.day == MonthDays(u.year, u.month)
  }

  lemma DayStep(t: nat)
    ensures (t + 1) / DAY == t / DAY || (t + 1) / DAY == t / DAY + 1
  {
  }

  /** The callbacks of one second: one for each timer whose log grows by the instant. */
  ghost predicate Rings(timers: seq<Timer>, h: seq<History>, h': seq<History>, now: nat, fired: seq<nat>, at: seq<nat>) {
    && |h| == |h'| == |timers| && |fired| == |at|
    && (forall k :: 0 <= k < |at| ==> at[k] < |timers| && fired[k] == timers[at[k]].index)
    && forall i :: 0 <= i < |h| ==> h'[i].log == h[i].log + if i in at then [now] else []
  }

  /** A callback to index `x` at time `t`. */
  datatype Callback = Callback(t: nat, x: nat)

  /** Those made after `from` are those in the logs. */
  ghost predicate Logged(called: seq<Callback>, timers: seq<Timer>, h: seq<History>, from: nat) {
    && |h| == |timers|
    && (forall c :: c in called ==> exists i :: 0 <= i < |timers| && timers[i].index == c.x && c.t in h[i].log && c.t > from)
    && (forall i, t {:trigger t in h[i].log} :: 0 <= i < |timers| && t in h[i].log && t > from ==> Callback(t, timers[i].index) in called)
  }

  lemma LoggedMore(called: seq<Callback>, timers: seq<Timer>, timers': seq<Timer>, h: seq<History>, h': seq<History>, from: nat, now: nat,
                   fired: seq<nat>, at: seq<nat>, more: seq<Callback>)
    requires Logged(called, timers, h, from) && Rings(timers, h, h', now, fired, at) && now > from && |timers'| == |timers|
    requires forall i :: 0 <= i < |timers| ==> timers'[i].index == timers[i].index
    requires |more| == |fired| && forall k :: 0 <= k < |more| ==> more[k] == Callback(now, fired[k])
    ensures Logged(called + more, timers', h', from)
  {
    forall c | c in called + more
      ensures exists i :: 0 <= i < |timers'| && timers'[i].index == c.x && c.t in h'[i].log && c.t > from
    {
      if c in called {
        var i :| 0 <= i < |timers| && timers[i].index == c.x && c.t in h[i].log && c.t > from;
        assert c.t in h'[i].log;
      } else {
        var k :| 0 <= k < |more| && more[k] == c;
        assert at[k] in at && now in h'[at[k]].log;
      }
    }
    forall i, t {:trigger t in h'[i].log} | 0 <= i < |timers'| && t in h'[i].log && t > from
      ensures Callback(t, timers'[i].index) in called + more
    {
      if t !in h[i].log {
        var k :| 0 <= k < |at| && at[k] == i;
        assert more[k] == Callback(now, fired[k]);
      }
    }
  }

  /** The same timer later: set once, it has only fired since. */
  ghost predicate SameTimer(tm: Timer, h: History, tm': Timer, h': History) {
    tm'.index == tm.index && tm'.schedule == tm.schedule && h'.first == h.first && h'.armedAt == h.armedAt && h.log <= h'.log
  }

  lemma SameIndex(tm: Timer, h: History, tm': Timer, h': History)
    requires SameTimer(tm, h, tm', h')
    ensures tm'.index == tm.index && h'.armedAt == h.armedAt
  {
  }

  lemma SameTimerRefl(tm: Timer, h: History)
    ensures SameTimer(tm, h, tm, h)
  {
  }

  lemma SameTimerTrans(tm: Timer, h: History, tm': Timer, h': History, tm'': Timer, h'': History)
    requires SameTimer(tm, h, tm', h') && SameTimer(tm', h', tm'', h'')
    ensures SameTimer(tm, h, tm'', h'')
  {
  }

  lemma Quiet(tm: Timer, h: History, tz: int, now: nat)
    requires now > 0 && TimerOk(tm, h, tz, now - 1) && tm.unixMatch != now
    ensures TimerOk(tm, h, tz, now) && SameTimer(tm, h, tm, h)
  {
    hide Due;
  }

  lemma Fire(tm: Timer, h: History, tz: int, now: nat, d: nat)
    requires now > 0 && TimerOk(tm, h, tz, now - 1) && tm.unixMatch == now < WORD - 7 * DAY && -12 <= tz <= 12 && now + tz * HOUR >= 0
    requires
      var tomorrow := (Weekday(now + tz * HOUR) + 1) % 7;
      d < 7 && DueIn(tomorrow, tm.schedule, d) && forall k :: 0 <= k < d ==> !DueIn(tomorrow, tm.schedule, k)
    ensures
      var tm', h' := tm.(unixMatch := (now + (1 + d) * DAY) % WORD), h.(log := h.log + [now]);
      TimerOk(tm', h', tz, now) && SameTimer(tm, h, tm', h')
  {
    hide Due, DueIn, Weekday;
    NotBeforeFirst(h.first, tm.schedule, tz, now);
    Rearm(h.first, tm.schedule, tz, now, d);
    NoWrap(now, d);
  }

  lemma NotBeforeFirst(first: nat, schedule: nat, tz: int, t: nat)
    ensures Due(first, schedule, tz, t) ==> first <= t
  {
  }

  lemma NoWrap(now: nat, d: nat)
    requires d < 7 && now + 7 * DAY < WORD
    ensures (now + (1 + d) * DAY) % WORD == now + (1 + d) * DAY
  {
  }
}
