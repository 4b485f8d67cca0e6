/**
 The builder's calendar (crates/omp-builder/src/jobs.rs:226-250): from days since
 1970-01-01 to a date of the proleptic Gregorian calendar (section 5.7 and
 Appendix C of RFC 3339).
 */
module Calendar {

  datatype Date = Date(year: int, month: int, day: int)

  // ---- The calendar itself ----

  predicate Leap(y: int) {
    y % 4 == 0 && (y % 100 != 0 || y % 400 == 0)
  }

  function MonthLength(y: int, m: int): int {
    if m == 2 then (if Leap(y) then 29 else 28)
    else if m == 4 || m == 6 || m == 9 || m == 11 then 30
    else 31
  }

  predicate Valid(d: Date) {
    1 <= d.month <= 12 && 1 <= d.day <= MonthLength(d.year, d.month)
  }

  function Tomorrow(d: Date): Date {
    if d.day < MonthLength(d.year, d.month) then d.(day := d.day + 1)
    else if d.month < 12 then Date(d.year, d.month + 1, 1)
    else Date(d.year + 1, 1, 1)
  }

  // ---- The algorithm, over unbounded integers ----

  const SHIFT := 719_468
  const ERA := 146_097

  function YearOfEra(doe: int): int {
    (doe - doe / 1460 + doe / 36524 - doe / 146_096) / 365
  }

  /** The days of an era before its year `k`; years begin in March. */
  function YearStart(k: int): int {
    365 * k + k / 4 - k / 100
  }

  /** The days of a year before its month `mp`; month 0 is March. */
  function MonthStart(mp: int): int {
    (153 * mp + 2) / 5
  }

  function FromMarch(y: int, doy: int): Date {
    var mp := (5 * doy + 2) / 153;
    var m := if mp < 10 then mp + 3 else mp - 9;
    Date(if m <= 2 then y + 1 else y, m, doy - MonthStart(mp) + 1)
  }

  function FromDays(days: int): Date {
    FromEra((days + SHIFT) / ERA, (days + SHIFT) % ERA)
  }

  function FromEra(era: int, doe: int): Date {
    var yoe := YearOfEra(doe);
    FromMarch(yoe + era * 400, doe - YearStart(yoe))
  }

  // ---- Years of an era ----

  /** Centuries, groups of four years and single years within an era. */
  datatype Parts = Parts(c: int, q: int, a: int, doy: int)

  predicate GoodParts(p: Parts) {
    0 <= p.c <= 3 && 0 <= p.q <= 24 && 0 <= p.a <= 3 && 0 <= p.doy <= 365 && (p.doy == 365 ==> LongYear(p))
  }

  /** The year whose last day is 29 February. */
  predicate LongYear(p: Parts) {
    p.a == 3 && (p.q < 24 || p.c == 3)
  }

  function YearIndex(p: Parts): int {
    100 * p.c + 4 * p.q + p.a
  }

  function DayOfEra(p: Parts): int {
    36524 * p.c + 1461 * p.q + 365 * p.a + p.doy
  }

  function Split(doe: int): (p: Parts)
    requires 0 <= doe < ERA
    ensures GoodParts(p) && DayOfEra(p) == doe
  {
    var c := if doe == 146_096 then 3 else doe / 36524;
    var r := doe - 36524 * c;
    var q := if r == 36524 then 24 else r / 1461;
    var t := r - 1461 * q;
    var a := if t == 1460 then 3 else t / 365;
    Parts(c, q, a, t - 365 * a)
  }

  lemma YearStartParts(p: Parts)
    requires GoodParts(p)
    ensures YearStart(YearIndex(p)) == 36524 * p.c + 1461 * p.q + 365 * p.a
  {
    var k := YearIndex(p);
    assert k / 4 == 25 * p.c + p.q;
    assert k / 100 == p.c;
  }

  /** The corrections of the formula count the leap days exactly. */
  lemma YearOfEraParts(p: Parts)
    requires GoodParts(p)
    ensures YearOfEra(DayOfEra(p)) == YearIndex(p)
  {
    var doe := DayOfEra(p);
    var t := 365 * p.a + p.doy;
    var e := if 24 * p.c + p.q + t >= 1460 then 1 else 0;
    assert doe == 1460 * (25 * p.c + p.q) + 24 * p.c + p.q + t;
    assert 24 * p.c + p.q + t < 2920;
    assert doe / 1460 == 25 * p.c + p.q + e;
    var last := if doe == 146_096 then 1 else 0;
    assert doe <= 146_096;
    assert doe / 146_096 == last;
    assert doe / 36524 == p.c + last;
    var n := doe - doe / 1460 + doe / 36524 - doe / 146_096;
    assert n == 365 * YearIndex(p) + p.doy - e;
    assert 0 <= p.doy - e < 365;
  }

  /** Day of era and year of era fit together, and no step goes below zero. */
  lemma EraYear(doe: int)
    requires 0 <= doe < ERA
    ensures var yoe := YearOfEra(doe);
            && YearIndex(Split(doe)) == yoe
            && 0 <= yoe < 400
            && doe - YearStart(yoe) == Split(doe).doy
            && 0 <= doe - YearStart(yoe) <= 365
  {
    YearOfEraParts(Split(doe));
    YearStartParts(Split(doe));
  }

  lemma LeapShift(era: int, k: int)
    ensures Leap(400 * era + k) <==> Leap(k)
  {
    var y := 400 * era + k;
    assert y / 4 == 100 * era + k / 4;
    assert y / 100 == 4 * era + k / 100;
    assert y / 400 == era + k / 400;
  }

  /** The long years are those whose February belongs to a leap year. */
  lemma LongIsLeap(era: int, p: Parts)
    requires GoodParts(p)
    ensures LongYear(p) <==> Leap(400 * era + YearIndex(p) + 1)
  {
    var k := YearIndex(p) + 1;
    LeapShift(era, k);
    assert k / 4 == if p.a == 3 then 25 * p.c + p.q + 1 else 25 * p.c + p.q;
    assert k / 100 == if p.q == 24 && p.a == 3 then p.c + 1 else p.c;
  }

  // ---- Months ----

  lemma MonthOfDay(doy: int)
    requires 0 <= doy <= 365
    ensures var mp := (5 * doy + 2) / 153;
            0 <= mp <= 11 && MonthStart(mp) <= doy && (mp < 11 ==> doy < MonthStart(mp + 1))
  {
  }

  lemma MonthSize(mp: int, y: int)
    requires 0 <= mp < 11
    ensures var m := if mp < 10 then mp + 3 else mp - 9;
            m != 2 && MonthStart(mp + 1) - MonthStart(mp) == MonthLength(y, m)
  {
    if mp < 4 {
      assert mp == 0 || mp == 1 || mp == 2 || mp == 3;
    } else if mp < 8 {
      assert mp == 4 || mp == 5 || mp == 6 || mp == 7;
    } else {
      assert mp == 8 || mp == 9 || mp == 10;
    }
  }

  lemma FromMarchValid(y: int, doy: int)
    requires 0 <= doy <= 365 && (doy == 365 ==> Leap(y + 1))
    ensures Valid(FromMarch(y, doy))
  {
    var mp := (5 * doy + 2) / 153;
    MonthOfDay(doy);
    if mp < 11 {
      MonthSize(mp, y);
      MonthSize(mp, y + 1);
    } else {
      assert MonthStart(11) == 337;
    }
  }

  /** Every day count gives a valid date. */
  lemma FromDaysValid(days: int)
    ensures Valid(FromDays(days))
  {
    FromEraValid((days + SHIFT) / ERA, (days + SHIFT) % ERA);
  }

  lemma LastDay(era: int, doe: int)
    requires 0 <= doe < ERA && doe - YearStart(YearOfEra(doe)) == 365
    ensures Leap(YearOfEra(doe) + era * 400 + 1)
  {
    EraYear(doe);
    LongLast(era, Split(doe), YearOfEra(doe));
  }

  lemma LongLast(era: int, p: Parts, yoe: int)
    requires GoodParts(p) && p.doy == 365 && yoe == YearIndex(p)
    ensures Leap(yoe + era * 400 + 1)
  {
    LongIsLeap(era, p);
  }

  lemma FromEraValid(era: int, doe: int)
    requires 0 <= doe < ERA
    ensures Valid(FromEra(era, doe))
  {
    EraYear(doe);
    if doe - YearStart(YearOfEra(doe)) == 365 {
      LastDay(era, doe);
    }
    FromMarchValid(YearOfEra(doe) + era * 400, doe - YearStart(YearOfEra(doe)));
  }

  // ---- The inverse ----

  /** The shifted day number of 1 March of year `y`. */
  function March(y: int): int {
    365 * y + y / 4 - y / 100 + y / 400
  }

  function MarchMonth(m: int): int {
    if m >= 3 then m - 3 else m + 9
  }

  function MarchYear(d: Date): int {
    if d.month <= 2 then d.year - 1 else d.year
  }

  /** The number of days from 1970-01-01 to a date. */
  function ToDays(d: Date): int {
    March(MarchYear(d)) + MonthStart(MarchMonth(d.month)) + d.day - 1 - SHIFT
  }

  lemma MarchOfEra(era: int, k: int)
    requires 0 <= k < 400
    ensures March(era * 400 + k) == era * ERA + YearStart(k)
  {
    var y := era * 400 + k;
    assert y / 400 == era;
    assert y / 100 == 4 * era + k / 100;
    assert y / 4 == 100 * era + k / 4;
  }

  lemma FromMarchInverse(y: int, doy: int)
    requires 0 <= doy <= 365
    ensures MarchYear(FromMarch(y, doy)) == y
    ensures MonthStart(MarchMonth(FromMarch(y, doy).month)) + FromMarch(y, doy).day - 1 == doy
  {
    MonthOfDay(doy);
  }

  lemma EraInverse(era: int, doe: int)
    requires 0 <= doe < ERA
    ensures ToDays(FromEra(era, doe)) == era * ERA + doe - SHIFT
  {
    EraYearBounds(doe);
    YearAndDayInverse(era, YearOfEra(doe), doe - YearStart(YearOfEra(doe)));
  }

  lemma EraYearBounds(doe: int)
    requires 0 <= doe < ERA
    ensures 0 <= YearOfEra(doe) < 400 && 0 <= doe - YearStart(YearOfEra(doe)) <= 365
  {
    EraYear(doe);
  }

  lemma YearAndDayInverse(era: int, yoe: int, doy: int)
    requires 0 <= yoe < 400 && 0 <= doy <= 365
    ensures ToDays(FromMarch(yoe + era * 400, doy)) == era * ERA + YearStart(yoe) + doy - SHIFT
  {
    FromMarchInverse(yoe + era * 400, doy);
    MarchOfEra(era, yoe);
  }

  /** The date of a day count is the one with that day number. */
  lemma ToDaysFromDays(days: int)
    ensures ToDays(FromDays(days)) == days
  {
    EraInverse((days + SHIFT) / ERA, (days + SHIFT) % ERA);
  }

  lemma MarchStep(y: int)
    ensures March(y + 1) - March(y) == if Leap(y + 1) then 366 else 365
  {
    DivStep4(y);
    DivStep100(y);
    DivStep400(y);
    LeapParts(y + 1);
  }

  lemma DivStep4(y: int)
    ensures (y + 1) / 4 - y / 4 == if (y + 1) % 4 == 0 then 1 else 0
  {
  }

  lemma DivStep100(y: int)
    ensures (y + 1) / 100 - y / 100 == if (y + 1) % 100 == 0 then 1 else 0
  {
  }

  lemma DivStep400(y: int)
    ensures (y + 1) / 400 - y / 400 == if (y + 1) % 400 == 0 then 1 else 0
  {
  }

  lemma LeapParts(y: int)
    ensures y % 400 == 0 ==> y % 100 == 0
    ensures y % 100 == 0 ==> y % 4 == 0
  {
    Hundreds(y / 400 * 4);
    Fours(y / 100 * 25);
  }

  lemma Hundreds(q: int)
    ensures 100 * q % 100 == 0
  {
  }

  lemma Fours(q: int)
    ensures 4 * q % 4 == 0
  {
  }

  /** Day numbers go up by one from each valid date to the next. */
  lemma TomorrowCounts(d: Date)
    requires Valid(d)
    ensures Valid(Tomorrow(d)) && ToDays(Tomorrow(d)) == ToDays(d) + 1
  {
    if d.day == MonthLength(d.year, d.month) {
      if d.month == 2 {
        MarchStep(d.year - 1);
        assert MonthStart(11) == 337 && MonthStart(0) == 0;
      } else {
        MonthSize(MarchMonth(d.month), d.year);
      }
    }
  }

  lemma {:induction false} MarchGrows(y: int, z: int)
    requires y < z
    ensures March(y + 1) <= March(z)
    decreases z - y
  {
    if y + 1 < z {
      MarchStep(z - 1);
      MarchGrows(y, z - 1);
    }
  }

  lemma {:induction false} MonthGrows(a: int, b: int)
    requires 0 <= a < b <= 11
    ensures MonthStart(a + 1) <= MonthStart(b)
    decreases b - a
  {
    if a + 1 < b {
      MonthGrows(a, b - 1);
    }
  }

  function DayOfYear(d: Date): int {
    MonthStart(MarchMonth(d.month)) + d.day - 1
  }

  lemma DayInMonth(d: Date)
    requires Valid(d)
    ensures var mp := MarchMonth(d.month);
            0 <= mp <= 11 && MonthStart(mp) <= DayOfYear(d) && (mp < 11 ==> DayOfYear(d) < MonthStart(mp + 1))
  {
    if MarchMonth(d.month) < 11 {
      MonthSize(MarchMonth(d.month), d.year);
    }
  }

  lemma DayInYear(d: Date)
    requires Valid(d)
    ensures 0 <= DayOfYear(d) && March(MarchYear(d)) + DayOfYear(d) < March(MarchYear(d) + 1)
  {
    DayInMonth(d);
    MarchStep(MarchYear(d));
    if MarchMonth(d.month) < 11 {
      MonthGrows(MarchMonth(d.month), 11);
      assert MonthStart(11) == 337;
    } else {
      assert MonthStart(11) == 337;
    }
    if MarchMonth(d.month) > 0 {
      MonthGrows(0, MarchMonth(d.month));
    }
  }

  /** No two valid dates have the same day number. */
  lemma ToDaysInjective(d: Date, e: Date)
    requires Valid(d) && Valid(e) && ToDays(d) == ToDays(e)
    ensures d == e
  {
    YearsAgree(d, e);
    SameDayOfYear(d, e);
  }

  /** A date of a later year has a later day number. */
  lemma EarlierYear(d: Date, e: Date)
    requires Valid(d) && Valid(e) && MarchYear(d) < MarchYear(e)
    ensures ToDays(d) < ToDays(e)
  {
    DayInYear(d);
    MarchGrows(MarchYear(d), MarchYear(e));
    DayInYear(e);
  }

  lemma YearsAgree(d: Date, e: Date)
    requires Valid(d) && Valid(e) && ToDays(d) == ToDays(e)
    ensures MarchYear(d) == MarchYear(e) && DayOfYear(d) == DayOfYear(e)
  {
    if MarchYear(d) < MarchYear(e) {
      EarlierYear(d, e);
    } else if MarchYear(e) < MarchYear(d) {
      EarlierYear(e, d);
    }
  }

  lemma SameDayOfYear(d: Date, e: Date)
    requires Valid(d) && Valid(e) && DayOfYear(d) == DayOfYear(e)
    ensures d.month == e.month && d.day == e.day
  {
    DayInMonth(d);
    DayInMonth(e);
    var a, b := MarchMonth(d.month), MarchMonth(e.month);
    if a < b {
      MonthGrows(a, b);
      assert false;
    } else if b < a {
      MonthGrows(b, a);
      assert false;
    }
  }

  /** Day counts and valid dates correspond one to one. */
  lemma FromDaysToDays(d: Date)
    requires Valid(d)
    ensures FromDays(ToDays(d)) == d
  {
    FromDaysValid(ToDays(d));
    ToDaysFromDays(ToDays(d));
    ToDaysInjective(FromDays(ToDays(d)), d);
  }

  /** Day 0 is 1 January 1970, and each day is followed by the next date of the calendar. */
  lemma DayByDay(days: int)
    ensures FromDays(0) == Date(1970, 1, 1)
    ensures FromDays(days + 1) == Tomorrow(FromDays(days))
  {
    FirstDay();
    FromDaysValid(days);
    ToDaysFromDays(days);
    NextDay(FromDays(days), days);
  }

  lemma FirstDay()
    ensures FromDays(0) == Date(1970, 1, 1)
  {
    var epoch := Date(1970, 1, 1);
    assert ToDays(epoch) == 0;
    FromDaysToDays(epoch);
  }

  lemma NextDay(d: Date, days: int)
    requires Valid(d) && ToDays(d) == days
    ensures FromDays(days + 1) == Tomorrow(d)
  {
    TomorrowCounts(d);
    FromDaysToDays(Tomorrow(d));
  }

  // ---- The algorithm, in machine integers ----

  newtype u32 = x: int | 0 <= x < 0x1_0000_0000
  newtype i32 = x: int | -0x8000_0000 <= x < 0x8000_0000
  newtype i64 = x: int | -0x8000_0000_0000_0000 <= x < 0x8000_0000_0000_0000

  const FIRST_DAY := -5_368_709 * 146_097 - 719_468

  /**
   The day counts on which no machine operation overflows: the year fits 32 bits
   and so does the first year of its era, which the source computes on the way.
   */
  predicate Representable(days: int) {
    FIRST_DAY <= days && FromDays(days).year < 0x8000_0000
  }

  /** The bound is tight: one day earlier the year still fits 32 bits, but the first year of its era does not. */
  lemma RepresentableTight(days: int)
    ensures Representable(days) <==> -0x8000_0000 <= (days + SHIFT) / ERA * 400 && FromDays(days).year < 0x8000_0000
    ensures FromDays(FIRST_DAY - 1) == Date(-2_147_483_600, 2, 29)
  {
    var era := (days + SHIFT) / ERA;
    assert -5_368_709 <= era <==> -5_368_709 * ERA <= days + SHIFT;
    var last := FIRST_DAY - 1 + SHIFT;
    assert last / ERA == -5_368_710 && last % ERA == 146_096;
    assert YearOfEra(146_096) == 399 && YearStart(399) == 145_731;
    assert FromMarch(-5_368_710 * 400 + 399, 365) == Date(-2_147_483_600, 2, 29);
  }

  lemma RepresentableEra(days: int)
    requires Representable(days)
    ensures -5_368_709 <= (days + SHIFT) / ERA <= 5_368_709
  {
    var n := days + SHIFT;
    EraYear(n % ERA);
  }

  lemma RepresentableYear(days: int)
    requires Representable(days)
    ensures var n := days + SHIFT;
            -0x8000_0000 <= YearOfEra(n % ERA) + n / ERA * 400 <= FromDays(days).year < 0x8000_0000
  {
    RepresentableEra(days);
    EraYear((days + SHIFT) % ERA);
  }

  /** `days_since_epoch_to_ymd`: every machine operation stays within its type. */
  method DaysSinceEpochToYmd(days: i64) returns (y: i32, m: u32, d: u32)
    requires Representable(days as int)
    ensures Date(y as int, m as int, d as int) == FromDays(days as int)
  {
    RepresentableEra(days as int);
    RepresentableYear(days as int);
    var n := days + 719_468;
    var era, doe := n / 146_097, (n % 146_097) as u32;
    assert era as int == (days as int + SHIFT) / ERA && doe as int == (days as int + SHIFT) % ERA;
    var yoe, doy := YearAndDay(doe);
    y := yoe as i32 + era as i32 * 400;
    m, d := MonthAndDay(doy, y as int);
    y := if m <= 2 then y + 1 else y;
  }

  method YearAndDay(doe: u32) returns (yoe: u32, doy: u32)
    requires doe as int < ERA
    ensures yoe as int == YearOfEra(doe as int) && doy as int == doe as int - YearStart(yoe as int)
    ensures yoe < 400 && doy <= 365
  {
    EraYear(doe as int);
    yoe := (doe - doe / 1460 + doe / 36524 - doe / 146_096) / 365;
    doy := doe - (365 * yoe + yoe / 4 - yoe / 100);
  }

  method MonthAndDay(doy: u32, ghost y: int) returns (m: u32, d: u32)
    requires doy <= 365
    ensures FromMarch(y, doy as int) == Date(if m <= 2 then y + 1 else y, m as int, d as int)
  {
    MonthOfDay(doy as int);
    var mp := (5 * doy + 2) / 153;
    d := doy - (153 * mp + 2) / 5 + 1;
    m := if mp < 10 then mp + 3 else mp - 9;
  }

  // ---- Time of day ----

  datatype Clock = Clock(hour: int, minute: int, second: int)

  /** The fields of `chrono_secs_to_iso`. */
  datatype Time = Time(date: Date, clock: Clock)

  function FromSecondOfDay(rest: int): Clock {
    Clock(rest / 3600, rest % 3600 / 60, rest % 60)
  }

  function SecondOfDay(c: Clock): int {
    3600 * c.hour + 60 * c.minute + c.second
  }

  predicate ValidClock(c: Clock) {
    0 <= c.hour < 24 && 0 <= c.minute < 60 && 0 <= c.second < 60
  }

  function FromSeconds(secs: int): Time {
    Time(FromDays(secs / 86_400), FromSecondOfDay(secs % 86_400))
  }

  function ToSeconds(t: Time): int {
    86_400 * ToDays(t.date) + SecondOfDay(t.clock)
  }

  predicate ValidTime(t: Time) {
    Valid(t.date) && ValidClock(t.clock)
  }

  lemma ClockRead(rest: int)
    requires 0 <= rest < 86_400
    ensures ValidClock(FromSecondOfDay(rest)) && SecondOfDay(FromSecondOfDay(rest)) == rest
  {
    var h := rest / 3600;
    var r := rest % 3600;
    assert rest == 60 * (60 * h) + r;
    assert rest % 60 == r % 60;
  }

  lemma ClockShown(c: Clock)
    requires ValidClock(c)
    ensures 0 <= SecondOfDay(c) < 86_400 && FromSecondOfDay(SecondOfDay(c)) == c
  {
    var rest := SecondOfDay(c);
    assert rest / 3600 == c.hour;
    assert rest % 3600 == 60 * c.minute + c.second;
    assert rest / 60 == 60 * c.hour + c.minute;
  }

  /** The fields printed for a second are a valid time, and no two seconds print the same. */
  lemma SecondsRoundTrip(secs: int)
    ensures ValidTime(FromSeconds(secs)) && ToSeconds(FromSeconds(secs)) == secs
  {
    FromDaysValid(secs / 86_400);
    ToDaysFromDays(secs / 86_400);
    ClockRead(secs % 86_400);
    var date, rest := FromDays(secs / 86_400), secs % 86_400;
    assert secs == 86_400 * (secs / 86_400) + rest;
  }

  lemma FromSecondsAt(secs: int, days: int, rest: int, t: Time)
    requires 0 <= rest < 86_400 && secs == 86_400 * days + rest
    requires FromDays(days) == t.date && FromSecondOfDay(rest) == t.clock
    ensures FromSeconds(secs) == t
  {
    assert secs / 86_400 == days && secs % 86_400 == rest;
  }

  /** Every valid time is the time of its second. */
  lemma TimesRoundTrip(t: Time)
    requires ValidTime(t)
    ensures FromSeconds(ToSeconds(t)) == t
  {
    var days, rest := ToDays(t.date), SecondOfDay(t.clock);
    ClockShown(t.clock);
    FromDaysToDays(t.date);
    FromSecondsAt(ToSeconds(t), days, rest, t);
  }
}
