/**
 * Calendar arithmetic on integer time.
 *
 * An instant is a number of seconds of Korean Standard Time wall-clock time since
 * 1970-01-01 00:00 (the browser converts every date through a KST locale string, which
 * keeps whole seconds only). A date is a day number: day 0 is Thursday 1970-01-01.
 */
module Calendar {
  import opened Wrappers

  const MinuteSecs: int := 60
  const HourSecs: int := 3600
  const DaySecs: int := 86400

  /** A calendar date as the 'YYYY-MM-DD' key identifies it: month 1..12, day of month 1..31. */
  datatype Ymd = Ymd(year: int, month: int, day: int)

  /** The day number of the date on which instant `t` falls. */
  function DayOf(t: int): (d: int)
    ensures d * DaySecs <= t < (d + 1) * DaySecs
  {
    t / DaySecs
  }

  /** The day of the week as JavaScript's getDay numbers it: 0 is Sunday, 6 is Saturday. */
  function Weekday(day: int): (w: int)
    ensures 0 <= w < 7
  {
    (day + 4) % 7
  }

  /** Saturday or Sunday: day 2 (1970-01-03) was a Saturday, so every day 2 or 3 modulo 7. */
  predicate IsWeekend(day: int): (b: bool)
    ensures b <==> day % 7 == 2 || day % 7 == 3
  {
    var w := Weekday(day);
    w == 0 || w == 6
  }

  /** The instant at `h` o'clock on `day`. */
  function SetHour(day: int, h: int): (t: int)
    ensures 0 <= h < 24 ==> DayOf(t) == day
  {
    day * DaySecs + h * HourSecs
  }

  /**
   * The civil (proleptic Gregorian) date of a day number, after H. Hinnant's
   * days-to-civil algorithm; Dafny's division on int is floor division for a
   * positive divisor, so no sign correction is needed.
   */
  function CivilFromDays(dayNumber: int): (c: Ymd)
    ensures 1 <= c.month <= 12
    ensures 1 <= c.day <= 31
  {
    var z := dayNumber + 719468;
    var era := z / 146097;
    var doe := z - era * 146097;
    var yoe := (doe - doe / 1460 + doe / 36524 - doe / 146096) / 365;
    var doy := doe - (365 * yoe + yoe / 4 - yoe / 100);
    DoyBounds(doe, yoe, doy);
    var mp := (5 * doy + 2) / 153;
    MonthDayBounds(doy, mp);
    var d := doy - (153 * mp + 2) / 5 + 1;
    var m := if mp < 10 then mp + 3 else mp - 9;
    Ymd(yoe + era * 400 + (if m <= 2 then 1 else 0), m, d)
  }

  lemma DoyBounds(doe: int, yoe: int, doy: int)
    requires 0 <= doe < 146097
    requires yoe == (doe - doe / 1460 + doe / 36524 - doe / 146096) / 365
    requires doy == doe - (365 * yoe + yoe / 4 - yoe / 100)
    ensures 0 <= doy <= 365
    ensures 0 <= yoe < 400
  {
    var a, b, c := doe / 1460, doe / 36524, doe / 146096;
    assert 0 <= c <= b <= a;
    var n := doe - a + b - c;
    assert yoe == n / 365;
    assert 365 * yoe <= n < 365 * yoe + 365;
    LeapCorrection(doe, yoe, a, b, c, n);
  }

  lemma LeapCorrection(doe: int, yoe: int, a: int, b: int, c: int, n: int)
    requires 0 <= doe < 146097
    requires a == doe / 1460 && b == doe / 36524 && c == doe / 146096
    requires n == doe - a + b - c
    requires 365 * yoe <= n < 365 * yoe + 365
    ensures 0 <= doe - (365 * yoe + yoe / 4 - yoe / 100) <= 365
    ensures 0 <= yoe < 400
  {
    // Counted in whole eras of 4, 100 and 400 years the corrections coincide.
    // Every quotient is pinned by its bounds, which makes the claim linear.
    assert 1460 * a <= doe < 1460 * a + 1460;
    assert 36524 * b <= doe < 36524 * b + 36524;
    assert 146096 * c <= doe < 146096 * c + 146096;
    if c == 1 {
      // The last day of the era.
      assert doe == 146096 && a == 100 && b == 4 && yoe == 399;
    } else {
      BeforeLastDay(doe, a, b, n, yoe);
    }
  }

  /** Every day of an era but its last, with the quotients given by their bounds. */
  lemma BeforeLastDay(doe: int, a: int, b: int, n: int, yoe: int)
    requires 0 <= doe < 146096
    requires 1460 * a <= doe < 1460 * a + 1460 && 36524 * b <= doe < 36524 * b + 36524
    requires n == doe - a + b && 365 * yoe <= n < 365 * yoe + 365
    ensures 0 <= doe - (365 * yoe + yoe / 4 - yoe / 100) <= 365
    ensures 0 <= yoe < 400
  {
    assert 0 <= b <= 3;
    var e := doe - 36524 * b;
    var f := e / 1460;
    var g := e - 1460 * f;
    assert 0 <= f && 0 <= g < 1460;
    var h := (24 * b + g) / 1460;
    assert 1460 * h <= 24 * b + g < 1460 * h + 1460;
    assert doe == 1460 * (25 * b + f) + 24 * b + g;
    assert a == 25 * b + f + h;
    var y4, y100 := yoe / 4, yoe / 100;
    assert 4 * y4 <= yoe < 4 * y4 + 4 && 100 * y100 <= yoe < 100 * y100 + 100;
    InCentury(b, f, g, h, yoe, y4, y100);
  }

  /**
   * The day `g` of four-year block `f` of century `b` of an era, with `h` the block carry
   * that the 1460-day quotient picks up from the 24 extra days of each earlier century.
   */
  lemma InCentury(b: int, f: int, g: int, h: int, yoe: int, y4: int, y100: int)
    requires 0 <= b <= 3 && 0 <= f && 0 <= g < 1460 && 1460 * f + g < 36524
    requires 1460 * h <= 24 * b + g < 1460 * h + 1460
    requires 365 * yoe <= 365 * (100 * b + 4 * f) + g - f - h < 365 * yoe + 365
    requires 4 * y4 <= yoe < 4 * y4 + 4 && 100 * y100 <= yoe < 100 * y100 + 100
    ensures 0 <= 36524 * b + 1460 * f + g - (365 * yoe + y4 - y100) <= 365
    ensures 0 <= yoe < 100 * b + 100
  {
    assert 0 <= h <= 1 && f <= 25;
    var t := g - f - h;
    if t >= 0 {
      var j := t / 365;
      assert 365 * j <= t < 365 * j + 365 && j <= 3;
      assert yoe == 100 * b + 4 * f + j;
      assert y4 == 25 * b + f && y100 == b;
    } else {
      assert h == 0 && f >= 1;
      assert yoe == 100 * b + 4 * f - 1;
      assert y4 == 25 * b + f - 1 && y100 == b;
    }
  }

  lemma MonthDayBounds(doy: int, mp: int)
    requires 0 <= doy <= 365
    requires mp == (5 * doy + 2) / 153
    ensures 0 <= mp <= 11
    ensures 1 <= doy - (153 * mp + 2) / 5 + 1 <= 31
  {
    assert 153 * mp <= 5 * doy + 2 < 153 * mp + 153;
    var q := (153 * mp + 2) / 5;
    assert 5 * q <= 153 * mp + 2 < 5 * q + 5;
  }

  /**
   * The day number of a civil date, after H. Hinnant's days-from-civil algorithm: the
   * inverse of CivilFromDays, computed independently of it.
   */
  function DaysFromCivil(c: Ymd): int {
    var y := if c.month <= 2 then c.year - 1 else c.year;
    var era := y / 400;
    var yoe := y - era * 400;
    var mp := if c.month > 2 then c.month - 3 else c.month + 9;
    var doy := (153 * mp + 2) / 5 + c.day - 1;
    var doe := yoe * 365 + yoe / 4 - yoe / 100 + doy;
    era * 146097 + doe - 719468
  }

  /** Counting the days of a day number's civil date gives the day number back. */
  lemma CivilRoundTrip(dayNumber: int)
    ensures DaysFromCivil(CivilFromDays(dayNumber)) == dayNumber
  {
    var c := CivilFromDays(dayNumber);
    var era := (dayNumber + 719468) / 146097;
    var doe := dayNumber + 719468 - era * 146097;
    var yoe := (doe - doe / 1460 + doe / 36524 - doe / 146096) / 365;
    var doy := doe - (365 * yoe + yoe / 4 - yoe / 100);
    var mp := (5 * doy + 2) / 153;
    CivilParts(dayNumber, era, doe, yoe, doy, mp);
    var y := if c.month <= 2 then c.year - 1 else c.year;
    EraOfYear(y, era, yoe);
    DaysFromParts(c, era, yoe, mp);
  }

  /** The intermediate values of CivilFromDays: era, day of era, year of era, day of year, month index. */
  lemma CivilParts(dayNumber: int, era: int, doe: int, yoe: int, doy: int, mp: int)
    requires era == (dayNumber + 719468) / 146097
    requires doe == dayNumber + 719468 - era * 146097
    requires yoe == (doe - doe / 1460 + doe / 36524 - doe / 146096) / 365
    requires doy == doe - (365 * yoe + yoe / 4 - yoe / 100)
    requires mp == (5 * doy + 2) / 153
    ensures 0 <= yoe < 400 && 0 <= mp <= 11
    ensures CivilFromDays(dayNumber).month == (if mp < 10 then mp + 3 else mp - 9)
    ensures CivilFromDays(dayNumber).day == doy - (153 * mp + 2) / 5 + 1
    ensures (if CivilFromDays(dayNumber).month <= 2 then CivilFromDays(dayNumber).year - 1
             else CivilFromDays(dayNumber).year) == yoe + era * 400
  {
    DoyBounds(doe, yoe, doy);
    MonthDayBounds(doy, mp);
  }

  /** DaysFromCivil of a date given by the parts CivilParts names. */
  lemma DaysFromParts(c: Ymd, era: int, yoe: int, mp: int)
    requires 0 <= mp <= 11 && c.month == (if mp < 10 then mp + 3 else mp - 9)
    requires (if c.month <= 2 then c.year - 1 else c.year) / 400 == era
    requires (if c.month <= 2 then c.year - 1 else c.year) - era * 400 == yoe
    ensures DaysFromCivil(c) == era * 146097 + (yoe * 365 + yoe / 4 - yoe / 100 + ((153 * mp + 2) / 5 + c.day - 1)) - 719468
  {
    assert (if c.month > 2 then c.month - 3 else c.month + 9) == mp;
  }

  lemma EraOfYear(y: int, era: int, yoe: int)
    requires y == yoe + era * 400 && 0 <= yoe < 400
    ensures y / 400 == era && y - era * 400 == yoe
  {
  }

  /** Different day numbers have different civil dates, so a date key names one day. */
  lemma CivilFromDaysInjective(d1: int, d2: int)
    ensures CivilFromDays(d1) == CivilFromDays(d2) ==> d1 == d2
  {
    CivilRoundTrip(d1);
    CivilRoundTrip(d2);
  }

  /**
   * The date is in the holiday list, compared by its 'YYYY-MM-DD' key: some listed entry is
   * a well-formed date whose day number is `day`.
   */
  predicate IsHoliday(day: int, holidays: seq<Ymd>): (b: bool)
    ensures b <==> exists h :: h in holidays && DaysFromCivil(h) == day && CivilFromDays(DaysFromCivil(h)) == h
  {
    CivilRoundTrip(day);
    CivilFromDays(day) in holidays
  }

  /**
   * The holiday list after a fetch for `year`: the fetched list when the fetch succeeded;
   * otherwise the list already held when it is non-empty, else just January 1st of `year`.
   */
  function HolidaysAfterFetch(current: seq<Ymd>, fetched: Option<seq<Ymd>>, year: int): (r: seq<Ymd>)
    ensures fetched.Some? ==> r == fetched.value
    ensures fetched.None? ==> r != []
    ensures fetched.None? && current != [] ==> r == current
    ensures fetched.None? && current == [] ==> Ymd(year, 1, 1) in r && |r| == 1
  {
    match fetched
    case Some(list) => list
    case None => if |current| > 0 then current else [Ymd(year, 1, 1)]
  }
}
