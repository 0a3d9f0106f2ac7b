// Proleptic Gregorian day numbers (day 1 is 0001-01-01, a Monday) and the calendar keys
// daily bars are grouped by: ISO year and week, year and month, three-day grid.

module Calendar {
  import opened Timeframes
  import opened Buckets

  predicate IsLeap(y: int) {
    y % 4 == 0 && (y % 100 != 0 || y % 400 == 0)
  }

  function YearLength(y: int): int { if IsLeap(y) then 366 else 365 }

  function DaysBeforeYear(y: int): int
    decreases if y < 1 then 1 - y else y - 1
  {
    if y == 1 then 0
    else if y > 1 then DaysBeforeYear(y - 1) + YearLength(y - 1)
    else DaysBeforeYear(y + 1) - YearLength(y)
  }

  lemma NextYear(y: int)
    ensures DaysBeforeYear(y + 1) == DaysBeforeYear(y) + YearLength(y)
  {
  }

  function YearFrom(day: int, y: int): (r: int)
    requires DaysBeforeYear(y) < day
    ensures y <= r && DaysBeforeYear(r) < day <= DaysBeforeYear(r + 1)
    decreases day - DaysBeforeYear(y)
  {
    NextYear(y);
    if day <= DaysBeforeYear(y + 1) then y else YearFrom(day, y + 1)
  }

  function YearOf(day: int): (y: int)
    requires 1 <= day
    ensures 1 <= y && DaysBeforeYear(y) < day <= DaysBeforeYear(y + 1)
  {
    YearFrom(day, 1)
  }

  lemma {:induction false} YearsAscend(y: int, y': int)
    requires y <= y'
    ensures DaysBeforeYear(y) <= DaysBeforeYear(y')
    decreases y' - y
  {
    if y < y' {
      YearsAscend(y, y' - 1);
      NextYear(y' - 1);
    }
  }

  // ---------------------------------------------------------------- months

  // Days of the year before month m (13 stands for the next year's January).
  function DaysBeforeMonth(y: int, m: int): int
    requires 1 <= m <= 13
  {
    var leap := if IsLeap(y) then 1 else 0;
    if m == 1 then 0 else if m == 2 then 31
    else leap + (if m == 3 then 59 else if m == 4 then 90 else if m == 5 then 120 else if m == 6 then 151
                 else if m == 7 then 181 else if m == 8 then 212 else if m == 9 then 243 else if m == 10 then 273
                 else if m == 11 then 304 else if m == 12 then 334 else 365)
  }

  function MonthFrom(y: int, dayOfYear: int, m: int): (r: int)
    requires 1 <= m <= 12 && DaysBeforeMonth(y, m) < dayOfYear <= DaysBeforeMonth(y, 13)
    ensures m <= r <= 12 && DaysBeforeMonth(y, r) < dayOfYear <= DaysBeforeMonth(y, r + 1)
    decreases 12 - m
  {
    if m == 12 || dayOfYear <= DaysBeforeMonth(y, m + 1) then m else MonthFrom(y, dayOfYear, m + 1)
  }

  function MonthKey(day: int): BucketKey
    requires 1 <= day
  {
    var y := YearOf(day);
    NextYear(y);
    Pair(y, MonthFrom(y, day - DaysBeforeYear(y), 1))
  }

  // Every fourth year is a leap year but for three in four hundred.
  lemma LeapYears(y: int)
    ensures IsLeap(y) <==> y % 400 == 0 || (y % 4 == 0 && y % 100 != 0)
  {
    if y % 400 == 0 {
      assert y == 4 * (100 * (y / 400));
    }
  }

  // Thirty days have September, April, June and November, February twenty-eight or in leap
  // years twenty-nine, the rest thirty-one.
  lemma MonthLengths(y: int, m: int)
    requires 1 <= m <= 12
    ensures DaysBeforeMonth(y, m + 1) - DaysBeforeMonth(y, m)
            == if m == 4 || m == 6 || m == 9 || m == 11 then 30 else if m != 2 then 31 else if IsLeap(y) then 29 else 28
    ensures DaysBeforeMonth(y, 1) == 0 && DaysBeforeMonth(y, 13) == YearLength(y)
  {
  }

  // ---------------------------------------------------------------- ISO weeks

  // The Monday of the week a day belongs to.
  function MondayOf(day: int): int {
    day - (day + 6) % 7
  }

  // The Monday of the week with the first Thursday on or after a day.
  function FirstMondayFrom(first: int): int {
    var weekday := (first + 6) % 7;
    if weekday > 3 then first - weekday + 7 else first - weekday
  }

  // The Monday of the first ISO week of a year: the week of its first Thursday.
  function FirstMonday(y: int): int {
    FirstMondayFrom(DaysBeforeYear(y) + 1)
  }

  function IsoKey(day: int): BucketKey
    requires 1 <= day
  {
    var y := YearOf(day);
    var week := (day - FirstMonday(y)) / 7;
    if week < 0 then Pair(y - 1, (day - FirstMonday(y - 1)) / 7 + 1)
    else if week >= 52 && day >= FirstMonday(y + 1) then Pair(y + 1, 1)
    else Pair(y, week + 1)
  }

  lemma FirstMondayFromIs(first: int)
    ensures MondayOf(FirstMondayFrom(first)) == FirstMondayFrom(first)
    ensures first - 3 <= FirstMondayFrom(first) <= first + 3
  {
  }

  lemma FirstMondayNear(y: int)
    ensures MondayOf(FirstMonday(y)) == FirstMonday(y)
    ensures DaysBeforeYear(y) - 2 <= FirstMonday(y) <= DaysBeforeYear(y) + 4
  {
    FirstMondayFromIs(DaysBeforeYear(y) + 1);
  }

  lemma MondaysApart(a: int, b: int)
    requires MondayOf(a) == a && MondayOf(b) == b && a + 357 < b
    ensures a + 364 <= b
  {
  }

  lemma FirstMondayBounds(y: int)
    ensures MondayOf(FirstMonday(y)) == FirstMonday(y)
    ensures DaysBeforeYear(y) - 2 <= FirstMonday(y) <= DaysBeforeYear(y) + 4
    ensures FirstMonday(y) + 364 <= FirstMonday(y + 1)
  {
    FirstMondayNear(y);
    FirstMondayNear(y + 1);
    NextYear(y);
    MondaysApart(FirstMonday(y), FirstMonday(y + 1));
  }

  lemma IsoYearRange(y: int)
    ensures DaysBeforeYear(y) - 2 <= FirstMonday(y) <= DaysBeforeYear(y) + 4
    ensures FirstMonday(y) + 364 <= FirstMonday(y + 1)
  {
    FirstMondayBounds(y);
  }

  lemma {:induction false} FirstMondaysAscend(y: int, y': int)
    requires y < y'
    ensures FirstMonday(y + 1) <= FirstMonday(y')
    decreases y' - y
  {
    if y + 1 < y' {
      FirstMondaysAscend(y, y' - 1);
      FirstMondayBounds(y' - 1);
    }
  }

  // The key of a day names the ISO year whose weeks contain it, and the week counted from
  // that year's first Monday.
  lemma IsoKeyIs(day: int)
    requires 1 <= day
    ensures var k := IsoKey(day);
            && k.Pair?
            && FirstMonday(k.major) <= day < FirstMonday(k.major + 1)
            && MondayOf(day) == FirstMonday(k.major) + 7 * (k.minor - 1)
  {
    IsoYearContains(day);
    FirstMondayNear(IsoKey(day).major);
    MondayFrom(day, FirstMonday(IsoKey(day).major));
    IsoWeekNumber(day);
  }

  lemma IsoWeekNumber(day: int)
    requires 1 <= day
    ensures IsoKey(day).minor == (day - FirstMonday(IsoKey(day).major)) / 7 + 1
  {
    FirstMondayNear(YearOf(day) + 1);
  }

  lemma IsoYearContains(day: int)
    requires 1 <= day
    ensures FirstMonday(IsoKey(day).major) <= day < FirstMonday(IsoKey(day).major + 1)
  {
    var y := YearOf(day);
    IsoYearRange(y - 1);
    IsoYearRange(y);
    IsoYearRange(y + 1);
    IsoKeyYear(day);
  }

  lemma IsoKeyYear(day: int)
    requires 1 <= day
    ensures var y := YearOf(day);
            IsoKey(day).major == if day < FirstMonday(y) then y - 1
                                 else if FirstMonday(y) + 364 <= day && FirstMonday(y + 1) <= day then y + 1
                                 else y
  {
    WeeksElapsed(day - FirstMonday(YearOf(day)));
  }

  lemma WeeksElapsed(days: int)
    ensures days / 7 < 0 <==> days < 0
    ensures days / 7 >= 52 <==> days >= 364
  {
  }

  lemma MondayFrom(day: int, monday: int)
    requires MondayOf(monday) == monday
    ensures MondayOf(day) == monday + 7 * ((day - monday) / 7)
  {
  }

  // Section 4.1.4 of ISO 8601:2004: two days share a week key exactly when they lie in the
  // same Monday to Sunday week, across year ends too.
  lemma IsoWeekExact(d: int, d': int)
    requires 1 <= d && 1 <= d'
    ensures IsoKey(d) == IsoKey(d') <==> MondayOf(d) == MondayOf(d')
  {
    IsoKeyIs(d);
    IsoKeyIs(d');
    if MondayOf(d) == MondayOf(d') {
      SameWeekSameYear(d, d', IsoKey(d).major, IsoKey(d').major);
    }
  }

  lemma SameWeekSameYear(d: int, d': int, y: int, y': int)
    requires MondayOf(d) == MondayOf(d')
    requires FirstMonday(y) <= d < FirstMonday(y + 1) && FirstMonday(y') <= d' < FirstMonday(y' + 1)
    ensures y == y'
  {
    FirstMondayNear(y + 1);
    FirstMondayNear(y' + 1);
    SameWeekSide(d, d', FirstMonday(y + 1));
    SameWeekSide(d, d', FirstMonday(y' + 1));
    if y < y' { FirstMondaysAscend(y, y'); }
    if y' < y { FirstMondaysAscend(y', y); }
  }

  lemma SameWeekSide(d: int, d': int, monday: int)
    requires MondayOf(d) == MondayOf(d') && MondayOf(monday) == monday
    ensures d < monday <==> d' < monday
  {
  }

  // ---------------------------------------------------------------- the three calendar groupings

  datatype DailyTarget = ThreeDay | Week | Month

  function DateKey(target: DailyTarget, day: int): BucketKey
    requires 1 <= day
  {
    match target
    case Week => IsoKey(day)
    case Month => MonthKey(day)
    case ThreeDay => Single(day - day % 3)
  }

  // Groups of three days, the ordinals divisible by three opening them.
  lemma ThreeDayExact(d: int, d': int)
    requires 1 <= d && 1 <= d'
    ensures DateKey(ThreeDay, d) == DateKey(ThreeDay, d') <==> d / 3 == d' / 3
  {
  }

  // Days between two days of one group belong to the group.
  lemma DateKeyConvex(target: DailyTarget, s: int, t: int, u: int)
    requires 1 <= s <= t <= u && DateKey(target, s) == DateKey(target, u)
    ensures DateKey(target, t) == DateKey(target, s)
  {
    match target
    case Week =>
      IsoWeekExact(s, u);
      IsoWeekExact(s, t);
      SameWeekBetween(s, t, u);
    case Month => MonthConvex(s, t, u);
    case ThreeDay =>
  }

  lemma SameWeekBetween(s: int, t: int, u: int)
    requires s <= t <= u && MondayOf(s) == MondayOf(u)
    ensures MondayOf(t) == MondayOf(s)
  {
  }

  lemma YearUnique(day: int, y: int)
    requires 1 <= day && DaysBeforeYear(y) < day <= DaysBeforeYear(y + 1)
    ensures YearOf(day) == y
  {
    if YearOf(day) < y { YearsAscend(YearOf(day) + 1, y); }
    if y < YearOf(day) { YearsAscend(y + 1, YearOf(day)); }
  }

  // A month key names exactly the days of that calendar month.
  lemma MonthKeyExact(day: int, y: int, m: int)
    requires 1 <= day && 1 <= m <= 12
    ensures MonthKey(day) == Pair(y, m)
            <==> DaysBeforeMonth(y, m) < day - DaysBeforeYear(y) <= DaysBeforeMonth(y, m + 1)
  {
    if MonthKey(day) == Pair(y, m) {
      NextYear(y);
    }
    if DaysBeforeMonth(y, m) < day - DaysBeforeYear(y) <= DaysBeforeMonth(y, m + 1) {
      MonthOfDay(day, y, m);
    }
  }

  lemma MonthOfDay(day: int, y: int, m: int)
    requires 1 <= day && 1 <= m <= 12
    requires DaysBeforeMonth(y, m) < day - DaysBeforeYear(y) <= DaysBeforeMonth(y, m + 1)
    ensures MonthKey(day) == Pair(y, m)
  {
    MonthUnique(y, day - DaysBeforeYear(y), m);
    NextYear(y);
    YearUnique(day, y);
  }

  lemma MonthConvex(s: int, t: int, u: int)
    requires 1 <= s <= t <= u && MonthKey(s) == MonthKey(u)
    ensures MonthKey(t) == MonthKey(s)
  {
    var k := MonthKey(s);
    MonthKeyExact(s, k.major, k.minor);
    MonthKeyExact(u, k.major, k.minor);
    MonthKeyExact(t, k.major, k.minor);
  }

  lemma MonthUnique(y: int, dayOfYear: int, m: int)
    requires 1 <= m <= 12 && DaysBeforeMonth(y, m) < dayOfYear <= DaysBeforeMonth(y, m + 1)
    ensures 0 < dayOfYear <= DaysBeforeMonth(y, 13)
    ensures MonthFrom(y, dayOfYear, 1) == m
  {
  }

  // ---------------------------------------------------------------- the weekly grid

  lemma DivStep(n: int, d: int)
    requires 0 < d
    ensures n / d == (n - 1) / d + if n % d == 0 then 1 else 0
  {
    var q, r := n / d, n % d;
    if r == 0 {
      assert (q - 1) * d == q * d - d;
      DivModUnique(n - 1, d, q - 1, d - 1);
    } else {
      DivModUnique(n - 1, d, q, r - 1);
    }
  }

  lemma LeapCount(y: int)
    ensures (if IsLeap(y) then 1 else 0)
         == (if y % 4 == 0 then 1 else 0) - (if y % 100 == 0 then 1 else 0) + (if y % 400 == 0 then 1 else 0)
  {
    if y % 400 == 0 { DivModUnique(y, 100, y / 400 * 4, 0); }
    if y % 100 == 0 { DivModUnique(y, 4, y / 100 * 25, 0); }
  }

  // The usual closed form.
  lemma {:induction false} DaysBeforeYearClosed(y: int)
    requires 1 <= y
    ensures DaysBeforeYear(y) == (y - 1) * 365 + (y - 1) / 4 - (y - 1) / 100 + (y - 1) / 400
  {
    if y > 1 {
      DaysBeforeYearClosed(y - 1);
      DivStep(y - 1, 4);
      DivStep(y - 1, 100);
      DivStep(y - 1, 400);
      LeapCount(y - 1);
    }
  }

  const DAY_SECONDS := 86400
  // 1970-01-01.
  const EPOCH_DAY := 719163

  lemma EpochDayIs()
    ensures EPOCH_DAY == DaysBeforeYear(1970) + 1
  {
    DaysBeforeYearClosed(1970);
  }

  // The weekly grid with its epoch offset is exactly the Mondays at 00:00 UTC.
  lemma WeeklyGridIsMondays(ts: int)
    ensures GridOf("1W").Some? && GridOf("W") == GridOf("1W")
    ensures OnGrid(ts, GridOf("1W").value)
            <==> ts % DAY_SECONDS == 0 && MondayOf(EPOCH_DAY + ts / DAY_SECONDS) == EPOCH_DAY + ts / DAY_SECONDS
    ensures EPOCH_DAY == DaysBeforeYear(1970) + 1
  {
    assert EPOCH_DAY == DaysBeforeYear(1970) + 1 by { EpochDayIs(); }
    var d, r := ts / 86400, ts % 86400;
    assert ts == d * 86400 + r;
    WeekRemainder(d, r);
  }

  lemma WeekRemainder(d: int, r: int)
    requires 0 <= r < 86400
    ensures (d * 86400 + r - 345600) % 604800 == (d - 4) % 7 * 86400 + r
  {
    var q, s := (d - 4) / 7, (d - 4) % 7;
    DivModUnique(d * 86400 + r - 345600, 604800, q, s * 86400 + r);
  }
}
