/** Epoch windows (epoch-window.ts). Instants are milliseconds since 1970-01-01T00:00:00Z; reading
    and printing ISO text is not modelled. */
module EpochWindow {
  import opened Wrappers
  import opened Integers

  const MS_PER_DAY := 86_400_000

  /** 2026-01-05T00:00:00Z */
  const ANCHOR := 20_458 * MS_PER_DAY

  /** The last instant a Date can hold; the first is its negation. */
  const MAX_INSTANT := 100_000_000 * MS_PER_DAY

  datatype Window = Window(start: int, end: int) {
    predicate Contains(t: int) {
      start <= t < end
    }
  }

  /** The quotient rounded down. */
  function FloorDiv(a: int, b: int): int
    requires b != 0
  {
    if b > 0 then a / b else -a / -b
  }

  function DayOf(t: int): int {
    FloorDiv(t, MS_PER_DAY)
  }

  /** `getUTCDay()`: 0 is Sunday. Day 0 of the calendar was a Thursday. */
  function UtcDay(t: int): int {
    (DayOf(t) + 4) % 7
  }

  // ----- the calendar behind `Date.UTC` -----

  predicate Leap(year: int) {
    year % 4 == 0 && (year % 100 != 0 || year % 400 == 0)
  }

  /** The day of January 1. */
  function YearStart(year: int): int {
    365 * (year - 1970) + FloorDiv(year - 1969, 4) - FloorDiv(year - 1901, 100) + FloorDiv(year - 1601, 400)
  }

  const MONTH_STARTS := [0, 31, 59, 90, 120, 151, 181, 212, 243, 273, 304, 334, 365]

  /** The days of a year before a month, 0 being January and 12 the end of the year. */
  function MonthStart(month: int, leap: bool): int
    requires 0 <= month <= 12
  {
    MONTH_STARTS[month] + if leap && month >= 2 then 1 else 0
  }

  function MakeDay(year: int, month: int, date: int): int
    requires 0 <= month < 12
  {
    YearStart(year) + MonthStart(month, Leap(year)) + date - 1
  }

  /** The year, month and date of a day. */
  predicate IsDateOf(day: int, year: int, month: int, date: int) {
    && 0 <= month < 12 && 1 <= date <= MonthStart(month + 1, Leap(year)) - MonthStart(month, Leap(year))
    && day == MakeDay(year, month, date)
  }

  /** `Date.UTC` reads a year from 0 to 99 as 1900 to 1999. */
  function UtcYear(year: int): int {
    if 0 <= year <= 99 then 1900 + year else year
  }

  const YEAR_0 := -719_528
  const MARCH_OF_YEAR_0 := -719_468
  const YEAR_100 := -683_003

  predicate EarlyYear(t: int) {
    YEAR_0 <= DayOf(t) < YEAR_100
  }

  /** The day that `Date.UTC` gives for the date of a day; 1900, unlike year 0, has no February 29. */
  function UtcDate(day: int): int {
    if YEAR_0 <= day < MARCH_OF_YEAR_0 then day + 693_961
    else if MARCH_OF_YEAR_0 <= day < YEAR_100 then day + 693_960
    else day
  }

  /** `UtcDate` is what the calendar says, whatever the date. */
  lemma UtcDateIsDateUtc(day: int, year: int, month: int, date: int)
    requires IsDateOf(day, year, month, date)
    ensures UtcDate(day) == MakeDay(UtcYear(year), month, date)
  {
    assert YearStart(0) == YEAR_0 && YearStart(100) == YEAR_100;
    assert YearStart(year) <= day < YearStart(year + 1) by {
      YearLength(year);
    }
    if 0 <= year <= 99 {
      EarlyYearMoves(year);
      assert day < MARCH_OF_YEAR_0 <==> year == 0 && month <= 1;
    }
  }

  lemma YearLength(year: int)
    ensures YearStart(year + 1) == YearStart(year) + 365 + if Leap(year) then 1 else 0
  {
    CenturyStep(year - 1968, year - 1900, year - 1600);
    LeapShifts(year);
    assert year + 1 - 1969 == year - 1968 && year + 1 - 1901 == year - 1900 && year + 1 - 1601 == year - 1600;
  }

  lemma LeapShifts(year: int)
    ensures Leap(year) <==> (year - 1968) % 4 == 0 && ((year - 1900) % 100 != 0 || (year - 1600) % 400 == 0)
    ensures (year - 1600) % 400 == 0 ==> (year - 1900) % 100 == 0
    ensures (year - 1900) % 100 == 0 ==> (year - 1968) % 4 == 0
  {
    ModShift(year, 492, 4);
    ModShift(year, 19, 100);
    ModShift(year, 4, 400);
    ModDivides(year, 25, 4);
    ModDivides(year, 4, 100);
  }

  lemma ModShift(a: int, k: int, m: int)
    requires m > 0
    ensures (a - k * m) % m == a % m
  {
    var q, r := a / m, a % m;
    assert a - k * m == (q - k) * m + r;
    LargerQuotient((a - k * m) / m, (a - k * m) % m, q - k, r, m);
    LargerQuotient(q - k, r, (a - k * m) / m, (a - k * m) % m, m);
  }

  lemma ModDivides(a: int, k: int, m: int)
    requires m > 0 && k > 0
    ensures a % (k * m) == 0 ==> a % m == 0
  {
    if a % (k * m) == 0 {
      var q := a / (k * m);
      assert a == q * (k * m) == (q * k) * m;
      ExactQuotient(q * k, m);
    }
  }

  lemma CenturyStep(a: int, b: int, c: int)
    ensures a / 4 - (a - 1) / 4 == if a % 4 == 0 then 1 else 0
    ensures b / 100 - (b - 1) / 100 == if b % 100 == 0 then 1 else 0
    ensures c / 400 - (c - 1) / 400 == if c % 400 == 0 then 1 else 0
  {
  }

  lemma EarlyYearMoves(year: int)
    requires 0 <= year <= 99
    ensures YearStart(1900 + year) == YearStart(year) + if year == 0 then 693_961 else 693_960
    ensures Leap(1900 + year) == (Leap(year) && year != 0)
    ensures year > 0 ==> YearStart(year) >= MARCH_OF_YEAR_0
  {
  }

  // ----- computeEpochWindowV1 -----

  /** The Monday the source floors an instant to. */
  function MondayOf(t: int): int {
    UtcDate(DayOf(t)) * MS_PER_DAY - (UtcDay(t) + 6) % 7 * MS_PER_DAY
  }

  predicate IsInstant(t: int) {
    -MAX_INSTANT <= t <= MAX_INSTANT
  }

  /** None where printing throws: for a zero length, and for an instant or a boundary no Date holds. */
  function ComputeEpochWindowV1(asOf: int, epochLengthDays: int): Option<Window> {
    var epochMs := epochLengthDays * MS_PER_DAY;
    if epochMs == 0 || !IsInstant(asOf) then None
    else
      var periodIndex := FloorDiv(MondayOf(asOf) - ANCHOR, epochMs);
      var periodStart := ANCHOR + periodIndex * epochMs;
      if IsInstant(periodStart) && IsInstant(periodStart + epochMs)
      then Some(Window(periodStart, periodStart + epochMs))
      else None
  }

  predicate HasWindow(t: int, days: int) {
    ComputeEpochWindowV1(t, days).Some?
  }

  // ----- Mondays -----

  predicate IsMondayMidnight(t: int) {
    t % MS_PER_DAY == 0 && UtcDay(t) == 1
  }

  /** The Monday 00:00 that starts the week of an instant. */
  function WeekStart(t: int): int {
    (DayOf(t) - (DayOf(t) + 3) % 7) * MS_PER_DAY
  }

  lemma WeekStartSpec(t: int)
    ensures IsMondayMidnight(WeekStart(t)) && WeekStart(t) <= t < WeekStart(t) + 7 * MS_PER_DAY
  {
    var monday := DayOf(t) - (DayOf(t) + 3) % 7;
    assert (monday + 4) % 7 == 1;
    ExactQuotient(monday, MS_PER_DAY);
  }

  /** Outside the years 0 to 99 the source floors an instant to the start of its week; within them it
      lands on a Tuesday or Wednesday around 1900 to 1999. */
  lemma MondayFloors(t: int)
    ensures !EarlyYear(t) ==> MondayOf(t) == WeekStart(t)
    ensures EarlyYear(t) ==>
      && !IsMondayMidnight(MondayOf(t)) && t < MondayOf(t) - 690_000 * MS_PER_DAY
      && -25_600 * MS_PER_DAY < MondayOf(t) < ANCHOR
  {
    var day, back := DayOf(t), (DayOf(t) + 3) % 7;
    assert ((day + 4) % 7 + 6) % 7 == back;
    if EarlyYear(t) {
      var landed := UtcDate(day) - back;
      assert MondayOf(t) == landed * MS_PER_DAY;
      ExactQuotient(landed, MS_PER_DAY);
      assert (landed + 4) % 7 != 1;
    }
  }

  lemma MondaysAreAWeekApart(t: int)
    ensures IsMondayMidnight(t) <==> (t - ANCHOR) % (7 * MS_PER_DAY) == 0
  {
    var day, time := t / MS_PER_DAY, t % MS_PER_DAY;
    var weeks, days := (day - 20_458) / 7, (day - 20_458) % 7;
    LargerQuotient(weeks, days * MS_PER_DAY + time, (t - ANCHOR) / (7 * MS_PER_DAY), (t - ANCHOR) % (7 * MS_PER_DAY), 7 * MS_PER_DAY);
    LargerQuotient((t - ANCHOR) / (7 * MS_PER_DAY), (t - ANCHOR) % (7 * MS_PER_DAY), weeks, days * MS_PER_DAY + time, 7 * MS_PER_DAY);
    assert (day + 4) % 7 == 1 <==> days == 0;
  }

  lemma MondaysDoNotCross(t: int, end: int)
    requires IsMondayMidnight(end) && WeekStart(t) < end
    ensures t < end
  {
    WeekStartSpec(t);
    MondaysAreAWeekApart(end);
    MondaysAreAWeekApart(WeekStart(t));
    hide WeekStart, IsMondayMidnight;
  }

  // ----- one window -----

  /** Where a period starts, counted from the anchor. */
  ghost function Boundary(n: int, days: int): int {
    ANCHOR + n * (days * MS_PER_DAY)
  }

  lemma BoundaryOrder(m: int, n: int, days: int)
    requires days > 0
    ensures Boundary(0, days) == ANCHOR && Boundary(-1, days) == ANCHOR - days * MS_PER_DAY
    ensures Boundary(n + 1, days) == Boundary(n, days) + days * MS_PER_DAY
    ensures m < n ==> Boundary(m, days) + days * MS_PER_DAY <= Boundary(n, days)
  {
    var e := days * MS_PER_DAY;
    assert (n + 1) * e == n * e + e && (m + 1) * e == m * e + e;
    if m < n {
      MulOrdered(m + 1, n, e);
    }
  }

  /** The period of the grid that holds the floored Monday. */
  lemma PeriodOf(t: int, days: int) returns (n: int)
    requires days > 0
    ensures var start := Boundary(n, days);
      var end := start + days * MS_PER_DAY;
      && start <= MondayOf(t) < end
      && ComputeEpochWindowV1(t, days)
         == if IsInstant(t) && IsInstant(start) && IsInstant(end) then Some(Window(start, end)) else None
  {
    hide MondayOf;
    var e := days * MS_PER_DAY;
    var elapsed := MondayOf(t) - ANCHOR;
    n := elapsed / e;
    assert elapsed == e * n + elapsed % e;
  }

  /** A window is a period of the grid that starts at the anchor; it holds the Monday of the
      instant's week, before and after the anchor. */
  lemma WindowContainsMonday(t: int, days: int)
    requires days > 0 && HasWindow(t, days)
    ensures var w := ComputeEpochWindowV1(t, days).value;
      && w.Contains(MondayOf(t)) && w.end == w.start + days * MS_PER_DAY
      && (exists n :: w.start == Boundary(n, days))
      && (!EarlyYear(t) ==> w.Contains(WeekStart(t)))
  {
    MondayFloors(t);
    var n := PeriodOf(t, days);
    hide MondayOf, WeekStart, ComputeEpochWindowV1, Boundary;
  }

  /** Only the ends of the calendar have no window. */
  lemma WindowExists(t: int, days: int)
    requires days > 0 && -MAX_INSTANT + (days + 7) * MS_PER_DAY <= t <= MAX_INSTANT - days * MS_PER_DAY
    ensures HasWindow(t, days)
  {
    MondayFloors(t);
    WeekStartSpec(t);
    var n := PeriodOf(t, days);
    hide MondayOf, WeekStart, ComputeEpochWindowV1, IsMondayMidnight, Boundary;
  }

  /** A window whose length is a whole number of weeks starts and ends on a Monday 00:00. */
  lemma WholeWeeks(t: int, days: int)
    requires days > 0 && days % 7 == 0 && HasWindow(t, days)
    ensures var w := ComputeEpochWindowV1(t, days).value; IsMondayMidnight(w.start) && IsMondayMidnight(w.end)
  {
    WindowContainsMonday(t, days);
    var n :| ComputeEpochWindowV1(t, days).value.start == Boundary(n, days);
    BoundaryOrder(n, n, days);
    MondayBoundary(n, days);
    MondayBoundary(n + 1, days);
    hide MondayOf, WeekStart, ComputeEpochWindowV1, IsMondayMidnight, Boundary;
  }

  lemma MondayBoundary(n: int, days: int)
    requires days % 7 == 0
    ensures IsMondayMidnight(Boundary(n, days))
  {
    var weeks, week := days / 7, 7 * MS_PER_DAY;
    assert days * MS_PER_DAY == weeks * week;
    assert n * (weeks * week) == (n * weeks) * week;
    ExactQuotient(n * weeks, week);
    MondaysAreAWeekApart(Boundary(n, days));
  }

  // ----- an instant and its window -----

  /** Every instant outside the years 0 to 99 lies in its own window exactly when the length is a
      whole number of weeks, or so long that the first period does not end within the calendar. */
  lemma ContainsEveryInstantIff(days: int)
    requires days > 0
    ensures (forall t :: HasWindow(t, days) && !EarlyYear(t) ==> ComputeEpochWindowV1(t, days).value.Contains(t))
       <==> days % 7 == 0 || ANCHOR + days * MS_PER_DAY > MAX_INSTANT
  {
    if days % 7 == 0 || ANCHOR + days * MS_PER_DAY > MAX_INSTANT {
      forall t | HasWindow(t, days) && !EarlyYear(t) ensures ComputeEpochWindowV1(t, days).value.Contains(t) {
        WindowContainsMonday(t, days);
        WeekStartSpec(t);
        if days % 7 == 0 {
          WholeWeeks(t, days);
        } else {
          OnlyPeriodEndsAtAnchor(t, days);
        }
        MondaysDoNotCross(t, ComputeEpochWindowV1(t, days).value.end);
      }
    } else {
      MissedInstant(days);
    }
  }

  lemma OnlyPeriodEndsAtAnchor(t: int, days: int)
    requires days > 0 && HasWindow(t, days) && ANCHOR + days * MS_PER_DAY > MAX_INSTANT
    ensures ComputeEpochWindowV1(t, days).value.end == ANCHOR && IsMondayMidnight(ANCHOR)
  {
    assert IsMondayMidnight(ANCHOR);
    var n := PeriodOf(t, days);
    hide MondayOf, ComputeEpochWindowV1, IsMondayMidnight, Boundary;
    BoundaryOrder(n, -1, days);
    BoundaryOrder(-1, n, days);
    BoundaryOrder(0, n, days);
  }

  /** A period boundary inside a week cuts off the days of that week after it. */
  lemma MissedInstant(days: int)
    requires days > 0 && days % 7 != 0 && ANCHOR + days * MS_PER_DAY <= MAX_INSTANT
    ensures var t := ANCHOR + days * MS_PER_DAY;
      !EarlyYear(t) && HasWindow(t, days) && !ComputeEpochWindowV1(t, days).value.Contains(t)
  {
    var t, e := ANCHOR + days * MS_PER_DAY, days * MS_PER_DAY;
    MondayFloors(t);
    WeekStartSpec(t);
    MondaysAreAWeekApart(WeekStart(t));
    hide MondayOf, WeekStart, IsMondayMidnight;
    var elapsed := MondayOf(t) - ANCHOR;
    assert elapsed % (7 * MS_PER_DAY) == 0;
    assert e % (7 * MS_PER_DAY) != 0;
    assert 0 <= elapsed < e;
    QuotientZero(elapsed, e);
  }

  lemma QuotientZero(a: int, e: int)
    requires 0 <= a < e
    ensures a / e == 0
  {
  }

  /** An instant of the years 0 to 99 lies in its own window exactly when the one period before the
      anchor reaches back to it: its window is the window of some day around 1900 to 1999. */
  lemma EarlyInstantContainedIff(t: int, days: int)
    requires days > 0 && EarlyYear(t) && HasWindow(t, days)
    ensures ComputeEpochWindowV1(t, days).value.Contains(t) <==> ANCHOR - days * MS_PER_DAY <= t
  {
    MondayFloors(t);
    var n := PeriodOf(t, days);
    hide MondayOf, ComputeEpochWindowV1, EarlyYear, IsMondayMidnight, Boundary;
    BoundaryOrder(0, n, days);
    BoundaryOrder(-1, n, days);
    BoundaryOrder(n, -1, days);
  }

  /** March 1 of the year 50, with weekly epochs, is put into the week of 1950-02-27. */
  lemma YearFifty()
    ensures var t := -701_206 * MS_PER_DAY;
      && IsDateOf(DayOf(t), 50, 2, 1)
      && MakeDay(1950, 1, 27) == -7_248
      && ComputeEpochWindowV1(t, 7) == Some(Window(-7_248 * MS_PER_DAY, -7_241 * MS_PER_DAY))
  {
    var day, e := -701_206, 7 * MS_PER_DAY;
    assert DayOf(day * MS_PER_DAY) == day;
    assert UtcDate(day) == -7_246;
    assert MondayOf(day * MS_PER_DAY) == -7_247 * MS_PER_DAY;
    assert (-7_247 * MS_PER_DAY - ANCHOR) / e == -3_958;
    assert ANCHOR + -3_958 * e == -7_248 * MS_PER_DAY;
  }

  // ----- two windows -----

  /** Two windows of one length are equal or disjoint, in the order of the floored Mondays. */
  lemma WindowsDoNotOverlap(s: int, t: int, days: int)
    requires days > 0 && HasWindow(s, days) && HasWindow(t, days) && MondayOf(s) <= MondayOf(t)
    ensures var v, w := ComputeEpochWindowV1(s, days).value, ComputeEpochWindowV1(t, days).value;
      v == w || v.end <= w.start
  {
    var m := PeriodOf(s, days);
    var n := PeriodOf(t, days);
    hide MondayOf, ComputeEpochWindowV1, Boundary;
    BoundaryOrder(m, n, days);
    BoundaryOrder(n, m, days);
  }

  /** So windows move forward with the instant, outside the years 0 to 99; those come after their
      successors. */
  lemma WindowsMoveForward(s: int, t: int, days: int)
    requires days > 0 && HasWindow(s, days) && HasWindow(t, days) && s <= t && !EarlyYear(s) && !EarlyYear(t)
    ensures var v, w := ComputeEpochWindowV1(s, days).value, ComputeEpochWindowV1(t, days).value;
      v == w || v.end <= w.start
  {
    MondayFloors(s);
    MondayFloors(t);
    WeekStartSpec(s);
    WeekStartSpec(t);
    hide MondayOf, WeekStart, EarlyYear, ComputeEpochWindowV1;
    if WeekStart(t) < WeekStart(s) {
      MondaysDoNotCross(t, WeekStart(s));
    }
    WindowsDoNotOverlap(s, t, days);
  }

  lemma EarlyWindowsComeLater()
    ensures var s, t := -701_206 * MS_PER_DAY, YearStart(1000) * MS_PER_DAY;
      && s < t && HasWindow(s, 7) && HasWindow(t, 7)
      && ComputeEpochWindowV1(t, 7).value.end < ComputeEpochWindowV1(s, 7).value.start
  {
    YearFifty();
    var t := YearStart(1000) * MS_PER_DAY;
    assert YearStart(1000) == -354_285;
    assert DayOf(t) == -354_285;
    WindowExists(t, 7);
    WindowContainsMonday(t, 7);
    MondayFloors(t);
    WeekStartSpec(t);
  }

  /** No gap: for whole weeks, the window of the instant a window ends is the next window. */
  lemma WindowsTile(t: int, days: int)
    requires days > 0 && days % 7 == 0 && HasWindow(t, days)
    requires var end := ComputeEpochWindowV1(t, days).value.end; !EarlyYear(end) && HasWindow(end, days)
    ensures var w := ComputeEpochWindowV1(t, days).value; ComputeEpochWindowV1(w.end, days).value.start == w.end
  {
    WholeWeeks(t, days);
    var end := ComputeEpochWindowV1(t, days).value.end;
    MondayFloors(end);
    assert WeekStart(end) == end;
    var n := PeriodOf(t, days);
    var m := PeriodOf(end, days);
    hide MondayOf, WeekStart, ComputeEpochWindowV1, IsMondayMidnight, EarlyYear, Boundary;
    BoundaryOrder(n, n, days);
    BoundaryOrder(m, n + 1, days);
    BoundaryOrder(n + 1, m, days);
  }
}
