/** UTC dates of time values in milliseconds, as section 21.4.1 of ECMA-262 defines them. */
module UtcCalendar {

  const MS_PER_DAY := 86400_000

  function Day(t: int): int {
    t / MS_PER_DAY
  }

  /** The day number of the first day of a year. */
  function DayFromYear(y: int): int {
    365 * (y - 1970) + (y - 1969) / 4 - (y - 1901) / 100 + (y - 1601) / 400
  }

  lemma Step4(x: int)
    ensures (x + 1) / 4 - x / 4 == if (x + 1) % 4 == 0 then 1 else 0
  {
  }

  lemma Step100(x: int)
    ensures (x + 1) / 100 - x / 100 == if (x + 1) % 100 == 0 then 1 else 0
  {
  }

  lemma Step400(x: int)
    ensures (x + 1) / 400 - x / 400 == if (x + 1) % 400 == 0 then 1 else 0
  {
  }

  /** Divisibility of the year decides the three corrections. */
  lemma YearDivides(y: int)
    ensures ((y - 1969) + 1) % 4 == 0 <==> y % 4 == 0
    ensures ((y - 1901) + 1) % 100 == 0 <==> y % 100 == 0
    ensures ((y - 1601) + 1) % 400 == 0 <==> y % 400 == 0
  {
    assert y - 1968 == y - 4 * 492 && y - 1900 == y - 100 * 19 && y - 1600 == y - 400 * 4;
  }

  lemma CenturiesAreFourths(y: int)
    ensures y % 100 == 0 ==> y % 4 == 0
    ensures y % 400 == 0 ==> y % 100 == 0
  {
  }

  /** A year has 366 days if and only if it is a leap year of the Gregorian calendar. */
  lemma LeapRule(y: int)
    ensures DayFromYear(y + 1) - DayFromYear(y) == if y % 4 == 0 && (y % 100 != 0 || y % 400 == 0) then 366 else 365
  {
    var four, hundred, fourHundred := y % 4 == 0, y % 100 == 0, y % 400 == 0;
    CenturiesAreFourths(y);
    YearDivides(y);
    Step4(y - 1969);
    Step100(y - 1901);
    Step400(y - 1601);
    YearSteps(y, four, hundred, fourHundred);
  }

  lemma YearSteps(y: int, four: bool, hundred: bool, fourHundred: bool)
    requires (y - 1968) / 4 - (y - 1969) / 4 == if four then 1 else 0
    requires (y - 1900) / 100 - (y - 1901) / 100 == if hundred then 1 else 0
    requires (y - 1600) / 400 - (y - 1601) / 400 == if fourHundred then 1 else 0
    requires (fourHundred ==> hundred) && (hundred ==> four)
    ensures DayFromYear(y + 1) - DayFromYear(y) == if four && (!hundred || fourHundred) then 366 else 365
  {
  }

  lemma YearLength(y: int)
    ensures DayFromYear(y + 1) - DayFromYear(y) == 365 || DayFromYear(y + 1) - DayFromYear(y) == 366
  {
    LeapRule(y);
  }

  /** The largest year that starts on or before day `d`, searched from `y`. */
  function YearNear(d: int, y: int): (r: int)
    ensures DayFromYear(r) <= d < DayFromYear(r + 1)
    decreases d < DayFromYear(y), if d < DayFromYear(y) then DayFromYear(y) - d else d - DayFromYear(y)
  {
    YearLength(y);
    YearLength(y - 1);
    if d < DayFromYear(y) then YearNear(d, y - 1)
    else if d >= DayFromYear(y + 1) then YearNear(d, y + 1)
    else y
  }

  function YearOf(d: int): int {
    YearNear(d, 1970)
  }

  lemma {:induction false} YearsIncrease(a: int, b: int)
    requires a <= b
    ensures DayFromYear(b) - DayFromYear(a) >= 365 * (b - a)
    decreases b - a
  {
    if a < b {
      YearsIncrease(a, b - 1);
      YearLength(b - 1);
    }
  }

  function Leap(y: int): int {
    if DayFromYear(y + 1) - DayFromYear(y) == 366 then 1 else 0
  }

  /** Day within the year at which month `m` begins; month 12 is the end of the year. */
  function MonthStart(m: int, leap: int): int {
    if m <= 0 then 0 else if m == 1 then 31 else if m == 2 then 59 + leap
    else if m == 3 then 90 + leap else if m == 4 then 120 + leap else if m == 5 then 151 + leap
    else if m == 6 then 181 + leap else if m == 7 then 212 + leap else if m == 8 then 243 + leap
    else if m == 9 then 273 + leap else if m == 10 then 304 + leap else if m == 11 then 334 + leap
    else 365 + leap
  }

  function MonthFrom(dayInYear: int, leap: int, m: nat): nat
    requires m <= 11
    decreases 11 - m
  {
    if m == 11 || dayInYear < MonthStart(m + 1, leap) then m else MonthFrom(dayInYear, leap, m + 1)
  }

  lemma {:induction false} MonthFromBounds(dayInYear: int, leap: int, m: nat)
    requires m <= 11 && 0 <= leap <= 1 && MonthStart(m, leap) <= dayInYear < 365 + leap
    ensures m <= MonthFrom(dayInYear, leap, m) <= 11
    ensures var month := MonthFrom(dayInYear, leap, m);
      MonthStart(month, leap) <= dayInYear < MonthStart(month + 1, leap)
    decreases 11 - m
  {
    if m < 11 && dayInYear >= MonthStart(m + 1, leap) { MonthFromBounds(dayInYear, leap, m + 1); }
  }

  function DayInYear(d: int): int {
    d - DayFromYear(YearOf(d))
  }

  function MonthOf(d: int): nat {
    MonthFrom(DayInYear(d), Leap(YearOf(d)), 0)
  }

  function DateOf(d: int): int {
    DayInYear(d) - MonthStart(MonthOf(d), Leap(YearOf(d))) + 1
  }

  /** The days of each month, and the first day of all. */
  lemma MonthLengths(m: nat, leap: int)
    requires m <= 11 && 0 <= leap <= 1
    ensures MonthStart(m + 1, leap) - MonthStart(m, leap) == [31, 28 + leap, 31, 30, 31, 30, 31, 31, 30, 31, 30, 31][m]
    ensures DayFromYear(1970) == 0
  {
  }

  /** `Date.UTC(year, month, date)` as a day number; years 0 to 99 mean 1900 to 1999. */
  function DateUtc(y: int, m: int, date: int): int {
    var year := if 0 <= y <= 99 then 1900 + y else y;
    DayFromYear(year) + MonthStart(m, Leap(year)) + date - 1
  }

  predicate Modern(d: int) {
    !(0 <= YearOf(d) <= 99)
  }

  /** The day number `Date.UTC` gives for the date of day `d`. */
  function UtcDay(d: int): int {
    DateUtc(YearOf(d), MonthOf(d), DateOf(d))
  }

  /** Taking a day apart and putting it together gives the day back exactly outside the years 0 to 99. */
  lemma DateUtcInverts(d: int)
    ensures UtcDay(d) == d <==> Modern(d)
  {
    if !Modern(d) { YearsIncrease(YearOf(d), YearOf(d) + 1900); }
  }

  /** Calendar months in order. */
  function MonthIndex(d: int): int {
    12 * YearOf(d) + MonthOf(d)
  }

  lemma {:induction false} MonthsIncrease(a: int, b: int, leap: int, m: nat)
    requires m <= 11 && 0 <= leap <= 1 && MonthStart(m, leap) <= a <= b < 365 + leap
    ensures MonthFrom(a, leap, m) <= MonthFrom(b, leap, m)
    decreases 11 - m
  {
    if m < 11 && b >= MonthStart(m + 1, leap) {
      MonthFromBounds(b, leap, m + 1);
      if a >= MonthStart(m + 1, leap) { MonthsIncrease(a, b, leap, m + 1); }
    }
  }

  lemma MonthRange(d: int)
    ensures 0 <= MonthOf(d) <= 11 && 0 <= DayInYear(d) < 365 + Leap(YearOf(d))
  {
    YearLength(YearOf(d));
    MonthFromBounds(DayInYear(d), Leap(YearOf(d)), 0);
  }

  lemma YearOfMonotone(a: int, b: int)
    requires a <= b
    ensures YearOf(a) <= YearOf(b)
  {
    if YearOf(b) < YearOf(a) { YearsIncrease(YearOf(b) + 1, YearOf(a)); }
  }

  /** A later day never lies in an earlier month. */
  lemma MonthIndexMonotone(a: int, b: int)
    requires a <= b
    ensures MonthIndex(a) <= MonthIndex(b)
  {
    YearOfMonotone(a, b);
    MonthRange(a);
    MonthRange(b);
    if YearOf(a) == YearOf(b) { MonthsIncrease(DayInYear(a), DayInYear(b), Leap(YearOf(a)), 0); }
  }

  lemma MonthIndexSame(a: int, b: int)
    ensures MonthIndex(a) == MonthIndex(b) <==> YearOf(a) == YearOf(b) && MonthOf(a) == MonthOf(b)
  {
    MonthRange(a);
    MonthRange(b);
  }
}
