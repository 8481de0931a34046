/** The civil-date arithmetic of the HTTP clock (src/clock.rs). */
module CivilDate {
  // ------------------------------------------------------------------------
  // The Gregorian calendar, counted naively
  // ------------------------------------------------------------------------

  datatype Date = Date(year: int, month: int, day: int)

  predicate Leap(y: int) {
    y % 4 == 0 && (y % 100 != 0 || y % 400 == 0)
  }

  function YearDays(y: int): int {
    if Leap(y) then 366 else 365
  }

  function MonthDays(y: int, m: int): int {
    if m == 2 then (if Leap(y) then 29 else 28)
    else if m == 4 || m == 6 || m == 9 || m == 11 then 30
    else 31
  }

  predicate Valid(d: Date) {
    1 <= d.month <= 12 && 1 <= d.day <= MonthDays(d.year, d.month)
  }

  /** The calendar day after d. */
  function NextDay(d: Date): Date {
    if d.day < MonthDays(d.year, d.month) then d.(day := d.day + 1)
    else if d.month < 12 then Date(d.year, d.month + 1, 1)
    else Date(d.year + 1, 1, 1)
  }

  /** Days of the years 0 .. y-1, one year at a time. */
  function DaysToYear(y: nat): nat {
    if y == 0 then 0 else DaysToYear(y - 1) + YearDays(y - 1)
  }

  /** Days of the months before m in year y, one month at a time. */
  function DaysToMonth(y: int, m: int): int
    requires 1 <= m <= 12
    decreases m
  {
    if m == 1 then 0 else DaysToMonth(y, m - 1) + MonthDays(y, m - 1)
  }

  /** Days since the first day of year 0 to the first of the month, plus day - 1. */
  function NaiveDays(d: Date): int
    requires d.year >= 0 && 1 <= d.month <= 12
  {
    DaysToYear(d.year) + DaysToMonth(d.year, d.month) + d.day - 1
  }

  // ------------------------------------------------------------------------
  // The era formula
  // ------------------------------------------------------------------------

  /** Integer division that truncates toward zero, as the program's `/` does. */
  function TruncDiv(a: int, b: int): int
    requires b > 0
  {
    if a >= 0 then a / b else -((-a) / b)
  }

  function EraDays(year: int, month: int, day: int): int {
    var y := if month <= 2 then year - 1 else year;
    var era := TruncDiv(if y >= 0 then y else y - 399, 400);
    var yoe := y - era * 400;
    var mp := (month + 9) % 12;
    var doy := (153 * mp + 2) / 5 + day - 1;
    var doe := yoe * 365 + yoe / 4 - yoe / 100 + doy;
    era * 146_097 + doe - 719_468
  }

  // ------------------------------------------------------------------------
  // Agreement
  // ------------------------------------------------------------------------

  /** Days from 1 March of year 0 to 1 March of year y. */
  function MarchDays(y: int): int {
    365 * y + y / 4 - y / 100 + y / 400
  }

  /** Days from 1 March to the first of month m. */
  function FromMarch(m: int): int {
    (153 * ((m + 9) % 12) + 2) / 5
  }

  lemma EraIsMarchDays(year: int, month: int, day: int)
    ensures
      var y := if month <= 2 then year - 1 else year;
      EraDays(year, month, day) == MarchDays(y) + FromMarch(month) + day - 1 - 719_468
  {
    var y := if month <= 2 then year - 1 else year;
    var era := TruncDiv(if y >= 0 then y else y - 399, 400);
    assert era == y / 400;
    var yoe := y - era * 400;
    assert 0 <= yoe < 400;
    assert y / 4 == 100 * era + yoe / 4;
    assert y / 100 == 4 * era + yoe / 100;
  }

  lemma {:induction false} DaysToYearClosed(y: nat)
    ensures DaysToYear(y) == 365 * y + (y + 3) / 4 - (y + 99) / 100 + (y + 399) / 400
  {
    if y > 0 {
      DaysToYearClosed(y - 1);
      LeapSteps(y - 1);
    }
  }

  lemma LeapSteps(y: int)
    ensures YearDays(y) == 365 + ((y + 4) / 4 - (y + 3) / 4) - ((y + 100) / 100 - (y + 99) / 100)
                           + ((y + 400) / 400 - (y + 399) / 400)
  {
    Step4(y);
    Step100(y);
    Step400(y);
    Multiples(y);
  }

  lemma Step4(y: int)
    ensures (y + 4) / 4 - (y + 3) / 4 == if y % 4 == 0 then 1 else 0
  {
  }

  lemma Step100(y: int)
    ensures (y + 100) / 100 - (y + 99) / 100 == if y % 100 == 0 then 1 else 0
  {
  }

  lemma Step400(y: int)
    ensures (y + 400) / 400 - (y + 399) / 400 == if y % 400 == 0 then 1 else 0
  {
  }

  lemma Multiples(y: int)
    ensures (y % 400 == 0 ==> y % 100 == 0) && (y % 100 == 0 ==> y % 4 == 0)
  {
  }

  lemma {:induction false} MonthTable(y: int, m: int)
    requires 1 <= m <= 12
    ensures DaysToMonth(y, m) ==
      if m == 1 then 0 else if m == 2 then 31
      else FromMarch(m) + 59 + if Leap(y) then 1 else 0
    ensures m <= 2 ==> FromMarch(m) == if m == 1 then 306 else 337
  {
    hide FromMarch, Leap;
    JanuaryFebruary();
    if m > 1 { MonthTable(y, m - 1); }
    if m > 3 { MonthStep(y, m - 1); }
  }

  lemma JanuaryFebruary()
    ensures FromMarch(1) == 306 && FromMarch(2) == 337 && FromMarch(3) == 0
  {
  }

  /** The era formula counts days exactly as the naive calendar does, up to the fixed epoch. */
  lemma EraIsNaive(d: Date)
    requires d.year >= 0 && 1 <= d.month <= 12
    ensures EraDays(d.year, d.month, d.day) == NaiveDays(d) - 719_528
  {
    hide EraDays, MarchDays, FromMarch, DaysToMonth, DaysToYear, Leap;
    EraIsMarchDays(d.year, d.month, d.day);
    DaysToYearClosed(d.year);
    MonthTable(d.year, d.month);
    MarchVsJanuary(d.year);
  }

  lemma MarchVsJanuary(y: int)
    ensures MarchDays(y) + 60 == 365 * y + (y + 3) / 4 - (y + 99) / 100 + (y + 399) / 400 + 59 + if Leap(y) then 1 else 0
    ensures MarchDays(y - 1) + 366 == 365 * y + (y + 3) / 4 - (y + 99) / 100 + (y + 399) / 400
  {
    assert (y + 3) / 4 - (y - 1) / 4 == 1;
    assert (y + 99) / 100 - (y - 1) / 100 == 1;
    assert (y + 399) / 400 - (y - 1) / 400 == 1;
    LeapSteps(y);
  }

  /**
    Gregorian correctness: for every year from 0 on and every month, the formula is the number of
    days from 1970-01-01 to the first of the month, plus day - 1.
  */
  lemma GregorianCorrect(d: Date)
    requires d.year >= 0 && 1 <= d.month <= 12
    ensures EraDays(d.year, d.month, d.day) == NaiveDays(d) - NaiveDays(Date(1970, 1, 1))
  {
    EraIsNaive(d);
    EraIsNaive(Date(1970, 1, 1));
  }

  lemma MonthStep(y: int, m: int)
    requires 1 <= m <= 12
    ensures m != 2 ==> FromMarch(if m == 12 then 1 else m + 1) == FromMarch(m) + MonthDays(y, m)
    ensures FromMarch(2) == 337 && FromMarch(3) == 0
  {
  }

  lemma LeapFromMarch(y: int)
    ensures MarchDays(y) - MarchDays(y - 1) == 337 + MonthDays(y, 2)
  {
    MarchVsJanuary(y);
  }

  /** Day by day: in every year, past or future, the next calendar day has the next number. */
  lemma NextDayIsNext(d: Date)
    requires Valid(d)
    ensures Valid(NextDay(d))
    ensures var n := NextDay(d); EraDays(n.year, n.month, n.day) == EraDays(d.year, d.month, d.day) + 1
  {
    hide EraDays, FromMarch, MarchDays;
    var n := NextDay(d);
    EraIsMarchDays(d.year, d.month, d.day);
    EraIsMarchDays(n.year, n.month, n.day);
    MonthStep(d.year, d.month);
    LeapFromMarch(d.year);
  }

  // ------------------------------------------------------------------------
  // Timestamps
  // ------------------------------------------------------------------------

  datatype DateTime = DateTime(date: Date, hour: int, minute: int, second: int)

  predicate ValidTime(t: DateTime) {
    Valid(t.date) && t.date.year >= 1 && 0 <= t.hour <= 23 && 0 <= t.minute <= 59 && 0 <= t.second <= 59
  }

  function Timestamp(t: DateTime): int {
    EraDays(t.date.year, t.date.month, t.date.day) * 86_400 + t.hour * 3600 + t.minute * 60 + t.second
  }

  predicate DateBefore(a: Date, b: Date) {
    a.year < b.year || (a.year == b.year && (a.month < b.month || (a.month == b.month && a.day < b.day)))
  }

  predicate Before(a: DateTime, b: DateTime) {
    || DateBefore(a.date, b.date)
    || (a.date == b.date &&
        (a.hour < b.hour || (a.hour == b.hour && (a.minute < b.minute || (a.minute == b.minute && a.second < b.second)))))
  }

  lemma {:induction false} MonthsGrow(y: int, m: int, n: int)
    requires 1 <= m < n <= 12
    ensures DaysToMonth(y, m) + MonthDays(y, m) <= DaysToMonth(y, n)
  {
    if m + 1 < n { MonthsGrow(y, m, n - 1); }
  }

  lemma {:induction false} YearsGrow(y: nat, z: nat)
    requires y < z
    ensures DaysToYear(y) + YearDays(y) <= DaysToYear(z)
  {
    if y + 1 < z { YearsGrow(y, z - 1); }
  }

  lemma YearHoldsMonths(y: int)
    ensures DaysToMonth(y, 12) + 31 == YearDays(y)
  {
    MonthTable(y, 12);
  }

  lemma DatesOrdered(a: Date, b: Date)
    requires Valid(a) && Valid(b) && a.year >= 0 && b.year >= 0 && DateBefore(a, b)
    ensures EraDays(a.year, a.month, a.day) < EraDays(b.year, b.month, b.day)
  {
    EraIsNaive(a);
    EraIsNaive(b);
    if a.year < b.year {
      YearsGrow(a.year, b.year);
      YearHoldsMonths(a.year);
      if a.month < 12 { MonthsGrow(a.year, a.month, 12); }
      if 1 < b.month { MonthsGrow(b.year, 1, b.month); }
    } else if a.month < b.month {
      MonthsGrow(a.year, a.month, b.month);
    }
  }

  lemma TimestampsOrdered(a: DateTime, b: DateTime)
    requires ValidTime(a) && ValidTime(b) && Before(a, b)
    ensures Timestamp(a) < Timestamp(b)
  {
    hide EraDays;
    if DateBefore(a.date, b.date) { DatesOrdered(a.date, b.date); }
  }

  /** Timestamps order exactly as calendar date-times do. */
  lemma OrderExact(a: DateTime, b: DateTime)
    requires ValidTime(a) && ValidTime(b)
    ensures Timestamp(a) < Timestamp(b) <==> Before(a, b)
  {
    hide EraDays;
    if Before(a, b) {
      TimestampsOrdered(a, b);
    } else if Before(b, a) {
      TimestampsOrdered(b, a);
    } else {
      assert a == b;
    }
  }

  const I64_MAX := 0x7fff_ffff_ffff_ffff

  /** No intermediate value of the formula leaves 64 bits for the components the parser lets through. */
  lemma NoOverflow(t: DateTime)
    requires 1 <= t.date.year <= 9999 && 1 <= t.date.month <= 12 && 1 <= t.date.day <= 31
    requires 0 <= t.hour <= 23 && 0 <= t.minute <= 59 && 0 <= t.second <= 60
    ensures
      var y := if t.date.month <= 2 then t.date.year - 1 else t.date.year;
      var era := TruncDiv(if y >= 0 then y else y - 399, 400);
      var yoe := y - era * 400;
      var mp := (t.date.month + 9) % 12;
      var doy := (153 * mp + 2) / 5 + t.date.day - 1;
      && 0 <= y <= 9999 && 0 <= era <= 24 && 0 <= era * 400 <= 9600 && 0 <= era * 146_097 <= 3_506_328
      && 0 <= yoe <= 399 && 0 <= yoe * 365 <= 145_635 && 0 <= mp <= 11 && 2 <= 153 * mp + 2 <= 1685
      && 0 <= doy <= 367 && 0 <= yoe * 365 + yoe / 4 - yoe / 100 + doy <= 146_099
    ensures -719_468 <= EraDays(t.date.year, t.date.month, t.date.day) <= 2_932_897
    ensures -I64_MAX <= EraDays(t.date.year, t.date.month, t.date.day) * 86_400 <= I64_MAX
    ensures -I64_MAX <= Timestamp(t) <= I64_MAX
  {
    EraIsMarchDays(t.date.year, t.date.month, t.date.day);
  }
}
