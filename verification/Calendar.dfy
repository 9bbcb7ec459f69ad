// `tm_to_time_t_utc`: a closed form for the seconds since 1970-01-01, against
// counting days year by year and month by month.
module Calendar {
  /** `struct tm`: years since 1900, months from 0. */
  datatype Tm = Tm(year: int, mon: int, mday: int, hour: int, min: int, sec: int)

  // ---- Counting ----

  predicate Leap(y: int) { y % 4 == 0 && (y % 100 != 0 || y % 400 == 0) }
  function YearLen(y: int): int { if Leap(y) then 366 else 365 }

  function MonthLen(y: int, mon: int): (n: int)
    requires 0 <= mon < 12
    ensures 28 <= n <= 31
  {
    if mon == 1 then (if Leap(y) then 29 else 28)
    else if mon == 3 || mon == 5 || mon == 8 || mon == 10 then 30
    else 31
  }

  /** Days from 1970-01-01 to the first day of year `y`, counted year by year. */
  function DaysToYear(y: int): int
    decreases if y >= 1970 then y - 1970 else 1970 - y
  {
    if y == 1970 then 0
    else if y > 1970 then DaysToYear(y - 1) + YearLen(y - 1)
    else DaysToYear(y + 1) - YearLen(y)
  }

  /** Days from the start of year `y` to the start of month `mon`. */
  function DaysToMonth(y: int, mon: int): int
    requires 0 <= mon <= 12
  {
    if mon == 0 then 0 else DaysToMonth(y, mon - 1) + MonthLen(y, mon - 1)
  }

  predicate Valid(t: Tm) {
    && 0 <= t.mon < 12 && 1 <= t.mday <= MonthLen(t.year + 1900, t.mon)
    && 0 <= t.hour < 24 && 0 <= t.min < 60 && 0 <= t.sec < 60
  }

  function DayNumber(t: Tm): int
    requires Valid(t)
  {
    DaysToYear(t.year + 1900) + DaysToMonth(t.year + 1900, t.mon) + t.mday - 1
  }

  function Counted(t: Tm): int
    requires Valid(t)
  {
    86400 * DayNumber(t) + 3600 * t.hour + 60 * t.min + t.sec
  }

  // ---- The code ----

  /** C division by a positive constant. */
  function TruncDiv(a: int, b: int): int
    requires b > 0
  {
    if a >= 0 then a / b else -((-a) / b)
  }

  /** Assigning to an `unsigned`. */
  function Unsigned(n: int): int { n % 0x1_0000_0000 }

  /** Days from 1970-01-01 to day `doy` of the year that starts on March 1 of
      `y`; `yoe` and `doe` are unsigned. */
  function EraDays(y: int, doy: int): int {
    var era := TruncDiv(if y >= 0 then y else y - 399, 400);
    var yoe := Unsigned(y - era * 400);
    var doe := Unsigned(yoe * 365 + yoe / 4 - yoe / 100 + doy);
    era * 146097 + doe - 719468
  }

  /** `tm_to_time_t_utc`. */
  function TmToTime(t: Tm): int {
    var m := t.mon + 1;
    var y := t.year + 1900 - if m <= 2 then 1 else 0;
    var doy := Unsigned((153 * (m + if m > 2 then -3 else 9) + 2) / 5 + t.mday - 1);
    EraDays(y, doy) * 86400 + t.hour * 3600 + t.min * 60 + t.sec
  }

  // ---- Agreement ----

  /** Days from 0000-03-01 to March 1 of year `y`. */
  function March(y: int): int { 365 * y + y / 4 - y / 100 + y / 400 }

  lemma EraSplit(y: int)
    ensures var era := TruncDiv(if y >= 0 then y else y - 399, 400);
            var yoe := y - era * 400;
            era == y / 400 && 0 <= yoe < 400 &&
            era * 146097 + yoe * 365 + yoe / 4 - yoe / 100 == March(y)
  {
    EraIs(y);
    Leaps(y / 400, y % 400);
  }

  lemma EraIs(y: int)
    ensures TruncDiv(if y >= 0 then y else y - 399, 400) == y / 400
  {
  }

  lemma Leaps(e: int, r: int)
    requires 0 <= r < 400
    ensures (400 * e + r) / 4 == 100 * e + r / 4
    ensures (400 * e + r) / 100 == 4 * e + r / 100
    ensures (400 * e + r) / 400 == e
  {
  }

  lemma Steps(y: int)
    ensures y / 4 - (y - 1) / 4 == if y % 4 == 0 then 1 else 0
    ensures y / 100 - (y - 1) / 100 == if y % 100 == 0 then 1 else 0
    ensures y / 400 - (y - 1) / 400 == if y % 400 == 0 then 1 else 0
  {
  }

  lemma Multiples(y: int)
    ensures y % 400 == 0 ==> y % 100 == 0
    ensures y % 100 == 0 ==> y % 4 == 0
  {
  }

  lemma MarchStep(y: int)
    ensures March(y) - March(y - 1) == YearLen(y)
  {
    Steps(y);
    Multiples(y);
  }

  lemma {:induction false} YearsAgree(y: int)
    ensures DaysToYear(y) == March(y - 1) + 306 - 719468
    decreases if y >= 1970 then y - 1970 else 1970 - y
  {
    if y > 1970 {
      YearsAgree(y - 1);
      MarchStep(y - 1);
    } else if y < 1970 {
      YearsAgree(y + 1);
      MarchStep(y);
    }
  }

  lemma MonthsAgree(y: int, mon: int)
    requires 0 <= mon < 12
    ensures var m := mon + 1;
            var doy := (153 * (m + if m > 2 then -3 else 9) + 2) / 5;
            if m <= 2 then doy == 306 + DaysToMonth(y, mon)
            else doy + YearLen(y) == 306 + DaysToMonth(y, mon)
  {
  }

  lemma NoWrap(n: int)
    requires 0 <= n < 0x1_0000_0000
    ensures Unsigned(n) == n
  {
  }

  lemma DayOfEra(yoe: int, doy: int)
    requires 0 <= yoe < 400 && 0 <= doy < 400
    ensures Unsigned(yoe) == yoe
    ensures Unsigned(yoe * 365 + yoe / 4 - yoe / 100 + doy) == yoe * 365 + yoe / 4 - yoe / 100 + doy
  {
    NoWrap(yoe);
    NoWrap(yoe * 365 + yoe / 4 - yoe / 100 + doy);
  }

  lemma EraDaysIs(y: int, doy: int)
    requires 0 <= doy < 400
    ensures EraDays(y, doy) == March(y) + doy - 719468
  {
    EraSplit(y);
    DayOfEra(y - TruncDiv(if y >= 0 then y else y - 399, 400) * 400, doy);
  }

  /** In a valid date none of the unsigned values wraps. */
  lemma DaysSinceMarch(t: Tm)
    requires Valid(t)
    ensures var m := t.mon + 1;
            var y := t.year + 1900 - if m <= 2 then 1 else 0;
            var doy := (153 * (m + if m > 2 then -3 else 9) + 2) / 5 + t.mday - 1;
            TmToTime(t) == 86400 * (March(y) + doy - 719468) + 3600 * t.hour + 60 * t.min + t.sec
  {
    var m := t.mon + 1;
    var y := t.year + 1900 - if m <= 2 then 1 else 0;
    var doy := (153 * (m + if m > 2 then -3 else 9) + 2) / 5 + t.mday - 1;
    NoWrap(doy);
    EraDaysIs(y, doy);
  }

  /** For every year, negative ones included, the closed form is the count. */
  lemma ClosedFormCounts(t: Tm)
    requires Valid(t)
    ensures TmToTime(t) == Counted(t)
  {
    var y := t.year + 1900;
    DaysSinceMarch(t);
    YearsAgree(y);
    MarchStep(y);
    MonthsAgree(y, t.mon);
  }

  // ---- Order ----

  /** Calendar order of dates and times. */
  predicate Earlier(a: Tm, b: Tm) {
    if a.year != b.year then a.year < b.year
    else if a.mon != b.mon then a.mon < b.mon
    else if a.mday != b.mday then a.mday < b.mday
    else if a.hour != b.hour then a.hour < b.hour
    else if a.min != b.min then a.min < b.min
    else a.sec < b.sec
  }

  lemma {:induction false} YearsOrdered(x: int, y: int)
    requires x < y
    ensures DaysToYear(x) + YearLen(x) <= DaysToYear(y)
    decreases y - x
  {
    assert DaysToYear(x + 1) == DaysToYear(x) + YearLen(x);
    if x + 1 < y {
      YearsOrdered(x + 1, y);
    }
  }

  lemma {:induction false} MonthsOrdered(y: int, a: int, b: int)
    requires 0 <= a < b <= 12
    ensures DaysToMonth(y, a) + MonthLen(y, a) <= DaysToMonth(y, b)
    decreases b
  {
    if a + 1 < b {
      MonthsOrdered(y, a, b - 1);
    }
  }

  lemma {:induction false} MonthsNonNeg(y: int, m: int)
    requires 0 <= m <= 12
    ensures 0 <= DaysToMonth(y, m)
    ensures m == 12 ==> DaysToMonth(y, m) == YearLen(y)
  {
    if m == 12 {
      MonthsAgree(y, 11);
    } else if m > 0 {
      MonthsNonNeg(y, m - 1);
    }
  }

  lemma DayInYear(t: Tm)
    requires Valid(t)
    ensures var y := t.year + 1900;
            DaysToYear(y) <= DayNumber(t) < DaysToYear(y) + YearLen(y)
  {
    var y := t.year + 1900;
    MonthsNonNeg(y, t.mon);
    MonthsNonNeg(y, 12);
    MonthsOrdered(y, t.mon, 12);
  }

  /** The conversion is strictly increasing in calendar order, both ways. */
  lemma StrictlyIncreasing(a: Tm, b: Tm)
    requires Valid(a) && Valid(b)
    ensures Earlier(a, b) <==> TmToTime(a) < TmToTime(b)
    ensures a == b <==> TmToTime(a) == TmToTime(b)
  {
    if Earlier(a, b) {
      Increasing(a, b);
    } else if a != b {
      assert Earlier(b, a);
      Increasing(b, a);
    }
  }

  lemma Increasing(a: Tm, b: Tm)
    requires Valid(a) && Valid(b) && Earlier(a, b)
    ensures TmToTime(a) < TmToTime(b)
  {
    ClosedFormCounts(a);
    ClosedFormCounts(b);
    CountedIncreases(a, b);
  }

  lemma CountedIncreases(a: Tm, b: Tm)
    requires Valid(a) && Valid(b) && Earlier(a, b)
    ensures Counted(a) < Counted(b)
  {
    if a.year == b.year && a.mon == b.mon && a.mday == b.mday {
      SecondsIncrease(DayNumber(a), DayNumber(b), a, b);
    } else {
      DaysIncrease(a, b);
      SecondsIncrease(DayNumber(a), DayNumber(b), a, b);
    }
  }

  lemma SecondsIncrease(m: int, n: int, a: Tm, b: Tm)
    requires Valid(a) && Valid(b) && (m < n || (m == n && Earlier(a.(year := b.year, mon := b.mon, mday := b.mday), b)))
    ensures 86400 * m + 3600 * a.hour + 60 * a.min + a.sec < 86400 * n + 3600 * b.hour + 60 * b.min + b.sec
  {
  }

  lemma DaysIncrease(a: Tm, b: Tm)
    requires Valid(a) && Valid(b) && Earlier(a, b)
    requires a.year != b.year || a.mon != b.mon || a.mday != b.mday
    ensures DayNumber(a) < DayNumber(b)
  {
    if a.year != b.year {
      YearsOrdered(a.year + 1900, b.year + 1900);
      DayInYear(a);
      DayInYear(b);
    } else if a.mon != b.mon {
      MonthsOrdered(a.year + 1900, a.mon, b.mon);
    }
  }

  // ---- Back again ----

  /** Year and day of the year, walking forward from year `y`. */
  function YearFrom(y: int, days: nat): (r: (int, nat))
    ensures r.0 >= y && r.1 < YearLen(r.0)
    ensures y >= 1970 ==> DaysToYear(r.0) + r.1 == DaysToYear(y) + days
    decreases days
  {
    if days < YearLen(y) then (y, days) else YearFrom(y + 1, days - YearLen(y))
  }

  /** Month and day of the month, walking forward from month `m`. */
  function MonthFrom(y: int, m: int, days: nat): (r: (int, nat))
    requires 0 <= m < 12 && DaysToMonth(y, m) + days < YearLen(y)
    ensures 0 <= r.0 < 12 && r.1 < MonthLen(y, r.0)
    ensures DaysToMonth(y, r.0) + r.1 == DaysToMonth(y, m) + days
    decreases 12 - m
  {
    if days < MonthLen(y, m) then (m, days)
    else
      MonthsNonNeg(y, 12);
      MonthFrom(y, m + 1, days - MonthLen(y, m))
  }

  /** gmtime for times from 1970 on. */
  function Gmtime(t: nat): (r: Tm)
    ensures Valid(r) && r.year >= 70
  {
    var (y, yday) := YearFrom(1970, t / 86400);
    var (mon, mday) := MonthFrom(y, 0, yday);
    var s := t % 86400;
    Tm(y - 1900, mon, mday + 1, s / 3600, s / 60 % 60, s % 60)
  }

  /** The conversion undoes gmtime. */
  lemma GmtimeInverse(t: nat)
    ensures TmToTime(Gmtime(t)) == t
  {
    ClosedFormCounts(Gmtime(t));
    SplitClock(t % 86400);
    assert DayNumber(Gmtime(t)) == t / 86400;
  }

  lemma SplitClock(s: nat)
    ensures s == 3600 * (s / 3600) + 60 * (s / 60 % 60) + s % 60
  {
  }

  const LAST := 253402300799  // 9999-12-31 23:59:59

  lemma YearTenThousand()
    ensures Valid(Tm(8100, 0, 1, 0, 0, 0)) && TmToTime(Tm(8100, 0, 1, 0, 0, 0)) == LAST + 1
  {
    DaysSinceMarch(Tm(8100, 0, 1, 0, 0, 0));
    assert March(9999) == 3652059;
  }

  lemma FourDigitYears(t: nat)
    ensures t <= LAST <==> Gmtime(t).year + 1900 <= 9999
  {
    var r := Gmtime(t);
    var edge := Tm(8100, 0, 1, 0, 0, 0);
    GmtimeInverse(t);
    YearTenThousand();
    StrictlyIncreasing(r, edge);
  }
}
