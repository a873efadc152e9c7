/**
 * The part of JavaScript's `Date` that the date helpers use, in the
 * proleptic Gregorian calendar and UTC: `Date.UTC(y, monthIndex, day)` and
 * the `getUTCFullYear` / `getUTCMonth` / `getUTCDate` readers. A time value
 * is represented by its day number, the count of days since 1970-01-01:
 * every time the helpers build is a whole number of days, and they only
 * compare time values and divide their differences by one day.
 */
module UtcCalendar {

  /** Gregorian leap years. */
  predicate Leap(y: int) {
    y % 4 == 0 && (y % 100 != 0 || y % 400 == 0)
  }

  function YearDays(y: int): (n: int)
    ensures n == 365 || n == 366
    ensures n == 366 <==> Leap(y)
  {
    if Leap(y) then 366 else 365
  }

  function DaysInMonth(y: int, m: int): (n: int)
    requires 1 <= m <= 12
    ensures 28 <= n <= 31
    ensures n == 29 <==> m == 2 && Leap(y)
  {
    if m == 2 then (if Leap(y) then 29 else 28)
    else if m == 4 || m == 6 || m == 9 || m == 11 then 30
    else 31
  }

  /** The day number of 1 January of year `y`, counted from 1970 one year at
      a time. */
  function YearStart(y: int): int
    decreases if y >= 1970 then y - 1970 else 1970 - y
  {
    if y == 1970 then 0
    else if y > 1970 then YearStart(y - 1) + YearDays(y - 1)
    else YearStart(y + 1) - YearDays(y)
  }

  /** Consecutive years are `YearDays` apart. */
  lemma YearStartStep(y: int)
    ensures YearStart(y + 1) == YearStart(y) + YearDays(y)
  {
  }

  /** Later years start later: year `a` ends no later than year `b` starts. */
  lemma {:induction false} YearStartMono(a: int, b: int)
    requires a < b
    ensures YearStart(a + 1) <= YearStart(b)
    decreases b - a
  {
    if a + 1 < b {
      YearStartMono(a, b - 1);
      YearStartStep(b - 1);
    }
  }

  /** Days from 1 January to the first of month `m` (13 stands for the next
      1 January). */
  function MonthStart(y: int, m: int): (n: int)
    requires 1 <= m <= 13
    ensures 0 <= n <= YearDays(y)
    ensures m == 13 <==> n == YearDays(y)
  {
    var before :=
      if m == 1 then 0 else if m == 2 then 31 else if m == 3 then 59
      else if m == 4 then 90 else if m == 5 then 120 else if m == 6 then 151
      else if m == 7 then 181 else if m == 8 then 212 else if m == 9 then 243
      else if m == 10 then 273 else if m == 11 then 304 else if m == 12 then 334
      else 365;
    before + (if m > 2 && Leap(y) then 1 else 0)
  }

  /** Consecutive months are `DaysInMonth` apart. */
  lemma MonthStartNext(y: int, m: int)
    requires 1 <= m <= 12
    ensures MonthStart(y, m + 1) == MonthStart(y, m) + DaysInMonth(y, m)
  {
  }

  /** Later months start later. */
  lemma {:induction false} MonthStartMono(y: int, a: int, b: int)
    requires 1 <= a < b <= 13
    ensures MonthStart(y, a + 1) <= MonthStart(y, b)
    decreases b - a
  {
    MonthStartNext(y, b - 1);
    if a + 1 < b {
      MonthStartMono(y, a, b - 1);
    }
  }

  /** A calendar date: year, month 1..12 and day of month. */
  datatype Civil = Civil(y: int, m: int, d: int)

  predicate ValidCivil(c: Civil) {
    1 <= c.m <= 12 && 1 <= c.d <= DaysInMonth(c.y, c.m)
  }

  /** The day number of a date; the day of month may lie outside the month,
      as `Date.UTC` allows. */
  function DayOf(c: Civil): int
    requires 1 <= c.m <= 12
  {
    YearStart(c.y) + MonthStart(c.y, c.m) + c.d - 1
  }

  function YearUp(n: int, y: int): (r: int)
    requires YearStart(y) <= n
    ensures YearStart(r) <= n < YearStart(r + 1)
    decreases n - YearStart(y)
  {
    YearStartStep(y);
    if n < YearStart(y + 1) then y else YearUp(n, y + 1)
  }

  function YearDown(n: int, y: int): (r: int)
    requires n < YearStart(y + 1)
    ensures YearStart(r) <= n < YearStart(r + 1)
    decreases YearStart(y + 1) - n
  {
    YearStartStep(y);
    if YearStart(y) <= n then y else YearDown(n, y - 1)
  }

  /** The year that day `n` falls in. */
  function YearOf(n: int): (y: int)
    ensures YearStart(y) <= n < YearStart(y + 1)
  {
    if n >= 0 then YearUp(n, 1970) else YearDown(n, 1969)
  }

  /** A year is determined by any of its days. */
  lemma YearUnique(n: int, y: int)
    requires YearStart(y) <= n < YearStart(y + 1)
    ensures YearOf(n) == y
  {
    var z := YearOf(n);
    if z < y {
      YearStartMono(z, y);
    } else if y < z {
      YearStartMono(y, z);
    }
  }

  function MonthFrom(y: int, r: int, m: int): (k: int)
    requires 1 <= m <= 12 && MonthStart(y, m) <= r < YearDays(y)
    ensures m <= k <= 12 && MonthStart(y, k) <= r < MonthStart(y, k + 1)
    decreases 12 - m
  {
    if m == 12 || r < MonthStart(y, m + 1) then m else MonthFrom(y, r, m + 1)
  }

  /** The month that day `r` of year `y` (counted from 0) falls in. */
  function MonthOf(y: int, r: int): (m: int)
    requires 0 <= r < YearDays(y)
    ensures 1 <= m <= 12 && MonthStart(y, m) <= r < MonthStart(y, m + 1)
  {
    MonthFrom(y, r, 1)
  }

  /** A month is determined by any of its days. */
  lemma MonthUnique(y: int, r: int, m: int)
    requires 1 <= m <= 12 && MonthStart(y, m) <= r < MonthStart(y, m + 1)
    ensures MonthOf(y, r) == m
  {
    var k := MonthOf(y, r);
    if k < m {
      MonthStartMono(y, k, m);
    } else if m < k {
      MonthStartMono(y, m, k);
    }
  }

  /** The calendar date of day `n`: what `getUTCFullYear`, `getUTCMonth() + 1`
      and `getUTCDate` read. */
  function CivilOf(n: int): (c: Civil)
    ensures ValidCivil(c) && DayOf(c) == n
  {
    var y := YearOf(n);
    YearStartStep(y);
    var m := MonthOf(y, n - YearStart(y));
    MonthStartNext(y, m);
    Civil(y, m, n - YearStart(y) - MonthStart(y, m) + 1)
  }

  /** Day numbers and valid dates correspond one to one. */
  lemma CivilRoundTrip(c: Civil)
    requires ValidCivil(c)
    ensures CivilOf(DayOf(c)) == c
  {
    var n := DayOf(c);
    YearStartStep(c.y);
    YearUnique(n, c.y);
    var r := n - YearStart(c.y);
    MonthUnique(c.y, r, c.m);
    assert YearOf(n) == c.y;
    assert 0 <= r < YearDays(c.y);
    assert MonthOf(c.y, r) == c.m;
    CivilOfParts(n, c.y, c.m);
  }

  lemma CivilOfParts(n: int, y: int, m: int)
    requires YearOf(n) == y
    requires 0 <= n - YearStart(y) < YearDays(y) && MonthOf(y, n - YearStart(y)) == m
    ensures CivilOf(n) == Civil(y, m, n - YearStart(y) - MonthStart(y, m) + 1)
  {
  }

  /** Later days never fall in an earlier year. */
  lemma YearOfMono(a: int, b: int)
    requires a <= b
    ensures YearOf(a) <= YearOf(b)
  {
    var ya, yb := YearOf(a), YearOf(b);
    if yb < ya {
      YearStartMono(yb, ya);
    }
  }

  /** A day from 1 January of year `y` on falls in year `y` or later. */
  lemma YearOfFrom(n: int, y: int)
    requires YearStart(y) <= n
    ensures CivilOf(n).y >= y
  {
    var z := YearOf(n);
    if z < y {
      YearStartMono(z, y);
    }
  }

  /** `MakeYear` in `Date.UTC`: a year from 0 to 99 means 1900 + year. */
  function MakeYear(y: int): (r: int)
    ensures !(0 <= y <= 99) ==> r == y
  {
    if 0 <= y <= 99 then 1900 + y else y
  }

  /** `Date.UTC(y, monthIndex, day)` on whole numbers, as a day number:
      months outside 0..11 carry into the year and the day may lie outside
      the month. */
  function MakeDay(y: int, monthIndex: int, day: int): int {
    DayFrom(MakeYear(y), monthIndex, day)
  }

  /** Day `day` of month index `monthIndex` counted from January of year
      `ym`, twelve months to a year. */
  function DayFrom(ym: int, monthIndex: int, day: int): int
    decreases if monthIndex < 0 then 12 - monthIndex else monthIndex
  {
    if monthIndex < 0 then DayFrom(ym - 1, monthIndex + 12, day)
    else if monthIndex >= 12 then DayFrom(ym + 1, monthIndex - 12, day)
    else YearStart(ym) + MonthStart(ym, monthIndex + 1) + day - 1
  }

  /** Within a year, `Date.UTC` gives the day number of the date it names. */
  lemma MakeDayIs(y: int, monthIndex: int, day: int)
    requires 0 <= monthIndex < 12
    ensures MakeDay(y, monthIndex, day) == DayOf(Civil(MakeYear(y), monthIndex + 1, day))
  {
  }

  /** The length of month `m` of year `ym`, where a month outside 1..12
      carries into the year as `Date.UTC` does. */
  function MonthLength(ym: int, m: int): (n: int)
    ensures 28 <= n <= 31
    ensures 1 <= m <= 12 ==> n == DaysInMonth(ym, m)
    decreases if m < 1 then 13 - m else m
  {
    if m < 1 then MonthLength(ym - 1, m + 12)
    else if m > 12 then MonthLength(ym + 1, m - 12)
    else DaysInMonth(ym, m)
  }

  /** Day 0 of month index `m` (counted from January of year `ym`) is the last
      day of month `m` (counted from 1), whatever the month index. */
  lemma {:induction false} DayZeroLength(ym: int, m: int)
    ensures CivilOf(DayFrom(ym, m, 0)).d == MonthLength(ym, m)
    decreases if m < 0 then 12 - m else m
  {
    if m < 0 {
      DayZeroLength(ym - 1, m + 12);
    } else if m >= 12 {
      DayZeroLength(ym + 1, m - 12);
      if m == 12 {
        assert MonthLength(ym + 1, 0) == MonthLength(ym, 12);
      }
    } else if m == 0 {
      var last := Civil(ym - 1, 12, 31);
      YearStartStep(ym - 1);
      assert DayFrom(ym, m, 0) == DayOf(last);
      CivilRoundTrip(last);
    } else {
      var last := Civil(ym, m, DaysInMonth(ym, m));
      MonthStartNext(ym, m);
      assert DayFrom(ym, m, 0) == DayOf(last);
      CivilRoundTrip(last);
    }
  }
}
