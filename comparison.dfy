/**
 * The comparison helpers of src/lib/analytics/comparison.js: the period a
 * date range is compared against (the previous period or the previous year)
 * and the change between a current and a compared value.
 */
module Comparison {
  import opened Wrappers
  import opened UtcCalendar
  import opened Dates
  import opened DatesProperties
  import opened JsText

  /** A `{ start, end }` range of `YYYY-MM-DD` strings; a missing endpoint
      is the empty string, which is falsy as `undefined` is. */
  datatype DateRange = DateRange(start: string, end: string)

  /** Unary minus on a Number read from text: NaN stays NaN. */
  function Neg(x: Option<int>): (r: Option<int>)
    ensures r.Some? <==> x.Some?
    ensures r.Some? ==> r.value + x.value == 0
  {
    if x.Some? then Some(-x.value) else None
  }

  /** The range starts on the first of a month and ends on the last day of
      a month. */
  predicate MonthAligned(r: DateRange) {
    r.start == StartOfMonth(r.start) && r.end == EndOfMonth(r.end)
  }

  /** The `mom` compare range of a month-aligned range: as many whole months,
      ending with the month before the start. */
  function MomMonths(r: DateRange): DateRange {
    var months := MonthsInclusive(r.start, r.end);
    DateRange(StartOfMonth(AddMonths(r.start, Neg(months))), EndOfMonth(AddMonths(r.start, Some(-1))))
  }

  /** The `mom` compare range of any other range: as many days, ending the
      day before the start. */
  function MomDays(r: DateRange): DateRange {
    var len := DaysInclusive(r.start, r.end);
    var compareEnd := AddDays(r.start, Some(-1));
    DateRange(AddDays(compareEnd, Neg(Dec(len))), compareEnd)
  }

  function MomRange(r: DateRange): DateRange {
    if MonthAligned(r) then MomMonths(r) else MomDays(r)
  }

  /** `computeCompareRange(range, mode)`: no range without both endpoints,
      for mode `off` and for any mode other than `mom` and `yoy`. */
  function ComputeCompareRange(range: Option<DateRange>, mode: string): (r: Option<DateRange>)
    ensures r.Some? <==>
      range.Some? && range.value.start != "" && range.value.end != "" && (mode == "mom" || mode == "yoy")
    ensures r.Some? && mode == "mom" ==> r.value == MomRange(range.value)
    ensures r.Some? && mode == "yoy" ==>
      r.value == DateRange(SubYear(range.value.start), SubYear(range.value.end))
  {
    if range.None? || range.value.start == "" || range.value.end == "" then None
    else if mode == "off" then None
    else if mode == "mom" then Some(MomRange(range.value))
    else if mode == "yoy" then Some(DateRange(SubYear(range.value.start), SubYear(range.value.end)))
    else None
  }

  /** The empty string is not a date: it has no month piece. */
  lemma EmptyInvalid()
    ensures ParseIsoDateUtc("").None?
  {
    assert Split("", '-') == [""];
  }

  /** Only a non-empty string can be a date. */
  lemma ParsedNonEmpty(s: string)
    requires ParseIsoDateUtc(s).Some?
    ensures s != ""
  {
    EmptyInvalid();
  }

  /** `-(len - 1)` for the day count `len` of a range from day `n` to day
      `m`. */
  lemma DaysBack(start: string, end: string, n: int, m: int)
    requires ParseIsoDateUtc(start) == Some(n) && ParseIsoDateUtc(end) == Some(m)
    ensures Neg(Dec(DaysInclusive(start, end))) == Some(n - m)
  {
    DaysInclusiveIs(start, end, n, m, m - n + 1);
  }

  /** Two `addDays` steps: back one day to `e`, then by `k` to `s`. */
  lemma DayBeforeThenBack(start: string, n: int, e: int, s: int, k: Option<int>)
    requires ParseIsoDateUtc(start) == Some(n)
    requires e == n - 1 && YearOf(e) >= 100 && k == Some(s - e)
    ensures AddDays(start, Some(-1)) == ToIsoDateUtc(Some(e))
    ensures AddDays(AddDays(start, Some(-1)), k) == ToIsoDateUtc(Some(s))
  {
    var compareEnd := AddDays(start, Some(-1));
    AddDaysIs(start, n, -1, e);
    DayRoundTrip(e);
    AddDaysIs(compareEnd, e, s - e, s);
  }

  /** The two `addDays` steps of the day-based `mom` range. */
  lemma MomDaysParts(r: DateRange, n: int, m: int, e: int, s: int)
    requires ParseIsoDateUtc(r.start) == Some(n) && ParseIsoDateUtc(r.end) == Some(m)
    requires e == n - 1 && s == e - (m - n) && YearOf(e) >= 100
    ensures MomDays(r) == DateRange(ToIsoDateUtc(Some(s)), ToIsoDateUtc(Some(e)))
  {
    DaysBack(r.start, r.end, n, m);
    DayBeforeThenBack(r.start, n, e, s, Neg(Dec(DaysInclusive(r.start, r.end))));
  }

  /** A range that is not month-aligned takes the day-based branch. */
  lemma MomIsDays(r: DateRange)
    requires r.start != "" && r.end != "" && !MonthAligned(r)
    ensures ComputeCompareRange(Some(r), "mom") == Some(MomDays(r))
  {
  }

  /** The printed days `s` and `e` read back. */
  lemma PrintedRead(s: int, e: int)
    requires YearOf(s) >= 100 && YearOf(e) >= 100
    ensures ParseIsoDateUtc(ToIsoDateUtc(Some(s))) == Some(s)
    ensures ParseIsoDateUtc(ToIsoDateUtc(Some(e))) == Some(e)
  {
    DayRoundTrip(s);
    DayRoundTrip(e);
  }

  /** The printed days `s` and `e` span `e - s + 1` days. */
  lemma PrintedSpan(s: int, e: int)
    requires YearOf(s) >= 100 && YearOf(e) >= 100
    ensures DaysInclusive(ToIsoDateUtc(Some(s)), ToIsoDateUtc(Some(e))) == Some(e - s + 1)
  {
    PrintedRead(s, e);
    SpanOf(ToIsoDateUtc(Some(s)), ToIsoDateUtc(Some(e)), s, e);
  }

  /** Dates read as days `s` and `e` span `e - s + 1` days. */
  lemma SpanOf(a: string, b: string, s: int, e: int)
    requires ParseIsoDateUtc(a) == Some(s) && ParseIsoDateUtc(b) == Some(e)
    ensures DaysInclusive(a, b) == Some(e - s + 1)
  {
  }

  /** A `mom` range that is not month-aligned, from day `n` to day `m`, is
      compared with the range that ends on day `e`, the day before its
      start, and starts `m - n` days before that, on day `s`; by
      `PrintedSpan` that range reads back as days `s` to `e`, which are as
      many days as the range itself spans. */
  lemma MomDaysLands(r: DateRange, n: int, m: int, e: int, s: int)
    requires ParseIsoDateUtc(r.start) == Some(n) && ParseIsoDateUtc(r.end) == Some(m)
    requires !MonthAligned(r)
    requires e == n - 1 && s == e - (m - n) && YearOf(e) >= 100
    ensures ComputeCompareRange(Some(r), "mom") ==
      Some(DateRange(ToIsoDateUtc(Some(s)), ToIsoDateUtc(Some(e))))
  {
    ParsedNonEmpty(r.start);
    ParsedNonEmpty(r.end);
    MomIsDays(r);
    MomDaysParts(r, n, m, e, s);
  }

  /** The day after the last day of the month before `(y, m)` is the first
      of `(y, m)`. */
  lemma MonthBeforeEnds(y: int, m: int)
    requires 1 <= m <= 12
    ensures var b := Landing(y, m, 1, -1);
      1 <= b.m <= 12 && DayOf(Civil(b.y, b.m, DaysInMonth(b.y, b.m))) + 1 == DayOf(Civil(y, m, 1))
  {
    var b := Landing(y, m, 1, -1);
    if m == 1 {
      assert b.y == y - 1 && b.m == 12;
      YearStartStep(y - 1);
    } else {
      assert b.y == y && b.m == m - 1;
      MonthStartNext(y, m - 1);
    }
  }

  /** The calendar facts `MomMonthsLands` needs about its two landings. */
  lemma LandingsValid(y: int, m: int, months: int)
    requires 1 <= m <= 12 && y * 12 + (m - 1) - months >= 1200 && months >= 1
    ensures var a, b := Landing(y, m, 1, -months), Landing(y, m, 1, -1);
      ValidCivil(a) && a.y >= 100 && a.d == 1 && a.y * 12 + (a.m - 1) == y * 12 + (m - 1) - months &&
      ValidCivil(b) && b.y >= 100 && b.d == 1 && b.y * 12 + (b.m - 1) == y * 12 + (m - 1) - 1
  {
    LandingIs(y, m, 1, -months);
    LandingIs(y, m, 1, -1);
  }

  /** A month-aligned range takes the month-based branch. */
  lemma MomIsMonths(r: DateRange)
    requires r.start != "" && r.end != "" && MonthAligned(r)
    ensures ComputeCompareRange(Some(r), "mom") == Some(MomMonths(r))
  {
  }

  /** A month-aligned range starts on the first of its month. */
  lemma AlignedStart(start: string, y: int, m: int)
    requires ParseIsoParts(start).y == Some(y) && ParseIsoParts(start).m == Some(m)
    requires y >= 0 && 1 <= m <= 12 && start == StartOfMonth(start)
    ensures ParseIsoParts(start) == Parts(Some(y), Some(m), Some(1))
  {
    MonthBoundaries(start, y, m);
  }

  /** The start of the month-based range: the first of the month
      `months` months before the start month. */
  lemma MonthsBackStart(start: string, y: int, m: int, months: int, a: Civil)
    requires ParseIsoParts(start) == Parts(Some(y), Some(m), Some(1)) && 1 <= m <= 12
    requires y * 12 + (m - 1) - months >= 1200 && months >= 1 && a == Landing(y, m, 1, -months)
    ensures StartOfMonth(AddMonths(start, Some(-months))) == Iso(Civil(a.y, a.m, 1))
  {
    LandingsValid(y, m, months);
    AddMonthsLands(start, y, m, 1, -months);
    MonthBoundaries(AddMonths(start, Some(-months)), a.y, a.m);
  }

  /** The end of the month-based range: the last day of the month before
      the start month. */
  lemma MonthBackEnd(start: string, y: int, m: int, b: Civil)
    requires ParseIsoParts(start) == Parts(Some(y), Some(m), Some(1)) && 1 <= m <= 12
    requires y * 12 + (m - 1) - 1 >= 1200 && b == Landing(y, m, 1, -1)
    ensures 1 <= b.m <= 12 && EndOfMonth(AddMonths(start, Some(-1))) == Iso(Civil(b.y, b.m, DaysInMonth(b.y, b.m)))
  {
    LandingsValid(y, m, 1);
    AddMonthsLands(start, y, m, 1, -1);
    MonthBoundaries(AddMonths(start, Some(-1)), b.y, b.m);
  }

  /** The month-based range from its two ends. */
  lemma MomMonthsParts(r: DateRange, y: int, m: int, months: int, a: Civil, b: Civil)
    requires ParseIsoParts(r.start) == Parts(Some(y), Some(m), Some(1)) && 1 <= m <= 12
    requires MonthsInclusive(r.start, r.end) == Some(months)
    requires y * 12 + (m - 1) - months >= 1200 && months >= 1
    requires a == Landing(y, m, 1, -months) && b == Landing(y, m, 1, -1)
    ensures 1 <= b.m <= 12
    ensures MomMonths(r) == DateRange(Iso(Civil(a.y, a.m, 1)), Iso(Civil(b.y, b.m, DaysInMonth(b.y, b.m))))
  {
    MonthsBackStart(r.start, y, m, months, a);
    MonthBackEnd(r.start, y, m, b);
  }

  /** A range from month `(y, m)` to month `(y2, m2)` spans `months`
      months. */
  lemma MonthsOf(start: string, end: string, y: int, m: int, y2: int, m2: int, months: int)
    requires ParseIsoParts(start).y == Some(y) && ParseIsoParts(start).m == Some(m)
    requires ParseIsoParts(end).y == Some(y2) && ParseIsoParts(end).m == Some(m2)
    requires months == (y2 * 12 + m2) - (y * 12 + m) + 1
    ensures MonthsInclusive(start, end) == Some(months)
  {
  }

  /** A month-aligned `mom` range of `months` months starting in `(y, m)` is
      compared with the `months` whole months that end with the month
      before `(y, m)`: from the first of month `a`, `months` months before,
      to the last day of month `b`, the month before; `MonthsBefore` says
      that this range spans `months` months and ends the day before the
      start. */
  lemma MomMonthsLands(r: DateRange, y: int, m: int, y2: int, m2: int, months: int, a: Civil, b: Civil)
    requires ParseIsoParts(r.start).y == Some(y) && ParseIsoParts(r.start).m == Some(m)
    requires ParseIsoParts(r.end).y == Some(y2) && ParseIsoParts(r.end).m == Some(m2)
    requires 1 <= m <= 12 && MonthAligned(r)
    requires months == (y2 * 12 + m2) - (y * 12 + m) + 1 && months >= 1
    requires y * 12 + (m - 1) - months >= 1200
    requires a == Landing(y, m, 1, -months) && b == Landing(y, m, 1, -1)
    ensures 1 <= b.m <= 12
    ensures ComputeCompareRange(Some(r), "mom") ==
      Some(DateRange(Iso(Civil(a.y, a.m, 1)), Iso(Civil(b.y, b.m, DaysInMonth(b.y, b.m)))))
  {
    AlignedStart(r.start, y, m);
    MonthsOf(r.start, r.end, y, m, y2, m2, months);
    EmptyInvalid();
    MomIsMonths(r);
    MomMonthsParts(r, y, m, months, a, b);
  }

  /** The month-based range spans `months` whole months, the first being
      `months` before month `(y, m)` and the last the month before it, and
      its last day is the day before the first of `(y, m)`. */
  lemma MonthsBefore(y: int, m: int, months: int, a: Civil, b: Civil)
    requires 1 <= m <= 12 && y * 12 + (m - 1) - months >= 1200 && months >= 1
    requires a == Landing(y, m, 1, -months) && b == Landing(y, m, 1, -1)
    ensures 1 <= b.m <= 12
    ensures a.y * 12 + (a.m - 1) == y * 12 + (m - 1) - months
    ensures b.y * 12 + (b.m - 1) == y * 12 + (m - 1) - 1
    ensures MonthsInclusive(Iso(Civil(a.y, a.m, 1)), Iso(Civil(b.y, b.m, DaysInMonth(b.y, b.m)))) == Some(months)
  {
    LandingsValid(y, m, months);
    ParseFormat(a.y, a.m, 1);
    ParseFormat(b.y, b.m, DaysInMonth(b.y, b.m));
    MonthsOf(Iso(Civil(a.y, a.m, 1)), Iso(Civil(b.y, b.m, DaysInMonth(b.y, b.m))), a.y, a.m, b.y, b.m, months);
  }

  /** The last day of the month-based range is the day before the first
      of `(y, m)`. */
  lemma MonthBeforeLast(y: int, m: int, b: Civil)
    requires 1 <= m <= 12 && y * 12 + (m - 1) - 1 >= 1200 && b == Landing(y, m, 1, -1)
    ensures 1 <= b.m <= 12
    ensures ParseIsoDateUtc(Iso(Civil(b.y, b.m, DaysInMonth(b.y, b.m)))).Some?
    ensures ParseIsoDateUtc(Iso(Civil(b.y, b.m, DaysInMonth(b.y, b.m)))).value + 1 == DayOf(Civil(y, m, 1))
  {
    LandingsValid(y, m, 1);
    ReadCivil(Civil(b.y, b.m, DaysInMonth(b.y, b.m)));
    MonthBeforeEnds(y, m);
  }

  /** A `yoy` range is compared with the same dates a year earlier, with
      29 February becoming 28 February when that year is not a leap year. */
  lemma YoyLands(r: DateRange, n: int, m: int)
    requires ParseIsoDateUtc(r.start) == Some(n) && ParseIsoDateUtc(r.end) == Some(m)
    requires !(0 <= CivilOf(n).y - 1 <= 99) && !(0 <= CivilOf(m).y - 1 <= 99)
    ensures ComputeCompareRange(Some(r), "yoy") ==
      Some(DateRange(Iso(PrevYear(CivilOf(n))), Iso(PrevYear(CivilOf(m)))))
  {
    EmptyInvalid();
    assert r.start != "" && r.end != "";
    var c := ComputeCompareRange(Some(r), "yoy");
    assert c == Some(DateRange(SubYear(r.start), SubYear(r.end)));
    SubYearLands(r.start, n);
    SubYearLands(r.end, m);
  }

  /** The result of `computeDelta`. */
  datatype Delta = Delta(deltaAbs: real, deltaPct: Option<real>)

  /** `computeDelta(current, compare)`: the difference, and the difference
      relative to the compared value, which is `null` exactly when that value
      is 0. */
  function ComputeDelta(current: real, compare: real): (d: Delta)
    ensures d.deltaAbs + compare == current
    ensures d.deltaPct.None? <==> compare == 0.0
    ensures d.deltaPct.Some? ==> d.deltaPct.value * compare == d.deltaAbs
  {
    var deltaAbs := current - compare;
    Delta(deltaAbs, if compare == 0.0 then None else Some(deltaAbs / compare))
  }
}
