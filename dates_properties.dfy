/**
 * What the date helpers of src/lib/analytics/date.js promise: printing and
 * reading back a date, month lengths, day and month arithmetic, the previous
 * year and the two bucket generators. Years from 0 to 99 are excluded where
 * `Date.UTC` would read them as 1900 to 1999.
 */
module DatesProperties {
  import opened Wrappers
  import opened JsText
  import opened UtcCalendar
  import opened Dates

  // ---------------------------------------------------------------- text

  lemma DigitsNoDash(s: string)
    requires AllDigits(s)
    ensures '-' !in s
  {
    DigitsOnly(s, '-');
  }

  /** The pieces of a printed date with a year of at least 0 and a month and
      day below 100 read back as those numbers. */
  lemma ParseFormat(y: int, m: int, d: int)
    requires y >= 0 && 0 <= m < 100 && 0 <= d < 100
    ensures ParseIsoParts(FormatIso(Some(y), Some(m), Some(d))) == Parts(Some(y), Some(m), Some(d))
  {
    var ys, ms, ds := NatToString(y), Pad2(NatToString(m)), Pad2(NatToString(d));
    NatToStringValue(y);
    Pad2Value(m);
    Pad2Value(d);
    DigitsNoDash(ys);
    DigitsNoDash(ms);
    DigitsNoDash(ds);
    var s := FormatIso(Some(y), Some(m), Some(d));
    assert s == ys + ['-'] + (ms + ['-'] + ds);
    SplitJoin(ys, '-', ms + ['-'] + ds);
    SplitJoin(ms, '-', ds);
    SplitNone(ds, '-');
    assert Split(s, '-') == [ys, ms, ds];
    NumberOfDigits(ys);
    NumberOfDigits(ms);
    NumberOfDigits(ds);
  }

  /** A valid date from year 100 on reads back as its parts and its day
      number. */
  lemma ReadCivil(c: Civil)
    requires ValidCivil(c) && c.y >= 100
    ensures ParseIsoParts(Iso(c)) == Parts(Some(c.y), Some(c.m), Some(c.d))
    ensures ParseIsoDateUtc(Iso(c)) == Some(DayOf(c))
  {
    ParseFormat(c.y, c.m, c.d);
    MakeDayIs(c.y, c.m - 1, c.d);
  }

  /** The day number of a valid date prints as that date. */
  lemma PrintCivil(c: Civil)
    requires ValidCivil(c)
    ensures CivilOf(DayOf(c)) == c
    ensures ToIsoDateUtc(Some(DayOf(c))) == Iso(c)
  {
    CivilRoundTrip(c);
  }

  /** `toIsoDateUtc` and `parseIsoParts` / `parseIsoDateUtc` round-trip a
      date from year 100 on; from year 1000 to 9999 the text is the ten
      characters `YYYY-MM-DD`. */
  lemma IsoRoundTrip(c: Civil)
    requires ValidCivil(c) && c.y >= 100
    ensures ParseIsoParts(Iso(c)) == Parts(Some(c.y), Some(c.m), Some(c.d))
    ensures ParseIsoDateUtc(Iso(c)) == Some(DayOf(c))
    ensures ToIsoDateUtc(Some(DayOf(c))) == Iso(c)
    ensures 1000 <= c.y <= 9999 ==> |Iso(c)| == 10
  {
    ReadCivil(c);
    PrintCivil(c);
    NatToStringLength(c.y);
    Pad2Value(c.m);
    Pad2Value(c.d);
  }

  /** Printing a day of year 100 or later and reading it back gives the
      day. */
  lemma DayRoundTrip(n: int)
    requires YearOf(n) >= 100
    ensures ParseIsoDateUtc(ToIsoDateUtc(Some(n))) == Some(n)
  {
    ReadCivil(CivilOf(n));
  }

  // ------------------------------------------------------------ addDays

  lemma ShiftParsed(iso: string, n: int, days: int, m: int)
    requires ParseIsoDateUtc(iso) == Some(n) && m == n + days
    ensures ShiftDays(ParseIsoDateUtc(iso), Some(days)) == Some(m)
  {
  }

  /** `addDays` prints the day `days` later (`m`). */
  lemma AddDaysIs(iso: string, n: int, days: int, m: int)
    requires ParseIsoDateUtc(iso) == Some(n) && m == n + days
    ensures AddDays(iso, Some(days)) == ToIsoDateUtc(Some(m))
  {
    ShiftParsed(iso, n, days, m);
  }

  /** An Invalid Date, or a NaN number of days, gives `NaN-NaN-NaN`. */
  lemma AddDaysInvalid(iso: string, days: Option<int>)
    requires ParseIsoDateUtc(iso).None? || days.None?
    ensures AddDays(iso, days) == "NaN-NaN-NaN"
  {
  }

  /** The day `addDays` prints reads back as the moved day number `m` when
      it falls in year 100 or later. */
  lemma AddDaysMoves(iso: string, n: int, days: int, m: int)
    requires ParseIsoDateUtc(iso) == Some(n) && m == n + days && YearOf(m) >= 100
    ensures ParseIsoDateUtc(AddDays(iso, Some(days))) == Some(m)
  {
    AddDaysIs(iso, n, days, m);
    DayRoundTrip(m);
  }

  /** Two `addDays` steps, by `a` and then by `b`, make one step by
      `c == a + b`, as long as the intermediate day `k` falls in year 100 or
      later (`l` is the final day). */
  lemma AddDaysCompose(iso: string, n: int, a: int, b: int, c: int, k: int, l: int)
    requires ParseIsoDateUtc(iso) == Some(n) && c == a + b && k == n + a && l == k + b && YearOf(k) >= 100
    ensures AddDays(AddDays(iso, Some(a)), Some(b)) == AddDays(iso, Some(c))
  {
    AddDaysIs(iso, n, a, k);
    DayRoundTrip(k);
    AddDaysIs(ToIsoDateUtc(Some(k)), k, b, l);
    AddDaysIs(iso, n, c, l);
  }

  /** `daysInclusive` of two dates read as days `n` and `m`. */
  lemma DaysInclusiveIs(startIso: string, endIso: string, n: int, m: int, count: int)
    requires ParseIsoDateUtc(startIso) == Some(n) && ParseIsoDateUtc(endIso) == Some(m)
    requires count == m - n + 1
    ensures DaysInclusive(startIso, endIso) == Some(count)
  {
  }

  /** A date and the date `k` days later (day `m`) span `k + 1` days. */
  lemma DaysInclusiveAddDays(iso: string, n: int, k: int, m: int)
    requires ParseIsoDateUtc(iso) == Some(n) && m == n + k && YearOf(m) >= 100
    ensures DaysInclusive(iso, AddDays(iso, Some(k))) == Some(k + 1)
  {
    AddDaysMoves(iso, n, k, m);
    DaysInclusiveIs(iso, AddDays(iso, Some(k)), n, m, k + 1);
  }

  // ---------------------------------------------------------- addMonths

  /** The date `addMonths` aims at from year `y`, month `m`, day `d`: month
      index `y * 12 + (m - 1) + months` split into a year and a month, and
      the day clamped to the length of that month (in the year `Date.UTC`
      means). */
  function Landing(y: int, m: int, d: int, months: int): Civil {
    var next := y * 12 + (m - 1) + months;
    Civil(next / 12, next % 12 + 1, Min(d, DaysInMonth(MakeYear(next / 12), next % 12 + 1)))
  }

  /** The landing month is `months` after the start month; the day is kept
      when that month has it and is the month's last day otherwise; from a
      day of at least 1 the landing is a real date outside years 0 to 99. */
  lemma LandingIs(y: int, m: int, d: int, months: int)
    requires y * 12 + (m - 1) + months >= 0
    ensures var l := Landing(y, m, d, months);
      1 <= l.m <= 12 &&
      l.y * 12 + (l.m - 1) == y * 12 + (m - 1) + months &&
      (d <= DaysInMonth(MakeYear(l.y), l.m) ==> l.d == d) &&
      (d > DaysInMonth(MakeYear(l.y), l.m) ==> l.d == DaysInMonth(MakeYear(l.y), l.m)) &&
      (1 <= d && !(0 <= l.y <= 99) ==> ValidCivil(l))
  {
  }

  /** The parts `addMonths` prints. */
  lemma ShiftMonthsLands(p: Parts, months: int)
    requires p.y.Some? && p.m.Some? && p.d.Some?
    requires p.y.value * 12 + (p.m.value - 1) + months >= 0
    ensures var l := Landing(p.y.value, p.m.value, p.d.value, months);
      ShiftMonths(p, Some(months)) == Parts(Some(l.y), Some(l.m), Some(l.d))
  {
    MonthIndexParts(p.y.value * 12 + (p.m.value - 1) + months);
  }

  /** A month index from 0 on splits into the year and month `addMonths`
      computes, and `lastDayOfMonth` gives that month's length. */
  lemma MonthIndexParts(next: int)
    requires next >= 0
    ensures JsRem(next, 12) == next % 12
    ensures LastDayOfMonth(Some(next / 12), Some(JsRem(next, 12) + 1)) == Some(DaysInMonth(MakeYear(next / 12), next % 12 + 1))
  {
  }

  /** `addMonths` prints the landing date; from year 100 on it reads back
      as its parts. */
  lemma AddMonthsLands(iso: string, y: int, m: int, d: int, months: int)
    requires ParseIsoParts(iso) == Parts(Some(y), Some(m), Some(d))
    requires y * 12 + (m - 1) + months >= 0
    ensures AddMonths(iso, Some(months)) == Iso(Landing(y, m, d, months))
    ensures var l := Landing(y, m, d, months);
      1 <= d && l.y >= 100 ==> ParseIsoParts(AddMonths(iso, Some(months))) == Parts(Some(l.y), Some(l.m), Some(l.d))
  {
    var l := Landing(y, m, d, months);
    ShiftMonthsLands(ParseIsoParts(iso), months);
    LandingIs(y, m, d, months);
    if 1 <= d && l.y >= 100 {
      ReadCivil(l);
    }
  }

  /** A NaN year, month or number of months gives `NaN-NaN-NaN`. */
  lemma AddMonthsInvalid(iso: string, months: Option<int>)
    requires ParseIsoParts(iso).y.None? || ParseIsoParts(iso).m.None? || months.None?
    ensures AddMonths(iso, months) == "NaN-NaN-NaN"
  {
  }

  /** `startOfMonth` and `endOfMonth` keep the year and month and give day 1
      and the month's last day. */
  lemma MonthBoundaries(iso: string, y: int, m: int)
    requires ParseIsoParts(iso).y == Some(y) && ParseIsoParts(iso).m == Some(m)
    requires y >= 0 && 1 <= m <= 12
    ensures StartOfMonth(iso) == Iso(Civil(y, m, 1))
    ensures EndOfMonth(iso) == Iso(Civil(y, m, DaysInMonth(MakeYear(y), m)))
    ensures ParseIsoParts(StartOfMonth(iso)) == Parts(Some(y), Some(m), Some(1))
    ensures ParseIsoParts(EndOfMonth(iso)) == Parts(Some(y), Some(m), Some(DaysInMonth(MakeYear(y), m)))
  {
    ParseFormat(y, m, 1);
    ParseFormat(y, m, DaysInMonth(MakeYear(y), m));
  }

  /** A text without `-` has no month piece: `startOfMonth` prints it as
      `undefined`, and `endOfMonth` also prints a NaN last day. */
  lemma YearOnlyMonths(iso: string)
    requires '-' !in iso
    ensures StartOfMonth(iso) == Show(NumberOf(iso)) + "-undefined-01"
    ensures EndOfMonth(iso) == Show(NumberOf(iso)) + "-undefined-NaN"
  {
    YearOnlyStart(iso);
    YearOnlyEnd(iso);
  }

  lemma YearOnlyStart(iso: string)
    requires '-' !in iso
    ensures StartOfMonth(iso) == Show(NumberOf(iso)) + "-undefined-01"
  {
    YearOnlyParts(iso);
    assert StartOfMonth(iso) == FormatWithMonth(NumberOf(iso), "undefined", Some(1));
    assert Pad2(Show(Some(1))) == "01";
  }

  lemma YearOnlyEnd(iso: string)
    requires '-' !in iso
    ensures EndOfMonth(iso) == Show(NumberOf(iso)) + "-undefined-NaN"
  {
    YearOnlyParts(iso);
    assert EndOfMonth(iso) == FormatWithMonth(NumberOf(iso), "undefined", None);
  }

  lemma YearOnlyParts(iso: string)
    requires '-' !in iso
    ensures ParseIsoParts(iso) == Parts(NumberOf(iso), None, None)
    ensures MonthText(iso) == "undefined"
  {
    SplitNone(iso, '-');
  }

  lemma Year2024()
    ensures NumberOf("2024") == Some(2024) && IntToString(2024) == "2024"
  {
    assert NatToString(2) == "2";
    assert NatToString(20) == "20";
    assert NatToString(202) == "202";
    assert NatToString(2024) == "2024";
    NatToStringValue(2024);
    NumberOfDigits("2024");
  }

  lemma YearOnly2024()
    ensures StartOfMonth("2024") == Show(NumberOf("2024")) + "-undefined-01"
    ensures EndOfMonth("2024") == Show(NumberOf("2024")) + "-undefined-NaN"
  {
    YearOnlyMonths("2024");
  }

  lemma Shown2024()
    ensures Show(NumberOf("2024")) + "-undefined-01" == "2024-undefined-01"
    ensures Show(NumberOf("2024")) + "-undefined-NaN" == "2024-undefined-NaN"
  {
    Year2024();
  }

  /** `startOfMonth("2024")` and `endOfMonth("2024")`. */
  lemma YearOnlyExample()
    ensures StartOfMonth("2024") == "2024-undefined-01"
    ensures EndOfMonth("2024") == "2024-undefined-NaN"
  {
    YearOnly2024();
    Shown2024();
  }

  // ------------------------------------------------------------ subYear

  /** The date a year before `c`: the same month and day, except that
      29 February becomes 28 February when the previous year is not a leap
      year. */
  function PrevYear(c: Civil): Civil {
    if c.m == 2 && c.d == 29 && !Leap(c.y - 1) then Civil(c.y - 1, 2, 28) else Civil(c.y - 1, c.m, c.d)
  }

  /** The day `subYear` computes is that date. */
  lemma PrevYearDayIs(c: Civil)
    requires ValidCivil(c) && !(0 <= c.y - 1 <= 99)
    ensures ValidCivil(PrevYear(c)) && PrevYearDay(c) == DayOf(PrevYear(c))
  {
    if c.m == 2 && c.d == 29 && !Leap(c.y - 1) {
      LeapDayBack(c);
    } else {
      SameDayBack(c);
    }
  }

  /** Any other date exists a year earlier, and `Date.UTC` gives it. */
  lemma SameDayBack(c: Civil)
    requires ValidCivil(c) && !(0 <= c.y - 1 <= 99)
    requires !(c.m == 2 && c.d == 29 && !Leap(c.y - 1))
    ensures ValidCivil(PrevYear(c)) && PrevYearDay(c) == DayOf(PrevYear(c))
  {
    var b := Civil(c.y - 1, c.m, c.d);
    assert PrevYear(c) == b;
    assert ValidCivil(b);
    MakeDayIs(c.y - 1, c.m - 1, c.d);
    CivilRoundTrip(b);
  }

  /** 29 February of a year after a common year: the shifted day is
      1 March, so the 28th is used. */
  lemma LeapDayBack(c: Civil)
    requires c.m == 2 && c.d == 29 && !Leap(c.y - 1) && !(0 <= c.y - 1 <= 99)
    ensures ValidCivil(PrevYear(c)) && PrevYearDay(c) == DayOf(PrevYear(c))
  {
    assert PrevYear(c) == Civil(c.y - 1, 2, 28);
    MakeDayIs(c.y - 1, 1, 29);
    var march := Civil(c.y - 1, 3, 1);
    assert DayOf(Civil(c.y - 1, 2, 29)) == DayOf(march);
    CivilRoundTrip(march);
    MakeDayIs(c.y - 1, 1, 28);
  }

  /** `subYear` prints the date a year earlier, 29 February becoming
      28 February when the previous year is not a leap year; an Invalid
      Date gives `NaN-NaN-NaN`. */
  lemma SubYearLands(iso: string, n: int)
    requires ParseIsoDateUtc(iso) == Some(n) && !(0 <= CivilOf(n).y - 1 <= 99)
    ensures SubYear(iso) == Iso(PrevYear(CivilOf(n)))
  {
    PrevYearDayIs(CivilOf(n));
    PrintCivil(PrevYear(CivilOf(n)));
  }

  lemma SubYearInvalid(iso: string)
    requires ParseIsoDateUtc(iso).None?
    ensures SubYear(iso) == "NaN-NaN-NaN"
  {
  }

  // ------------------------------------------------------ iterateBuckets

  /** The days `n`, `n + step`, ... up to `e`, at most `limit` of them. */
  function DaySeq(n: int, e: int, step: int, limit: nat): seq<int>
    decreases limit
  {
    if limit == 0 || n > e then [] else [n] + DaySeq(n + step, e, step, Fewer(limit))
  }

  /** The images of the days `ds` under `f`. */
  function Images(f: int -> string, ds: seq<int>): (r: seq<string>)
    ensures |r| == |ds|
  {
    if ds == [] then [] else [f(ds[0])] + Images(f, ds[1..])
  }

  /** A day number printed as `toIsoDateUtc` prints it. */
  function IsoOf(): int -> string {
    n => ToIsoDateUtc(Some(n))
  }

  /** A generator whose test accepts the image `f(k)` of a day from `n` on
      exactly when `k` is not after `e`, and whose update takes `f(k)` to
      `f(k + step)`, yields the images of the days `DaySeq` lists. */
  lemma {:induction false} WalkImages(more: string -> bool, next: string -> string, f: int -> string,
                                      n: int, e: int, step: int, limit: nat)
    requires step >= 0
    requires forall k {:trigger more(f(k))} :: n <= k ==> (more(f(k)) <==> k <= e)
    requires forall k {:trigger next(f(k))} :: n <= k ==> next(f(k)) == f(k + step)
    ensures Walk(more, next, f(n), limit) == Images(f, DaySeq(n, e, step, limit))
    decreases limit
  {
    if limit > 0 && n <= e {
      var rest := DaySeq(n + step, e, step, Fewer(limit));
      WalkImages(more, next, f, n + step, e, step, Fewer(limit));
      assert ([n] + rest)[1..] == rest;
    }
  }

  /** What `iterateBuckets(cursor, endIso, step)` yields when `endIso` reads
      as day `e`. */
  function DayBuckets(cursor: string, e: int, step: int, limit: nat): seq<string> {
    Walk(UpTo(Some(e)), DayStep(Some(step)), cursor, limit)
  }

  /** The test of `iterateBuckets` on a cursor read as day `n`. */
  lemma CursorTest(cursor: string, n: int, e: int)
    requires ParseIsoDateUtc(cursor) == Some(n)
    ensures UpTo(Some(e))(cursor) <==> n <= e
  {
  }

  /** The update of `iterateBuckets` on a cursor read as day `n`. */
  lemma CursorStep(cursor: string, n: int, step: int, m: int)
    requires ParseIsoDateUtc(cursor) == Some(n) && m == n + step
    ensures DayStep(Some(step))(cursor) == ToIsoDateUtc(Some(m))
  {
    AddDaysIs(cursor, n, step, m);
  }

  /** From year 100 on, the test of `iterateBuckets` reads a printed day
      back. */
  lemma PrintedDayTest(n: int, k: int, e: int)
    requires YearOf(n) >= 100 && n <= k
    ensures UpTo(Some(e))(IsoOf()(k)) <==> k <= e
  {
    YearOfMono(n, k);
    DayRoundTrip(k);
  }

  /** From year 100 on, `addDays` takes a printed day to the printed day
      `step` later. */
  lemma PrintedDayNext(n: int, k: int, step: int)
    requires YearOf(n) >= 100 && n <= k
    ensures DayStep(Some(step))(IsoOf()(k)) == IsoOf()(k + step)
  {
    YearOfMono(n, k);
    DayRoundTrip(k);
    CursorStep(ToIsoDateUtc(Some(k)), k, step, k + step);
  }

  /** From a printed day of year 100 on, with a step of at least 0, the
      generator yields the printed days `DaySeq` lists. */
  lemma PrintedWalk(n: int, e: int, step: int, limit: nat)
    requires YearOf(n) >= 100 && step >= 0
    ensures DayBuckets(ToIsoDateUtc(Some(n)), e, step, limit) == Images(IsoOf(), DaySeq(n, e, step, limit))
  {
    forall k | n <= k
      ensures UpTo(Some(e))(IsoOf()(k)) <==> k <= e
      ensures DayStep(Some(step))(IsoOf()(k)) == IsoOf()(k + step)
    {
      PrintedDayTest(n, k, e);
      PrintedDayNext(n, k, step);
    }
    WalkImages(UpTo(Some(e)), DayStep(Some(step)), IsoOf(), n, e, step, limit);
  }

  /** The first step of `iterateBuckets` from a start read as day `n`. */
  lemma BucketsFirst(cursor: string, n: int, m: int, e: int, step: int, limit: nat)
    requires ParseIsoDateUtc(cursor) == Some(n) && m == n + step && limit > 0 && n <= e
    ensures DayBuckets(cursor, e, step, limit) == [cursor] + DayBuckets(ToIsoDateUtc(Some(m)), e, step, Fewer(limit))
  {
    CursorTest(cursor, n, e);
    CursorStep(cursor, n, step, m);
    WalkNext(UpTo(Some(e)), DayStep(Some(step)), cursor, limit, ToIsoDateUtc(Some(m)), Fewer(limit));
  }

  /** `iterateBuckets` with a step of at least 0 from a start read as day `n`
      of year 100 or later to an end read as day `e`: the start itself,
      while it is not after the end, then the printed days `DaySeq` lists. */
  lemma BucketsWalk(cursor: string, n: int, e: int, step: int, limit: nat)
    requires ParseIsoDateUtc(cursor) == Some(n) && YearOf(n) >= 100 && step >= 0
    ensures DayBuckets(cursor, e, step, limit) ==
      if limit == 0 || n > e then [] else [cursor] + Images(IsoOf(), DaySeq(n + step, e, step, Fewer(limit)))
  {
    if limit > 0 && n <= e {
      BucketsFirst(cursor, n, n + step, e, step, limit);
      YearOfMono(n, n + step);
      PrintedWalk(n + step, e, step, Fewer(limit));
    } else {
      CursorTest(cursor, n, e);
      WalkEnd(UpTo(Some(e)), DayStep(Some(step)), cursor, limit);
    }
  }

  /** The days `DaySeq` lists: `n + k * step` for consecutive `k`, none after
      `e`; it stops only after `e` or at `limit`. */
  lemma {:induction false} DaySeqSpan(n: int, e: int, step: int, limit: nat)
    ensures var ds := DaySeq(n, e, step, limit);
      |ds| <= limit &&
      (forall k :: 0 <= k < |ds| ==> ds[k] == n + k * step && ds[k] <= e) &&
      (|ds| < limit ==> n + |ds| * step > e)
    decreases limit
  {
    if limit > 0 && n <= e {
      DaySeqSpan(n + step, e, step, Fewer(limit));
      var ds := DaySeq(n, e, step, limit);
      var rest := DaySeq(n + step, e, step, Fewer(limit));
      assert ds == [n] + rest;
      forall k | 1 <= k < |ds|
        ensures ds[k] == n + k * step
      {
        assert ds[k] == rest[k - 1];
        assert n + step + (k - 1) * step == n + k * step;
      }
      assert n + step + |rest| * step == n + |ds| * step;
    }
  }

  /** With a step of one day the days run from `n` through `e`, unless the
      consumer stops first. */
  lemma {:induction false} DaySeqDaily(n: int, e: int, limit: nat)
    ensures |DaySeq(n, e, 1, limit)| == if n > e then 0 else Min(limit, e - n + 1)
    decreases limit
  {
    if limit > 0 && n <= e {
      DaySeqDaily(n + 1, e, Fewer(limit));
    }
  }

  /** The daily walk after its first value, as counted by `DaySeqDaily`. */
  lemma DailyCount(n: int, e: int, limit: nat)
    requires n <= e && limit > e - n
    ensures 1 + |DaySeq(n + 1, e, 1, Fewer(limit))| == e - n + 1
  {
    DaySeqDaily(n + 1, e, Fewer(limit));
  }

  /** `iterateBuckets(startIso, endIso, 1)` between two dates from year 100
      on yields as many values as `daysInclusive(startIso, endIso)` counts
      when the consumer takes them all. */
  lemma DailyBucketsCount(startIso: string, endIso: string, n: int, e: int, limit: nat)
    requires ParseIsoDateUtc(startIso) == Some(n) && ParseIsoDateUtc(endIso) == Some(e)
    requires YearOf(n) >= 100 && n <= e && limit > e - n
    ensures DaysInclusive(startIso, endIso) == Some(|DayBuckets(startIso, e, 1, limit)|)
  {
    BucketsWalk(startIso, n, e, 1, limit);
    DailyCount(n, e, limit);
    DaysInclusiveIs(startIso, endIso, n, e, |DayBuckets(startIso, e, 1, limit)|);
  }

  // ------------------------------------------------- iterateMonthBuckets

  /** A calendar month. */
  datatype Month = Month(y: int, m: int)

  predicate ValidMonth(a: Month) {
    1 <= a.m <= 12
  }

  /** The month index `y * 12 + (m - 1)` that `addMonths` and
      `monthsInclusive` count with. */
  function Index(a: Month): int {
    a.y * 12 + (a.m - 1)
  }

  /** The month after `a`. */
  function Next(a: Month): (r: Month)
    requires ValidMonth(a)
    ensures ValidMonth(r) && Index(r) == Index(a) + 1 && r.y >= a.y
  {
    if a.m == 12 then Month(a.y + 1, 1) else Month(a.y, a.m + 1)
  }

  /** The day number of the first of month `a`. */
  function FirstDay(a: Month): int
    requires ValidMonth(a)
  {
    DayOf(Civil(a.y, a.m, 1))
  }

  /** The printed first of month `a`. */
  function MonthFirst(a: Month): string {
    Iso(Civil(a.y, a.m, 1))
  }

  lemma FirstDayNext(a: Month)
    requires ValidMonth(a)
    ensures FirstDay(Next(a)) == FirstDay(a) + DaysInMonth(a.y, a.m)
  {
    MonthStartNext(a.y, a.m);
    if a.m == 12 {
      YearStartStep(a.y);
    }
  }

  /** A month is determined by its index. */
  lemma IndexUnique(a: Month, b: Month)
    requires ValidMonth(a) && ValidMonth(b) && Index(a) == Index(b)
    ensures a == b
  {
    assert a.y == Index(a) / 12 && a.m == Index(a) % 12 + 1;
    assert b.y == Index(b) / 12 && b.m == Index(b) % 12 + 1;
  }

  /** Months with larger indexes start later. */
  lemma {:induction false} FirstDayMono(a: Month, b: Month)
    requires ValidMonth(a) && ValidMonth(b) && Index(a) < Index(b)
    ensures FirstDay(a) < FirstDay(b)
    decreases Index(b) - Index(a)
  {
    var c := Next(a);
    FirstDayNext(a);
    if Index(c) < Index(b) {
      FirstDayMono(c, b);
    } else {
      IndexUnique(c, b);
    }
  }

  /** Months are in the order of their first days. */
  lemma IndexOrder(a: Month, b: Month)
    requires ValidMonth(a) && ValidMonth(b)
    ensures Index(a) <= Index(b) <==> FirstDay(a) <= FirstDay(b)
  {
    if Index(a) < Index(b) {
      FirstDayMono(a, b);
    } else if Index(b) < Index(a) {
      FirstDayMono(b, a);
    } else {
      IndexUnique(a, b);
    }
  }

  /** One month after the first of month `a` is the first of the next
      month. */
  lemma LandingNext(a: Month)
    requires ValidMonth(a) && a.y >= 0
    ensures Landing(a.y, a.m, 1, 1) == Civil(Next(a).y, Next(a).m, 1)
  {
    var l := Landing(a.y, a.m, 1, 1);
    LandingIs(a.y, a.m, 1, 1);
    IndexUnique(Month(l.y, l.m), Next(a));
  }

  /** The cursor update of `iterateMonthBuckets` goes from the first of one
      month to the first of the next. */
  lemma MonthStepNext(a: Month)
    requires ValidMonth(a) && a.y >= 100
    ensures MonthStep()(MonthFirst(a)) == MonthFirst(Next(a))
  {
    var b := Next(a);
    ReadCivil(Civil(a.y, a.m, 1));
    AddMonthsLands(MonthFirst(a), a.y, a.m, 1, 1);
    LandingNext(a);
    ReadCivil(Civil(b.y, b.m, 1));
  }

  /** The months from `a` through `e`, at most `limit` of them. */
  function MonthSeq(a: Month, e: Month, limit: nat): seq<Month>
    requires ValidMonth(a)
    decreases limit
  {
    if limit == 0 || Index(a) > Index(e) then [] else [a] + MonthSeq(Next(a), e, Fewer(limit))
  }

  /** The printed firsts of the months. */
  function MonthFirsts(ms: seq<Month>): (r: seq<string>)
    ensures |r| == |ms|
  {
    if ms == [] then [] else [MonthFirst(ms[0])] + MonthFirsts(ms[1..])
  }

  /** What `iterateMonthBuckets` yields from the first of month `a` when the
      end's month is `e`. */
  function MonthBuckets(a: Month, e: Month, limit: nat): seq<string>
    requires ValidMonth(e)
  {
    Walk(UpTo(Some(FirstDay(e))), MonthStep(), MonthFirst(a), limit)
  }

  /** From year 100 on, the test of `iterateMonthBuckets` on the first of
      month `b` compares `b` with `e`. */
  lemma PrintedMonthTest(b: Month, e: Month)
    requires ValidMonth(b) && ValidMonth(e) && b.y >= 100
    ensures UpTo(Some(FirstDay(e)))(MonthFirst(b)) <==> Index(b) <= Index(e)
  {
    ReadCivil(Civil(b.y, b.m, 1));
    IndexOrder(b, e);
  }

  /** One step of the month generator from the first of month `a`. */
  lemma MonthBucketsNext(a: Month, e: Month, limit: nat)
    requires ValidMonth(a) && ValidMonth(e) && a.y >= 100 && limit > 0 && Index(a) <= Index(e)
    ensures MonthBuckets(a, e, limit) == [MonthFirst(a)] + MonthBuckets(Next(a), e, Fewer(limit))
  {
    PrintedMonthTest(a, e);
    MonthStepNext(a);
    WalkNext(UpTo(Some(FirstDay(e))), MonthStep(), MonthFirst(a), limit, MonthFirst(Next(a)), Fewer(limit));
  }

  /** The month generator stops after month `e` or when the consumer does. */
  lemma MonthBucketsEnd(a: Month, e: Month, limit: nat)
    requires ValidMonth(a) && ValidMonth(e) && a.y >= 100 && (limit == 0 || Index(a) > Index(e))
    ensures MonthBuckets(a, e, limit) == []
  {
    PrintedMonthTest(a, e);
    WalkEnd(UpTo(Some(FirstDay(e))), MonthStep(), MonthFirst(a), limit);
  }

  /** `iterateMonthBuckets` from the first of month `a` (year 100 on) to the
      first of month `e` yields the printed firsts of the months `MonthSeq`
      lists. */
  lemma {:induction false} MonthBucketsWalk(a: Month, e: Month, limit: nat)
    requires ValidMonth(a) && ValidMonth(e) && a.y >= 100
    ensures MonthBuckets(a, e, limit) == MonthFirsts(MonthSeq(a, e, limit))
    decreases limit
  {
    if limit > 0 && Index(a) <= Index(e) {
      var rest := MonthSeq(Next(a), e, Fewer(limit));
      MonthBucketsNext(a, e, limit);
      MonthBucketsWalk(Next(a), e, Fewer(limit));
      assert ([a] + rest)[1..] == rest;
    } else {
      MonthBucketsEnd(a, e, limit);
    }
  }

  /** The month `k` months after `a`. */
  function After(a: Month, k: nat): (r: Month)
    requires ValidMonth(a)
    ensures ValidMonth(r) && Index(r) == Index(a) + k
  {
    if k == 0 then a else Next(After(a, k - 1))
  }

  lemma AfterNext(a: Month, k: nat)
    requires ValidMonth(a)
    ensures After(Next(a), k) == After(a, k + 1)
  {
    IndexUnique(After(Next(a), k), After(a, k + 1));
  }

  /** `MonthSeq` lists consecutive months from `a`, none after `e`, as many
      as the month indexes span unless `limit` stops it first. */
  lemma {:induction false} MonthSeqSpan(a: Month, e: Month, limit: nat)
    requires ValidMonth(a)
    ensures var ms := MonthSeq(a, e, limit);
      (forall k :: 0 <= k < |ms| ==> ms[k] == After(a, k) && Index(ms[k]) <= Index(e)) &&
      |ms| == if Index(a) > Index(e) then 0 else Min(limit, Index(e) - Index(a) + 1)
    decreases limit
  {
    if limit > 0 && Index(a) <= Index(e) {
      var b := Next(a);
      MonthSeqSpan(b, e, Fewer(limit));
      var ms := MonthSeq(a, e, limit);
      var rest := MonthSeq(b, e, Fewer(limit));
      assert ms == [a] + rest;
      forall k | 1 <= k < |ms|
        ensures ms[k] == After(a, k)
      {
        assert ms[k] == rest[k - 1];
        AfterNext(a, k - 1);
      }
    }
  }

  /** `iterateMonthBuckets(startIso, endIso)` for dates whose year (from 100
      on) and month read as numbers: the printed firsts of the months from
      the start's month through the end's month. */
  lemma MonthBucketsSpan(startIso: string, endIso: string, limit: nat, a: Month, e: Month)
    requires ParseIsoParts(startIso).y == Some(a.y) && ParseIsoParts(startIso).m == Some(a.m)
    requires ParseIsoParts(endIso).y == Some(e.y) && ParseIsoParts(endIso).m == Some(e.m)
    requires ValidMonth(a) && ValidMonth(e) && a.y >= 100 && e.y >= 100
    ensures Walk(UpTo(ParseIsoDateUtc(StartOfMonth(endIso))), MonthStep(), StartOfMonth(startIso), limit) == MonthFirsts(MonthSeq(a, e, limit))
  {
    MonthBoundaries(startIso, a.y, a.m);
    MonthBoundaries(endIso, e.y, e.m);
    ReadCivil(Civil(e.y, e.m, 1));
    MonthBucketsWalk(a, e, limit);
  }

  /** As many months as `monthsInclusive` counts, unless the consumer stops
      first. */
  lemma MonthBucketsCount(startIso: string, endIso: string, limit: nat, a: Month, e: Month)
    requires ParseIsoParts(startIso).y == Some(a.y) && ParseIsoParts(startIso).m == Some(a.m)
    requires ParseIsoParts(endIso).y == Some(e.y) && ParseIsoParts(endIso).m == Some(e.m)
    requires ValidMonth(a) && Index(a) <= Index(e)
    ensures |MonthSeq(a, e, limit)| == Min(limit, Index(e) - Index(a) + 1)
    ensures limit > Index(e) - Index(a) ==> MonthsInclusive(startIso, endIso) == Some(|MonthSeq(a, e, limit)|)
  {
    MonthSeqSpan(a, e, limit);
  }
}
