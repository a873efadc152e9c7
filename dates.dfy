/**
 * The date helpers of src/lib/analytics/date.js: `YYYY-MM-DD` strings read
 * with `split('-')` and `Number`, turned into UTC dates with `Date.UTC`, and
 * printed back with `padStart(2, '0')`. A `Date` is its day number
 * (`UtcCalendar`), or `None` for an Invalid Date; a Number read from text is
 * an integer, or `None` for NaN.
 */
module Dates {
  import opened Wrappers
  import opened JsText
  import opened UtcCalendar

  function Min(a: int, b: int): int {
    if a <= b then a else b
  }

  /** `Number(s)` for the text the helpers see: white space around decimal
      digits is ignored, blank text is 0, anything else is NaN. */
  function NumberOf(s: string): Option<int> {
    var t := Trim(s);
    if t == "" then Some(0) else if AllDigits(t) then Some(DigitsValue(t)) else None
  }

  /** Decimal digits read as their value. */
  lemma NumberOfDigits(s: string)
    requires s != [] && AllDigits(s)
    ensures NumberOf(s) == Some(DigitsValue(s))
  {
    DigitsEnds(s);
    TrimNoSpace(s);
  }

  /** The numbers `parseIsoParts` destructures. A piece that is not there
      is `undefined` and one that is not a number is NaN; arithmetic turns
      both into NaN (`None` here), and only `String(m)` tells them apart
      (`MonthText`). The year is always there: `split` gives at least one
      piece. */
  datatype Parts = Parts(y: Option<int>, m: Option<int>, d: Option<int>)

  function Piece(pieces: seq<string>, i: nat): Option<int> {
    if i < |pieces| then NumberOf(pieces[i]) else None
  }

  /** `parseIsoParts`: the first three `-`-separated pieces as numbers. */
  function ParseIsoParts(iso: string): Parts {
    var pieces := Split(iso, '-');
    Parts(Piece(pieces, 0), Piece(pieces, 1), Piece(pieces, 2))
  }

  /** `new Date(Date.UTC(y, monthIndex, d))`: Invalid Date when any argument is
      NaN. */
  function Utc(y: Option<int>, monthIndex: Option<int>, d: Option<int>): (t: Option<int>)
    ensures t.Some? <==> y.Some? && monthIndex.Some? && d.Some?
  {
    if y.Some? && monthIndex.Some? && d.Some? then Some(MakeDay(y.value, monthIndex.value, d.value)) else None
  }

  function Dec(x: Option<int>): Option<int> {
    if x.Some? then Some(x.value - 1) else None
  }

  /** `parseIsoDateUtc`. */
  function ParseIsoDateUtc(iso: string): Option<int> {
    var p := ParseIsoParts(iso);
    Utc(p.y, Dec(p.m), p.d)
  }

  /** `String(x)`: NaN prints as `NaN`. */
  function Show(x: Option<int>): string {
    match x
    case None => "NaN"
    case Some(n) => IntToString(n)
  }

  /** The template `${y}-${pad(m)}-${pad(d)}` with the month already
      printed. */
  function FormatWithMonth(y: Option<int>, month: string, d: Option<int>): string {
    Show(y) + "-" + Pad2(month) + "-" + Pad2(Show(d))
  }

  /** The template `${y}-${pad(m)}-${pad(d)}` shared by every helper that
      prints a date. */
  function FormatIso(y: Option<int>, m: Option<int>, d: Option<int>): string {
    FormatWithMonth(y, Show(m), d)
  }

  /** `String(m)` for the month `parseIsoParts` destructures: `undefined`
      when the text has no second piece, otherwise the number or `NaN`. */
  function MonthText(iso: string): (r: string)
    ensures ParseIsoParts(iso).m.Some? ==> r == Show(ParseIsoParts(iso).m)
    ensures |Split(iso, '-')| >= 2 ==> r == Show(ParseIsoParts(iso).m)
  {
    var pieces := Split(iso, '-');
    if |pieces| < 2 then "undefined" else Show(Piece(pieces, 1))
  }

  /** `toIsoDateUtc`: an Invalid Date prints as `NaN-NaN-NaN`. */
  function ToIsoDateUtc(t: Option<int>): string {
    match t
    case None => FormatIso(None, None, None)
    case Some(n) =>
      var c := CivilOf(n);
      FormatIso(Some(c.y), Some(c.m), Some(c.d))
  }

  /** The printed form of a calendar date. */
  function Iso(c: Civil): string {
    FormatIso(Some(c.y), Some(c.m), Some(c.d))
  }

  /** `dt.getTime() + days * DAY_MS`, in days: NaN when either is. */
  function ShiftDays(t: Option<int>, days: Option<int>): (r: Option<int>)
    ensures r.Some? <==> t.Some? && days.Some?
  {
    if t.Some? && days.Some? then Some(t.value + days.value) else None
  }

  /** `addDays`: `days` whole days later (earlier when negative). */
  function AddDays(iso: string, days: Option<int>): string {
    ToIsoDateUtc(ShiftDays(ParseIsoDateUtc(iso), days))
  }

  /** JavaScript's `%` on integers: the remainder has the sign of the
      dividend. */
  function JsRem(a: int, b: int): (r: int)
    requires b > 0
    ensures a >= 0 ==> r == a % b
    ensures -b < r < b
  {
    if a >= 0 then a % b else -((-a) % b)
  }

  /** `lastDayOfMonth(year, month1to12)`: the day of month of day 0 of month
      index `month1to12`, i.e. the length of month `month1to12`, in the year
      that `Date.UTC` means (years 0 to 99 are read as 1900 to 1999), a month
      outside 1..12 carrying into the year. */
  function LastDayOfMonth(year: Option<int>, month: Option<int>): (r: Option<int>)
    ensures r.Some? <==> year.Some? && month.Some?
    ensures r.Some? ==> 28 <= r.value <= 31
    ensures year.Some? && month.Some? && 1 <= month.value <= 12 ==>
      r == Some(DaysInMonth(MakeYear(year.value), month.value)) &&
      (r.value == 29 <==> month.value == 2 && Leap(MakeYear(year.value)))
  {
    if year.Some? && month.Some? then Some(MonthLength(MakeYear(year.value), month.value)) else None
  }

  /** `lastDayOfMonth` reads `getUTCDate()` of `Date.UTC(year, month1to12, 0)`. */
  lemma LastDayOfMonthDate(year: int, month: int)
    ensures LastDayOfMonth(Some(year), Some(month)) == Some(CivilOf(MakeDay(year, month, 0)).d)
  {
    DayZeroLength(MakeYear(year), month);
  }

  /** The parts `addMonths` prints: the month index `y * 12 + (m - 1)`
      moved by `months`, split with `Math.floor(i / 12)` and `i % 12 + 1`,
      and the day kept where the target month has it, else its last day.
      Every part is NaN when the year, the month or `months` is; the day is
      NaN when the day is. */
  function ShiftMonths(p: Parts, months: Option<int>): (r: Parts)
    ensures r.y.Some? <==> p.y.Some? && p.m.Some? && months.Some?
    ensures r.m.Some? <==> r.y.Some?
    ensures r.d.Some? <==> r.y.Some? && p.d.Some?
    ensures r.d.Some? ==> r.d.value <= p.d.value && r.d.value <= 31
  {
    if p.y.None? || p.m.None? || months.None? then Parts(None, None, None)
    else
      var next := p.y.value * 12 + (p.m.value - 1) + months.value;
      var ny := next / 12;
      var nm := JsRem(next, 12) + 1;
      var last := LastDayOfMonth(Some(ny), Some(nm));
      Parts(Some(ny), Some(nm), if p.d.Some? then Some(Min(p.d.value, last.value)) else None)
  }

  /** `addMonths`. */
  function AddMonths(iso: string, months: Option<int>): string {
    var p := ShiftMonths(ParseIsoParts(iso), months);
    FormatIso(p.y, p.m, p.d)
  }

  /** `startOfMonth`: the month is printed as destructured, so a missing
      one shows as `undefined`. */
  function StartOfMonth(iso: string): string {
    var p := ParseIsoParts(iso);
    FormatWithMonth(p.y, MonthText(iso), Some(1))
  }

  /** `endOfMonth`: likewise, with the last day NaN when the month is
      missing or not a number. */
  function EndOfMonth(iso: string): string {
    var p := ParseIsoParts(iso);
    FormatWithMonth(p.y, MonthText(iso), LastDayOfMonth(p.y, p.m))
  }

  /** `monthsInclusive`: the month-index difference plus one, NaN when a year
      or month is. */
  function MonthsInclusive(startIso: string, endIso: string): (r: Option<int>)
    ensures var s, e := ParseIsoParts(startIso), ParseIsoParts(endIso);
      (r.Some? <==> s.y.Some? && s.m.Some? && e.y.Some? && e.m.Some?) &&
      (r.Some? ==> r.value == (e.y.value * 12 + e.m.value) - (s.y.value * 12 + s.m.value) + 1) &&
      (r.Some? && s.y == e.y && s.m == e.m ==> r.value == 1)
  {
    var s, e := ParseIsoParts(startIso), ParseIsoParts(endIso);
    if s.y.Some? && s.m.Some? && e.y.Some? && e.m.Some? then
      Some((e.y.value * 12 + (e.m.value - 1)) - (s.y.value * 12 + (s.m.value - 1)) + 1)
    else None
  }

  /** `daysInclusive`: the day difference plus one, NaN when either date is
      invalid. */
  function DaysInclusive(startIso: string, endIso: string): (r: Option<int>)
    ensures var s, e := ParseIsoDateUtc(startIso), ParseIsoDateUtc(endIso);
      (r.Some? <==> s.Some? && e.Some?) &&
      (r.Some? ==> r.value - 1 == e.value - s.value)
  {
    var s, e := ParseIsoDateUtc(startIso), ParseIsoDateUtc(endIso);
    if s.Some? && e.Some? then Some(e.value - s.value + 1) else None
  }

  /** The date `subYear` prints: the same month and day a year earlier;
      when that day does not exist the month changes, and the 28th of the
      month is used instead. An Invalid Date stays invalid. */
  function SubYearDay(t: Option<int>): Option<int> {
    match t
    case None => None
    case Some(n) => Some(PrevYearDay(CivilOf(n)))
  }

  /** `Date.UTC(y - 1, m - 1, d)` for the date `c`, or the 28th of its month
      when that day falls in another month. */
  function PrevYearDay(c: Civil): int {
    var shifted := MakeDay(c.y - 1, c.m - 1, c.d);
    if CivilOf(shifted).m != c.m then MakeDay(c.y - 1, c.m - 1, 28) else shifted
  }

  /** `subYear`. */
  function SubYear(iso: string): string {
    ToIsoDateUtc(SubYearDay(ParseIsoDateUtc(iso)))
  }

  /** The loop condition of both generators: the cursor's time is at most the
      end's. A comparison with an Invalid Date is false. */
  predicate NotAfter(cursor: string, endTime: Option<int>) {
    var t := ParseIsoDateUtc(cursor);
    t.Some? && endTime.Some? && t.value <= endTime.value
  }

  /** What is left of the consumer's budget once it has taken one more
      value; one name for the definition and the loop to share. */
  function Fewer(limit: nat): (r: nat)
    requires limit > 0
    ensures r < limit
  {
    limit - 1
  }

  lemma AppendAssoc(a: seq<string>, b: seq<string>, c: seq<string>)
    ensures (a + b) + c == a + (b + c)
  {
  }

  /** The loop test of both generators as a function of the cursor. */
  function UpTo(endTime: Option<int>): string -> bool {
    cursor => NotAfter(cursor, endTime)
  }

  /** The cursor update of `iterateBuckets`: `addDays(cursor, stepDays)`. */
  function DayStep(stepDays: Option<int>): string -> string {
    cursor => AddDays(cursor, stepDays)
  }

  /** The cursor update of `iterateMonthBuckets`:
      `startOfMonth(addMonths(cursor, 1))`. */
  function NextMonthStart(cursor: string): string {
    StartOfMonth(AddMonths(cursor, Some(1)))
  }

  function MonthStep(): string -> string {
    cursor => NextMonthStart(cursor)
  }

  /** The first `limit` values a generator loop yields from `cursor` on: the
      cursor, while `more` holds of it, moved on by `next`. */
  function Walk(more: string -> bool, next: string -> string, cursor: string, limit: nat): seq<string>
    decreases limit
  {
    if limit == 0 || !more(cursor) then []
    else [cursor] + Walk(more, next, next(cursor), Fewer(limit))
  }

  lemma WalkNext(more: string -> bool, next: string -> string, cursor: string, limit: nat, after: string, rest: nat)
    requires limit > 0 && more(cursor)
    requires after == next(cursor) && rest == Fewer(limit)
    ensures Walk(more, next, cursor, limit) == [cursor] + Walk(more, next, after, rest)
  {
  }

  lemma WalkEnd(more: string -> bool, next: string -> string, cursor: string, limit: nat)
    requires limit == 0 || !more(cursor)
    ensures Walk(more, next, cursor, limit) == []
  {
  }

  /** The loop both generators run: yield the cursor and move it on while
      the test holds, for at most `limit` values. */
  method RunWalk(more: string -> bool, next: string -> string, start: string, limit: nat) returns (out: seq<string>)
    ensures out == Walk(more, next, start, limit)
  {
    var cursor := start;
    var remaining := limit;
    out := [];
    while remaining > 0 && more(cursor)
      invariant out + Walk(more, next, cursor, remaining) == Walk(more, next, start, limit)
      decreases remaining
    {
      var after, rest := next(cursor), Fewer(remaining);
      WalkNext(more, next, cursor, remaining, after, rest);
      AppendAssoc(out, [cursor], Walk(more, next, after, rest));
      out := out + [cursor];
      cursor, remaining := after, rest;
    }
    WalkEnd(more, next, cursor, remaining);
  }

  /** `iterateBuckets(startIso, endIso, stepDays)`, consumed for at most
      `limit` values: the generator need not end (a step of zero or less).
      The end is parsed once; the source re-parses the same string on every
      test. */
  method IterateBuckets(startIso: string, endIso: string, stepDays: Option<int>, limit: nat) returns (out: seq<string>)
    ensures out == Walk(UpTo(ParseIsoDateUtc(endIso)), DayStep(stepDays), startIso, limit)
  {
    out := RunWalk(UpTo(ParseIsoDateUtc(endIso)), DayStep(stepDays), startIso, limit);
  }

  /** `iterateMonthBuckets(startIso, endIso)`, consumed for at most `limit`
      values. */
  method IterateMonthBuckets(startIso: string, endIso: string, limit: nat) returns (out: seq<string>)
    ensures out == Walk(UpTo(ParseIsoDateUtc(StartOfMonth(endIso))), MonthStep(), StartOfMonth(startIso), limit)
  {
    out := RunWalk(UpTo(ParseIsoDateUtc(StartOfMonth(endIso))), MonthStep(), StartOfMonth(startIso), limit);
  }
}
