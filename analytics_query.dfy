/**
 * What the analytics endpoints (src/app_routes/api/analytics/breakdown and
 * brand-split) read from a request's query string: a parameter or its
 * default, the enumerations they validate against, and the default date
 * range. The query string is a map from parameter name to its first value;
 * today's date (`todayIsoUtc()`) arrives as a parameter.
 */
module AnalyticsQuery {
  import opened Wrappers
  import opened JsValues
  import opened UtcCalendar
  import opened Dates
  import opened DatesProperties

  type Query = map<string, string>

  /** `url.searchParams.get(name) || fallback`: an absent or empty
      parameter reads as the fallback. */
  function ParamOr(q: Query, name: string, fallback: string): (r: string)
    ensures name in q && q[name] != "" ==> r == q[name]
    ensures name !in q || q[name] == "" ==> r == fallback
  {
    if name in q && q[name] != "" then q[name] else fallback
  }

  /** The values of `COMPARE_MODES`, `GRANULARITIES` and the allowed
      breakdown `DIMENSIONS` (src/lib/analytics/constants.js). */
  const CompareModes: seq<string> := ["off", "mom", "yoy"]
  const Granularities: seq<string> := ["auto", "daily", "weekly", "monthly"]
  const Dimensions: set<string> := {"page", "query", "source"}

  /** The `{ start, end }` range passed on to the provider. */
  datatype Range = Range(start: string, end: string)

  /** The range both endpoints read: `end` defaults to yesterday and
      `start` to 27 days before `end`. */
  function RangeOf(q: Query, today: string): (r: Range)
    ensures r.end == ParamOr(q, "end", AddDays(today, Some(-1)))
    ensures r.start == ParamOr(q, "start", AddDays(r.end, Some(-27)))
  {
    var end := ParamOr(q, "end", AddDays(today, Some(-1)));
    Range(ParamOr(q, "start", AddDays(end, Some(-27))), end)
  }

  /** Without an `end`, the range ends the day before today. */
  lemma DefaultEnd(q: Query, today: string, n: int)
    requires "end" !in q || q["end"] == ""
    requires ParseIsoDateUtc(today) == Some(n) && YearOf(n - 1) >= 100
    ensures ParseIsoDateUtc(RangeOf(q, today).end) == Some(n - 1)
  {
    AddDaysMoves(today, n, -1, n - 1);
  }

  /** Without a `start`, the range is the 28 days up to and including its
      end. */
  lemma DefaultWindow(q: Query, today: string, m: int)
    requires "start" !in q || q["start"] == ""
    requires ParseIsoDateUtc(RangeOf(q, today).end) == Some(m) && YearOf(m - 27) >= 100
    ensures DaysInclusive(RangeOf(q, today).start, RangeOf(q, today).end) == Some(28)
  {
    var r := RangeOf(q, today);
    AddDaysMoves(r.end, m, -27, m - 27);
    DaysInclusiveIs(r.start, r.end, m - 27, m, 28);
  }
}
