/**
 * The query-string handling of src/app_routes/api/analytics/breakdown/
 * +server.js: defaults, the metric, dimension and compare-mode checks, and
 * the clamped row limit. The call into the analytics provider, and the 500
 * it maps a thrown error to, are left out: a request that passes the checks
 * yields the parameters the provider would be called with.
 */
module Breakdown {
  import opened Wrappers
  import opened JsText
  import opened JsValues
  import opened MetricIds
  import opened Endpoints
  import opened AnalyticsQuery
  import JsNumber

  /** The parameters of the `getBreakdown` call. */
  datatype BreakdownQuery = BreakdownQuery(
    clientId: string,
    metric: string,
    dimension: string,
    range: Range,
    compareMode: string,
    limit: int)

  /** `Math.min(50, Math.max(1, Number(limitRaw) || 10))` (lines 33-34). */
  function BreakdownLimit(limitRaw: string): (r: int)
    ensures 1 <= r <= 50
    ensures (StringToNumber(limitRaw).NaN? || StringToNumber(limitRaw) == JsNumber.Int(0)) ==> r == 10
  {
    assert StringToNumber(limitRaw).Finite? ==> JsNumber.IsInt(StringToNumber(limitRaw).x);
    JsNumber.ClampToInt(JsNumber.Or(StringToNumber(limitRaw), JsNumber.Int(10)), 1, 50)
  }

  /** A limit written as a number from 1 to 50 is taken as it is; one
      above 50 is cut to 50 and one below 1 (other than 0) raised to 1. */
  lemma LimitOfNumber(n: int)
    ensures BreakdownLimit(IntToString(n)) == if n == 0 then 10 else if n < 1 then 1 else if n > 50 then 50 else n
  {
    NumberOfString(n);
  }

  /** `GET`, lines 14-34: the defaults, then the metric check, the
      dimension check and the compare-mode check, in that order. */
  function BreakdownRequest(q: Query, today: string): (r: Response<BreakdownQuery>)
    ensures var metric := NormalizeMetricId(Some(ParamOr(q, "metric", "sessions")));
      var dimension := ParamOr(q, "dimension", "page");
      var compareMode := ParamOr(q, "compareMode", "off");
      (r.Ok? <==> metric in MetricKeys && dimension in Dimensions && compareMode in CompareModes) &&
      (metric !in MetricKeys ==> r == Error(400, "Unknown metric: " + metric)) &&
      (metric in MetricKeys && dimension !in Dimensions ==> r == Error(400, "Invalid dimension: " + dimension)) &&
      (metric in MetricKeys && dimension in Dimensions && compareMode !in CompareModes ==>
        r == Error(400, "Invalid compareMode: " + compareMode))
    ensures r.Ok? ==>
      (r.body.metric in MetricKeys && r.body.dimension in Dimensions &&
       r.body.compareMode in CompareModes && 1 <= r.body.limit <= 50 &&
       r.body.range == RangeOf(q, today) && r.body.clientId == ParamOr(q, "clientId", "mock-client"))
  {
    var clientId := ParamOr(q, "clientId", "mock-client");
    var metric := NormalizeMetricId(Some(ParamOr(q, "metric", "sessions")));
    var dimension := ParamOr(q, "dimension", "page");
    if metric !in MetricKeys then Error(400, "Unknown metric: " + metric)
    else if dimension !in Dimensions then Error(400, "Invalid dimension: " + dimension)
    else
      var range := RangeOf(q, today);
      var compareMode := ParamOr(q, "compareMode", "off");
      if compareMode !in CompareModes then Error(400, "Invalid compareMode: " + compareMode)
      else
        var limit := BreakdownLimit(ParamOr(q, "limit", "10"));
        Ok(BreakdownQuery(clientId, metric, dimension, range, compareMode, limit))
  }

  /** The default metric is a metric id already. */
  lemma SessionsKnown()
    ensures NormalizeMetricId(Some("sessions")) == "sessions"
  {
    KeysTrimmed();
  }

  /** The default limit reads as ten. */
  lemma DefaultLimit()
    ensures BreakdownLimit("10") == 10
  {
    LimitOfNumber(10);
    assert IntToString(10) == "10";
  }

  /** A query that passes the three checks is answered with its
      parameters. */
  lemma Accepted(q: Query, today: string)
    requires NormalizeMetricId(Some(ParamOr(q, "metric", "sessions"))) in MetricKeys
    requires ParamOr(q, "dimension", "page") in Dimensions
    requires ParamOr(q, "compareMode", "off") in CompareModes
    ensures BreakdownRequest(q, today) ==
      Ok(BreakdownQuery(ParamOr(q, "clientId", "mock-client"), NormalizeMetricId(Some(ParamOr(q, "metric", "sessions"))),
        ParamOr(q, "dimension", "page"), RangeOf(q, today), ParamOr(q, "compareMode", "off"),
        BreakdownLimit(ParamOr(q, "limit", "10"))))
  {
  }

  /** An empty query asks for the sessions of the mock client, by page, with
      no comparison and ten rows. */
  lemma EmptyQueryDefaults(today: string)
    ensures BreakdownRequest(map[], today) ==
      Ok(BreakdownQuery("mock-client", "sessions", "page", RangeOf(map[], today), "off", 10))
  {
    var q: Query := map[];
    SessionsKnown();
    DefaultLimit();
    assert ParamOr(q, "metric", "sessions") == "sessions";
    assert ParamOr(q, "dimension", "page") == "page" && "page" in Dimensions;
    assert ParamOr(q, "compareMode", "off") == "off" && "off" in CompareModes;
    assert ParamOr(q, "limit", "10") == "10";
    assert ParamOr(q, "clientId", "mock-client") == "mock-client";
    Accepted(q, today);
  }
}
