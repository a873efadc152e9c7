/**
 * The query-string handling of src/app_routes/api/analytics/brand-split/
 * +server.js: defaults, then the metric, compare-mode and granularity
 * checks. As for the breakdown, the provider call and its 500 are left out.
 */
module BrandSplit {
  import opened Wrappers
  import opened JsText
  import opened MetricIds
  import opened Endpoints
  import opened AnalyticsQuery

  /** The parameters of the `getBrandSplit` call. */
  datatype BrandSplitQuery = BrandSplitQuery(
    clientId: string,
    metric: string,
    range: Range,
    compareMode: string,
    granularity: string)

  /** `GET`, lines 12-30: the defaults, then the metric check, the
      compare-mode check and the granularity check, in that order. */
  function BrandSplitRequest(q: Query, today: string): (r: Response<BrandSplitQuery>)
    ensures var metric := NormalizeMetricId(Some(ParamOr(q, "metric", "clicks")));
      var compareMode := ParamOr(q, "compareMode", "off");
      var granularity := ParamOr(q, "granularity", "auto");
      (r.Ok? <==> metric in MetricKeys && compareMode in CompareModes && granularity in Granularities) &&
      (metric !in MetricKeys ==> r == Error(400, "Unknown metric: " + metric)) &&
      (metric in MetricKeys && compareMode !in CompareModes ==>
        r == Error(400, "Invalid compareMode: " + compareMode)) &&
      (metric in MetricKeys && compareMode in CompareModes && granularity !in Granularities ==>
        r == Error(400, "Invalid granularity: " + granularity))
    ensures r.Ok? ==>
      (r.body.metric in MetricKeys && r.body.compareMode in CompareModes &&
       r.body.granularity in Granularities && r.body.range == RangeOf(q, today) &&
       r.body.clientId == ParamOr(q, "clientId", "mock-client"))
  {
    var clientId := ParamOr(q, "clientId", "mock-client");
    var metric := NormalizeMetricId(Some(ParamOr(q, "metric", "clicks")));
    if metric !in MetricKeys then Error(400, "Unknown metric: " + metric)
    else
      var range := RangeOf(q, today);
      var compareMode := ParamOr(q, "compareMode", "off");
      if compareMode !in CompareModes then Error(400, "Invalid compareMode: " + compareMode)
      else
        var granularity := ParamOr(q, "granularity", "auto");
        if granularity !in Granularities then Error(400, "Invalid granularity: " + granularity)
        else Ok(BrandSplitQuery(clientId, metric, range, compareMode, granularity))
  }

  /** The default metric is a metric id already. */
  lemma ClicksKnown()
    ensures NormalizeMetricId(Some("clicks")) == "clicks"
  {
    KeysTrimmed();
  }

  /** A query that passes the three checks is answered with its
      parameters. */
  lemma Accepted(q: Query, today: string)
    requires NormalizeMetricId(Some(ParamOr(q, "metric", "clicks"))) in MetricKeys
    requires ParamOr(q, "compareMode", "off") in CompareModes
    requires ParamOr(q, "granularity", "auto") in Granularities
    ensures BrandSplitRequest(q, today) ==
      Ok(BrandSplitQuery(ParamOr(q, "clientId", "mock-client"), NormalizeMetricId(Some(ParamOr(q, "metric", "clicks"))),
        RangeOf(q, today), ParamOr(q, "compareMode", "off"), ParamOr(q, "granularity", "auto")))
  {
  }

  /** An empty query asks for the clicks of the mock client, with no
      comparison and automatic granularity. */
  lemma EmptyQueryDefaults(today: string)
    ensures BrandSplitRequest(map[], today) ==
      Ok(BrandSplitQuery("mock-client", "clicks", RangeOf(map[], today), "off", "auto"))
  {
    var q: Query := map[];
    ClicksKnown();
    assert ParamOr(q, "metric", "clicks") == "clicks";
    assert ParamOr(q, "compareMode", "off") == "off" && "off" in CompareModes;
    assert ParamOr(q, "granularity", "auto") == "auto" && "auto" in Granularities;
    assert ParamOr(q, "clientId", "mock-client") == "mock-client";
    Accepted(q, today);
  }
}
