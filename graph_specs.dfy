/**
 * The graph spec a language model returns for a dashboard card: an object
 * with the eleven properties of the strict response schema (version, kind,
 * title, metric, metrics, dimension, chartType, range, compareMode,
 * granularity, limit). The chat and report endpoints repair such a spec by
 * assigning its properties in place; `GraphSpec` is that object and
 * `SpecFields` a snapshot of its properties.
 */
module GraphSpecs {
  import opened JsValues

  datatype SpecFields = SpecFields(
    version: Value,
    kind: Value,
    title: Value,
    metric: Value,
    metrics: Value,
    dimension: Value,
    chartType: Value,
    range: Value,
    compareMode: Value,
    granularity: Value,
    limit: Value)

  /** The property `key` of an object's property map. */
  function Prop(props: map<string, Value>, key: string): (r: Value)
    ensures key !in props ==> r == Undefined
  {
    if key in props then props[key] else Undefined
  }

  /** The schema's properties of a parsed object; an absent one reads as
      `undefined`. */
  function FromProps(props: map<string, Value>): (s: SpecFields)
    ensures s.kind == Prop(props, "kind") && s.range == Prop(props, "range")
  {
    SpecFields(
      Prop(props, "version"), Prop(props, "kind"), Prop(props, "title"),
      Prop(props, "metric"), Prop(props, "metrics"), Prop(props, "dimension"),
      Prop(props, "chartType"), Prop(props, "range"), Prop(props, "compareMode"),
      Prop(props, "granularity"), Prop(props, "limit"))
  }

  /** The kinds the code singles out. */
  const Breakdown := Str("breakdown")
  const KpiSplit := Str("kpi_split")
  const MultiTimeSeries := Str("multi_time_series")

  /** `isValidDimension(d)`. */
  predicate ValidDimension(d: Value) {
    d == Str("page") || d == Str("query") || d == Str("source")
  }

  /** The object `{ start, end }`. */
  function RangeValue(start: string, end: string): (r: Value)
    ensures Truthy(r) && IsObject(r)
    ensures Field(r, "start") == Str(start) && Field(r, "end") == Str(end)
  {
    Obj(map["start" := Str(start), "end" := Str(end)])
  }

  /** The array of strings `xs`. */
  function StrArray(xs: seq<string>): (r: Value)
    ensures r.Arr? && |r.items| == |xs|
    ensures forall i :: 0 <= i < |xs| ==> r.items[i] == Str(xs[i])
  {
    Arr(seq(|xs|, i requires 0 <= i < |xs| => Str(xs[i])))
  }

  /** A graph spec object whose properties the endpoints assign. */
  class GraphSpec {
    var version: Value
    var kind: Value
    var title: Value
    var metric: Value
    var metrics: Value
    var dimension: Value
    var chartType: Value
    var range: Value
    var compareMode: Value
    var granularity: Value
    var limit: Value

    /** An object holding the properties `s`. */
    constructor(s: SpecFields)
      ensures Snapshot() == s
    {
      version := s.version;
      kind := s.kind;
      title := s.title;
      metric := s.metric;
      metrics := s.metrics;
      dimension := s.dimension;
      chartType := s.chartType;
      range := s.range;
      compareMode := s.compareMode;
      granularity := s.granularity;
      limit := s.limit;
    }

    /** The properties the object holds now. */
    function Snapshot(): SpecFields
      reads this
    {
      SpecFields(version, kind, title, metric, metrics, dimension, chartType,
        range, compareMode, granularity, limit)
    }
  }
}
