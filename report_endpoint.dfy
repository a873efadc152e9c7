/**
 * The report endpoint of src/app_routes/api/ai/report/+server.js: a prompt
 * goes to a language model, whose reply lists dashboard cards; the endpoint
 * keeps the cards whose spec is an object, repairs each graph spec in place
 * (`normalizeGraphSpec`), rebuilds each keyword spec
 * (`normalizeKeywordSpec`) and insists on at least three cards. The call to
 * the model is left out; its reply arrives here already parsed, `None` when
 * it was not JSON.
 */
module ReportEndpoint {
  import opened Wrappers
  import opened JsText
  import JsNumber
  import opened JsValues
  import opened MetricIds
  import opened GraphSpecs
  import opened ChatGraphSpec
  import opened Endpoints

  // ------------------------------------------------------------ graph specs

  /** `normalizeMetricId(v)` of a JSON value: a falsy one reads as no
      input, any other through `String(v)`. */
  function MetricIdOf(v: Value): (r: string)
    ensures !Truthy(v) ==> r == ""
    ensures r == "" || r in MetricKeys || r == Trim(JsString(v))
  {
    NormalizedKnownOrTrimmed(if Truthy(v) then Some(JsString(v)) else None);
    NormalizeMetricId(if Truthy(v) then Some(JsString(v)) else None)
  }

  /** `.filter(Boolean)` on strings: the non-empty ones, in order. */
  function NonEmptyOnly(xs: seq<string>): (r: seq<string>)
    ensures |r| <= |xs|
    ensures forall i :: 0 <= i < |r| ==> r[i] != "" && r[i] in xs
    ensures (forall i :: 0 <= i < |xs| ==> xs[i] != "") ==> r == xs
    decreases |xs|
  {
    if xs == [] then []
    else (if xs[0] == "" then [] else [xs[0]]) + NonEmptyOnly(xs[1..])
  }

  /** The metric list of lines 26-30: each entry normalised, the empty
      results dropped, at most four. */
  function ReportMetricIds(items: seq<Value>): (r: seq<string>)
    ensures |r| <= 4
    ensures forall i :: 0 <= i < |r| ==> r[i] != ""
  {
    Prefix(NonEmptyOnly(seq(|items|, i requires 0 <= i < |items| => MetricIdOf(items[i]))), 4)
  }

  /** Lines 16-21: version, range, comparison, granularity and limit. */
  function Defaulted(s: SpecFields): SpecFields {
    s.(
      version := if Truthy(s.version) then s.version else Num(1),
      range := if Truthy(s.range) && IsObject(s.range) then s.range else Null,
      compareMode := Or(s.compareMode, Str("off")),
      granularity := Or(s.granularity, Str("auto")),
      limit := if IsNullish(s.limit) then (if s.kind == Breakdown then Num(10) else Null) else s.limit)
  }

  /** Lines 24-37: the metric list, the single metric and the dimension. */
  function MetricsAndDimension(s: SpecFields): SpecFields {
    var metrics := if s.metrics == Undefined then Null else s.metrics;
    s.(
      metrics := if metrics.Arr? then StrArray(ReportMetricIds(metrics.items)) else metrics,
      metric := if Truthy(s.metric) then Str(MetricIdOf(s.metric)) else s.metric,
      dimension :=
        if s.kind == Breakdown then (if ValidDimension(s.dimension) then s.dimension else Str("page"))
        else Null)
  }

  /** `normalizeGraphSpec` on an object's properties. */
  function Normalized(s: SpecFields): SpecFields {
    MetricsAndDimension(Defaulted(s))
  }

  /** Lines 16-21 on the object `spec`. */
  method ApplyDefaults(spec: GraphSpec)
    modifies spec
    ensures spec.Snapshot() == Defaulted(old(spec.Snapshot()))
  {
    if !Truthy(spec.version) {
      spec.version := Num(1);
    }
    if !Truthy(spec.range) || !IsObject(spec.range) {
      spec.range := Null;
    }
    if !Truthy(spec.compareMode) {
      spec.compareMode := Str("off");
    }
    if !Truthy(spec.granularity) {
      spec.granularity := Str("auto");
    }
    if IsNullish(spec.limit) {
      spec.limit := if spec.kind == Breakdown then Num(10) else Null;
    }
  }

  /** Lines 24-37 on the object `spec`. */
  method NormalizeMetricsAndDimension(spec: GraphSpec)
    modifies spec
    ensures spec.Snapshot() == MetricsAndDimension(old(spec.Snapshot()))
  {
    if spec.metrics == Undefined {
      spec.metrics := Null;
    }
    if Truthy(spec.metric) {
      spec.metric := Str(MetricIdOf(spec.metric));
    }
    if spec.metrics.Arr? {
      spec.metrics := StrArray(ReportMetricIds(spec.metrics.items));
    }
    if spec.kind == Breakdown {
      if !ValidDimension(spec.dimension) {
        spec.dimension := Str("page");
      }
    } else {
      spec.dimension := Null;
    }
  }

  /** `normalizeGraphSpec(spec)` for an object `spec` (lines 15-40): its
      properties are assigned in place. */
  method NormalizeGraphSpec(spec: GraphSpec)
    modifies spec
    ensures spec.Snapshot() == Normalized(old(spec.Snapshot()))
  {
    ApplyDefaults(spec);
    NormalizeMetricsAndDimension(spec);
  }

  /** After normalisation a spec has a version, an object range or none, a
      comparison mode and a granularity; a breakdown has a limit and a valid
      dimension, every other kind no dimension; a metric list holds at most
      four non-empty strings. */
  lemma NormalizedShape(s: SpecFields)
    ensures var r := Normalized(s);
      Truthy(r.version) && (r.range == Null || (Truthy(r.range) && IsObject(r.range))) &&
      Truthy(r.compareMode) && Truthy(r.granularity) && r.kind == s.kind &&
      (r.kind == Breakdown ==> !IsNullish(r.limit) && ValidDimension(r.dimension)) &&
      (r.kind != Breakdown ==> r.dimension == Null) &&
      r.metrics != Undefined && (r.metrics.Arr? ==> MetricList(r.metrics))
  {
    var d := Defaulted(s);
    if d.metrics.Arr? {
      StrArrayMetricList(ReportMetricIds(d.metrics.items));
    }
  }

  /** A normalised metric id normalises to itself. */
  lemma MetricIdOfFixpoint(v: Value)
    ensures MetricIdOf(Str(MetricIdOf(v))) == MetricIdOf(v) || MetricIdOf(v) == ""
  {
    NormalizeIdempotent(if Truthy(v) then Some(JsString(v)) else None);
  }

  /** A metric list from a normalised spec reads back as itself. */
  lemma ReportMetricIdsFixpoint(items: seq<Value>)
    ensures ReportMetricIds(StrArray(ReportMetricIds(items)).items) == ReportMetricIds(items)
  {
    var ids := ReportMetricIds(items);
    var all := seq(|items|, i requires 0 <= i < |items| => MetricIdOf(items[i]));
    var again := seq(|ids|, i requires 0 <= i < |ids| => MetricIdOf(StrArray(ids).items[i]));
    forall i | 0 <= i < |ids|
      ensures again[i] == ids[i]
    {
      assert ids[i] in all;
      var j :| 0 <= j < |items| && all[j] == ids[i];
      MetricIdOfFixpoint(items[j]);
    }
    assert again == ids;
  }

  /** Normalising a normalised spec changes nothing. */
  lemma NormalizedIdempotent(s: SpecFields)
    ensures Normalized(Normalized(s)) == Normalized(s)
  {
    var d := Defaulted(s);
    if d.metrics.Arr? {
      ReportMetricIdsFixpoint(d.metrics.items);
    }
    if Truthy(d.metric) {
      MetricIdOfFixpoint(d.metric);
    }
  }

  // ---------------------------------------------------------- keyword specs

  /** The variants a keyword card may show. */
  const KeywordVariants: seq<string> := ["avg_position", "visibility", "list", "summary"]

  /** A keyword tracking card's spec, as `normalizeKeywordSpec` builds it;
      its version is always 1 and its kind `keyword_tracking`. */
  datatype KeywordSpec = KeywordSpec(title: string, variant: string, groupId: string, limit: int)

  /** The `limit` of lines 52-54: 25 when absent, otherwise the number
      rounded and clamped to [5, 200], with 25 for NaN and 0. */
  function KeywordLimit(v: Value): (r: int)
    ensures 5 <= r <= 200
    ensures IsNullish(v) ==> r == 25
    ensures v.Num? && 5 <= v.n <= 200 ==> r == v.n
    ensures v.Num? && v.n == 0 ==> r == 25
    ensures ToNumber(v).NaN? ==> r == 25
  {
    if IsNullish(v) then 25
    else
      JsNumber.ClampToInt(JsNumber.Round(JsNumber.Or(ToNumber(v), JsNumber.Int(25))), 5, 200)
  }

  /** `normalizeKeywordSpec(spec)` for an object spec (lines 42-57). */
  function KeywordSpecOf(spec: Value): (r: KeywordSpec)
    ensures |r.title| <= 60 && r.variant in KeywordVariants && r.groupId != ""
    ensures 5 <= r.limit <= 200
    ensures !Truthy(Field(spec, "title")) ==> r.title == "Organic Keywords"
    ensures JsString(Field(spec, "variant")) in KeywordVariants ==> r.variant == JsString(Field(spec, "variant"))
    ensures JsString(Field(spec, "variant")) !in KeywordVariants ==> r.variant == "avg_position"
    ensures !Truthy(Field(spec, "groupId")) ==> r.groupId == "all"
  {
    var variant := JsString(Field(spec, "variant"));
    var groupId := StringOr(Field(spec, "groupId"), "all");
    KeywordSpec(
      Take(StringOr(Field(spec, "title"), "Organic Keywords"), 60),
      if variant in KeywordVariants then variant else "avg_position",
      if groupId == "" then "all" else groupId,
      KeywordLimit(Field(spec, "limit")))
  }

  /** The JSON object of a keyword spec. */
  function KeywordValue(k: KeywordSpec): (r: Value)
    ensures r.Obj? && Field(r, "kind") == Str("keyword_tracking") && Field(r, "version") == Num(1)
  {
    Obj(map[
      "version" := Num(1), "kind" := Str("keyword_tracking"), "title" := Str(k.title),
      "variant" := Str(k.variant), "groupId" := Str(k.groupId), "limit" := Num(k.limit)])
  }

  /** A keyword spec as the endpoint builds it is one it can build. */
  predicate ValidKeywordSpec(k: KeywordSpec) {
    |k.title| <= 60 && k.title != "" && k.variant in KeywordVariants && k.groupId != "" && 5 <= k.limit <= 200
  }

  /** Rebuilding a keyword spec from its own JSON gives it back. */
  lemma KeywordSpecRoundTrip(k: KeywordSpec)
    requires ValidKeywordSpec(k)
    ensures KeywordSpecOf(KeywordValue(k)) == k
  {
    var v := KeywordValue(k);
    assert Field(v, "title") == Str(k.title);
    assert Field(v, "variant") == Str(k.variant);
    assert Field(v, "groupId") == Str(k.groupId);
    assert Field(v, "limit") == Num(k.limit);
  }

  // ------------------------------------------------------------ the cards

  /** A card's spec: a keyword spec, a repaired graph spec, or an array,
      which `normalizeGraphSpec` returns with properties that are not part
      of its JSON form. */
  datatype CardSpec = KeywordCard(keyword: KeywordSpec) | GraphCard(fields: SpecFields) | ArrayCard(v: Value)

  datatype Card = Card(span: int, spec: CardSpec)

  /** `Math.max(1, Math.min(4, Math.round(Number(span) || 2)))`. */
  function CardSpan(v: Value): (r: int)
    ensures 1 <= r <= 4
    ensures IsNullish(v) || (v.Num? && v.n == 0) ==> r == 2
    ensures v.Num? && 1 <= v.n <= 4 ==> r == v.n
    ensures ToNumber(v).NaN? ==> r == 2
  {
    JsNumber.ClampToInt(JsNumber.Round(JsNumber.Or(ToNumber(v), JsNumber.Int(2))), 1, 4)
  }

  /** The card built from one raw entry (lines 217-227), none when its spec
      is not an object. */
  function CardOf(c: Value): (r: Option<Card>)
    ensures r.Some? <==> IsObject(Field(c, "spec"))
    ensures r.Some? && Field(Field(c, "spec"), "kind") == Str("keyword_tracking") ==>
      r.value.span == 4 && r.value.spec.KeywordCard?
  {
    var spec := Or(Field(c, "spec"), Null);
    if !Truthy(spec) || !IsObject(spec) then None
    else if Field(spec, "kind") == Str("keyword_tracking") then Some(Card(4, KeywordCard(KeywordSpecOf(spec))))
    else if spec.Obj? then Some(Card(CardSpan(Field(c, "span")), GraphCard(Normalized(FromProps(spec.props)))))
    else Some(Card(CardSpan(Field(c, "span")), ArrayCard(spec)))
  }

  /** The cards built from the raw entries, in order. */
  function CardsOf(raw: seq<Value>): (r: seq<Card>)
    ensures |r| <= |raw|
    decreases |raw|
  {
    if raw == [] then []
    else
      var last := CardOf(raw[|raw| - 1]);
      CardsOf(raw[..|raw| - 1]) + (if last.Some? then [last.value] else [])
  }

  /** The loop of lines 216-228. */
  method BuildCards(raw: seq<Value>) returns (cards: seq<Card>)
    ensures cards == CardsOf(raw)
  {
    cards := [];
    for i := 0 to |raw|
      invariant cards == CardsOf(raw[..i])
    {
      assert raw[..i + 1][..i] == raw[..i];
      var c := raw[i];
      var spec := Or(Field(c, "spec"), Null);
      if !Truthy(spec) || !IsObject(spec) {
        continue;
      }
      if Field(spec, "kind") == Str("keyword_tracking") {
        cards := cards + [Card(4, KeywordCard(KeywordSpecOf(spec)))];
        continue;
      }
      var span := CardSpan(Field(c, "span"));
      if spec.Obj? {
        var graph := new GraphSpec(FromProps(spec.props));
        NormalizeGraphSpec(graph);
        cards := cards + [Card(span, GraphCard(graph.Snapshot()))];
      } else {
        cards := cards + [Card(span, ArrayCard(spec))];
      }
    }
    assert raw[..|raw|] == raw;
  }

  /** Every card spans one to four columns, a keyword card all four. */
  lemma {:induction false} CardSpans(raw: seq<Value>)
    ensures forall i :: 0 <= i < |CardsOf(raw)| ==>
      1 <= CardsOf(raw)[i].span <= 4 &&
      (CardsOf(raw)[i].spec.KeywordCard? ==> CardsOf(raw)[i].span == 4)
    decreases |raw|
  {
    if raw != [] {
      CardSpans(raw[..|raw| - 1]);
    }
  }

  predicate HasObjectSpec(c: Value) {
    IsObject(Field(c, "spec"))
  }

  /** The positions of the raw entries whose spec is an object. */
  function ObjectSpecPositions(raw: seq<Value>): set<int> {
    set i | 0 <= i < |raw| && HasObjectSpec(raw[i])
  }

  lemma {:induction false} PositionsSnoc(raw: seq<Value>)
    requires raw != []
    ensures var n := |raw| - 1;
      ObjectSpecPositions(raw) ==
        ObjectSpecPositions(raw[..n]) + (if HasObjectSpec(raw[n]) then {n} else {})
  {
    var n := |raw| - 1;
    forall i | 0 <= i < n
      ensures raw[..n][i] == raw[i]
    {
    }
  }

  lemma {:induction false} CardsSnoc(raw: seq<Value>)
    requires raw != []
    ensures var n := |raw| - 1;
      |CardsOf(raw)| == |CardsOf(raw[..n])| + (if CardOf(raw[n]).Some? then 1 else 0)
  {
  }

  /** One card per raw entry whose spec is an object. */
  lemma {:induction false} CardCount(raw: seq<Value>)
    ensures |CardsOf(raw)| == |ObjectSpecPositions(raw)|
    decreases |raw|
  {
    if raw != [] {
      var n := |raw| - 1;
      CardCount(raw[..n]);
      CardsSnoc(raw);
      PositionsSnoc(raw);
      assert CardOf(raw[n]).Some? <==> HasObjectSpec(raw[n]);
      assert n !in ObjectSpecPositions(raw[..n]);
    }
  }

  // ------------------------------------------------------------ the endpoint

  datatype ReportReply = ReportReply(title: string, cards: seq<Card>)

  /** The raw card list of the model's reply: `cards` when it is an array. */
  function CardsRaw(reply: Value): (r: seq<Value>)
    ensures !Field(reply, "cards").Arr? ==> r == []
  {
    if Field(reply, "cards").Arr? then Field(reply, "cards").items else []
  }

  /** Lines 212-235 on the model's reply: the title and the cards, or a 502
      when fewer than three cards are usable. */
  function ReplyResponse(reply: Value): (r: Response<ReportReply>)
    ensures r.Ok? <==> |CardsOf(CardsRaw(reply))| >= 3
    ensures r.Ok? ==> |r.body.title| <= 60 && r.body.cards == CardsOf(CardsRaw(reply))
    ensures r.Ok? && !Truthy(Field(reply, "title")) ==> r.body.title == "Report"
    ensures r.Error? ==> r.status == 502
  {
    var cards := CardsOf(CardsRaw(reply));
    if |cards| < 3 then Error(502, "AI did not return enough usable cards.")
    else Ok(ReportReply(Take(StringOr(Field(reply, "title"), "Report"), 60), cards))
  }

  /** The endpoint on a request body, the model's text `content` and what
      that text parses to: a server key and a prompt are required, the text
      must parse to a truthy JSON value (else a 502 echoes it), and at
      least three usable cards must come out of it. */
  function ReportResponse(apiKey: string, body: Value, content: string, parsed: Option<Value>)
    : (r: Response<ReportReply>)
    ensures Trim(apiKey) == "" ==> r == Error(500, "OPENAI_API_KEY is not set on the server.")
    ensures Trim(apiKey) != "" && Trim(StringOr(Field(body, "prompt"), "")) == "" ==>
      r == Error(400, "prompt is required")
    ensures r.Ok? <==>
      Trim(apiKey) != "" && Trim(StringOr(Field(body, "prompt"), "")) != "" &&
      parsed.Some? && Truthy(parsed.value) && |CardsOf(CardsRaw(parsed.value))| >= 3
    ensures r.Ok? ==> |r.body.title| <= 60 && |r.body.cards| >= 3
    ensures Trim(apiKey) != "" && Trim(StringOr(Field(body, "prompt"), "")) != "" &&
            (parsed.None? || !Truthy(parsed.value)) ==>
              r == Error(502, "AI response was not valid JSON.", Some(content))
  {
    if Trim(apiKey) == "" then Error(500, "OPENAI_API_KEY is not set on the server.")
    else if Trim(StringOr(Field(body, "prompt"), "")) == "" then Error(400, "prompt is required")
    else if parsed.None? || !Truthy(parsed.value) then Error(502, "AI response was not valid JSON.", Some(content))
    else ReplyResponse(parsed.value)
  }

  /** Lines 212-235, building the cards with `BuildCards`. */
  method RespondToReply(reply: Value) returns (r: Response<ReportReply>)
    ensures r == ReplyResponse(reply)
  {
    var title := Take(StringOr(Field(reply, "title"), "Report"), 60);
    var cards := BuildCards(CardsRaw(reply));
    if |cards| < 3 {
      return Error(502, "AI did not return enough usable cards.");
    }
    r := Ok(ReportReply(title, cards));
  }

  /** The endpoint's code path. */
  method Respond(apiKey: string, body: Value, content: string, parsed: Option<Value>)
    returns (r: Response<ReportReply>)
    ensures r == ReportResponse(apiKey, body, content, parsed)
  {
    if Trim(apiKey) == "" {
      return Error(500, "OPENAI_API_KEY is not set on the server.");
    }
    var prompt := Trim(StringOr(Field(body, "prompt"), ""));
    if prompt == "" {
      return Error(400, "prompt is required");
    }
    if parsed.None? || !Truthy(parsed.value) {
      return Error(502, "AI response was not valid JSON.", Some(content));
    }
    r := RespondToReply(parsed.value);
  }
}
