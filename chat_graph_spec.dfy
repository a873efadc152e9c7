/**
 * The repair the chat endpoint (src/app_routes/api/ai/chat/+server.js)
 * applies to the graph spec in a language model's reply before returning
 * it, and the shape of the reply. The spec's gaps are filled from the
 * dashboard filters, its dimension, metrics and limit are made consistent
 * with its kind, and a breakdown asked for a split between metrics is
 * rewritten into a multi-line or pie chart of the metrics the user named.
 */
module ChatGraphSpec {
  import opened Wrappers
  import opened JsText
  import opened JsValues
  import opened MetricIds
  import opened Chat
  import opened GraphSpecs

  // ------------------------------------------------------------ user text

  /** `String(m?.content || '').trim()`. */
  function Content(m: Value): string {
    Trim(StringOr(Field(m, "content"), ""))
  }

  /** `(m?.role || 'user') !== 'assistant'` with non-blank content. */
  predicate IsUserTurn(m: Value) {
    Or(Field(m, "role"), Str("user")) != Str("assistant") && Content(m) != ""
  }

  /** The trimmed content of the last user turn, `""` when there is none. */
  function LastUserText(messages: seq<Value>): (r: string)
    decreases |messages|
  {
    if messages == [] then ""
    else
      var m := messages[|messages| - 1];
      if IsUserTurn(m) then Content(m)
      else LastUserText(messages[..|messages| - 1])
  }

  /** The text is empty exactly when no message is a user turn. */
  lemma {:induction false} LastUserTextEmpty(messages: seq<Value>)
    ensures LastUserText(messages) == "" <==> forall i :: 0 <= i < |messages| ==> !IsUserTurn(messages[i])
    decreases |messages|
  {
    if messages != [] {
      var n := |messages| - 1;
      LastUserTextEmpty(messages[..n]);
      assert forall i :: 0 <= i < n ==> messages[..n][i] == messages[i];
    }
  }

  /** A non-empty text is the content of the user turn `i`, and no user turn
      comes after it. */
  lemma {:induction false} LastUserTextFound(messages: seq<Value>) returns (i: nat)
    requires LastUserText(messages) != ""
    ensures i < |messages| && IsUserTurn(messages[i])
    ensures LastUserText(messages) == Content(messages[i])
    ensures forall j :: i < j < |messages| ==> !IsUserTurn(messages[j])
    decreases |messages|
  {
    var n := |messages| - 1;
    if IsUserTurn(messages[n]) {
      i := n;
    } else {
      var init := messages[..n];
      i := LastUserTextFound(init);
      assert messages[i] == init[i];
      forall j | i < j < |messages|
        ensures !IsUserTurn(messages[j])
      {
        if j < n {
          assert messages[j] == init[j];
        }
      }
    }
  }

  // -------------------------------------------------------- word matching

  /** The word characters of a regular expression: `[A-Za-z0-9_]`. */
  predicate IsWordChar(c: char) {
    'a' <= c <= 'z' || 'A' <= c <= 'Z' || '0' <= c <= '9' || c == '_'
  }

  /** `w` occurs in `t` at `k` with a word boundary on both sides. */
  predicate WordAt(t: string, w: string, k: nat) {
    k + |w| <= |t| && t[k..k + |w|] == w &&
    (k == 0 || !IsWordChar(t[k - 1])) &&
    (k + |w| == |t| || !IsWordChar(t[k + |w|]))
  }

  predicate WordFrom(t: string, w: string, k: nat)
    requires k <= |t|
    decreases |t| - k
  {
    WordAt(t, w, k) || (k < |t| && WordFrom(t, w, k + 1))
  }

  /** `/\bw\b/i.test(text)` for a lower-case word `w`. */
  predicate HasWord(text: string, w: string) {
    WordFrom(Lower(text), w, 0)
  }

  /** A match of `w` in `t` is a bounded occurrence at some offset. */
  lemma {:induction false} WordFromAt(t: string, w: string, k: nat)
    requires k <= |t|
    ensures WordFrom(t, w, k) <==> exists j :: k <= j <= |t| && WordAt(t, w, j)
    decreases |t| - k
  {
    if k < |t| {
      WordFromAt(t, w, k + 1);
    } else if exists j :: k <= j <= |t| && WordAt(t, w, j) {
      var j :| k <= j <= |t| && WordAt(t, w, j);
      assert j == k;
    }
  }

  /** The word alone, in any case, matches; a longer word made of it does
      not: "Pie" asks for a pie, "pies" does not. */
  lemma WordExamples()
    ensures HasWord("Pie", "pie")
    ensures !HasWord("pies", "pie")
  {
    assert Lower("Pie") == "pie";
    assert WordAt("pie", "pie", 0);
    assert Lower("pies") == "pies";
    WordFromAt("pies", "pie", 0);
    forall j | 0 <= j <= 4
      ensures !WordAt("pies", "pie", j)
    {
      if j == 0 {
        assert "pies"[3] == 's';
      } else {
        assert j + 3 > 4 || "pies"[j..j + 3] != "pie" by {
          if j == 1 {
            assert "pies"[1..4][0] == 'i';
          }
        }
      }
    }
  }

  // ------------------------------------------------------------ the steps

  /** The trimmed text of a filter value, `String(filters.k || '').trim()`. */
  function FilterText(filters: Value, key: string): (r: string)
    ensures Trim(r) == r
  {
    TrimIdempotent(StringOr(Field(filters, key), ""));
    Trim(StringOr(Field(filters, key), ""))
  }

  /** The range after lines 246-250: a non-object becomes `null`, and a
      `null` range or one lacking a start or an end is replaced by the
      filters' range when both its ends are set. */
  function RangeFilled(range: Value, start: string, end: string): Value {
    var r1 := if !Truthy(range) || !IsObject(range) then Null else range;
    var r2 :=
      if Truthy(r1) && (!Truthy(Field(r1, "start")) || !Truthy(Field(r1, "end"))) && start != "" && end != ""
      then RangeValue(start, end) else r1;
    if r2 == Null && start != "" && end != "" then RangeValue(start, end) else r2
  }

  /** `String(m || '')` of each entry of an array. */
  function EntryTexts(items: seq<Value>): (r: seq<string>)
    ensures |r| == |items|
    ensures forall i :: 0 <= i < |items| ==> r[i] == StringOr(items[i], "")
  {
    seq(|items|, i requires 0 <= i < |items| => StringOr(items[i], ""))
  }

  /** `normalizeMetricId` of each entry. */
  function NormalizedIds(xs: seq<string>): (r: seq<string>)
    ensures |r| == |xs|
    ensures forall i :: 0 <= i < |xs| ==> r[i] == NormalizeMetricId(Some(xs[i]))
  {
    seq(|xs|, i requires 0 <= i < |xs| => NormalizeMetricId(Some(xs[i])))
  }

  /** `xs.slice(0, n)`. */
  function Prefix(xs: seq<string>, n: nat): (r: seq<string>)
    ensures |r| <= n && r <= xs
    ensures |xs| <= n ==> r == xs
  {
    if |xs| <= n then xs else xs[..n]
  }

  /** The metrics of a split or multi-series chart (lines 275-280): the
      array's entries as trimmed strings, the empty ones dropped, each
      normalised, at most four. */
  function SpecMetricIds(metrics: Value): seq<string> {
    var items := if metrics.Arr? then metrics.items else [];
    Prefix(NormalizedIds(Cleaned(EntryTexts(items))), 4)
  }

  predicate IsSeriesKind(kind: Value) {
    kind == KpiSplit || kind == MultiTimeSeries
  }

  /** The spec after lines 246-265: range, comparison, granularity, limit
      and dimension. */
  function Filled(s: SpecFields, filters: Value): SpecFields {
    var filterCompare := Field(filters, "compareMode");
    var filterGranularity := Field(filters, "granularity");
    s.(
      range := RangeFilled(s.range, FilterText(filters, "start"), FilterText(filters, "end")),
      compareMode := if !Truthy(s.compareMode) && Truthy(filterCompare) then filterCompare else s.compareMode,
      granularity := if !Truthy(s.granularity) && Truthy(filterGranularity) then filterGranularity else s.granularity,
      limit := if IsNullish(s.limit) then (if s.kind == Breakdown then Num(10) else Null) else s.limit,
      dimension :=
        if s.kind == Breakdown then (if ValidDimension(s.dimension) then s.dimension else Str("page"))
        else Null)
  }

  /** The spec after lines 273-287: the metric list and the single
      metric. */
  function MetricsNormalized(s: SpecFields): SpecFields {
    s.(
      metrics := if IsSeriesKind(s.kind) then StrArray(SpecMetricIds(s.metrics)) else Null,
      metric := if Truthy(s.metric) then Str(NormalizeMetricId(Some(JsString(s.metric)))) else s.metric)
  }

  /** The spec before the split correction. */
  function Prepared(s: SpecFields, filters: Value): SpecFields {
    MetricsNormalized(Filled(s, filters))
  }

  /** `wantsPie`: the chart type is `pie` in any case, or the text names a
      pie or a donut. */
  predicate WantsPie(chartType: Value, text: string) {
    Lower(StringOr(chartType, "")) == "pie" || HasWord(text, "pie") || HasWord(text, "donut")
  }

  /** `wantsLine`: the chart type is `line` in any case, or the text names a
      line. */
  predicate WantsLine(chartType: Value, text: string) {
    Lower(StringOr(chartType, "")) == "line" || HasWord(text, "line")
  }

  /** Whether the split correction of lines 290-321 replaces the spec. */
  predicate Rewrites(p: SpecFields, text: string) {
    IsSplitRequest(text) && |Mentioned(text)| >= 2 && p.kind == Breakdown &&
    (WantsLine(p.chartType, text) || WantsPie(p.chartType, text))
  }

  /** The replacement spec: a multi-series line chart when `line`, a pie
      split otherwise, of the first four mentioned metrics. */
  function Rewritten(p: SpecFields, mentioned: seq<string>, start: string, end: string, line: bool): SpecFields
    requires mentioned != []
  {
    SpecFields(
      version := Num(1),
      kind := if line then MultiTimeSeries else KpiSplit,
      title := Or(p.title, Str(if line then "Comparison" else "Split")),
      metric := Str(mentioned[0]),
      metrics := StrArray(Prefix(mentioned, 4)),
      dimension := Null,
      chartType := Str(if line then "line" else "pie"),
      range := Or(p.range, if start != "" && end != "" then RangeValue(start, end) else Null),
      compareMode := if line then Or(p.compareMode, Str("off")) else Str("off"),
      granularity := Or(p.granularity, Str("auto")),
      limit := Null)
  }

  /** `if (!graphSpec.version) graphSpec.version = 1`. */
  function WithVersion(s: SpecFields): (r: SpecFields)
    ensures Truthy(r.version)
    ensures Truthy(s.version) ==> r == s
    ensures r == s.(version := r.version)
  {
    if Truthy(s.version) then s else s.(version := Num(1))
  }

  /** The split correction of lines 290-321 on the prepared spec `p`. */
  function Corrected(p: SpecFields, start: string, end: string, text: string): SpecFields {
    if !Rewrites(p, text) then p
    else Rewritten(p, Mentioned(text), start, end, WantsLine(p.chartType, text))
  }

  /** The repaired spec. */
  function FixedSpec(s: SpecFields, filters: Value, text: string): SpecFields {
    WithVersion(Corrected(Prepared(s, filters), FilterText(filters, "start"), FilterText(filters, "end"), text))
  }

  // ------------------------------------------------------------ the method

  /** Lines 244-265 on the object `graphSpec`: range, comparison,
      granularity, limit and dimension. */
  method FillFromFilters(graphSpec: GraphSpec, filters: Value)
    modifies graphSpec
    ensures graphSpec.Snapshot() == Filled(old(graphSpec.Snapshot()), filters)
  {
    ghost var s := graphSpec.Snapshot();
    var start := FilterText(filters, "start");
    var end := FilterText(filters, "end");
    FillRange(graphSpec, start, end);
    assert graphSpec.range == Filled(s, filters).range;

    if !Truthy(graphSpec.compareMode) && Truthy(Field(filters, "compareMode")) {
      graphSpec.compareMode := Field(filters, "compareMode");
    }
    if !Truthy(graphSpec.granularity) && Truthy(Field(filters, "granularity")) {
      graphSpec.granularity := Field(filters, "granularity");
    }
    if IsNullish(graphSpec.limit) {
      graphSpec.limit := if graphSpec.kind == Breakdown then Num(10) else Null;
    }

    if graphSpec.kind == Breakdown {
      if !ValidDimension(graphSpec.dimension) {
        graphSpec.dimension := Str("page");
      }
    } else {
      graphSpec.dimension := Null;
    }
  }

  /** Lines 246-250: the range alone. */
  method FillRange(graphSpec: GraphSpec, start: string, end: string)
    modifies graphSpec
    ensures graphSpec.Snapshot() == old(graphSpec.Snapshot()).(range := RangeFilled(old(graphSpec.range), start, end))
  {
    if !Truthy(graphSpec.range) || !IsObject(graphSpec.range) {
      graphSpec.range := Null;
    }
    if Truthy(graphSpec.range) && (!Truthy(Field(graphSpec.range, "start")) || !Truthy(Field(graphSpec.range, "end")))
      && start != "" && end != ""
    {
      graphSpec.range := RangeValue(start, end);
    }
    if graphSpec.range == Null && start != "" && end != "" {
      graphSpec.range := RangeValue(start, end);
    }
  }

  /** Lines 273-287 on the object `graphSpec`: the metric list and the
      single metric. */
  method NormalizeSpecMetrics(graphSpec: GraphSpec)
    modifies graphSpec
    ensures graphSpec.Snapshot() == MetricsNormalized(old(graphSpec.Snapshot()))
  {
    if graphSpec.metrics == Undefined {
      graphSpec.metrics := Null;
    }
    if graphSpec.kind == KpiSplit || graphSpec.kind == MultiTimeSeries {
      if !graphSpec.metrics.Arr? {
        graphSpec.metrics := Arr([]);
      }
      graphSpec.metrics := StrArray(Prefix(NormalizedIds(Cleaned(EntryTexts(graphSpec.metrics.items))), 4));
    } else {
      graphSpec.metrics := Null;
    }
    if Truthy(graphSpec.metric) {
      graphSpec.metric := Str(NormalizeMetricId(Some(JsString(graphSpec.metric))));
    }
  }

  /** Lines 244-322 on the object `graphSpec`: its properties are assigned
      in place, and the result is either that object or, after the split
      correction, a fresh one. */
  method FixUpGraphSpec(graphSpec: GraphSpec, filters: Value, lastUserText: string) returns (result: GraphSpec)
    modifies graphSpec
    ensures result == graphSpec || fresh(result)
    ensures result.Snapshot() == FixedSpec(old(graphSpec.Snapshot()), filters, lastUserText)
  {
    ghost var s := graphSpec.Snapshot();
    var start := FilterText(filters, "start");
    var end := FilterText(filters, "end");
    FillFromFilters(graphSpec, filters);
    var wantsPie, wantsLine := ChartWishes(graphSpec.chartType, lastUserText);
    NormalizeSpecMetrics(graphSpec);
    ghost var p := graphSpec.Snapshot();
    assert p == Prepared(s, filters);
    var mentioned := NormalizeMetricMention(lastUserText);
    result := CorrectSplit(graphSpec, mentioned, start, end, wantsPie, wantsLine, lastUserText);
    if !Truthy(result.version) {
      result.version := Num(1);
    }
  }

  /** `wantsPie` and `wantsLine` (lines 267-271). */
  method ChartWishes(chartType: Value, lastUserText: string) returns (wantsPie: bool, wantsLine: bool)
    ensures wantsPie == WantsPie(chartType, lastUserText)
    ensures wantsLine == WantsLine(chartType, lastUserText)
  {
    var requested := Lower(StringOr(chartType, ""));
    wantsPie := requested == "pie" || HasWord(lastUserText, "pie") || HasWord(lastUserText, "donut");
    wantsLine := requested == "line" || HasWord(lastUserText, "line");
  }

  /** Lines 290-321: a breakdown asked for a split of two or more mentioned
      metrics is replaced by a fresh line or pie spec. */
  method CorrectSplit(graphSpec: GraphSpec, mentioned: seq<string>, start: string, end: string,
    wantsPie: bool, wantsLine: bool, lastUserText: string) returns (result: GraphSpec)
    requires mentioned == Mentioned(lastUserText)
    requires wantsPie == WantsPie(graphSpec.chartType, lastUserText)
    requires wantsLine == WantsLine(graphSpec.chartType, lastUserText)
    ensures result == graphSpec || fresh(result)
    ensures result.Snapshot() == Corrected(graphSpec.Snapshot(), start, end, lastUserText)
  {
    result := graphSpec;
    if IsSplitRequest(lastUserText) && |mentioned| >= 2 && graphSpec.kind == Breakdown {
      if wantsLine {
        result := new GraphSpec(SpecFields(
          version := Num(1),
          kind := MultiTimeSeries,
          title := Or(graphSpec.title, Str("Comparison")),
          metric := Str(mentioned[0]),
          metrics := StrArray(Prefix(mentioned, 4)),
          dimension := Null,
          chartType := Str("line"),
          range := Or(graphSpec.range, if start != "" && end != "" then RangeValue(start, end) else Null),
          compareMode := Or(graphSpec.compareMode, Str("off")),
          granularity := Or(graphSpec.granularity, Str("auto")),
          limit := Null));
      } else if wantsPie {
        result := new GraphSpec(SpecFields(
          version := Num(1),
          kind := KpiSplit,
          title := Or(graphSpec.title, Str("Split")),
          metric := Str(mentioned[0]),
          metrics := StrArray(Prefix(mentioned, 4)),
          dimension := Null,
          chartType := Str("pie"),
          range := Or(graphSpec.range, if start != "" && end != "" then RangeValue(start, end) else Null),
          compareMode := Str("off"),
          granularity := Or(graphSpec.granularity, Str("auto")),
          limit := Null));
      }
    }
  }

  // ------------------------------------------------------------ properties

  /** Whether the split correction replaced the spec. */
  predicate SplitCorrected(s: SpecFields, filters: Value, text: string) {
    Rewrites(Prepared(s, filters), text)
  }

  /** The preparation keeps the kind and the chart type. */
  lemma PreparedKeeps(s: SpecFields, filters: Value)
    ensures Prepared(s, filters).kind == s.kind && Prepared(s, filters).chartType == s.chartType
    ensures Prepared(s, filters).title == s.title && Prepared(s, filters).version == s.version
  {
  }

  /** The repaired spec is the prepared one, its version defaulted, unless
      the split correction replaced it. */
  lemma FixedUncorrected(s: SpecFields, filters: Value, text: string)
    requires !SplitCorrected(s, filters, text)
    ensures FixedSpec(s, filters, text) == WithVersion(Prepared(s, filters))
  {
  }

  /** The kind is kept, except that a breakdown asked for a split of two or
      more mentioned metrics becomes a line or a pie split. */
  lemma FixedKind(s: SpecFields, filters: Value, text: string)
    ensures !SplitCorrected(s, filters, text) ==> FixedSpec(s, filters, text).kind == s.kind
    ensures SplitCorrected(s, filters, text) ==>
      s.kind == Breakdown && IsSplitRequest(text) && |Mentioned(text)| >= 2 &&
      (FixedSpec(s, filters, text).kind == MultiTimeSeries || FixedSpec(s, filters, text).kind == KpiSplit)
  {
    PreparedKeeps(s, filters);
  }

  /** A breakdown has one of the three dimensions, a valid one kept and
      `page` otherwise; every other kind has none. */
  lemma FixedDimension(s: SpecFields, filters: Value, text: string)
    ensures FixedSpec(s, filters, text).kind == Breakdown ==>
      ValidDimension(FixedSpec(s, filters, text).dimension)
    ensures FixedSpec(s, filters, text).kind != Breakdown ==> FixedSpec(s, filters, text).dimension == Null
    ensures FixedSpec(s, filters, text).kind == Breakdown && ValidDimension(s.dimension) ==>
      FixedSpec(s, filters, text).dimension == s.dimension
  {
    PreparedKeeps(s, filters);
  }

  /** A normalised non-empty trimmed entry is a metric id or that entry. */
  lemma NormalizedEntry(x: string)
    requires x != "" && Trim(x) == x
    ensures NormalizeMetricId(Some(x)) != ""
    ensures NormalizeMetricId(Some(x)) in MetricKeys || NormalizeMetricId(Some(x)) == x
  {
    NormalizedKnownOrTrimmed(Some(x));
  }

  /** The metrics kept from the model's array are non-empty, and each is a
      metric id or an entry of that array as given, trimmed. */
  lemma SpecMetricIdsShape(metrics: Value)
    ensures |SpecMetricIds(metrics)| <= 4
    ensures forall i :: 0 <= i < |SpecMetricIds(metrics)| ==>
      SpecMetricIds(metrics)[i] != "" &&
      (SpecMetricIds(metrics)[i] in MetricKeys || Trim(SpecMetricIds(metrics)[i]) == SpecMetricIds(metrics)[i])
  {
    var items := if metrics.Arr? then metrics.items else [];
    var cleaned := Cleaned(EntryTexts(items));
    var ids := NormalizedIds(cleaned);
    forall i | 0 <= i < |ids|
      ensures ids[i] != "" && (ids[i] in MetricKeys || Trim(ids[i]) == ids[i])
    {
      NormalizedEntry(cleaned[i]);
    }
  }

  /** The metrics after the preparation. */
  lemma PreparedMetrics(s: SpecFields, filters: Value)
    ensures Prepared(s, filters).metrics ==
      if IsSeriesKind(s.kind) then StrArray(SpecMetricIds(s.metrics)) else Null
  {
  }

  /** The kind and the metrics of the repaired spec, in terms of the
      prepared ones. */
  lemma FixedKindAndMetrics(s: SpecFields, filters: Value, text: string)
    ensures SplitCorrected(s, filters, text) ==>
      IsSeriesKind(FixedSpec(s, filters, text).kind) &&
      FixedSpec(s, filters, text).metrics == StrArray(Prefix(Mentioned(text), 4))
    ensures !SplitCorrected(s, filters, text) ==>
      FixedSpec(s, filters, text).kind == s.kind &&
      FixedSpec(s, filters, text).metrics == Prepared(s, filters).metrics
  {
    PreparedKeeps(s, filters);
  }

  /** An array of at most four non-empty strings. */
  predicate MetricList(v: Value) {
    v.Arr? && |v.items| <= 4 &&
    forall i :: 0 <= i < |v.items| ==> v.items[i].Str? && v.items[i].s != ""
  }

  lemma StrArrayMetricList(xs: seq<string>)
    requires |xs| <= 4 && forall i :: 0 <= i < |xs| ==> xs[i] != ""
    ensures MetricList(StrArray(xs))
  {
  }

  /** The first four mentioned metrics form such an array. */
  lemma MentionedMetricList(text: string)
    ensures MetricList(StrArray(Prefix(Mentioned(text), 4)))
  {
    MentionedDistinct(text);
    var m := Prefix(Mentioned(text), 4);
    forall i | 0 <= i < |m|
      ensures m[i] != ""
    {
      assert m[i] in Mentioned(text);
    }
    StrArrayMetricList(m);
  }

  /** A split or multi-series spec carries an array of at most four
      non-empty metric strings; every other kind carries `null`. */
  lemma FixedMetrics(s: SpecFields, filters: Value, text: string)
    ensures IsSeriesKind(FixedSpec(s, filters, text).kind) ==> MetricList(FixedSpec(s, filters, text).metrics)
    ensures !IsSeriesKind(FixedSpec(s, filters, text).kind) ==> FixedSpec(s, filters, text).metrics == Null
  {
    FixedKindAndMetrics(s, filters, text);
    PreparedMetrics(s, filters);
    if SplitCorrected(s, filters, text) {
      MentionedMetricList(text);
    } else if IsSeriesKind(s.kind) {
      SpecMetricIdsShape(s.metrics);
      StrArrayMetricList(SpecMetricIds(s.metrics));
    }
  }

  /** At most four metric ids read back as themselves. */
  lemma SpecMetricIdsKnown(xs: seq<string>)
    requires |xs| <= 4
    requires forall i :: 0 <= i < |xs| ==> xs[i] in MetricKeys
    ensures SpecMetricIds(StrArray(xs)) == xs
  {
    KeysTrimmed();
    var texts := EntryTexts(StrArray(xs).items);
    assert texts == xs by {
      forall i | 0 <= i < |xs|
        ensures texts[i] == xs[i]
      {
        assert StrArray(xs).items[i] == Str(xs[i]);
        assert xs[i] in MetricKeys;
      }
    }
    CleanedIdentity(xs);
    var ids := NormalizedIds(xs);
    assert ids == xs by {
      forall i | 0 <= i < |xs|
        ensures ids[i] == xs[i]
      {
        assert xs[i] in MetricKeys && Trim(xs[i]) == xs[i];
      }
    }
  }

  /** An array of at most four metric ids passes through unchanged. */
  lemma KnownMetricsKept(s: SpecFields, filters: Value, text: string, xs: seq<string>)
    requires IsSeriesKind(s.kind) && s.metrics == StrArray(xs) && |xs| <= 4
    requires forall i :: 0 <= i < |xs| ==> xs[i] in MetricKeys
    ensures FixedSpec(s, filters, text).metrics == s.metrics
  {
    PreparedKeeps(s, filters);
    FixedKindAndMetrics(s, filters, text);
    PreparedMetrics(s, filters);
    SpecMetricIdsKnown(xs);
  }

  /** The metrics of the first three tests always survive the cut to
      four. */
  lemma EarlyMentionKept(text: string, k: nat)
    requires k < 3 && Hits(Lower(text))[k]
    ensures MentionIds[k] in Prefix(Mentioned(text), 4)
  {
    var h := Hits(Lower(text));
    MentionedDistinct(text);
    SelectPrefix(h, MentionIds, 3, |MentionIds|);
    SelectedAt(h, MentionIds, 3, k);
    var early := SelectUpTo(h, MentionIds, 3);
    assert early <= Prefix(Mentioned(text), 4);
  }

  /** A text that mentions engaged sessions keeps both engagedSessions and
      sessions among its first four mentioned metrics. */
  lemma EngagedSessionsEarly(text: string)
    requires Contains(Lower(text), "engaged sessions")
    ensures "engagedSessions" in Prefix(Mentioned(text), 4) && "sessions" in Prefix(Mentioned(text), 4)
  {
    EngagedSessionsMentionsBoth(text);
    MentionIdsAt();
    EarlyMentionKept(text, 1);
    EarlyMentionKept(text, 2);
  }

  /** A string of the list is a string of the array. */
  lemma InStrArray(xs: seq<string>, x: string)
    requires x in xs
    ensures Str(x) in StrArray(xs).items
  {
    var i :| 0 <= i < |xs| && xs[i] == x;
    assert StrArray(xs).items[i] == Str(x);
  }

  /** The same, as strings of the metrics array, with at least two
      mentioned metrics. */
  lemma EngagedSessionsKept(text: string)
    requires Contains(Lower(text), "engaged sessions")
    ensures |Mentioned(text)| >= 2
    ensures Str("engagedSessions") in StrArray(Prefix(Mentioned(text), 4)).items
    ensures Str("sessions") in StrArray(Prefix(Mentioned(text), 4)).items
  {
    EngagedSessionsMentionsBoth(text);
    var m := Mentioned(text);
    assert m[0] != "engagedSessions" || m[0] != "sessions";
    EngagedSessionsEarly(text);
    InStrArray(Prefix(m, 4), "engagedSessions");
    InStrArray(Prefix(m, 4), "sessions");
  }

  /** Asked to split engaged sessions, a breakdown becomes a split whose
      metrics include both engagedSessions and sessions. */
  lemma EngagedSessionsSplit(s: SpecFields, filters: Value, text: string)
    requires IsSplitRequest(text) && Contains(Lower(text), "engaged sessions") && s.kind == Breakdown
    requires WantsLine(s.chartType, text) || WantsPie(s.chartType, text)
    ensures IsSeriesKind(FixedSpec(s, filters, text).kind)
    ensures Str("engagedSessions") in FixedSpec(s, filters, text).metrics.items
    ensures Str("sessions") in FixedSpec(s, filters, text).metrics.items
  {
    EngagedSessionsKept(text);
    PreparedKeeps(s, filters);
    assert SplitCorrected(s, filters, text);
    FixedKindAndMetrics(s, filters, text);
  }

  /** A missing limit becomes 10 for a breakdown and `null` otherwise; a
      given one is kept; the split correction clears it. */
  lemma FixedLimit(s: SpecFields, filters: Value, text: string)
    ensures !SplitCorrected(s, filters, text) && IsNullish(s.limit) ==>
      FixedSpec(s, filters, text).limit == (if s.kind == Breakdown then Num(10) else Null)
    ensures !SplitCorrected(s, filters, text) && !IsNullish(s.limit) ==>
      FixedSpec(s, filters, text).limit == s.limit
    ensures SplitCorrected(s, filters, text) ==> FixedSpec(s, filters, text).limit == Null
  {
  }

  /** With both filter dates set, the range is an object holding a start and
      an end: the spec's own when it has both, the filters' otherwise.
      Without them a non-object range is `null` and an object is kept. The
      split correction keeps the range. */
  lemma FixedRange(s: SpecFields, filters: Value, text: string)
    ensures var start := FilterText(filters, "start");
      var end := FilterText(filters, "end");
      var given := Truthy(s.range) && IsObject(s.range);
      (start != "" && end != "" ==>
        FixedSpec(s, filters, text).range ==
          if given && Truthy(Field(s.range, "start")) && Truthy(Field(s.range, "end")) then s.range
          else RangeValue(start, end)) &&
      (!(start != "" && end != "") ==>
        FixedSpec(s, filters, text).range == if given then s.range else Null)
  {
    var p := Prepared(s, filters);
    if SplitCorrected(s, filters, text) {
      assert Truthy(p.range) || !(FilterText(filters, "start") != "" && FilterText(filters, "end") != "");
    }
  }

  /** An empty comparison mode or granularity is taken from the filters
      when they set one; the split correction fills in `off` and `auto`,
      and a pie split always compares `off`. */
  lemma FixedDefaults(s: SpecFields, filters: Value, text: string)
    ensures !SplitCorrected(s, filters, text) ==>
      FixedSpec(s, filters, text).compareMode ==
        (if !Truthy(s.compareMode) && Truthy(Field(filters, "compareMode")) then Field(filters, "compareMode")
         else s.compareMode)
    ensures !SplitCorrected(s, filters, text) ==>
      FixedSpec(s, filters, text).granularity ==
        (if !Truthy(s.granularity) && Truthy(Field(filters, "granularity")) then Field(filters, "granularity")
         else s.granularity)
    ensures SplitCorrected(s, filters, text) ==>
      Truthy(FixedSpec(s, filters, text).compareMode) && Truthy(FixedSpec(s, filters, text).granularity)
    ensures SplitCorrected(s, filters, text) && FixedSpec(s, filters, text).kind == KpiSplit ==>
      FixedSpec(s, filters, text).compareMode == Str("off")
  {
  }

  /** A split request for a line becomes a multi-series line chart of the
      first four mentioned metrics; this takes precedence over a pie. */
  lemma SplitToLine(s: SpecFields, filters: Value, text: string)
    requires IsSplitRequest(text) && |Mentioned(text)| >= 2 && s.kind == Breakdown
    requires WantsLine(s.chartType, text)
    ensures var r := FixedSpec(s, filters, text);
      r.kind == MultiTimeSeries && r.chartType == Str("line") &&
      r.metric == Str(Mentioned(text)[0]) && r.metrics == StrArray(Prefix(Mentioned(text), 4)) &&
      r.dimension == Null && r.limit == Null && r.version == Num(1)
  {
    PreparedKeeps(s, filters);
  }

  /** A split request for a pie or a donut, and not a line, becomes a pie
      split of the first four mentioned metrics, compared `off`. */
  lemma SplitToPie(s: SpecFields, filters: Value, text: string)
    requires IsSplitRequest(text) && |Mentioned(text)| >= 2 && s.kind == Breakdown
    requires !WantsLine(s.chartType, text) && WantsPie(s.chartType, text)
    ensures var r := FixedSpec(s, filters, text);
      r.kind == KpiSplit && r.chartType == Str("pie") && r.compareMode == Str("off") &&
      r.metric == Str(Mentioned(text)[0]) && r.metrics == StrArray(Prefix(Mentioned(text), 4)) &&
      r.dimension == Null && r.limit == Null && r.version == Num(1)
  {
    PreparedKeeps(s, filters);
  }

  /** Without a line or pie wish the breakdown stays a breakdown. */
  lemma SplitWithoutChartStays(s: SpecFields, filters: Value, text: string)
    requires s.kind == Breakdown
    requires !WantsLine(s.chartType, text) && !WantsPie(s.chartType, text)
    ensures FixedSpec(s, filters, text).kind == Breakdown
    ensures FixedSpec(s, filters, text).chartType == s.chartType
  {
    PreparedKeeps(s, filters);
  }

  /** The version is always set, and a given one is kept unless the split
      correction replaced the spec. */
  lemma FixedVersion(s: SpecFields, filters: Value, text: string)
    ensures Truthy(FixedSpec(s, filters, text).version)
    ensures !SplitCorrected(s, filters, text) && Truthy(s.version) ==>
      FixedSpec(s, filters, text).version == s.version
  {
    PreparedKeeps(s, filters);
  }

  /** Repairing a spec the split correction leaves alone keeps its kind. */
  lemma FixedKeepsKindUncorrected(s: SpecFields, filters: Value, text: string)
    requires !SplitCorrected(s, filters, text)
    ensures FixedSpec(s, filters, text).kind == s.kind
  {
    FixedKind(s, filters, text);
  }
}
