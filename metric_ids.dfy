/**
 * Metric-id normalisation of src/lib/analytics/normalize.js: ids typed by
 * users or written by a language model are trimmed, lowercased, their
 * white-space and hyphen runs turned into `_`, looked up in the alias table
 * and finally camel-cased, and accepted when they name a metric of
 * `METRIC_META` (src/lib/analytics/constants.js).
 */
module MetricIds {
  import opened Wrappers
  import opened JsText

  /** The keys of `METRIC_META`: the metric ids of `METRICS`. */
  const MetricKeys: set<string> := {
    "clicks", "impressions", "ctr", "position", "sessions", "engagedSessions",
    "bounceRate", "purchases", "revenue", "averagePurchaseValue"
  }

  /** `METRIC_ALIASES`. */
  const Aliases: map<string, string> := map[
    "average_purchase_value" := "averagePurchaseValue",
    "avg_purchase_value" := "averagePurchaseValue",
    "aov" := "averagePurchaseValue",
    "averagepurchasevalue" := "averagePurchaseValue",
    "engaged_sessions" := "engagedSessions",
    "engagedsessions" := "engagedSessions",
    "bounce_rate" := "bounceRate",
    "bouncerate" := "bounceRate",
    "avg_position" := "position",
    "average_position" := "position"
  ]

  /** Every alias names a metric, so the `METRIC_META[alias]` test after an
      alias hit never fails. */
  lemma AliasesKnown()
    ensures forall k :: k in Aliases ==> Aliases[k] in MetricKeys
  {
  }

  /** The characters of the class `[\s-]`. */
  predicate IsSeparator(c: char) {
    IsSpace(c) || c == '-'
  }

  /** `s` without its leading separators. */
  function DropSeparators(s: string): (r: string)
    ensures |r| <= |s|
    ensures r == [] || !IsSeparator(r[0])
  {
    if s != [] && IsSeparator(s[0]) then DropSeparators(s[1..]) else s
  }

  /** `s.replace(/[\s-]+/g, '_')`: every maximal run of white space and
      hyphens becomes one `_`. */
  function Underscored(s: string): (r: string)
    ensures |r| <= |s|
    ensures forall i :: 0 <= i < |r| ==> !IsSeparator(r[i])
    decreases |s|
  {
    if s == [] then []
    else if IsSeparator(s[0]) then "_" + Underscored(DropSeparators(s[1..]))
    else [s[0]] + Underscored(s[1..])
  }

  /** Text without separators is left as it is. */
  lemma {:induction false} UnderscoredNoSeparator(s: string)
    requires forall i :: 0 <= i < |s| ==> !IsSeparator(s[i])
    ensures Underscored(s) == s
  {
    if s != [] {
      UnderscoredNoSeparator(s[1..]);
    }
  }

  predicate IsLowerOrDigit(c: char) {
    'a' <= c <= 'z' || IsDigit(c)
  }

  /** `String(c).toUpperCase()` for a character of `[a-z0-9]`. */
  function UpperChar(c: char): (u: char)
    ensures 'a' <= c <= 'z' ==> 'A' <= u <= 'Z' && LowerChar(u) == c
    ensures IsDigit(c) ==> u == c
  {
    if 'a' <= c <= 'z' then (c as int - 32) as char else c
  }

  /** `key.replace(/_([a-z0-9])/g, (_, c) => String(c).toUpperCase())`: each
      `_` followed by a lowercase letter or digit is dropped and that character
      upper-cased, scanning from the left without overlaps. */
  function Camel(s: string): (r: string)
    ensures |r| <= |s|
  {
    if |s| >= 2 && s[0] == '_' && IsLowerOrDigit(s[1]) then [UpperChar(s[1])] + Camel(s[2..])
    else if s == [] then []
    else [s[0]] + Camel(s[1..])
  }

  /** The snake_case spelling of a camelCase id: each ASCII capital becomes
      `_` and its lowercase letter. */
  function SnakeCase(s: string): (r: string)
    ensures |r| >= |s|
  {
    if s == [] then []
    else if IsAsciiUpper(s[0]) then ['_', LowerChar(s[0])] + SnakeCase(s[1..])
    else [s[0]] + SnakeCase(s[1..])
  }

  /** Camel-casing undoes `SnakeCase` on text without `_`. */
  lemma {:induction false} CamelUndoesSnakeCase(s: string)
    requires '_' !in s
    ensures Camel(SnakeCase(s)) == s
  {
    if s != [] {
      CamelUndoesSnakeCase(s[1..]);
      var rest := SnakeCase(s[1..]);
      if IsAsciiUpper(s[0]) {
        var t := ['_', LowerChar(s[0])] + rest;
        assert t[2..] == rest;
      } else {
        var t := [s[0]] + rest;
        assert t[1..] == rest;
      }
    }
  }

  /** A camelCase identifier: ASCII letters and digits, starting with a
      lowercase letter. */
  predicate CamelIdentifier(s: string) {
    s != [] && 'a' <= s[0] <= 'z' &&
    forall i :: 0 <= i < |s| ==> 'a' <= s[i] <= 'z' || IsAsciiUpper(s[i]) || IsDigit(s[i])
  }

  /** A character of a snake_case spelling. */
  predicate SnakeChar(c: char) {
    c == '_' || 'a' <= c <= 'z' || IsDigit(c)
  }

  /** The snake_case spelling of a camelCase identifier is lowercase and
      free of white space and hyphens. */
  lemma {:induction false} SnakeCaseChars(s: string)
    requires forall i :: 0 <= i < |s| ==> 'a' <= s[i] <= 'z' || IsAsciiUpper(s[i]) || IsDigit(s[i])
    ensures forall i :: 0 <= i < |SnakeCase(s)| ==> SnakeChar(SnakeCase(s)[i])
  {
    if s != [] {
      assert forall i :: 0 <= i < |s[1..]| ==> s[1..][i] == s[i + 1];
      SnakeCaseChars(s[1..]);
      var rest := SnakeCase(s[1..]);
      var head := if IsAsciiUpper(s[0]) then ['_', LowerChar(s[0])] else [s[0]];
      assert SnakeCase(s) == head + rest;
      assert forall i :: 0 <= i < |head| ==> SnakeChar(head[i]);
      assert forall i :: 0 <= i < |rest| ==> SnakeChar(rest[i]);
      forall i | 0 <= i < |head + rest|
        ensures SnakeChar((head + rest)[i])
      {
        if i >= |head| {
          assert (head + rest)[i] == rest[i - |head|];
        } else {
          assert (head + rest)[i] == head[i];
        }
      }
    }
  }

  /** Such text is unchanged by lowercasing, trimming and the separator
      rewrite, so it is its own alias-table key. */
  lemma SnakeCaseIsKey(s: string)
    requires CamelIdentifier(s)
    ensures var r := SnakeCase(s);
      r != [] && Trim(r) == r && AliasKey(r) == r
  {
    SnakeCaseChars(s);
    var r := SnakeCase(s);
    assert r != [] && r[0] == s[0] by {
      assert !IsAsciiUpper(s[0]);
      assert r == [s[0]] + SnakeCase(s[1..]);
    }
    forall i | 0 <= i < |r|
      ensures !IsAsciiUpper(r[i]) && !IsSeparator(r[i]) && LowerChar(r[i]) == r[i]
    {
      assert SnakeChar(r[i]);
    }
    assert Lower(r) == r;
    UnderscoredNoSeparator(r);
    TrimNoSpace(r);
  }

  /** Text without `_` is left as it is by camel-casing. */
  lemma {:induction false} CamelNoUnderscore(s: string)
    requires '_' !in s
    ensures Camel(s) == s
  {
    if s != [] {
      assert s[0] in s;
      assert forall c :: c in s[1..] ==> c in s;
      CamelNoUnderscore(s[1..]);
    }
  }

  /** The alias-table key of trimmed input: lowercased, separator runs as `_`. */
  function AliasKey(v: string): string {
    Underscored(Lower(v))
  }

  /** `normalizeMetricId(raw)`, where `raw` is `String(raw)` for a truthy
      argument and `None` for a falsy one; a metric lookup is a test for an
      own key of `METRIC_META` (see README's Findings for the inherited keys a
      plain object lookup also accepts). */
  function NormalizeMetricId(raw: Option<string>): (r: string)
    ensures var v := Trim(raw.GetOr(""));
      (v == "" ==> r == "") &&
      (v in MetricKeys ==> r == v) &&
      (v != "" && v !in MetricKeys && AliasKey(v) in Aliases ==> r == Aliases[AliasKey(v)]) &&
      (v != "" && v !in MetricKeys && AliasKey(v) !in Aliases && Camel(AliasKey(v)) in MetricKeys ==>
        r == Camel(AliasKey(v))) &&
      (v != "" && v !in MetricKeys && AliasKey(v) !in Aliases && Camel(AliasKey(v)) !in MetricKeys ==> r == v)
  {
    var v := Trim(raw.GetOr(""));
    if v == "" then v
    else if v in MetricKeys then v
    else
      var key := AliasKey(v);
      if key in Aliases && Aliases[key] in MetricKeys then Aliases[key]
      else
        var camel := Camel(key);
        if camel in MetricKeys then camel else v
  }

  /** The result is a metric id or the trimmed input. */
  lemma NormalizedKnownOrTrimmed(raw: Option<string>)
    ensures var r := NormalizeMetricId(raw);
      r in MetricKeys || r == Trim(raw.GetOr(""))
  {
  }

  /** Normalising twice is normalising once. */
  lemma NormalizeIdempotent(raw: Option<string>)
    ensures NormalizeMetricId(Some(NormalizeMetricId(raw))) == NormalizeMetricId(raw)
  {
    var v := Trim(raw.GetOr(""));
    var r := NormalizeMetricId(raw);
    TrimIdempotent(raw.GetOr(""));
    if r in MetricKeys {
      KeysTrimmed();
    }
  }

  /** The metric ids have no white space at either end. */
  lemma KeysTrimmed()
    ensures forall k :: k in MetricKeys ==> k != "" && Trim(k) == k
  {
    forall k | k in MetricKeys
      ensures k != "" && Trim(k) == k
    {
      assert k != [] && !IsSpace(k[0]) && !IsSpace(k[|k| - 1]);
      TrimNoSpace(k);
    }
  }

  /** The snake_case spelling of a metric id that is neither an id nor an
      alias itself is camel-cased back to that id. */
  lemma SnakeSpellingNormalizes(k: string)
    requires k in MetricKeys && CamelIdentifier(k)
    requires SnakeCase(k) !in MetricKeys && SnakeCase(k) !in Aliases
    ensures NormalizeMetricId(Some(SnakeCase(k))) == k
  {
    SnakeCaseIsKey(k);
    assert '_' !in k by {
      forall i | 0 <= i < |k|
        ensures k[i] != '_'
      {
        assert 'a' <= k[i] <= 'z' || IsAsciiUpper(k[i]) || IsDigit(k[i]);
      }
    }
    CamelUndoesSnakeCase(k);
  }

  // ------------------------------------------------------------ as written

  /** The names a plain object inherits from `Object.prototype`: a lookup
      `METRIC_META[k]` of one of them finds a truthy function (or the
      prototype itself for `__proto__`). */
  const InheritedKeys: set<string> := {
    "constructor", "hasOwnProperty", "isPrototypeOf", "propertyIsEnumerable",
    "toLocaleString", "toString", "valueOf", "__proto__", "__defineGetter__",
    "__defineSetter__", "__lookupGetter__", "__lookupSetter__"
  }

  /** `METRIC_META[k]` is truthy. */
  predicate MetaHasAsWritten(k: string) {
    k in MetricKeys || k in InheritedKeys
  }

  /** `normalizeMetricId` as the source writes it, with `METRIC_META[...]`
      as a plain property lookup. An inherited alias-table hit (for the key
      `constructor`, say) is a function or an object, whose property name on
      `METRIC_META` is never a metric, so only the own aliases matter. */
  function NormalizeMetricIdAsWritten(raw: Option<string>): (r: string)
    ensures var v := Trim(raw.GetOr(""));
      r in MetricKeys || r in InheritedKeys || r == v
    ensures var v := Trim(raw.GetOr(""));
      !MetaHasAsWritten(v) && AliasKey(v) !in Aliases && !MetaHasAsWritten(Camel(AliasKey(v))) ==> r == v
  {
    var v := Trim(raw.GetOr(""));
    if v == "" then v
    else if MetaHasAsWritten(v) then v
    else
      var key := AliasKey(v);
      if key in Aliases && MetaHasAsWritten(Aliases[key]) then Aliases[key]
      else
        var camel := Camel(key);
        if MetaHasAsWritten(camel) then camel else v
  }

  /** Camel-casing a single `_x` between text without `_`. */
  lemma {:induction false} CamelJoin(a: string, c: char, b: string)
    requires '_' !in a && '_' !in b && IsLowerOrDigit(c)
    ensures Camel(a + ['_', c] + b) == a + [UpperChar(c)] + b
  {
    if a == [] {
      assert (a + ['_', c] + b)[2..] == b;
      CamelNoUnderscore(b);
    } else {
      var s := a + ['_', c] + b;
      assert a[0] in a;
      assert forall x :: x in a[1..] ==> x in a;
      CamelJoin(a[1..], c, b);
      assert s[0] == a[0] && s[1..] == a[1..] + ['_', c] + b;
      assert Camel(s) == [a[0]] + Camel(s[1..]);
      assert [a[0]] + (a[1..] + [UpperChar(c)] + b) == a + [UpperChar(c)] + b;
    }
  }

  /** Lowercase ASCII letters and `_`. */
  predicate SnakeWord(s: string) {
    forall i :: 0 <= i < |s| ==> 'a' <= s[i] <= 'z' || s[i] == '_'
  }

  /** Such text is trimmed and is its own alias-table key. */
  lemma SnakeWordKey(s: string)
    requires SnakeWord(s)
    ensures Trim(s) == s && AliasKey(s) == s
  {
    assert forall i :: 0 <= i < |s| ==> !IsSpace(s[i]) && !IsSeparator(s[i]) && LowerChar(s[i]) == s[i];
    TrimNoSpace(s);
    assert Lower(s) == s;
    UnderscoredNoSeparator(s);
  }

  /** `value_of` is trimmed and is its own alias-table key. */
  lemma ValueOfKey()
    ensures Trim("value_of") == "value_of" && AliasKey("value_of") == "value_of"
  {
    assert SnakeWord("value_of");
    SnakeWordKey("value_of");
  }

  /** `value_of` camel-cases to `valueOf`. */
  lemma ValueOfCamel()
    ensures Camel("value_of") == "valueOf"
  {
    assert '_' !in "value" && '_' !in "f";
    CamelJoin("value", 'o', "f");
    assert "value" + ['_', 'o'] + "f" == "value_of";
    assert UpperChar('o') == 'O';
    assert "value" + ['O'] + "f" == "valueOf";
  }

  /** Trimmed text that is its own alias-table key, is no metric, alias or
      inherited name, and camel-cases to an inherited name is read as that
      name by the source and left as it is by the corrected reading. */
  lemma InheritedSpellingAccepted(v: string)
    requires v != [] && Trim(v) == v && AliasKey(v) == v
    requires !MetaHasAsWritten(v) && v !in Aliases
    requires Camel(v) in InheritedKeys && Camel(v) !in MetricKeys
    ensures NormalizeMetricIdAsWritten(Some(v)) == Camel(v)
    ensures NormalizeMetricId(Some(v)) == v
  {
  }

  /** `value_of` is no metric, alias or inherited name. */
  lemma ValueOfUnknown()
    ensures !MetaHasAsWritten("value_of") && "value_of" !in Aliases
  {
  }

  /** `valueOf` is inherited and no metric. */
  lemma ValueOfInherited()
    ensures "valueOf" in InheritedKeys && "valueOf" !in MetricKeys
  {
  }

  /** The own-key normaliser differs from the source's only when the
      trimmed input or its camel-cased key is a name inherited from
      `Object.prototype`. */
  lemma AsWrittenAgrees(raw: Option<string>)
    requires var v := Trim(raw.GetOr("")); v !in InheritedKeys && Camel(AliasKey(v)) !in InheritedKeys
    ensures NormalizeMetricIdAsWritten(raw) == NormalizeMetricId(raw)
  {
  }

  /** `normalizeMetricId('value_of')` is `valueOf`: neither a metric nor
      the input. The corrected reading returns the input. */
  lemma InheritedNameAccepted()
    ensures NormalizeMetricIdAsWritten(Some("value_of")) == "valueOf"
    ensures "valueOf" !in MetricKeys && "valueOf" != Trim("value_of")
    ensures NormalizeMetricId(Some("value_of")) == "value_of"
  {
    ValueOfKey();
    ValueOfCamel();
    ValueOfUnknown();
    ValueOfInherited();
    InheritedSpellingAccepted("value_of");
  }
}
