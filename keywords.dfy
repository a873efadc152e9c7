/**
 * The keyword endpoint of src/app_routes/api/ai/keywords/+server.js: a topic
 * goes to a language model, whose text reply is read as a JSON list, an
 * object holding one, or lines of text, and cleaned into at most `count`
 * distinct keywords. The call to the model is left out; its text reply and
 * the JSON it parses to (`None` when it is not JSON) arrive as parameters.
 */
module Keywords {
  import opened Wrappers
  import opened JsText
  import opened JsValues
  import opened Endpoints
  import JsNumber

  // --------------------------------------------------------------- intents

  const Intents: seq<string> := ["Informational", "Commercial", "Transactional", "LLM"]

  /** The text `normalizeIntent` compares: trimmed, then lower-cased. */
  function IntentKey(intent: Value): string {
    Lower(Trim(StringOr(intent, "")))
  }

  /** The intent a key names, `Informational` by default. */
  function IntentOf(t: string): (r: string)
    ensures r in Intents
    ensures r == "Commercial" <==> t == "commercial"
    ensures r == "Transactional" <==> t == "transactional"
    ensures r == "LLM" <==> t == "llm"
    ensures r == "Informational" <==> t != "commercial" && t != "transactional" && t != "llm"
  {
    if t == "informational" then "Informational"
    else if t == "commercial" then "Commercial"
    else if t == "transactional" then "Transactional"
    else if t == "llm" then "LLM"
    else "Informational"
  }

  /** `normalizeIntent` (lines 14-21). */
  function NormalizeIntent(intent: Value): (r: string)
    ensures r in Intents
  {
    IntentOf(IntentKey(intent))
  }

  /** Each intent names itself. */
  lemma InformationalFixpoint()
    ensures NormalizeIntent(Str("Informational")) == "Informational"
  {
    IntentWord("Informational", "informational");
  }

  lemma CommercialFixpoint()
    ensures NormalizeIntent(Str("Commercial")) == "Commercial"
  {
    IntentWord("Commercial", "commercial");
  }

  lemma TransactionalFixpoint()
    ensures NormalizeIntent(Str("Transactional")) == "Transactional"
  {
    IntentWord("Transactional", "transactional");
  }

  lemma LlmFixpoint()
    ensures NormalizeIntent(Str("LLM")) == "LLM"
  {
    IntentWord("LLM", "llm");
  }

  lemma IntentWord(r: string, key: string)
    requires r != "" && !IsSpace(r[0]) && !IsSpace(r[|r| - 1])
    requires Lower(r) == key
    ensures NormalizeIntent(Str(r)) == IntentOf(key)
  {
    TrimNoSpace(r);
  }

  /** Case and surrounding white space do not matter. */
  lemma IntentIgnoresCase()
    ensures NormalizeIntent(Str(" COMMERCIAL ")) == "Commercial"
  {
    var s := " COMMERCIAL ";
    assert TrimStart(s) == s[1..];
    assert TrimEnd(s[1..]) == "COMMERCIAL";
    assert Lower("COMMERCIAL") == "commercial";
  }

  // ---------------------------------------------------------- list entries

  /** The characters of the leading run that line 28 strips, as the source
      file spells them: its bullet is stored as the three characters of
      its UTF-8 bytes read as Windows-1252 (see README's Findings). */
  predicate IsListMarkerAsWritten(c: char) {
    c == '-' || c == '*' || c == '\U{00E2}' || c == '\U{20AC}' || c == '\U{00A2}' ||
    IsDigit(c) || c == '.' || c == ')' || IsSpace(c)
  }

  /** The characters of the leading run as intended: dash, asterisk,
      bullet, digit, dot, closing parenthesis and white space. */
  predicate IsListMarker(c: char) {
    c == '-' || c == '*' || c == '\U{2022}' || IsDigit(c) || c == '.' || c == ')' || IsSpace(c)
  }

  /** `s` without its leading run of list markers. */
  function StripMarkers(s: string): (r: string)
    ensures |r| <= |s| && r == s[|s| - |r|..]
    ensures r == [] || !IsListMarker(r[0])
    decreases |s|
  {
    if s != [] && IsListMarker(s[0]) then StripMarkers(s[1..]) else s
  }

  function StripMarkersAsWritten(s: string): (r: string)
    ensures |r| <= |s| && r == s[|s| - |r|..]
    ensures r == [] || !IsListMarkerAsWritten(r[0])
    decreases |s|
  {
    if s != [] && IsListMarkerAsWritten(s[0]) then StripMarkersAsWritten(s[1..]) else s
  }

  /** Lines 27-30: `String(raw || '')`, its leading markers stripped, its
      white-space runs collapsed to one space, trimmed. */
  function CleanEntry(raw: Value): string {
    Trim(CollapseSpaces(StripMarkers(StringOr(raw, ""))))
  }

  /** The same with the marker class as the source file spells it. */
  function CleanEntryAsWritten(raw: Value): string {
    Trim(CollapseSpaces(StripMarkersAsWritten(StringOr(raw, ""))))
  }

  /** A cleaned entry is trimmed, starts with no list marker, and holds no
      white space other than single spaces. */
  lemma CleanEntryShape(raw: Value)
    ensures var r := CleanEntry(raw);
      Trim(r) == r && (r == [] || !IsListMarker(r[0])) &&
      forall i :: 0 <= i < |r| ==> r[i] == ' ' || !IsSpace(r[i])
  {
    var stripped := StripMarkers(StringOr(raw, ""));
    var collapsed := CollapseSpaces(stripped);
    var r := CleanEntry(raw);
    TrimIdempotent(collapsed);
    TrimWithin(collapsed);
    if stripped != [] {
      CollapseKeepsFirst(stripped);
      TrimKeepsFirst(collapsed);
    }
    forall i | 0 <= i < |r|
      ensures r[i] == ' ' || !IsSpace(r[i])
    {
      assert r[i] in collapsed;
    }
  }

  /** Text whose only white space is single spaces, each followed by a
      character that is not white space. */
  predicate SingleSpaced(s: string) {
    forall i :: 0 <= i < |s| && IsSpace(s[i]) ==> s[i] == ' ' && (i + 1 < |s| ==> !IsSpace(s[i + 1]))
  }

  /** Such text is left alone by the collapsing of white-space runs. */
  lemma {:induction false} CollapseSingleSpaced(s: string)
    requires SingleSpaced(s)
    ensures CollapseSpaces(s) == s
    decreases |s|
  {
    if s != [] {
      assert SingleSpaced(s[1..]) by {
        forall i | 0 <= i < |s[1..]| && IsSpace(s[1..][i])
          ensures s[1..][i] == ' ' && (i + 1 < |s[1..]| ==> !IsSpace(s[1..][i + 1]))
        {
          assert s[1..][i] == s[i + 1];
        }
      }
      if IsSpace(s[0]) {
        assert TrimStart(s[1..]) == s[1..];
      }
      CollapseSingleSpaced(s[1..]);
    }
  }

  /** A leading marker is stripped and the rest is stripped in turn. */
  lemma StripLeading(s: string)
    requires s != [] && IsListMarker(s[0])
    ensures StripMarkers(s) == StripMarkers(s[1..])
  {
  }

  /** Text that is already clean: it starts with no list marker, ends in no
      white space, and its only white space is single spaces. */
  predicate CleanText(t: string) {
    t != [] && !IsListMarker(t[0]) && !IsSpace(t[|t| - 1]) && SingleSpaced(t)
  }

  /** The bullet is not among the markers as the source file spells
      them, so nothing is stripped from an entry that starts with one. */
  lemma BulletNoMarkerAsWritten(s: string)
    requires s != [] && s[0] == '\U{2022}'
    ensures StripMarkersAsWritten(s) == s
  {
    assert !IsSpace(s[0]) && !IsDigit(s[0]);
    assert !IsListMarkerAsWritten(s[0]);
  }

  /** A bullet and a space before clean text leave it single-spaced. */
  lemma BulletTextSpaced(t: string)
    requires CleanText(t)
    ensures SingleSpaced("\U{2022} " + t)
  {
    var s := "\U{2022} " + t;
    forall i | 0 <= i < |s| && IsSpace(s[i])
      ensures s[i] == ' ' && (i + 1 < |s| ==> !IsSpace(s[i + 1]))
    {
      if i >= 2 {
        assert s[i] == t[i - 2];
        if i + 1 < |s| {
          assert s[i + 1] == t[i - 1];
        }
      }
    }
  }

  /** An entry written as a bullet, a space and clean text keeps its bullet
      as the source file stands... */
  lemma BulletKeptAsWritten(t: string)
    requires CleanText(t)
    ensures CleanEntryAsWritten(Str("\U{2022} " + t)) == "\U{2022} " + t
  {
    var s := "\U{2022} " + t;
    BulletNoMarkerAsWritten(s);
    BulletTextSpaced(t);
    CollapseSingleSpaced(s);
    assert s[|s| - 1] == t[|t| - 1];
    TrimNoSpace(s);
    assert StringOr(Str(s), "") == s;
  }

  /** ...and is cleaned to the text with the intended marker class. */
  lemma {:induction false} BulletStripped(t: string)
    requires CleanText(t)
    ensures CleanEntry(Str("\U{2022} " + t)) == t
  {
    var s := "\U{2022} " + t;
    StripLeading(s);
    assert s[1..] == " " + t;
    StripLeading(s[1..]);
    assert s[1..][1..] == t;
    CollapseSingleSpaced(t);
    TrimNoSpace(t);
    assert StringOr(Str(s), "") == s;
  }

  /** Stripping with either class gives the same text when the two classes
      agree on each of its characters. */
  lemma {:induction false} StripAgrees(s: string)
    requires forall i :: 0 <= i < |s| ==> (IsListMarker(s[i]) <==> IsListMarkerAsWritten(s[i]))
    ensures StripMarkers(s) == StripMarkersAsWritten(s)
    decreases |s|
  {
    if s != [] && IsListMarker(s[0]) {
      assert forall i :: 0 <= i < |s[1..]| ==> s[1..][i] == s[i + 1];
      StripAgrees(s[1..]);
    }
  }

  /** The corrected cleaning differs from the source's only on entries
      holding a bullet or one of the three characters U+00E2, U+20AC and
      U+00A2. */
  lemma CleanAgrees(raw: Value)
    requires forall c :: c in StringOr(raw, "") ==> c !in "\U{2022}\U{00E2}\U{20AC}\U{00A2}"
    ensures CleanEntry(raw) == CleanEntryAsWritten(raw)
  {
    var s := StringOr(raw, "");
    assert forall i :: 0 <= i < |s| ==> s[i] in s;
    StripAgrees(s);
  }

  // ------------------------------------------------------------ cleanList

  /** The lower-cased forms of the collected entries: the `seen` set. */
  function Keys(out: seq<string>): set<string>
    decreases |out|
  {
    if out == [] then {} else Keys(out[..|out| - 1]) + {Lower(out[|out| - 1])}
  }

  /** Pushing an entry adds its lower-cased form to the set. */
  lemma KeysPush(out: seq<string>, s: string)
    ensures Keys(out + [s]) == Keys(out) + {Lower(s)}
  {
    assert (out + [s])[..|out|] == out;
  }

  /** The set holds exactly the lower-cased forms of the entries. */
  lemma {:induction false} KeysMembers(out: seq<string>)
    ensures forall i :: 0 <= i < |out| ==> Lower(out[i]) in Keys(out)
    ensures forall x :: x in Keys(out) ==> exists i :: 0 <= i < |out| && x == Lower(out[i])
    decreases |out|
  {
    if out != [] {
      var n := |out| - 1;
      KeysMembers(out[..n]);
      forall i | 0 <= i < n
        ensures Lower(out[i]) in Keys(out)
      {
        assert out[..n][i] == out[i];
      }
      forall x | x in Keys(out)
        ensures exists i :: 0 <= i < |out| && x == Lower(out[i])
      {
        if x in Keys(out[..n]) {
          var i :| 0 <= i < n && x == Lower(out[..n][i]);
          assert out[..n][i] == out[i];
        } else {
          assert x == Lower(out[n]);
        }
      }
    }
  }

  /** The loop has stopped: an entry was pushed and the limit reached. */
  predicate Finished(out: seq<string>, limit: int) {
    |out| >= 1 && |out| >= limit
  }

  /** One step of the loop on a cleaned entry `s`: it is pushed when it is
      not empty and its lower-cased form is new. */
  function Pushed(out: seq<string>, s: string): seq<string> {
    if s == "" || Lower(s) in Keys(out) then out else out + [s]
  }

  /** What the loop collects from the cleaned entries `texts`, in order. */
  function Collect(texts: seq<string>, limit: int): seq<string>
    decreases |texts|
  {
    if texts == [] then []
    else
      var out := Collect(texts[..|texts| - 1], limit);
      if Finished(out, limit) then out else Pushed(out, texts[|texts| - 1])
  }

  /** Lines 27-30 applied to every entry. */
  function CleanEntries(items: seq<Value>): (r: seq<string>)
    ensures |r| == |items| && forall i :: 0 <= i < |items| ==> r[i] == CleanEntry(items[i])
  {
    seq(|items|, i requires 0 <= i < |items| => CleanEntry(items[i]))
  }

  /** What `cleanList` collects from the entries `items` (lines 23-39). */
  function Collected(items: seq<Value>, limit: int): seq<string> {
    Collect(CleanEntries(items), limit)
  }

  /** The entries `cleanList` reads: an array's, or none. */
  function Entries(items: Value): seq<Value> {
    if items.Arr? then items.items else []
  }

  /** Once stopped, later entries change nothing. */
  lemma {:induction false} CollectStops(texts: seq<string>, k: nat, m: nat, limit: int)
    requires k <= m <= |texts| && Finished(Collect(texts[..k], limit), limit)
    ensures Collect(texts[..m], limit) == Collect(texts[..k], limit)
    decreases m - k
  {
    if k < m {
      CollectStops(texts, k, m - 1, limit);
      assert texts[..m][..m - 1] == texts[..m - 1];
    }
  }

  /** One more entry, before the loop has stopped, is one more step. */
  lemma CollectStep(texts: seq<string>, i: nat, limit: int)
    requires i < |texts| && !Finished(Collect(texts[..i], limit), limit)
    ensures Collect(texts[..i + 1], limit) == Pushed(Collect(texts[..i], limit), texts[i])
  {
    assert texts[..i + 1][..i] == texts[..i];
  }

  /** `cleanList(items, limit)`: a loop over the entries, a set of the
      lower-cased forms seen so far, and a stop once `limit` are pushed. */
  method CleanList(items: Value, limit: int) returns (out: seq<string>)
    ensures out == Collected(Entries(items), limit)
  {
    var list := Entries(items);
    ghost var texts := CleanEntries(list);
    out := [];
    var seen: set<string> := {};
    for i := 0 to |list|
      invariant out == Collect(texts[..i], limit)
      invariant seen == Keys(out)
      invariant !Finished(out, limit)
    {
      CollectStep(texts, i, limit);
      var s := CleanEntry(list[i]);
      if s == "" {
        continue;
      }
      var key := Lower(s);
      if key in seen {
        continue;
      }
      KeysPush(out, s);
      seen := seen + {key};
      out := out + [s];
      if |out| >= limit {
        CollectStops(texts, i + 1, |list|, limit);
        assert texts[..|list|] == texts;
        return;
      }
    }
    assert texts[..|list|] == texts;
  }

  /** At most `limit` keywords, at least one once any is pushed, and never
      more than entries. */
  lemma {:induction false} CollectBound(texts: seq<string>, limit: int)
    ensures |Collect(texts, limit)| <= |texts|
    ensures |Collect(texts, limit)| <= limit || |Collect(texts, limit)| <= 1
    decreases |texts|
  {
    if texts != [] {
      CollectBound(texts[..|texts| - 1], limit);
    }
  }

  /** Every keyword is a non-empty cleaned entry, and no two agree after
      lower-casing. */
  lemma {:induction false} CollectClean(texts: seq<string>, limit: int)
    ensures var out := Collect(texts, limit);
      (forall i :: 0 <= i < |out| ==> out[i] != "" && out[i] in texts) &&
      (forall i, k :: 0 <= i < k < |out| ==> Lower(out[i]) != Lower(out[k]))
    decreases |texts|
  {
    if texts != [] {
      var n := |texts| - 1;
      var before := texts[..n];
      CollectClean(before, limit);
      assert forall i :: 0 <= i < |Collect(before, limit)| ==> Collect(before, limit)[i] in before;
      assert forall i :: 0 <= i < |Collect(before, limit)| ==> Collect(before, limit)[i] != "";
      assert forall i, k :: 0 <= i < k < |Collect(before, limit)| ==> Lower(Collect(before, limit)[i]) != Lower(Collect(before, limit)[k]);
      var prev := Collect(before, limit);
      var out := Collect(texts, limit);
      assert forall x :: x in before ==> x in texts;
      if out != prev {
        assert out == prev + [texts[n]];
        assert texts[n] != "" && Lower(texts[n]) !in Keys(prev);
        forall i, k | 0 <= i < k < |out|
          ensures Lower(out[i]) != Lower(out[k])
        {
          assert out[i] == prev[i];
          if k == |prev| {
            assert out[k] == texts[n];
            KeysMembers(prev);
            assert Lower(prev[i]) in Keys(prev);
          } else {
            assert out[k] == prev[k];
          }
        }
      }
    }
  }

  /** Until the limit stops the loop, every non-empty entry is represented,
      by its lower-cased form. */
  lemma {:induction false} CollectComplete(texts: seq<string>, limit: int)
    requires !Finished(Collect(texts, limit), limit)
    ensures forall j :: 0 <= j < |texts| && texts[j] != "" ==>
      Lower(texts[j]) in Keys(Collect(texts, limit))
    decreases |texts|
  {
    if texts != [] {
      var n := |texts| - 1;
      var before := texts[..n];
      var prev := Collect(before, limit);
      var out := Collect(texts, limit);
      assert !Finished(prev, limit);
      CollectComplete(before, limit);
      assert out == Pushed(prev, texts[n]);
      if out != prev {
        KeysPush(prev, texts[n]);
      }
      forall j | 0 <= j < |texts| && texts[j] != ""
        ensures Lower(texts[j]) in Keys(out)
      {
        if j < n {
          assert texts[j] == before[j];
        }
      }
    }
  }

  /** No non-empty entry before `j` has the lower-cased form of `texts[j]`. */
  predicate FirstOfKey(texts: seq<string>, j: int)
    requires 0 <= j < |texts|
  {
    forall k :: 0 <= k < j && texts[k] != "" ==> Lower(texts[k]) != Lower(texts[j])
  }

  /** Of the entries that agree after lower-casing, the first is the one
      kept. */
  lemma {:induction false} CollectKeepsFirst(texts: seq<string>, limit: int)
    ensures forall i :: 0 <= i < |Collect(texts, limit)| ==>
      exists j :: 0 <= j < |texts| && Collect(texts, limit)[i] == texts[j] && FirstOfKey(texts, j)
    decreases |texts|
  {
    if texts != [] {
      var n := |texts| - 1;
      var before := texts[..n];
      var prev := Collect(before, limit);
      var out := Collect(texts, limit);
      CollectKeepsFirst(before, limit);
      assert forall i :: 0 <= i < |prev| ==>
        exists j :: 0 <= j < |before| && prev[i] == before[j] && FirstOfKey(before, j);
      forall i | 0 <= i < |prev|
        ensures exists j :: 0 <= j < |texts| && prev[i] == texts[j] && FirstOfKey(texts, j)
      {
        assert exists j :: 0 <= j < |before| && prev[i] == before[j] && FirstOfKey(before, j);
        var j :| 0 <= j < |before| && prev[i] == before[j] && FirstOfKey(before, j);
        assert before[j] == texts[j];
        forall k | 0 <= k < j && texts[k] != ""
          ensures Lower(texts[k]) != Lower(texts[j])
        {
          assert before[k] == texts[k];
        }
      }
      if out != prev {
        assert !Finished(prev, limit);
        assert out == prev + [texts[n]];
        assert texts[n] != "" && Lower(texts[n]) !in Keys(prev);
        CollectComplete(before, limit);
        forall k | 0 <= k < n && texts[k] != ""
          ensures Lower(texts[k]) != Lower(texts[n])
        {
          assert before[k] == texts[k];
        }
        assert FirstOfKey(texts, n);
      }
      forall i | 0 <= i < |Collect(texts, limit)|
        ensures exists j :: 0 <= j < |texts| && Collect(texts, limit)[i] == texts[j] && FirstOfKey(texts, j)
      {
        if i < |prev| {
          assert out[i] == prev[i];
        } else {
          assert out != prev;
          assert out[i] == texts[n];
        }
      }
    } else {
      assert Collect(texts, limit) == [];
    }
  }

  /** `a` is a subsequence of `b`. */
  predicate InOrder(a: seq<string>, b: seq<string>)
    decreases |b|
  {
    a == [] || (b != [] && ((a[|a| - 1] == b[|b| - 1] && InOrder(a[..|a| - 1], b[..|b| - 1])) ||
      InOrder(a, b[..|b| - 1])))
  }

  /** The keywords keep the order of the entries they come from. */
  lemma {:induction false} CollectInOrder(texts: seq<string>, limit: int)
    ensures InOrder(Collect(texts, limit), texts)
    decreases |texts|
  {
    if texts != [] {
      var n := |texts| - 1;
      var before := texts[..n];
      CollectInOrder(before, limit);
      var prev := Collect(before, limit);
      var out := Collect(texts, limit);
      if out == prev {
        if out != [] {
          assert InOrder(out, texts[..n]);
        }
      } else {
        assert out == prev + [texts[n]];
        assert out[..|out| - 1] == prev;
      }
    }
  }

  // -------------------------------------------------------- parseKeywords

  /** `text.split(/\r?\n/g)`: the pieces between line breaks, a `\r` before
      a `\n` belonging to the break. */
  function Lines(text: string): (r: seq<string>)
    ensures |r| == |Split(text, '\n')|
  {
    var pieces := Split(text, '\n');
    seq(|pieces|, i requires 0 <= i < |pieces| =>
      if i < |pieces| - 1 && pieces[i] != [] && pieces[i][|pieces[i]| - 1] == '\r'
      then pieces[i][..|pieces[i]| - 1] else pieces[i])
  }

  function LineValues(lines: seq<string>): (r: seq<Value>)
    ensures |r| == |lines| && forall i :: 0 <= i < |lines| ==> r[i] == Str(lines[i])
  {
    seq(|lines|, i requires 0 <= i < |lines| => Str(lines[i]))
  }

  /** The entries `parseKeywords` cleans (lines 45-53): a JSON array, an
      object's `keywords` or else `items` array, or the lines of the
      text. `parsed` is what the trimmed text parses to as JSON. */
  function KeywordEntries(trimmed: string, parsed: Option<Value>): (r: seq<Value>)
    ensures parsed.Some? && parsed.value.Arr? ==> r == parsed.value.items
  {
    if parsed.Some? && parsed.value.Arr? then parsed.value.items
    else if parsed.Some? && parsed.value.Obj? && Field(parsed.value, "keywords").Arr? then
      Field(parsed.value, "keywords").items
    else if parsed.Some? && parsed.value.Obj? && Field(parsed.value, "items").Arr? then
      Field(parsed.value, "items").items
    else LineValues(Lines(trimmed))
  }

  /** `parseKeywords(content, count)`. */
  function ParsedKeywords(content: string, parsed: Option<Value>, count: int): (r: seq<string>)
    ensures Trim(content) == "" ==> r == []
  {
    var trimmed := Trim(content);
    if trimmed == "" then [] else Collected(KeywordEntries(trimmed, parsed), count)
  }

  /** `parseKeywords`, cleaning with `CleanList`. */
  method ParseKeywords(content: string, parsed: Option<Value>, count: int) returns (r: seq<string>)
    ensures r == ParsedKeywords(content, parsed, count)
  {
    var trimmed := Trim(content);
    if trimmed == "" {
      return [];
    }
    r := CleanList(Arr(KeywordEntries(trimmed, parsed)), count);
  }

  /** Parsed keywords are at most `count` (for a count of at least one),
      cleaned and distinct after lower-casing. */
  lemma ParsedKeywordsShape(content: string, parsed: Option<Value>, count: int)
    requires count >= 1
    ensures var r := ParsedKeywords(content, parsed, count);
      |r| <= count &&
      (forall i :: 0 <= i < |r| ==> r[i] != "" && Trim(r[i]) == r[i]) &&
      (forall i, k :: 0 <= i < k < |r| ==> Lower(r[i]) != Lower(r[k]))
  {
    var trimmed := Trim(content);
    if trimmed != "" {
      CollectedShape(KeywordEntries(trimmed, parsed), count);
    }
  }

  /** What `cleanList` collects is at most `limit` (for a limit of at least
      one), cleaned and distinct after lower-casing. */
  lemma CollectedShape(entries: seq<Value>, limit: int)
    requires limit >= 1
    ensures var r := Collected(entries, limit);
      |r| <= limit &&
      (forall i :: 0 <= i < |r| ==> r[i] != "" && Trim(r[i]) == r[i]) &&
      (forall i, k :: 0 <= i < k < |r| ==> Lower(r[i]) != Lower(r[k]))
  {
    var texts := CleanEntries(entries);
    CollectBound(texts, limit);
    CollectClean(texts, limit);
    forall j | 0 <= j < |texts|
      ensures Trim(texts[j]) == texts[j]
    {
      CleanEntryTrimmed(entries[j]);
    }
  }

  lemma CleanEntryTrimmed(raw: Value)
    ensures Trim(CleanEntry(raw)) == CleanEntry(raw)
  {
    CleanEntryShape(raw);
  }

  // ------------------------------------------------------------ the endpoint

  /** `Math.min(50, Math.max(1, Number(count) || 25))` (line 67). */
  function KeywordCount(v: Value): (r: int)
    ensures 1 <= r <= 50
    ensures IsNullish(v) || v == Num(0) ==> r == 25
    ensures v.Num? && 1 <= v.n <= 50 ==> r == v.n
  {
    assert ToNumber(v).Finite? ==> JsNumber.IsInt(ToNumber(v).x);
    JsNumber.ClampToInt(JsNumber.Or(ToNumber(v), JsNumber.Int(25)), 1, 50)
  }

  /** The endpoint: a server key and a topic are required, and the model's
      text `content` must yield at least one keyword; when it yields none, the
      502 echoes the text. */
  function KeywordsResponse(apiKey: string, body: Value, content: string, parsed: Option<Value>)
    : (r: Response<seq<string>>)
    ensures Trim(apiKey) == "" ==> r == Error(500, "OPENAI_API_KEY is not set on the server.")
    ensures Trim(apiKey) != "" && Trim(StringOr(Field(body, "topic"), "")) == "" ==>
      r == Error(400, "topic is required")
    ensures r.Ok? ==> r.body != [] && |r.body| <= KeywordCount(Field(body, "count"))
    ensures Trim(apiKey) != "" && Trim(StringOr(Field(body, "topic"), "")) != "" ==>
      var keywords := ParsedKeywords(content, parsed, KeywordCount(Field(body, "count")));
      (r.Ok? <==> keywords != []) && (r.Ok? ==> r.body == keywords) &&
      (r.Error? ==> r == Error(502, "AI returned no keywords.", Some(content)))
  {
    var count := KeywordCount(Field(body, "count"));
    if Trim(apiKey) == "" then Error(500, "OPENAI_API_KEY is not set on the server.")
    else if Trim(StringOr(Field(body, "topic"), "")) == "" then Error(400, "topic is required")
    else
      var keywords := ParsedKeywords(content, parsed, count);
      ParsedKeywordsShape(content, parsed, count);
      if keywords == [] then Error(502, "AI returned no keywords.", Some(content)) else Ok(keywords)
  }

  /** The endpoint's code path. */
  method Respond(apiKey: string, body: Value, content: string, parsed: Option<Value>)
    returns (r: Response<seq<string>>)
    ensures r == KeywordsResponse(apiKey, body, content, parsed)
  {
    if Trim(apiKey) == "" {
      return Error(500, "OPENAI_API_KEY is not set on the server.");
    }
    var topic := Trim(StringOr(Field(body, "topic"), ""));
    var count := KeywordCount(Field(body, "count"));
    if topic == "" {
      return Error(400, "topic is required");
    }
    var keywords := ParseKeywords(content, parsed, count);
    if keywords == [] {
      return Error(502, "AI returned no keywords.", Some(content));
    }
    r := Ok(keywords);
  }
}
