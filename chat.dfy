/**
 * The text helpers of the chat endpoint (src/app_routes/api/ai/chat/+server.js):
 * cleaning the clarifying questions a language model returns, re-joining
 * questions whose option list was split across entries, spotting the metrics
 * a user message mentions, and recognising a request for a split between
 * metrics. An element of a JSON array is represented by its `String(v || '')`
 * text, and a value that is not an array by `None`.
 */
module Chat {
  import opened Wrappers
  import opened JsText
  import opened MetricIds

  // ------------------------------------------------------------ asStringArray

  /** Each element trimmed, the empty results dropped, order kept. */
  function Cleaned(vs: seq<string>): (r: seq<string>)
    ensures |r| <= |vs|
    ensures forall i :: 0 <= i < |r| ==> r[i] != "" && Trim(r[i]) == r[i]
    decreases |vs|
  {
    if vs == [] then []
    else
      var c := Trim(vs[0]);
      TrimIdempotent(vs[0]);
      if c == "" then Cleaned(vs[1..]) else [c] + Cleaned(vs[1..])
  }

  /** An entry is kept exactly when it trims to a non-empty string, and then
      as that string. */
  lemma {:induction false} CleanedMembers(vs: seq<string>, x: string)
    ensures x in Cleaned(vs) <==> x != "" && exists i :: 0 <= i < |vs| && Trim(vs[i]) == x
    decreases |vs|
  {
    if vs != [] {
      CleanedMembers(vs[1..], x);
      if exists i :: 0 <= i < |vs| && Trim(vs[i]) == x {
        var i :| 0 <= i < |vs| && Trim(vs[i]) == x;
        if i > 0 {
          assert vs[1..][i - 1] == vs[i];
        }
      }
      if exists i :: 0 <= i < |vs[1..]| && Trim(vs[1..][i]) == x {
        var i :| 0 <= i < |vs[1..]| && Trim(vs[1..][i]) == x;
        assert vs[i + 1] == vs[1..][i];
      }
    }
  }

  /** Entries that are already trimmed and non-empty pass unchanged. */
  lemma {:induction false} CleanedIdentity(vs: seq<string>)
    requires forall i :: 0 <= i < |vs| ==> vs[i] != "" && Trim(vs[i]) == vs[i]
    ensures Cleaned(vs) == vs
    decreases |vs|
  {
    if vs != [] {
      CleanedIdentity(vs[1..]);
      assert vs == [vs[0]] + vs[1..];
    }
  }

  /** `asStringArray(value, limit)`: the first `limit` cleaned entries of an
      array, and nothing for any other value. */
  function AsStringArray(value: Option<seq<string>>, limit: nat): (r: seq<string>)
    ensures |r| <= limit
    ensures forall i :: 0 <= i < |r| ==> r[i] != "" && Trim(r[i]) == r[i]
    ensures value.None? ==> r == []
    ensures value.Some? ==> r <= Cleaned(value.value)
    ensures value.Some? && |r| < limit ==> r == Cleaned(value.value)
  {
    match value
    case None => []
    case Some(vs) =>
      var c := Cleaned(vs);
      if |c| <= limit then c else c[..limit]
  }

  /** A clean array within the limit comes back as it was. */
  lemma AsStringArrayClean(vs: seq<string>, limit: nat)
    requires |vs| <= limit
    requires forall i :: 0 <= i < |vs| ==> vs[i] != "" && Trim(vs[i]) == vs[i]
    ensures AsStringArray(Some(vs), limit) == vs
  {
    CleanedIdentity(vs);
  }

  // ------------------------------------------------ mergeWrappedClarifyQuestions

  /** `cur.includes('[') && !cur.includes(']')`: an option list opened and
      not closed. */
  predicate OpenUnclosed(cur: string) {
    '[' in cur && ']' !in cur
  }

  /** The following entry looks like the rest of the option list: non-empty,
      and without `[` or with `|` or `]`. */
  predicate ContinuesOptions(next: string) {
    next != "" && ('[' !in next || '|' in next || ']' in next)
  }

  /** `` `${cur} ${next}`.replace(/\s+/g, ' ').trim() `` for a trimmed,
      non-empty `cur`: trimmed and non-empty, starting as `cur` does. */
  function Joined(cur: string, next: string): (r: string)
    requires cur != [] && !IsSpace(cur[0])
    ensures r != "" && Trim(r) == r && r[0] == cur[0]
  {
    var s := CollapseSpaces(cur + " " + next);
    CollapseKeepsFirst(cur + " " + next);
    TrimKeepsFirst(s);
    TrimIdempotent(s);
    Trim(s)
  }

  /** The entries the merge produces from `items[i..]`. */
  function MergedFrom(items: seq<string>, i: nat): (r: seq<string>)
    requires i <= |items|
    ensures |r| <= |items| - i
    decreases |items| - i
  {
    if i == |items| then []
    else
      var cur := Trim(items[i]);
      TrimShape(items[i]);
      if cur == "" then MergedFrom(items, i + 1)
      else if OpenUnclosed(cur) && i + 1 < |items| && ContinuesOptions(Trim(items[i + 1])) then
        [Joined(cur, Trim(items[i + 1]))] + MergedFrom(items, i + 2)
      else [cur] + MergedFrom(items, i + 1)
  }

  /** Every merged entry is trimmed and non-empty. */
  lemma {:induction false} MergedClean(items: seq<string>, i: nat)
    requires i <= |items|
    ensures forall k :: 0 <= k < |MergedFrom(items, i)| ==>
      MergedFrom(items, i)[k] != "" && Trim(MergedFrom(items, i)[k]) == MergedFrom(items, i)[k]
    decreases |items| - i
  {
    if i < |items| {
      TrimIdempotent(items[i]);
      MergedStep(items, i);
      MergedClean(items, i + 1);
      if i + 2 <= |items| {
        MergedClean(items, i + 2);
      }
    }
  }

  /** `mergeWrappedClarifyQuestions(list)`: a loop over the entries that
      pushes each non-empty one, joined with the next when that continues
      its option list. */
  method MergeWrappedClarifyQuestions(list: Option<seq<string>>) returns (out: seq<string>)
    ensures out == MergedFrom(list.GetOr([]), 0)
  {
    var items := list.GetOr([]);
    ghost var all := MergedFrom(items, 0);
    out := [];
    var i := 0;
    while i < |items|
      invariant 0 <= i <= |items|
      invariant out + MergedFrom(items, i) == all
    {
      MergedStep(items, i);
      var cur := Trim(items[i]);
      if cur == "" {
        i := i + 1;
      } else {
        var entry, used := PushEntry(items, i, cur);
        PushFront(out, entry, MergedFrom(items, i + used));
        out := out + [entry];
        i := i + used;
      }
    }
  }

  /** The body of the loop for an entry `cur` that is not empty: with an
      unclosed option list and a following entry that continues it, the
      two are joined and both consumed; otherwise `cur` alone is. */
  method PushEntry(items: seq<string>, i: nat, cur: string) returns (entry: string, used: nat)
    requires i < |items| && cur == Trim(items[i]) && cur != ""
    ensures 1 <= used <= 2 && i + used <= |items|
    ensures MergedFrom(items, i) == [entry] + MergedFrom(items, i + used)
  {
    MergedStep(items, i);
    var hasOpen := '[' in cur;
    var hasClose := ']' in cur;
    var openUnclosed := hasOpen && !hasClose;
    if openUnclosed && i + 1 < |items| {
      var next := Trim(items[i + 1]);
      if next != "" && ('[' !in next || '|' in next || ']' in next) {
        assert OpenUnclosed(cur) && ContinuesOptions(next);
        return Joined(cur, next), 2;
      }
    }
    assert !(OpenUnclosed(cur) && i + 1 < |items| && ContinuesOptions(Trim(items[i + 1])));
    return cur, 1;
  }

  lemma PushFront(out: seq<string>, x: string, rest: seq<string>)
    ensures out + ([x] + rest) == (out + [x]) + rest
  {
  }

  /** Without an unclosed option list nothing is merged: the result is the
      cleaned input. */
  lemma {:induction false} MergedWithoutOpenLists(items: seq<string>, i: nat)
    requires i <= |items|
    requires forall k :: i <= k < |items| ==> !OpenUnclosed(Trim(items[k]))
    ensures MergedFrom(items, i) == Cleaned(items[i..])
    decreases |items| - i
  {
    if i < |items| {
      MergedWithoutOpenLists(items, i + 1);
      assert items[i..][0] == items[i] && items[i..][1..] == items[i + 1..];
    }
  }

  /** Entries are only merged in pairs: an empty entry is skipped, an entry
      with an unclosed option list followed by one that continues it becomes
      one joined entry, and any other entry is kept as it is. */
  lemma MergedStep(items: seq<string>, i: nat)
    requires i < |items|
    ensures var cur := Trim(items[i]);
      cur == "" ==> MergedFrom(items, i) == MergedFrom(items, i + 1)
    ensures var cur := Trim(items[i]);
      cur != "" && OpenUnclosed(cur) && i + 1 < |items| && ContinuesOptions(Trim(items[i + 1])) ==>
        !IsSpace(cur[0]) && MergedFrom(items, i) == [Joined(cur, Trim(items[i + 1]))] + MergedFrom(items, i + 2)
    ensures var cur := Trim(items[i]);
      cur != "" && !(OpenUnclosed(cur) && i + 1 < |items| && ContinuesOptions(Trim(items[i + 1]))) ==>
        MergedFrom(items, i) == [cur] + MergedFrom(items, i + 1)
  {
    TrimShape(items[i]);
  }

  /** The questions of the reply: the merged, cleaned first four entries of
      `parsed.clarifyingQuestions`, at most two of them. */
  function ClarifyingQuestions(questions: Option<seq<string>>): (r: seq<string>)
    ensures |r| <= 2
    ensures forall i :: 0 <= i < |r| ==> r[i] != "" && Trim(r[i]) == r[i]
    ensures r <= MergedFrom(AsStringArray(questions, 4), 0)
    ensures var n := |MergedFrom(AsStringArray(questions, 4), 0)|; |r| == if n <= 2 then n else 2
  {
    var merged := MergedFrom(AsStringArray(questions, 4), 0);
    MergedClean(AsStringArray(questions, 4), 0);
    if |merged| <= 2 then merged else merged[..2]
  }

  /** Clean questions without option lists come back unchanged; the reply
      keeps the first two of them. */
  lemma ClarifyingQuestionsClean(qs: seq<string>)
    requires |qs| <= 4
    requires forall i :: 0 <= i < |qs| ==> qs[i] != "" && Trim(qs[i]) == qs[i] && !OpenUnclosed(qs[i])
    ensures ClarifyingQuestions(Some(qs)) == if |qs| <= 2 then qs else qs[..2]
  {
    AsStringArrayClean(qs, 4);
    MergedWithoutOpenLists(qs, 0);
    CleanedIdentity(qs);
    assert qs[0..] == qs;
  }

  // ------------------------------------------------------ normalizeMetricMention

  /** The ids `normalizeMetricMention` tests for, in the order it tests
      them. */
  const MentionIds: seq<string> := [
    "averagePurchaseValue", "engagedSessions", "sessions", "clicks", "impressions",
    "ctr", "bounceRate", "purchases", "revenue"
  ]

  /** The outcome of each test on the lowercased text `t`, in the same
      order. */
  function Hits(t: string): (h: seq<bool>)
    ensures |h| == |MentionIds|
  {
    [ Contains(t, "average purchase value") || Contains(t, "avg purchase value") || Contains(t, "aov"),
      Contains(t, "engaged sessions") || Contains(t, "engagedsession"),
      Contains(t, "sessions"),
      Contains(t, "clicks"),
      Contains(t, "impressions"),
      Contains(t, "ctr"),
      Contains(t, "bounce rate") || Contains(t, "bouncerate"),
      Contains(t, "purchases") || Contains(t, "conversions"),
      Contains(t, "revenue") ]
  }

  /** The ids the first `k` tests push: `ids[j]` for each passed test `j`,
      in test order. */
  function SelectUpTo(hits: seq<bool>, ids: seq<string>, k: nat): (r: seq<string>)
    requires k <= |hits| == |ids|
    ensures |r| <= k
    decreases k
  {
    if k == 0 then []
    else SelectUpTo(hits, ids, k - 1) + (if hits[k - 1] then [ids[k - 1]] else [])
  }

  /** `Array.from(new Set(xs))`: each value at its first occurrence. */
  function Dedupe(xs: seq<string>): (r: seq<string>)
    ensures |r| <= |xs|
    ensures forall x :: x in r <==> x in xs
    ensures forall i, j :: 0 <= i < j < |r| ==> r[i] != r[j]
  {
    if xs == [] then []
    else
      var d := Dedupe(xs[..|xs| - 1]);
      assert xs == xs[..|xs| - 1] + [xs[|xs| - 1]];
      if xs[|xs| - 1] in d then d else d + [xs[|xs| - 1]]
  }

  predicate Distinct(xs: seq<string>) {
    forall i, j :: 0 <= i < j < |xs| ==> xs[i] != xs[j]
  }

  /** A sequence without repeats passes the set unchanged. */
  lemma {:induction false} DedupeDistinct(xs: seq<string>)
    requires Distinct(xs)
    ensures Dedupe(xs) == xs
    decreases |xs|
  {
    if xs != [] {
      var init := xs[..|xs| - 1];
      assert Distinct(init);
      DedupeDistinct(init);
      assert xs[|xs| - 1] !in init;
      assert xs == init + [xs[|xs| - 1]];
    }
  }

  /** The metrics that `text` mentions, as `normalizeMetricMention` returns
      them. */
  function Mentioned(text: string): seq<string> {
    Dedupe(SelectUpTo(Hits(Lower(text)), MentionIds, |MentionIds|))
  }

  /** The tests one by one. */
  lemma HitsAt(t: string)
    ensures Hits(t)[0] == (Contains(t, "average purchase value") || Contains(t, "avg purchase value") || Contains(t, "aov"))
    ensures Hits(t)[1] == (Contains(t, "engaged sessions") || Contains(t, "engagedsession"))
    ensures Hits(t)[2] == Contains(t, "sessions")
    ensures Hits(t)[3] == Contains(t, "clicks")
    ensures Hits(t)[4] == Contains(t, "impressions")
    ensures Hits(t)[5] == Contains(t, "ctr")
    ensures Hits(t)[6] == (Contains(t, "bounce rate") || Contains(t, "bouncerate"))
    ensures Hits(t)[7] == (Contains(t, "purchases") || Contains(t, "conversions"))
    ensures Hits(t)[8] == Contains(t, "revenue")
  {
  }

  lemma MentionIdsAt()
    ensures |MentionIds| == 9
    ensures MentionIds[0] == "averagePurchaseValue" && MentionIds[1] == "engagedSessions"
    ensures MentionIds[2] == "sessions" && MentionIds[3] == "clicks" && MentionIds[4] == "impressions"
    ensures MentionIds[5] == "ctr" && MentionIds[6] == "bounceRate" && MentionIds[7] == "purchases"
    ensures MentionIds[8] == "revenue"
  {
  }

  /** `normalizeMetricMention(text)`: one test per metric in a fixed order,
      each pushing the id, then the set of ids. The nine tests come in three
      groups of three, in order. */
  method NormalizeMetricMention(text: string) returns (metrics: seq<string>)
    ensures metrics == Mentioned(text)
  {
    var t := Lower(text);
    metrics := PushPurchaseAndSessionMentions(t);
    metrics := PushSearchMentions(t, metrics);
    metrics := PushOutcomeMentions(t, metrics);
    metrics := Dedupe(metrics);
  }

  /** The tests for average purchase value, engaged sessions and
      sessions. */
  method PushPurchaseAndSessionMentions(t: string) returns (metrics: seq<string>)
    ensures metrics == SelectUpTo(Hits(t), MentionIds, 3)
  {
    ghost var h := Hits(t);
    HitsAt(t);
    MentionIdsAt();
    metrics := [];
    if Contains(t, "average purchase value") || Contains(t, "avg purchase value") || Contains(t, "aov") {
      metrics := metrics + ["averagePurchaseValue"];
    }
    assert metrics == SelectUpTo(h, MentionIds, 1);
    if Contains(t, "engaged sessions") || Contains(t, "engagedsession") {
      metrics := metrics + ["engagedSessions"];
    }
    assert metrics == SelectUpTo(h, MentionIds, 2);
    if Contains(t, "sessions") {
      metrics := metrics + ["sessions"];
    }
  }

  /** The tests for clicks, impressions and click-through rate. */
  method PushSearchMentions(t: string, metrics0: seq<string>) returns (metrics: seq<string>)
    requires metrics0 == SelectUpTo(Hits(t), MentionIds, 3)
    ensures metrics == SelectUpTo(Hits(t), MentionIds, 6)
  {
    ghost var h := Hits(t);
    HitsAt(t);
    MentionIdsAt();
    metrics := metrics0;
    if Contains(t, "clicks") {
      metrics := metrics + ["clicks"];
    }
    assert metrics == SelectUpTo(h, MentionIds, 4);
    if Contains(t, "impressions") {
      metrics := metrics + ["impressions"];
    }
    assert metrics == SelectUpTo(h, MentionIds, 5);
    if Contains(t, "ctr") {
      metrics := metrics + ["ctr"];
    }
  }

  /** The tests for bounce rate, purchases and revenue. */
  method PushOutcomeMentions(t: string, metrics0: seq<string>) returns (metrics: seq<string>)
    requires metrics0 == SelectUpTo(Hits(t), MentionIds, 6)
    ensures metrics == SelectUpTo(Hits(t), MentionIds, 9)
  {
    ghost var h := Hits(t);
    HitsAt(t);
    MentionIdsAt();
    metrics := metrics0;
    if Contains(t, "bounce rate") || Contains(t, "bouncerate") {
      metrics := metrics + ["bounceRate"];
    }
    assert metrics == SelectUpTo(h, MentionIds, 7);
    if Contains(t, "purchases") || Contains(t, "conversions") {
      metrics := metrics + ["purchases"];
    }
    assert metrics == SelectUpTo(h, MentionIds, 8);
    if Contains(t, "revenue") {
      metrics := metrics + ["revenue"];
    }
  }

  /** A pushed id comes from a passed test: the index of that test
      witnesses it. */
  lemma {:induction false} SelectedWitness(hits: seq<bool>, ids: seq<string>, k: nat, x: string)
    returns (j: nat)
    requires k <= |hits| == |ids| && x in SelectUpTo(hits, ids, k)
    ensures j < k && hits[j] && ids[j] == x
    decreases k
  {
    if hits[k - 1] && ids[k - 1] == x {
      j := k - 1;
    } else {
      j := SelectedWitness(hits, ids, k - 1, x);
    }
  }

  /** And conversely, a passed test pushes its id. */
  lemma {:induction false} SelectedAt(hits: seq<bool>, ids: seq<string>, k: nat, j: nat)
    requires k <= |hits| == |ids| && j < k && hits[j]
    ensures ids[j] in SelectUpTo(hits, ids, k)
    decreases k
  {
    if j < k - 1 {
      SelectedAt(hits, ids, k - 1, j);
    }
  }

  /** The ids the first `k` tests push are a prefix of what later tests
      give. */
  lemma {:induction false} SelectPrefix(hits: seq<bool>, ids: seq<string>, k: nat, m: nat)
    requires k <= m <= |hits| == |ids|
    ensures SelectUpTo(hits, ids, k) <= SelectUpTo(hits, ids, m)
    decreases m - k
  {
    if k < m {
      SelectPrefix(hits, ids, k, m - 1);
    }
  }

  /** `a` is `b` with some elements left out. */
  predicate IsSubsequence(a: seq<string>, b: seq<string>)
    decreases |b|
  {
    a == [] || (b != [] && ((a[|a| - 1] == b[|b| - 1] && IsSubsequence(a[..|a| - 1], b[..|b| - 1])) ||
      IsSubsequence(a, b[..|b| - 1])))
  }

  /** The pushed ids keep the test order. */
  lemma {:induction false} SelectedInOrder(hits: seq<bool>, ids: seq<string>, k: nat)
    requires k <= |hits| == |ids|
    ensures IsSubsequence(SelectUpTo(hits, ids, k), ids[..k])
    decreases k
  {
    if k > 0 {
      SelectedInOrder(hits, ids, k - 1);
      var prev := SelectUpTo(hits, ids, k - 1);
      var r := SelectUpTo(hits, ids, k);
      assert ids[..k][..k - 1] == ids[..k - 1];
      if hits[k - 1] {
        assert r == prev + [ids[k - 1]] && r[..|r| - 1] == prev;
      } else {
        assert r == prev;
      }
    }
  }

  /** Distinct ids give distinct pushed ids. */
  lemma {:induction false} SelectedDistinct(hits: seq<bool>, ids: seq<string>, k: nat)
    requires k <= |hits| == |ids| && Distinct(ids)
    ensures Distinct(SelectUpTo(hits, ids, k))
    decreases k
  {
    if k > 0 {
      SelectedDistinct(hits, ids, k - 1);
      var prev := SelectUpTo(hits, ids, k - 1);
      if hits[k - 1] && ids[k - 1] in prev {
        var j := SelectedWitness(hits, ids, k - 1, ids[k - 1]);
        assert false;
      }
    }
  }

  /** The candidate ids are nine distinct metric ids. */
  lemma MentionIdsKnown()
    ensures Distinct(MentionIds)
    ensures forall x :: x in MentionIds ==> x in MetricKeys && x != ""
  {
  }

  /** `normalizeMetricMention` returns distinct metric ids, in test order,
      without the set changing anything. */
  lemma MentionedDistinct(text: string)
    ensures Mentioned(text) == SelectUpTo(Hits(Lower(text)), MentionIds, |MentionIds|)
    ensures IsSubsequence(Mentioned(text), MentionIds)
    ensures Distinct(Mentioned(text))
    ensures forall x :: x in Mentioned(text) ==> x in MentionIds
    ensures forall x :: x in Mentioned(text) ==> x in MetricKeys && x != ""
  {
    var h := Hits(Lower(text));
    var pushed := SelectUpTo(h, MentionIds, |MentionIds|);
    MentionIdsKnown();
    SelectedInOrder(h, MentionIds, |MentionIds|);
    assert MentionIds[..|MentionIds|] == MentionIds;
    SelectedDistinct(h, MentionIds, |MentionIds|);
    DedupeDistinct(pushed);
    forall x | x in pushed
      ensures x in MentionIds
    {
      var j := SelectedWitness(h, MentionIds, |MentionIds|, x);
    }
  }

  /** A metric is mentioned exactly when its test passes on the lowercased
      text. */
  lemma MentionedIff(text: string, k: nat)
    requires k < |MentionIds|
    ensures MentionIds[k] in Mentioned(text) <==> Hits(Lower(text))[k]
  {
    var h := Hits(Lower(text));
    MentionedDistinct(text);
    MentionIdsKnown();
    if MentionIds[k] in Mentioned(text) {
      var j := SelectedWitness(h, MentionIds, |MentionIds|, MentionIds[k]);
      assert j == k;
    }
    if h[k] {
      SelectedAt(h, MentionIds, |MentionIds|, k);
    }
  }

  /** "sessions" occurs inside "engaged sessions". */
  lemma SessionsInEngagedSessions()
    ensures Contains("engaged sessions", "sessions")
  {
    ContainsAt("engaged sessions", "sessions", 8);
  }

  /** Text that mentions engaged sessions mentions both engagedSessions and
      sessions. */
  lemma EngagedSessionsMentionsBoth(text: string)
    requires Contains(Lower(text), "engaged sessions")
    ensures "engagedSessions" in Mentioned(text) && "sessions" in Mentioned(text)
    ensures Hits(Lower(text))[1] && Hits(Lower(text))[2]
  {
    var t := Lower(text);
    SessionsInEngagedSessions();
    ContainsTransitive(t, "engaged sessions", "sessions");
    assert Hits(t)[1] && Hits(t)[2];
    MentionedIff(text, 1);
    MentionedIff(text, 2);
  }

  // -------------------------------------------------------------- isSplitRequest

  /** `isSplitRequest(text)`. */
  predicate IsSplitRequest(text: string) {
    var t := Lower(text);
    Contains(t, " vs ") || Contains(t, "versus") || Contains(t, "split")
  }

  /** A split request stays one whatever text surrounds it. */
  lemma SplitRequestAppend(a: string, b: string)
    requires IsSplitRequest(a)
    ensures IsSplitRequest(a + b) && IsSplitRequest(b + a)
  {
    LowerAppend(a, b);
    LowerAppend(b, a);
    var t := Lower(a);
    if Contains(t, " vs ") {
      ContainsAppend(t, Lower(b), " vs ");
    } else if Contains(t, "versus") {
      ContainsAppend(t, Lower(b), "versus");
    } else {
      ContainsAppend(t, Lower(b), "split");
    }
  }

  /** Upper-case spellings count: "SPLIT" is a split request. */
  lemma SplitRequestUpperCase()
    ensures IsSplitRequest("SPLIT")
  {
    assert Lower("SPLIT") == "split";
    ContainsAt("split", "split", 0);
  }
}
