/**
 * The save machinery of src/lib/stores/reportLayouts.js: the set of hydrated
 * clients, the one-shot "skip the next save" marks, the debounce timers and
 * the last snapshot the server accepted, per client. A pending timer is
 * represented by the report value it captured; the 650 ms delay itself is not
 * modelled, a timer fires when the environment says so (`Fire`).
 */
module ReportSaves {
  import opened Wrappers
  import opened JsText
  import opened LayoutItems
  import opened LayoutProperties
  import opened ReportLayouts
  import opened ReportLayoutsProperties

  /** What `serializeMeta` turns into JSON: two equal snapshots give the same
      text. */
  datatype Snapshot = Snapshot(title: string, items: seq<Item>)

  /** `serializeMeta(meta)`: the title (or 'Report') cut to 60 characters and
      the re-normalised items. */
  function Serialize(meta: Report, ids: nat -> string): (s: Snapshot)
    ensures |s.title| <= 60
    ensures meta.title != "" && |meta.title| <= 60 ==> s.title == meta.title
    ensures meta.title == "" ==> s.title == "Report"
    ensures |s.items| == |meta.items|
  {
    ObjectsOfEntries(meta.items);
    Snapshot(Take(if meta.title == "" then "Report" else meta.title, 60), Renormalize(meta.items, ids))
  }

  /** A stable layout with truthy specs serialises to its own items, whatever
      ids `uid()` would have produced. */
  lemma SerializeStable(meta: Report, ids: nat -> string, ids2: nat -> string)
    requires Stable(meta.items)
    requires forall i :: 0 <= i < |meta.items| ==> meta.items[i].spec.Truthy()
    ensures Serialize(meta, ids).items == meta.items
    ensures Serialize(meta, ids) == Serialize(meta, ids2)
  {
    RenormalizeStable(meta.items, ids);
    RenormalizeStable(meta.items, ids2);
  }

  /** The module-level save state: `hydratedClients` (a `Set`, so in
      insertion order without repeats), `skipSaveOnce`, `saveTimers` (each with
      the report its callback captured) and `lastSaved`. */
  datatype Saves = Saves(hydrated: seq<string>, skip: set<string>, timers: map<string, Report>, lastSaved: map<string, Snapshot>)

  /** Everything the save state records about one client. */
  datatype View = View(hydrated: bool, skip: bool, timer: Option<Report>, saved: Option<Snapshot>)

  function ViewOf(s: Saves, c: string): View {
    View(c in s.hydrated, c in s.skip,
         if c in s.timers then Some(s.timers[c]) else None,
         if c in s.lastSaved then Some(s.lastSaved[c]) else None)
  }

  /** Only hydrated clients are marked, timed or remembered, and every
      hydrated client appears once. */
  predicate Inv(s: Saves) {
    "" !in s.hydrated &&
    (forall i, j :: 0 <= i < j < |s.hydrated| ==> s.hydrated[i] != s.hydrated[j]) &&
    (forall c :: c in s.skip ==> c in s.hydrated) &&
    (forall c :: c in s.timers ==> c in s.hydrated) &&
    (forall c :: c in s.lastSaved ==> c in s.hydrated)
  }

  /** `scheduleSave(clientId, meta)`; `ids` stands for the values `uid()`
      gives while serialising. */
  function Schedule(s: Saves, c: string, meta: Report, ids: nat -> string): (r: Saves)
    ensures r.hydrated == s.hydrated
    ensures Inv(s) ==> Inv(r)
    ensures forall k :: k != c ==> ViewOf(r, k) == ViewOf(s, k)
    ensures c !in s.hydrated ==> r == s
  {
    if c == "" || c !in s.hydrated then s
    else if c in s.skip then s.(skip := s.skip - {c}, lastSaved := s.lastSaved[c := Serialize(meta, ids)])
    else s.(timers := s.timers[c := meta])
  }

  /** The subscriber run for the clients `cs`, in order: each client present
      in the new store value is scheduled; the k-th draws ids from `ids(k)`. */
  function PublishTo(s: Saves, value: Reports, cs: seq<string>, ids: nat -> (nat -> string)): (r: Saves)
    ensures r.hydrated == s.hydrated
    ensures Inv(s) ==> Inv(r)
    ensures forall k :: k !in cs ==> ViewOf(r, k) == ViewOf(s, k)
  {
    if cs == [] then s
    else
      var before := PublishTo(s, value, cs[..|cs| - 1], ids);
      var c := cs[|cs| - 1];
      if c in value then Schedule(before, c, value[c], ids(|cs| - 1)) else before
  }

  /** The subscriber: `scheduleSave` for every hydrated client, in the
      insertion order of `hydratedClients`. */
  function Publish(s: Saves, value: Reports, ids: nat -> (nat -> string)): (r: Saves)
    ensures r.hydrated == s.hydrated
    ensures Inv(s) ==> Inv(r)
    ensures forall k :: k !in s.hydrated ==> ViewOf(r, k) == ViewOf(s, k)
  {
    PublishTo(s, value, s.hydrated, ids)
  }

  /** The save-state part of `hydrateReportLayout`, before its store update:
      the client joins the hydrated set and is marked to skip its next save. */
  function Hydrate(s: Saves, c: string): (r: Saves)
    ensures Inv(s) ==> Inv(r)
    ensures c != "" ==> c in r.hydrated && c in r.skip
    ensures forall k :: k != c ==> ViewOf(r, k) == ViewOf(s, k)
    ensures c == "" ==> r == s
  {
    if c == "" then s
    else s.(hydrated := if c in s.hydrated then s.hydrated else s.hydrated + [c], skip := s.skip + {c})
  }

  /** The callback of the timer of client `c`: the timer is dropped and
      `saveToServer` runs with the captured report. When the snapshot equals
      the last saved one nothing is sent; otherwise it is sent (`sent`) and,
      when the server answers `ok`, remembered. */
  function Fire(s: Saves, c: string, ok: bool, ids: nat -> string): (r: (Saves, Option<Snapshot>))
    requires c in s.timers
    ensures var (after, sent) := r;
      c !in after.timers && after.hydrated == s.hydrated && after.skip == s.skip &&
      (sent.None? <==> c in s.lastSaved && s.lastSaved[c] == Serialize(s.timers[c], ids)) &&
      (sent.Some? ==> sent.value == Serialize(s.timers[c], ids)) &&
      (sent.Some? && ok ==> after.lastSaved == s.lastSaved[c := sent.value]) &&
      (sent.None? || !ok ==> after.lastSaved == s.lastSaved) &&
      (forall k :: k != c ==> ViewOf(after, k) == ViewOf(s, k)) &&
      (Inv(s) ==> Inv(after))
  {
    var rest := s.(timers := s.timers - {c});
    var json := Serialize(s.timers[c], ids);
    if c in s.lastSaved && s.lastSaved[c] == json then (rest, None)
    else if ok then (rest.(lastSaved := rest.lastSaved[c := json]), Some(json))
    else (rest, Some(json))
  }

  /** Debounce: scheduling a client that is not marked twice leaves a single
      timer, holding the later report. */
  lemma ScheduleDebounces(s: Saves, c: string, first: Report, second: Report, ids1: nat -> string, ids2: nat -> string)
    requires c != "" && c in s.hydrated && c !in s.skip
    ensures Schedule(Schedule(s, c, first, ids1), c, second, ids2) == Schedule(s, c, second, ids2)
    ensures Schedule(s, c, second, ids2).timers[c] == second
  {
  }

  /** Scheduling a client touches only that client; the scheduled view
      depends on nothing but the client's own view. */
  lemma ScheduleView(s: Saves, t: Saves, c: string, meta: Report, ids: nat -> string)
    requires ViewOf(s, c) == ViewOf(t, c)
    ensures ViewOf(Schedule(s, c, meta, ids), c) == ViewOf(Schedule(t, c, meta, ids), c)
  {
    assert c in s.hydrated <==> c in t.hydrated by {
      assert ViewOf(s, c).hydrated == ViewOf(t, c).hydrated;
    }
  }

  /** In one run of the subscriber a hydrated client is scheduled exactly
      once, with its own report from the new store value. */
  lemma {:induction false} PublishToClient(s: Saves, value: Reports, cs: seq<string>, ids: nat -> (nat -> string), i: nat)
    requires i < |cs| && cs[i] in value
    requires forall p, q :: 0 <= p < q < |cs| ==> cs[p] != cs[q]
    ensures ViewOf(PublishTo(s, value, cs, ids), cs[i]) == ViewOf(Schedule(s, cs[i], value[cs[i]], ids(i)), cs[i])
    decreases |cs|
  {
    var c := cs[i];
    var init := cs[..|cs| - 1];
    var before := PublishTo(s, value, init, ids);
    if i == |cs| - 1 {
      assert c !in init;
      assert ViewOf(before, c) == ViewOf(s, c);
      ScheduleView(before, s, c, value[c], ids(i));
    } else {
      assert init[i] == c;
      PublishToClient(s, value, init, ids, i);
    }
  }

  /** `hydrateReportLayout` followed by the subscriber run of its store
      update records the new report as the client's baseline instead of
      arming a timer: the mark is consumed and any earlier timer stays. */
  lemma HydrateRecordsBaseline(s: Saves, c: string, value: Reports, ids: nat -> (nat -> string), i: nat)
    requires Inv(s) && c != "" && c in value
    requires i < |Hydrate(s, c).hydrated| && Hydrate(s, c).hydrated[i] == c
    ensures var r := Publish(Hydrate(s, c), value, ids);
      c in r.hydrated && c !in r.skip && c in r.lastSaved &&
      r.lastSaved[c] == Serialize(value[c], ids(i)) &&
      ViewOf(r, c).timer == ViewOf(s, c).timer
  {
    var h := Hydrate(s, c);
    PublishToClient(h, value, h.hydrated, ids, i);
  }

  /** Echo suppression: once the baseline is recorded, a later notification
      with the same stable report arms a timer whose firing sends nothing. */
  lemma EchoNotSent(s: Saves, c: string, value: Reports, ids: nat -> (nat -> string), i: nat,
                    ids2: nat -> (nat -> string), ok: bool, fireIds: nat -> string)
    requires Inv(s) && c != "" && c in value
    requires Stable(value[c].items)
    requires forall k :: 0 <= k < |value[c].items| ==> value[c].items[k].spec.Truthy()
    requires i < |Hydrate(s, c).hydrated| && Hydrate(s, c).hydrated[i] == c
    ensures var baseline := Publish(Hydrate(s, c), value, ids);
      var next := Publish(baseline, value, ids2);
      c in next.timers && Fire(next, c, ok, fireIds).1 == None
  {
    var baseline := Publish(Hydrate(s, c), value, ids);
    HydrateRecordsBaseline(s, c, value, ids, i);
    var next := Publish(baseline, value, ids2);
    PublishToClient(baseline, value, baseline.hydrated, ids2, i);
    assert ViewOf(next, c) == ViewOf(Schedule(baseline, c, value[c], ids2(i)), c);
    SerializeStable(value[c], ids(i), fireIds);
  }

  /** A timer armed before a second `hydrateReportLayout` survives it: the
      skip branch of `scheduleSave` does not clear it, so it later fires with
      the report captured before hydration. */
  lemma RehydrateKeepsPendingTimer(s: Saves, c: string, value: Reports, ids: nat -> (nat -> string), i: nat)
    requires Inv(s) && c != "" && c in value && c in s.timers
    requires i < |Hydrate(s, c).hydrated| && Hydrate(s, c).hydrated[i] == c
    ensures var r := Publish(Hydrate(s, c), value, ids);
      c in r.timers && r.timers[c] == s.timers[c]
  {
    HydrateRecordsBaseline(s, c, value, ids, i);
  }
}
