/**
 * The module state of src/lib/stores/reportLayouts.js as one object: the
 * writable store `reportLayoutsByClient` and the save state beside it. Every
 * exported function that passes its guard replaces the store value through
 * `update`, and a Svelte store notifies its subscriber on every `update` of
 * an object value, so each such call ends with a run of the subscriber.
 * Every call receives the values `uid()` returns: `ids` for the store update,
 * `saveIds(k)` for the k-th client the subscriber schedules.
 */
module ReportStore {
  import opened Wrappers
  import opened JsNumber
  import opened LayoutItems
  import ReportLayouts
  import opened ReportSaves

  /** The object built by assigning `next[key] = value` for each pair in
      turn. */
  function ToMap<V>(pairs: seq<(string, V)>): (r: map<string, V>)
    ensures forall i :: 0 <= i < |pairs| ==> pairs[i].0 in r
  {
    if pairs == [] then map[]
    else
      var n := |pairs| - 1;
      assert forall i :: 0 <= i < n ==> pairs[..n][i] == pairs[i];
      ToMap(pairs[..n])[pairs[n].0 := pairs[n].1]
  }

  /** Every key of the object comes from a pair. */
  lemma {:induction false} ToMapKeys<V>(pairs: seq<(string, V)>)
    ensures forall c :: c in ToMap(pairs) ==> exists i :: 0 <= i < |pairs| && pairs[i].0 == c
    decreases |pairs|
  {
    if pairs != [] {
      var n := |pairs| - 1;
      var init := pairs[..n];
      ToMapKeys(init);
      assert ToMap(pairs) == ToMap(init)[pairs[n].0 := pairs[n].1];
      forall c | c in ToMap(pairs)
        ensures exists i :: 0 <= i < |pairs| && pairs[i].0 == c
      {
        if c != pairs[n].0 {
          assert c in ToMap(init);
          var i :| 0 <= i < |init| && init[i].0 == c;
          assert pairs[i] == init[i];
        }
      }
    }
  }

  /** One more assignment `next[key] = value`. */
  lemma ToMapStep<V>(pairs: seq<(string, V)>, k: nat)
    requires k < |pairs|
    ensures ToMap(pairs[..k + 1]) == ToMap(pairs[..k])[pairs[k].0 := pairs[k].1]
  {
    assert pairs[..k + 1][..k] == pairs[..k];
  }

  /** A key keeps the value of its pair when no later pair repeats it. */
  lemma {:induction false} ToMapLast<V>(pairs: seq<(string, V)>, i: nat)
    requires i < |pairs|
    requires forall q :: i < q < |pairs| ==> pairs[q].0 != pairs[i].0
    ensures ToMap(pairs)[pairs[i].0] == pairs[i].1
    decreases |pairs|
  {
    var n := |pairs| - 1;
    var init := pairs[..n];
    assert ToMap(pairs) == ToMap(init)[pairs[n].0 := pairs[n].1];
    if i < n {
      assert init[i] == pairs[i];
      forall q | i < q < |init|
        ensures init[q].0 != init[i].0
      {
        assert init[q] == pairs[q];
      }
      ToMapLast(init, i);
    }
  }

  /** Each entry of the parsed object migrated; the k-th draws `ids(k)`. */
  function Loaded(entries: seq<(string, ReportLayouts.StoredValue)>, ids: nat -> (nat -> string)): (r: seq<(string, ReportLayouts.Report)>)
    ensures |r| == |entries|
    ensures forall k :: 0 <= k < |entries| ==> r[k] == (entries[k].0, ReportLayouts.LoadEntry(entries[k].1, ids(k)))
  {
    seq(|entries|, k requires 0 <= k < |entries| => (entries[k].0, ReportLayouts.LoadEntry(entries[k].1, ids(k))))
  }

  /** The store contents for the parsed top-level `localStorage` object
      (`Object.entries`, in order): one report per client id, each with a
      title of at most 60 characters. */
  function LoadAll(entries: seq<(string, ReportLayouts.StoredValue)>, ids: nat -> (nat -> string)): (r: ReportLayouts.Reports)
    ensures forall i :: 0 <= i < |entries| ==> entries[i].0 in r
    ensures forall c :: c in r ==> exists i :: 0 <= i < |entries| && entries[i].0 == c
    ensures forall c :: c in r ==> |r[c].title| <= 60
  {
    var pairs := Loaded(entries, ids);
    ToMapKeys(pairs);
    var r := ToMap(pairs);
    assert forall c :: c in r ==> |r[c].title| <= 60 by {
      forall c | c in r ensures |r[c].title| <= 60 {
        var i :| 0 <= i < |pairs| && pairs[i].0 == c;
        var j := LastKey(pairs, i);
        ToMapLast(pairs, j);
      }
    }
    r
  }

  /** The last position holding the key of position `i`. */
  ghost function LastKey<V>(pairs: seq<(string, V)>, i: nat): (j: nat)
    requires i < |pairs|
    ensures i <= j < |pairs| && pairs[j].0 == pairs[i].0
    ensures forall q :: j < q < |pairs| ==> pairs[q].0 != pairs[j].0
    decreases |pairs| - i
  {
    if exists q :: i < q < |pairs| && pairs[q].0 == pairs[i].0 then
      var q :| i < q < |pairs| && pairs[q].0 == pairs[i].0;
      LastKey(pairs, q)
    else i
  }

  /** A client keeps the report migrated from its entry when no later entry
      has the same key (the keys of a parsed object are distinct; among
      repeated keys the last one wins). */
  lemma LoadAllEntry(entries: seq<(string, ReportLayouts.StoredValue)>, ids: nat -> (nat -> string), i: nat)
    requires i < |entries|
    requires forall q :: i < q < |entries| ==> entries[q].0 != entries[i].0
    ensures LoadAll(entries, ids)[entries[i].0] == ReportLayouts.LoadEntry(entries[i].1, ids(i))
  {
    ToMapLast(Loaded(entries, ids), i);
  }

  /** `loadInitial`: `None` stands for no stored text, text that does not
      parse, or a parsed value that is not an object. */
  method LoadInitial(parsed: Option<seq<(string, ReportLayouts.StoredValue)>>, ids: nat -> (nat -> string)) returns (next: ReportLayouts.Reports)
    ensures parsed.None? ==> next == map[]
    ensures parsed.Some? ==> next == LoadAll(parsed.value, ids)
  {
    next := map[];
    if parsed.None? {
      return;
    }
    var entries := parsed.value;
    var k := 0;
    ghost var pairs := Loaded(entries, ids);
    while k < |entries|
      invariant 0 <= k <= |entries|
      invariant next == ToMap(pairs[..k])
    {
      var (clientId, value) := entries[k];
      next := next[clientId := ReportLayouts.LoadEntry(value, ids(k))];
      ToMapStep(pairs, k);
      k := k + 1;
    }
    assert pairs[..k] == pairs;
  }

  class ReportLayoutStore {
    var reports: ReportLayouts.Reports
    var hydrated: seq<string>
    var skipOnce: set<string>
    var timers: map<string, ReportLayouts.Report>
    var lastSaved: map<string, Snapshot>

    function Saves(): ReportSaves.Saves
      reads this
    {
      ReportSaves.Saves(hydrated, skipOnce, timers, lastSaved)
    }

    /** The module initialisation: the store starts from `loadInitial()`,
        nothing is hydrated and no save is pending. */
    constructor (parsed: Option<seq<(string, ReportLayouts.StoredValue)>>, ids: nat -> (nat -> string))
      ensures parsed.None? ==> reports == map[]
      ensures parsed.Some? ==> reports == LoadAll(parsed.value, ids)
      ensures Saves() == ReportSaves.Saves([], {}, map[], map[]) && Inv(Saves())
    {
      var initial := LoadInitial(parsed, ids);
      reports := initial;
      hydrated := [];
      skipOnce := {};
      timers := map[];
      lastSaved := map[];
    }

    /** `scheduleSave(clientId, meta)`. */
    method ScheduleSave(clientId: string, meta: ReportLayouts.Report, ids: nat -> string)
      modifies this
      ensures reports == old(reports)
      ensures Saves() == Schedule(old(Saves()), clientId, meta, ids)
    {
      ghost var before := Saves();
      if clientId == "" || clientId !in hydrated {
        return;
      }
      if clientId in skipOnce {
        skipOnce := skipOnce - {clientId};
        lastSaved := lastSaved[clientId := Serialize(meta, ids)];
        assert Saves() == before.(skip := before.skip - {clientId}, lastSaved := before.lastSaved[clientId := Serialize(meta, ids)]);
        return;
      }
      timers := timers[clientId := meta];
      assert Saves() == before.(timers := before.timers[clientId := meta]);
    }

    /** The subscriber: `scheduleSave` for each hydrated client with a report. */
    method Notify(saveIds: nat -> (nat -> string))
      modifies this
      ensures reports == old(reports)
      ensures Saves() == Publish(old(Saves()), reports, saveIds)
    {
      var clients := hydrated;
      var k := 0;
      while k < |clients|
        invariant 0 <= k <= |clients|
        invariant reports == old(reports) && hydrated == clients
        invariant Saves() == PublishTo(old(Saves()), reports, clients[..k], saveIds)
      {
        var clientId := clients[k];
        assert clients[..k + 1][..k] == clients[..k];
        if clientId in reports {
          ScheduleSave(clientId, reports[clientId], saveIds(k));
        }
        k := k + 1;
      }
      assert clients[..k] == clients;
    }

    /** `reportLayoutsByClient.update`: the new value, then the subscriber. */
    method Commit(next: ReportLayouts.Reports, saveIds: nat -> (nat -> string))
      modifies this
      ensures reports == next
      ensures Saves() == Publish(old(Saves()), next, saveIds)
    {
      reports := next;
      Notify(saveIds);
    }

    /** The timer of `clientId` fires and `saveToServer` runs; `ok` is whether
        the server accepts the request. */
    method FireSaveTimer(clientId: string, ok: bool, ids: nat -> string) returns (sent: Option<Snapshot>)
      requires clientId in timers
      modifies this
      ensures reports == old(reports)
      ensures (Saves(), sent) == Fire(old(Saves()), clientId, ok, ids)
    {
      ghost var before := Saves();
      var meta := timers[clientId];
      timers := timers - {clientId};
      var json := Serialize(meta, ids);
      ghost var rest := before.(timers := before.timers - {clientId});
      assert Saves() == rest;
      if clientId in lastSaved && lastSaved[clientId] == json {
        return None;
      }
      if ok {
        lastSaved := lastSaved[clientId := json];
        assert Saves() == rest.(lastSaved := rest.lastSaved[clientId := json]);
      }
      return Some(json);
    }

    /** `hydrateReportLayout`. */
    method HydrateReportLayout(clientId: string, meta: ReportLayouts.Meta, ids: nat -> string, saveIds: nat -> (nat -> string))
      modifies this
      ensures clientId == "" ==> reports == old(reports) && Saves() == old(Saves())
      ensures clientId != "" ==>
        reports == ReportLayouts.HydrateReport(old(reports), clientId, meta, ids) &&
        Saves() == Publish(Hydrate(old(Saves()), clientId), reports, saveIds)
    {
      if clientId == "" {
        return;
      }
      if clientId !in hydrated {
        hydrated := hydrated + [clientId];
      }
      skipOnce := skipOnce + {clientId};
      Commit(ReportLayouts.HydrateReport(reports, clientId, meta, ids), saveIds);
    }

    /** `ensureReport`. */
    method EnsureReport(clientId: string, saveIds: nat -> (nat -> string))
      modifies this
      ensures clientId == "" ==> reports == old(reports) && Saves() == old(Saves())
      ensures clientId != "" ==>
        reports == ReportLayouts.EnsureReport(old(reports), clientId) && Saves() == Publish(old(Saves()), reports, saveIds)
    {
      if clientId != "" {
        Commit(ReportLayouts.EnsureReport(reports, clientId), saveIds);
      }
    }

    /** `setReportTitle`. */
    method SetReportTitle(clientId: string, title: string, saveIds: nat -> (nat -> string))
      modifies this
      ensures clientId == "" ==> reports == old(reports) && Saves() == old(Saves())
      ensures clientId != "" ==>
        reports == ReportLayouts.SetReportTitle(old(reports), clientId, title) && Saves() == Publish(old(Saves()), reports, saveIds)
    {
      if clientId != "" {
        Commit(ReportLayouts.SetReportTitle(reports, clientId, title), saveIds);
      }
    }

    /** `addReportItem`. */
    method AddReportItem(clientId: string, spec: Spec, span: Number, ids: nat -> string, saveIds: nat -> (nat -> string))
      modifies this
      ensures clientId == "" || !spec.Truthy() ==> reports == old(reports) && Saves() == old(Saves())
      ensures clientId != "" && spec.Truthy() ==>
        reports == ReportLayouts.AddReportItem(old(reports), clientId, spec, span, ids) && Saves() == Publish(old(Saves()), reports, saveIds)
    {
      if clientId != "" && spec.Truthy() {
        Commit(ReportLayouts.AddReportItem(reports, clientId, spec, span, ids), saveIds);
      }
    }

    /** `addReportItemAt`. */
    method AddReportItemAt(clientId: string, spec: Spec, span: Number, row: Number, col: Number, ids: nat -> string, saveIds: nat -> (nat -> string))
      modifies this
      ensures clientId == "" || !spec.Truthy() ==> reports == old(reports) && Saves() == old(Saves())
      ensures clientId != "" && spec.Truthy() ==>
        reports == ReportLayouts.AddReportItemAt(old(reports), clientId, spec, span, row, col, ids) &&
        Saves() == Publish(old(Saves()), reports, saveIds)
    {
      if clientId != "" && spec.Truthy() {
        Commit(ReportLayouts.AddReportItemAt(reports, clientId, spec, span, row, col, ids), saveIds);
      }
    }

    /** `removeReportItem`. */
    method RemoveReportItem(clientId: string, id: string, ids: nat -> string, saveIds: nat -> (nat -> string))
      modifies this
      ensures clientId == "" || id == "" ==> reports == old(reports) && Saves() == old(Saves())
      ensures clientId != "" && id != "" ==>
        reports == ReportLayouts.RemoveReportItem(old(reports), clientId, id, ids) && Saves() == Publish(old(Saves()), reports, saveIds)
    {
      if clientId != "" && id != "" {
        Commit(ReportLayouts.RemoveReportItem(reports, clientId, id, ids), saveIds);
      }
    }

    /** `reorderReportItems`: when either id is missing the store value is
        returned unchanged, but the subscriber still runs. */
    method ReorderReportItems(clientId: string, fromId: string, toId: string, ids: nat -> string, saveIds: nat -> (nat -> string))
      modifies this
      ensures clientId == "" || fromId == "" || toId == "" || fromId == toId ==> reports == old(reports) && Saves() == old(Saves())
      ensures !(clientId == "" || fromId == "" || toId == "" || fromId == toId) ==>
        reports == ReportLayouts.ReorderReportItems(old(reports), clientId, fromId, toId, ids) &&
        Saves() == Publish(old(Saves()), reports, saveIds)
    {
      if !(clientId == "" || fromId == "" || toId == "" || fromId == toId) {
        Commit(ReportLayouts.ReorderReportItems(reports, clientId, fromId, toId, ids), saveIds);
      }
    }

    /** `setReportItemSpan`. */
    method SetReportItemSpan(clientId: string, id: string, span: Number, ids: nat -> string, saveIds: nat -> (nat -> string))
      modifies this
      ensures clientId == "" || id == "" ==> reports == old(reports) && Saves() == old(Saves())
      ensures clientId != "" && id != "" ==>
        reports == ReportLayouts.SetReportItemSpan(old(reports), clientId, id, span, ids) && Saves() == Publish(old(Saves()), reports, saveIds)
    {
      if clientId != "" && id != "" {
        Commit(ReportLayouts.SetReportItemSpan(reports, clientId, id, span, ids), saveIds);
      }
    }

    /** `setReportItemSpec`. */
    method SetReportItemSpec(clientId: string, id: string, spec: Spec, ids: nat -> string, saveIds: nat -> (nat -> string))
      modifies this
      ensures clientId == "" || id == "" ==> reports == old(reports) && Saves() == old(Saves())
      ensures clientId != "" && id != "" ==>
        reports == ReportLayouts.SetReportItemSpec(old(reports), clientId, id, spec, ids) && Saves() == Publish(old(Saves()), reports, saveIds)
    {
      if clientId != "" && id != "" {
        Commit(ReportLayouts.SetReportItemSpec(reports, clientId, id, spec, ids), saveIds);
      }
    }

    /** `placeReportItem`: an unknown id leaves the value as it is, but the
        subscriber still runs. */
    method PlaceReportItem(clientId: string, id: string, row: Number, col: Number, ids: nat -> string, saveIds: nat -> (nat -> string))
      modifies this
      ensures clientId == "" || id == "" ==> reports == old(reports) && Saves() == old(Saves())
      ensures clientId != "" && id != "" ==>
        reports == ReportLayouts.PlaceReportItem(old(reports), clientId, id, row, col, ids) && Saves() == Publish(old(Saves()), reports, saveIds)
    {
      if clientId != "" && id != "" {
        Commit(ReportLayouts.PlaceReportItem(reports, clientId, id, row, col, ids), saveIds);
      }
    }
  }
}
