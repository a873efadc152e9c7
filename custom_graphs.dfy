/**
 * src/lib/stores/customAnalysisGraphs.js: the per-client lists of custom
 * analysis graphs. A stored graph is an object `{ id, spec }`; lists from
 * the legacy shape (a bare spec per entry) are migrated whenever a list is
 * read. Every call that may invent ids receives its own stream `ids` of the
 * values `uid()` returns.
 */
module CustomGraphs {
  import opened Wrappers

  /** A graph object: its `id` ("" when missing or falsy), its `spec` and the
      rest of its content, abstracted as text. */
  datatype Graph = Graph(id: string, spec: Spec, rest: string)

  /** The `spec` property: missing or falsy, some truthy value, or (after a
      migration) the legacy object itself. */
  datatype Spec = NoSpec | Payload(data: string) | Whole(obj: Graph)

  /** An element of a stored array: an object, or any value that is not
      one (`null`, a string, a number, ...). */
  datatype Entry = NonObject | Object(obj: Graph)

  /** The new shape: a truthy id and a truthy spec. */
  predicate IsCurrent(g: Graph) {
    g.id != "" && g.spec != NoSpec
  }

  /** One element of the `arr.map(...)`: an object in the new shape is kept
      as it is, any other object becomes `{ id: newId, spec: item }`. */
  function Migrate(g: Graph, newId: string): (m: Graph)
    ensures IsCurrent(g) ==> m == g
    ensures !IsCurrent(g) ==> m.id == newId && m.spec == Whole(g)
    ensures newId != "" ==> IsCurrent(m)
  {
    if IsCurrent(g) then g else Graph(newId, Whole(g), "")
  }

  /** The objects among the entries, in order (the `.filter(Boolean)` drops
      the `null` that every other value maps to). */
  function ObjectsOf(entries: seq<Entry>): (objs: seq<Graph>)
    ensures |objs| <= |entries|
    ensures forall g :: g in objs <==> Object(g) in entries
  {
    if entries == [] then []
    else
      var rest := ObjectsOf(entries[1..]);
      assert forall g :: Object(g) in entries <==> entries[0] == Object(g) || Object(g) in entries[1..];
      match entries[0]
      case Object(g) => [g] + rest
      case NonObject => rest
  }

  /** `normalizeClientGraphs(arr)`; `None` stands for a value that is not an
      array. The k-th object draws `ids(k)` if it needs an id. */
  function NormalizeClientGraphs(arr: Option<seq<Entry>>, ids: nat -> string): (r: seq<Graph>)
    ensures arr.None? ==> r == []
    ensures arr.Some? ==> |r| == |ObjectsOf(arr.value)|
    ensures arr.Some? ==> forall k :: 0 <= k < |r| ==> r[k] == Migrate(ObjectsOf(arr.value)[k], ids(k))
  {
    match arr
    case None => []
    case Some(entries) =>
      var objs := ObjectsOf(entries);
      seq(|objs|, k requires 0 <= k < |objs| => Migrate(objs[k], ids(k)))
  }

  /** A list read back as an array of objects. */
  function ToEntries(gs: seq<Graph>): (entries: seq<Entry>)
    ensures |entries| == |gs|
    ensures forall i :: 0 <= i < |gs| ==> entries[i] == Object(gs[i])
  {
    seq(|gs|, i requires 0 <= i < |gs| => Object(gs[i]))
  }

  /** Reading a list of objects back finds the same objects. */
  lemma {:induction false} ObjectsOfEntries(gs: seq<Graph>)
    ensures ObjectsOf(ToEntries(gs)) == gs
    decreases |gs|
  {
    if gs != [] {
      assert ToEntries(gs)[1..] == ToEntries(gs[1..]);
      ObjectsOfEntries(gs[1..]);
    }
  }

  /** With ids that are never empty, every normalised graph is in the new
      shape. */
  lemma NormalizedCurrent(arr: Option<seq<Entry>>, ids: nat -> string)
    requires forall k :: ids(k) != ""
    ensures forall g :: g in NormalizeClientGraphs(arr, ids) ==> IsCurrent(g)
  {
  }

  /** A list already in the new shape is returned unchanged, whatever ids
      are offered. */
  lemma NormalizeKeepsCurrent(gs: seq<Graph>, ids: nat -> string)
    requires forall g :: g in gs ==> IsCurrent(g)
    ensures NormalizeClientGraphs(Some(ToEntries(gs)), ids) == gs
  {
    ObjectsOfEntries(gs);
  }

  /** Normalising a normalised list changes nothing. */
  lemma NormalizeIdempotent(arr: Option<seq<Entry>>, ids: nat -> string, ids2: nat -> string)
    requires forall k :: ids(k) != ""
    ensures var once := NormalizeClientGraphs(arr, ids);
      NormalizeClientGraphs(Some(ToEntries(once)), ids2) == once
  {
    NormalizedCurrent(arr, ids);
    NormalizeKeepsCurrent(NormalizeClientGraphs(arr, ids), ids2);
  }

  /** The stored lists, client id to graphs. */
  type Store = map<string, seq<Graph>>

  /** `m[clientId]` as `normalizeClientGraphs` sees it: missing is not an
      array. */
  function Stored(m: Store, clientId: string): Option<seq<Entry>> {
    if clientId in m then Some(ToEntries(m[clientId])) else None
  }

  /** `addCustomGraph(clientId, graphSpec)` as a transform of the store: the
      new graph draws `ids(0)`, the migration of the existing list the rest. */
  function Added(m: Store, clientId: string, graphSpec: Spec, ids: nat -> string): (r: Store)
    ensures clientId == "" ==> r == m
    ensures clientId != "" ==> r.Keys == m.Keys + {clientId}
    ensures forall c :: c in m && c != clientId ==> c in r && r[c] == m[c]
    ensures clientId != "" ==>
      var existing := NormalizeClientGraphs(Stored(m, clientId), (k: nat) => ids(k + 1));
      r[clientId] == existing + [Graph(ids(0), graphSpec, "")]
  {
    if clientId == "" then m
    else
      var existing := NormalizeClientGraphs(Stored(m, clientId), (k: nat) => ids(k + 1));
      m[clientId := existing + [Graph(ids(0), graphSpec, "")]]
  }

  /** On a list in the new shape, adding appends exactly one graph. */
  lemma AddAppendsOne(m: Store, clientId: string, graphSpec: Spec, ids: nat -> string)
    requires clientId in m && clientId != ""
    requires forall g :: g in m[clientId] ==> IsCurrent(g)
    ensures Added(m, clientId, graphSpec, ids)[clientId] == m[clientId] + [Graph(ids(0), graphSpec, "")]
  {
    NormalizeKeepsCurrent(m[clientId], (k: nat) => ids(k + 1));
  }

  /** The second argument of `removeCustomGraph`: a string (an id), a
      number (an index), or anything else, which matches no index. */
  datatype Selector = ById(id: string) | ByIndex(index: int) | Unmatched

  /** `existing.filter((g) => g.id !== id)`. */
  function WithoutId(gs: seq<Graph>, id: string): (r: seq<Graph>)
    ensures |r| <= |gs|
    ensures forall g :: g in r <==> g in gs && g.id != id
  {
    if gs == [] then []
    else if gs[0].id != id then [gs[0]] + WithoutId(gs[1..], id)
    else WithoutId(gs[1..], id)
  }

  /** Removing an id no graph has changes nothing. */
  lemma {:induction false} WithoutAbsentId(gs: seq<Graph>, id: string)
    requires forall g :: g in gs ==> g.id != id
    ensures WithoutId(gs, id) == gs
    decreases |gs|
  {
    if gs != [] {
      assert gs[0] in gs;
      assert forall g :: g in gs[1..] ==> g in gs;
      WithoutAbsentId(gs[1..], id);
    }
  }

  /** Removing an id twice is removing it once. */
  lemma WithoutIdIdempotent(gs: seq<Graph>, id: string)
    ensures WithoutId(WithoutId(gs, id), id) == WithoutId(gs, id)
  {
    WithoutAbsentId(WithoutId(gs, id), id);
  }

  /** `existing.filter((_, i) => i !== index)`. */
  function WithoutIndex(gs: seq<Graph>, index: int): (r: seq<Graph>)
    ensures 0 <= index < |gs| ==> |r| == |gs| - 1
    ensures 0 <= index < |gs| ==> forall i :: 0 <= i < index ==> r[i] == gs[i]
    ensures 0 <= index < |gs| ==> forall i :: index <= i < |r| ==> r[i] == gs[i + 1]
    ensures !(0 <= index < |gs|) ==> r == gs
  {
    if 0 <= index < |gs| then gs[..index] + gs[index + 1..] else gs
  }

  /** The filtered list for a selector. */
  function Select(gs: seq<Graph>, sel: Selector): seq<Graph> {
    match sel
    case ById(id) => WithoutId(gs, id)
    case ByIndex(index) => WithoutIndex(gs, index)
    case Unmatched => gs
  }

  /** `removeCustomGraph(clientId, indexOrId)` as a transform of the store. */
  function Removed(m: Store, clientId: string, sel: Selector, ids: nat -> string): (r: Store)
    ensures clientId == "" ==> r == m
    ensures clientId != "" ==> r.Keys == m.Keys + {clientId}
    ensures forall c :: c in m && c != clientId ==> c in r && r[c] == m[c]
    ensures clientId != "" ==> |r[clientId]| <= |NormalizeClientGraphs(Stored(m, clientId), ids)|
  {
    if clientId == "" then m
    else m[clientId := Select(NormalizeClientGraphs(Stored(m, clientId), ids), sel)]
  }

  /** On a list in the new shape, removal by id keeps exactly the graphs with
      another id and removal by index drops exactly that position. */
  lemma RemoveFromCurrent(m: Store, clientId: string, sel: Selector, ids: nat -> string)
    requires clientId in m && clientId != ""
    requires forall g :: g in m[clientId] ==> IsCurrent(g)
    ensures var r := Removed(m, clientId, sel, ids)[clientId];
      (sel.ById? ==> forall g :: g in r <==> g in m[clientId] && g.id != sel.id) &&
      (sel.ByIndex? && 0 <= sel.index < |m[clientId]| ==>
        r == m[clientId][..sel.index] + m[clientId][sel.index + 1..]) &&
      (sel.Unmatched? ==> r == m[clientId])
  {
    NormalizeKeepsCurrent(m[clientId], ids);
  }

  /** A store whose lists are all in the new shape. */
  predicate AllCurrent(m: Store) {
    forall c, g :: c in m && g in m[c] ==> IsCurrent(g)
  }

  /** Every graph of a filtered list comes from the list. */
  lemma SelectFrom(gs: seq<Graph>, sel: Selector)
    ensures forall g :: g in Select(gs, sel) ==> g in gs
  {
    var r := Select(gs, sel);
    if sel.ByIndex? && 0 <= sel.index < |gs| {
      forall g | g in r
        ensures g in gs
      {
        var i :| 0 <= i < |r| && r[i] == g;
        if i < sel.index {
          assert r[i] == gs[i];
        } else {
          assert r[i] == gs[i + 1];
        }
      }
    }
  }

  /** Adding a graph with a truthy spec under ids that are never empty keeps
      every list in the new shape. */
  lemma AddKeepsCurrent(m: Store, clientId: string, graphSpec: Spec, ids: nat -> string)
    requires AllCurrent(m) && graphSpec != NoSpec && forall k :: ids(k) != ""
    ensures AllCurrent(Added(m, clientId, graphSpec, ids))
  {
    if clientId != "" {
      NormalizedCurrent(Stored(m, clientId), (k: nat) => ids(k + 1));
    }
  }

  /** Removing under ids that are never empty keeps every list in the new
      shape. */
  lemma RemoveKeepsCurrent(m: Store, clientId: string, sel: Selector, ids: nat -> string)
    requires AllCurrent(m) && forall k :: ids(k) != ""
    ensures AllCurrent(Removed(m, clientId, sel, ids))
  {
    if clientId != "" {
      NormalizedCurrent(Stored(m, clientId), ids);
      SelectFrom(NormalizeClientGraphs(Stored(m, clientId), ids), sel);
    }
  }

  /** The store `customGraphsByClient`. */
  class CustomGraphStore {
    var graphs: Store

    /** The store as `loadInitial` leaves it: each client's parsed value
        normalised, client `c` drawing the ids `ids(c)`. */
    constructor(parsed: map<string, Option<seq<Entry>>>, ids: string -> (nat -> string))
      ensures graphs.Keys == parsed.Keys
      ensures forall c :: c in parsed ==> graphs[c] == NormalizeClientGraphs(parsed[c], ids(c))
    {
      graphs := map c | c in parsed :: NormalizeClientGraphs(parsed[c], ids(c));
    }

    /** `addCustomGraph(clientId, graphSpec)`. */
    method AddCustomGraph(clientId: string, graphSpec: Spec, ids: nat -> string)
      modifies this
      ensures graphs == Added(old(graphs), clientId, graphSpec, ids)
    {
      if clientId == "" {
        return;
      }
      var existing := NormalizeClientGraphs(Stored(graphs, clientId), (k: nat) => ids(k + 1));
      var item := Graph(ids(0), graphSpec, "");
      graphs := graphs[clientId := existing + [item]];
    }

    /** `removeCustomGraph(clientId, indexOrId)`. */
    method RemoveCustomGraph(clientId: string, indexOrId: Selector, ids: nat -> string)
      modifies this
      ensures graphs == Removed(old(graphs), clientId, indexOrId, ids)
    {
      if clientId == "" {
        return;
      }
      var existing := NormalizeClientGraphs(Stored(graphs, clientId), ids);
      var next := match indexOrId
        case ById(id) => WithoutId(existing, id)
        case ByIndex(index) => WithoutIndex(existing, index)
        case Unmatched => existing;
      graphs := graphs[clientId := next];
    }
  }
}
