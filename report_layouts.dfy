/**
 * The store updates of src/lib/stores/reportLayouts.js: legacy migration
 * (`normalizeItems`), the per-client record read at start-up, and the
 * exported mutations as transforms of the map from client id to report.
 * Every call that may invent ids receives its own stream `ids` of the values
 * `uid()` returns.
 */
module ReportLayouts {
  import opened Wrappers
  import opened JsNumber
  import opened JsText
  import opened LayoutItems
  import opened LayoutGrid
  import opened LayoutStabilize

  /** A report of one client: `{ title, items }`. */
  datatype Report = Report(title: string, items: seq<Item>)

  type Reports = map<string, Report>

  /** The report a mutation starts from: `m[clientId] || { title: 'Report', items: [] }`. */
  function Current(m: Reports, clientId: string): Report {
    if clientId in m then m[clientId] else Report("Report", [])
  }

  /** The id stream `ids` without its first `k` values. */
  function Shift(ids: nat -> string, k: nat): nat -> string {
    (i: nat) => ids(k + i)
  }

  /** The objects of a stored list, in order (`.filter(Boolean)` after the map). */
  function ObjectsOf(entries: seq<Entry>): (objs: seq<Obj>)
    ensures |objs| <= |entries|
    ensures forall o :: o in objs <==> Object(o) in entries
  {
    if entries == [] then []
    else
      var rest := ObjectsOf(entries[1..]);
      assert forall o :: Object(o) in entries <==> entries[0] == Object(o) || Object(o) in entries[1..];
      match entries[0]
      case Object(o) => [o] + rest
      case NonObject => rest
  }

  /** One object of the `arr.map(...)` of `normalizeItems`: an object with a
      truthy id and spec is kept with normalised geometry; any other object is
      a legacy item and gets the fresh id `newId`, its spec (or itself when it
      has none) and row = col = 0. */
  function Migrate(o: Obj, newId: string): (m: Obj)
    ensures m.span == Int(NormalizeSpan(o.span))
    ensures o.id != "" && o.spec.Truthy() ==>
      m.id == o.id && m.spec == o.spec && m.rest == o.rest &&
      m.row == Int(NormalizeRow(o.row)) && m.col == Int(NormalizeCol(o.col, Int(NormalizeSpan(o.span))))
    ensures !(o.id != "" && o.spec.Truthy()) ==>
      m.id == newId && m.spec == (if o.spec.Truthy() then o.spec else Whole(o)) &&
      m.row == Int(0) && m.col == Int(0)
  {
    var span := NormalizeSpan(o.span);
    if o.id != "" && o.spec.Truthy() then
      o.(span := Int(span), row := Int(NormalizeRow(o.row)), col := Int(NormalizeCol(o.col, Int(span))))
    else
      Obj(newId, if o.spec.Truthy() then o.spec else Whole(o), Int(span), Int(0), Int(0), "")
  }

  /** The migrated list; the k-th object draws `ids(k)` if it needs an id. */
  function MigrateAll(objs: seq<Obj>, ids: nat -> string): (migrated: seq<Obj>)
    ensures |migrated| == |objs|
    ensures forall k :: 0 <= k < |objs| ==> migrated[k] == Migrate(objs[k], ids(k))
  {
    seq(|objs|, k requires 0 <= k < |objs| => Migrate(objs[k], ids(k)))
  }

  /** `normalizeItems(arr)`; `None` stands for a value that is not an array. */
  function NormalizeItems(arr: Option<seq<Entry>>, ids: nat -> string): (items: seq<Item>)
    ensures arr.None? ==> items == []
    ensures arr.Some? ==> |items| == |ObjectsOf(arr.value)|
  {
    match arr
    case None => []
    case Some(entries) =>
      var objs := ObjectsOf(entries);
      var r := Stabilize(MigrateAll(objs, ids), "", Shift(ids, |objs|));
      assert |r| == |objs| by {
        assert |NormalizeAll(MigrateAll(objs, ids), Shift(ids, |objs|))| == |objs|;
      }
      r
  }

  function ToEntries(items: seq<Item>): (entries: seq<Entry>)
    ensures |entries| == |items|
    ensures forall i :: 0 <= i < |items| ==> entries[i] == Object(ToObj(items[i]))
  {
    seq(|items|, i requires 0 <= i < |items| => Object(ToObj(items[i])))
  }

  /** `normalizeItems(current.items)` for the items a report holds. */
  function Renormalize(items: seq<Item>, ids: nat -> string): seq<Item> {
    NormalizeItems(Some(ToEntries(items)), ids)
  }

  /** The value stored for one client at start-up, after parsing: an object
      (with its title, "" when falsy, and its `items` when that is an array),
      an array, or anything else. */
  datatype StoredValue = StoredObject(title: string, items: Option<seq<Entry>>) | StoredArray(entries: seq<Entry>) | StoredOther

  /** The per-client migration of `loadInitial`. */
  function LoadEntry(value: StoredValue, ids: nat -> string): (r: Report)
    ensures value.StoredObject? ==> r.title == Take(if value.title == "" then "Report" else value.title, 60)
    ensures !value.StoredObject? ==> r.title == "Report"
    ensures |r.title| <= 60
    ensures value.StoredArray? ==> r.items == NormalizeItems(Some(value.entries), ids)
    ensures value.StoredObject? ==> r.items == NormalizeItems(value.items, ids)
    ensures value.StoredOther? ==> r.items == []
  {
    match value
    case StoredObject(title, items) => Report(Take(if title == "" then "Report" else title, 60), NormalizeItems(items, ids))
    case StoredArray(entries) => Report("Report", NormalizeItems(Some(entries), ids))
    case StoredOther => Report("Report", [])
  }

  /** The cells taken by a list of items (`occupy` for each of them). */
  function Occupancy(items: seq<Item>): (occupied: set<Cell>)
    ensures forall i :: 0 <= i < |items| ==> Cells(items[i].row, items[i].col, items[i].span) <= occupied
    ensures |RowsOf(occupied)| <= |items|
  {
    if items == [] then
      assert RowsOf({}) == {};
      {}
    else
      var last := items[|items| - 1];
      var before := Occupancy(items[..|items| - 1]);
      RowsOfOccupy(before, last.row, last.col, last.span);
      before + Cells(last.row, last.col, last.span)
  }

  /** The id `uid()` gives the new item of a mutation, and the streams the
      mutation's `normalizeItems` and `stabilizeLayout` draw from. */
  function NewId(ids: nat -> string): string { ids(0) }

  function NormalizeIds(ids: nat -> string): nat -> string { Shift(ids, 1) }

  function StabilizeIds(ids: nat -> string, n: nat): nat -> string { Shift(ids, 1 + 2 * n) }

  ghost predicate OthersUnchanged(m: Reports, r: Reports, clientId: string) {
    forall k :: k != clientId ==> (k in r <==> k in m) && (k in m ==> r[k] == m[k])
  }

  /** `ensureReport`. */
  function EnsureReport(m: Reports, clientId: string): (r: Reports)
    ensures OthersUnchanged(m, r, clientId)
    ensures clientId != "" ==> clientId in r && (clientId in m ==> r == m)
    ensures clientId != "" && clientId !in m ==> r[clientId] == Report("Report", [])
    ensures clientId == "" ==> r == m
  {
    if clientId == "" || clientId in m then m else m[clientId := Report("Report", [])]
  }

  /** `setReportTitle`: `String(title || 'Report')`, not truncated. */
  function SetReportTitle(m: Reports, clientId: string, title: string): (r: Reports)
    ensures OthersUnchanged(m, r, clientId)
    ensures clientId == "" ==> r == m
    ensures clientId != "" ==> clientId in r && r[clientId].items == Current(m, clientId).items
    ensures clientId != "" && title != "" ==> r[clientId].title == title
    ensures clientId != "" && title == "" ==> r[clientId].title == "Report"
  {
    if clientId == "" then m
    else m[clientId := Current(m, clientId).(title := if title == "" then "Report" else title)]
  }

  /** The item `addReportItem` appends. */
  function AppendedItem(items: seq<Item>, spec: Spec, span: Number, ids: nat -> string): Item {
    var nextSpan := NormalizeSpan(span);
    var pos := NextFit(Occupancy(items), 1, nextSpan, 1);
    Item(NewId(ids), spec, nextSpan, pos.0, pos.1)
  }

  /** `addReportItem`: the normalised list plus one item at the first slot
      the scan from row 1 finds; the list is not re-packed. */
  function AddReportItem(m: Reports, clientId: string, spec: Spec, span: Number, ids: nat -> string): (r: Reports)
    ensures OthersUnchanged(m, r, clientId)
    ensures clientId == "" || !spec.Truthy() ==> r == m
    ensures clientId != "" && spec.Truthy() ==>
      var current := Current(m, clientId);
      var items := Renormalize(current.items, NormalizeIds(ids));
      clientId in r && r[clientId].title == current.title &&
      r[clientId].items == items + [AppendedItem(items, spec, span, ids)]
  {
    if clientId == "" || !spec.Truthy() then m
    else
      var current := Current(m, clientId);
      var items := Renormalize(current.items, NormalizeIds(ids));
      m[clientId := current.(items := items + [AppendedItem(items, spec, span, ids)])]
  }

  /** `Math.max(1, Math.round(Number(row) || 1))`: an integer of at least 1, or
      `Infinity`. */
  function RequestedRow(row: Number): (r: Number)
    ensures r == PosInf || (r.Finite? && IsInt(r.x) && r.x >= 1.0)
    ensures r == MathMax(Int(1), Round(Or(row, Int(1))))
    ensures r == PosInf <==> row == PosInf
  {
    match Or(row, Int(1))
    case PosInf => PosInf
    case NegInf => Int(1)
    case Finite(x) => Int(Max(1, RoundReal(x)))
    case NaN => Int(1)
  }

  /** `clamp(Math.round(Number(col) || 1), 1, Math.max(1, COLS - span + 1))`. */
  function RequestedCol(col: Number, span: int): (c: int)
    ensures 1 <= c <= MaxColFor(span)
    ensures Int(c) == MathMax(Int(1), MathMin(Int(MaxColFor(span)), Round(Or(col, Int(1)))))
  {
    ClampToInt(Round(Or(col, Int(1))), 1, MaxColFor(span))
  }

  /** The object `addReportItemAt` appends: the fresh id, the spec, the
      normalised span and the requested slot. */
  function AddedAt(spec: Spec, span: Number, row: Number, col: Number, ids: nat -> string): Obj {
    var nextSpan := NormalizeSpan(span);
    Obj(NewId(ids), spec, Int(nextSpan), RequestedRow(row), Int(RequestedCol(col, nextSpan)), "")
  }

  /** The list `addReportItemAt` stores: the normalised items and the new one,
      re-packed with the new item locked. */
  function InsertedAt(items: seq<Item>, spec: Spec, span: Number, row: Number, col: Number, ids: nat -> string): seq<Item> {
    Stabilize(ToObjs(items) + [AddedAt(spec, span, row, col, ids)], NewId(ids), StabilizeIds(ids, |items|))
  }

  /** `addReportItemAt`. */
  function AddReportItemAt(m: Reports, clientId: string, spec: Spec, span: Number, row: Number, col: Number, ids: nat -> string): (r: Reports)
    ensures OthersUnchanged(m, r, clientId)
    ensures clientId == "" || !spec.Truthy() ==> r == m
    ensures clientId != "" && spec.Truthy() ==>
      var current := Current(m, clientId);
      clientId in r && r[clientId].title == current.title &&
      r[clientId].items == InsertedAt(Renormalize(current.items, NormalizeIds(ids)), spec, span, row, col, ids)
  {
    if clientId == "" || !spec.Truthy() then m
    else
      var current := Current(m, clientId);
      var items := Renormalize(current.items, NormalizeIds(ids));
      m[clientId := current.(items := InsertedAt(items, spec, span, row, col, ids))]
  }

  /** `filter((it) => it.id !== id)` on normalised items. */
  function RemoveId(items: seq<Item>, id: string): (r: seq<Item>)
    ensures |r| <= |items|
    ensures forall x :: x in r <==> x in items && x.id != id
  {
    if items == [] then []
    else if items[0].id == id then RemoveId(items[1..], id)
    else [items[0]] + RemoveId(items[1..], id)
  }

  /** `removeReportItem`. */
  function RemoveReportItem(m: Reports, clientId: string, id: string, ids: nat -> string): (r: Reports)
    ensures OthersUnchanged(m, r, clientId)
    ensures clientId == "" || id == "" ==> r == m
    ensures clientId != "" && id != "" ==>
      var current := Current(m, clientId);
      clientId in r && r[clientId].title == current.title &&
      r[clientId].items == RemoveId(Renormalize(current.items, NormalizeIds(ids)), id)
  {
    if clientId == "" || id == "" then m
    else
      var current := Current(m, clientId);
      m[clientId := current.(items := RemoveId(Renormalize(current.items, NormalizeIds(ids)), id))]
  }

  /** `next.splice(from, 1)` followed by `next.splice(to, 0, moved)`. */
  function Move(items: seq<Item>, from: nat, to: nat): (r: seq<Item>)
    requires from < |items| && to < |items|
    ensures |r| == |items|
    ensures r[to] == items[from]
    ensures multiset(r) == multiset(items)
  {
    var without := items[..from] + items[from + 1..];
    assert items == items[..from] + [items[from]] + items[from + 1..];
    assert multiset(items) == multiset(without) + multiset{items[from]};
    assert without == without[..to] + without[to..];
    without[..to] + [items[from]] + without[to..]
  }

  /** The reordered list: `None` when either id is missing (`findIndex`
      gives -1), otherwise the moved list. */
  function Reordered(items: seq<Item>, fromId: string, toId: string): (r: Option<seq<Item>>)
    ensures r.Some? <==> IndexOf(items, fromId).Some? && IndexOf(items, toId).Some?
    ensures r.Some? ==> (|r.value| == |items| && multiset(r.value) == multiset(items) &&
      r.value[IndexOf(items, toId).value] == items[IndexOf(items, fromId).value])
  {
    match (IndexOf(items, fromId), IndexOf(items, toId))
    case (Some(f), Some(t)) => Some(Move(items, f, t))
    case _ => None
  }

  /** `reorderReportItems`. */
  function ReorderReportItems(m: Reports, clientId: string, fromId: string, toId: string, ids: nat -> string): (r: Reports)
    ensures OthersUnchanged(m, r, clientId)
    ensures clientId == "" || fromId == "" || toId == "" || fromId == toId ==> r == m
    ensures !(clientId == "" || fromId == "" || toId == "" || fromId == toId) ==>
      var current := Current(m, clientId);
      var next := Reordered(Renormalize(current.items, NormalizeIds(ids)), fromId, toId);
      (next.None? ==> r == m) &&
      (next.Some? ==> clientId in r && r[clientId] == current.(items := next.value))
  {
    if clientId == "" || fromId == "" || toId == "" || fromId == toId then m
    else
      var current := Current(m, clientId);
      match Reordered(Renormalize(current.items, NormalizeIds(ids)), fromId, toId)
      case Some(next) => m[clientId := current.(items := next)]
      case None => m
  }

  /** The `map` of `setReportItemSpan`: every item with the id gets the new span. */
  function WithSpan(items: seq<Item>, id: string, span: int): (r: seq<Item>)
    ensures |r| == |items|
    ensures forall i :: 0 <= i < |items| ==> r[i] == if items[i].id == id then items[i].(span := span) else items[i]
  {
    seq(|items|, i requires 0 <= i < |items| => if items[i].id == id then items[i].(span := span) else items[i])
  }

  /** The list `setReportItemSpan` stores: the span changed and the list
      re-packed with the item locked. */
  function Respanned(items: seq<Item>, id: string, span: Number, ids: nat -> string): seq<Item> {
    Stabilize(ToObjs(WithSpan(items, id, NormalizeSpan(span))), id, StabilizeIds(ids, |items|))
  }

  /** `setReportItemSpan`. */
  function SetReportItemSpan(m: Reports, clientId: string, id: string, span: Number, ids: nat -> string): (r: Reports)
    ensures OthersUnchanged(m, r, clientId)
    ensures clientId == "" || id == "" ==> r == m
    ensures clientId != "" && id != "" ==>
      var current := Current(m, clientId);
      clientId in r && r[clientId].title == current.title &&
      r[clientId].items == Respanned(Renormalize(current.items, NormalizeIds(ids)), id, span, ids)
  {
    if clientId == "" || id == "" then m
    else
      var current := Current(m, clientId);
      m[clientId := current.(items := Respanned(Renormalize(current.items, NormalizeIds(ids)), id, span, ids))]
  }

  /** The `map` of `setReportItemSpec`. */
  function WithSpec(items: seq<Item>, id: string, spec: Spec): (r: seq<Item>)
    ensures |r| == |items|
    ensures forall i :: 0 <= i < |items| ==> r[i] == if items[i].id == id then items[i].(spec := spec) else items[i]
  {
    seq(|items|, i requires 0 <= i < |items| => if items[i].id == id then items[i].(spec := spec) else items[i])
  }

  /** `setReportItemSpec`: any spec, even a falsy one, replaces the old one. */
  function SetReportItemSpec(m: Reports, clientId: string, id: string, spec: Spec, ids: nat -> string): (r: Reports)
    ensures OthersUnchanged(m, r, clientId)
    ensures clientId == "" || id == "" ==> r == m
    ensures clientId != "" && id != "" ==>
      var current := Current(m, clientId);
      clientId in r && r[clientId].title == current.title &&
      r[clientId].items == WithSpec(Renormalize(current.items, NormalizeIds(ids)), id, spec)
  {
    if clientId == "" || id == "" then m
    else
      var current := Current(m, clientId);
      m[clientId := current.(items := WithSpec(Renormalize(current.items, NormalizeIds(ids)), id, spec))]
  }

  /** The list `placeReportItem` hands to `stabilizeLayout`: the item at `idx`
      moved to the requested slot. */
  function PlacedAt(items: seq<Item>, idx: nat, row: Number, col: Number): (objs: seq<Obj>)
    requires idx < |items|
    ensures |objs| == |items|
  {
    var locked := items[idx];
    var nextSpan := NormalizeSpan(Int(locked.span));
    ToObjs(items)[idx := Obj(locked.id, locked.spec, Int(nextSpan), RequestedRow(row), Int(RequestedCol(col, nextSpan)), "")]
  }

  /** The list `placeReportItem` stores for the item at `idx`: re-packed with
      that item locked at the requested slot. */
  function Replaced(items: seq<Item>, idx: nat, row: Number, col: Number, ids: nat -> string): seq<Item>
    requires idx < |items|
  {
    Stabilize(PlacedAt(items, idx, row, col), items[idx].id, StabilizeIds(ids, |items|))
  }

  /** `placeReportItem`: an unknown id changes nothing. */
  function PlaceReportItem(m: Reports, clientId: string, id: string, row: Number, col: Number, ids: nat -> string): (r: Reports)
    ensures OthersUnchanged(m, r, clientId)
    ensures clientId == "" || id == "" ==> r == m
    ensures clientId != "" && id != "" ==>
      var current := Current(m, clientId);
      var items := Renormalize(current.items, NormalizeIds(ids));
      match IndexOf(items, id)
      case None => r == m
      case Some(idx) => (clientId in r && r[clientId].title == current.title &&
        r[clientId].items == Replaced(items, idx, row, col, ids))
  {
    if clientId == "" || id == "" then m
    else
      var current := Current(m, clientId);
      var items := Renormalize(current.items, NormalizeIds(ids));
      match IndexOf(items, id)
      case None => m
      case Some(idx) => m[clientId := current.(items := Replaced(items, idx, row, col, ids))]
  }

  /** What the client hands to `hydrateReportLayout`: its title ("" when
      falsy or when there is no meta) and its items (`None` when not an array). */
  datatype Meta = Meta(title: string, items: Option<seq<Entry>>)

  /** The store update of `hydrateReportLayout`: the title cut to 60 characters. */
  function HydrateReport(m: Reports, clientId: string, meta: Meta, ids: nat -> string): (r: Reports)
    ensures OthersUnchanged(m, r, clientId)
    ensures clientId == "" ==> r == m
    ensures clientId != "" ==> (clientId in r &&
      r[clientId].title == Take(if meta.title == "" then "Report" else meta.title, 60) &&
      r[clientId].items == NormalizeItems(meta.items, ids))
  {
    if clientId == "" then m
    else m[clientId := Report(Take(if meta.title == "" then "Report" else meta.title, 60), NormalizeItems(meta.items, ids))]
  }
}
