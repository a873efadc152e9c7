/**
 * `stabilizeLayout` of src/lib/stores/reportLayouts.js: the greedy packer
 * that places an optional locked item first, then every other item in list
 * order, and finally restores the original order.
 */
module LayoutStabilize {
  import opened Wrappers
  import opened JsNumber
  import opened LayoutItems
  import opened LayoutGrid

  /** What the normalisers produce (span, row and col in their ranges). */
  predicate Normalized(it: Item) {
    1 <= it.span <= COLS && it.row >= 0 && 0 <= it.col <= MaxColFor(it.span)
  }

  /** A placed item: a valid span, a row of at least 1 and a column at which
      the card lies inside the grid. */
  predicate Valid(it: Item) {
    1 <= it.span <= COLS && it.row >= 1 && 1 <= it.col <= COLS - it.span + 1
  }

  /** Two cards share a cell. */
  predicate Overlap(a: Item, b: Item) {
    a.row == b.row && a.col < b.col + b.span && b.col < a.col + a.span
  }

  /** No two cards of the list share a cell. */
  predicate Disjoint(items: seq<Item>) {
    forall i, j :: 0 <= i < j < |items| ==> !Overlap(items[i], items[j])
  }

  predicate UniqueIds(items: seq<Item>) {
    forall i, j :: 0 <= i < j < |items| ==> items[i].id != items[j].id
  }

  /** One element of the `normalized` list: `String(it.id || uid())`, the spec,
      and normalised span, row and col. `uid` is the id `uid()` would return. */
  function NormalizeObj(o: Obj, newId: string): (it: Item)
    ensures Normalized(it)
    ensures it.id == if o.id != "" then o.id else newId
    ensures it.spec == o.spec
  {
    var span := NormalizeSpan(o.span);
    Item(if o.id != "" then o.id else newId, o.spec, span, NormalizeRow(o.row), NormalizeCol(o.col, Int(span)))
  }

  /** The `normalized` list; the i-th element draws `uid(i)` if it needs an id. */
  function NormalizeAll(objs: seq<Obj>, uid: nat -> string): (items: seq<Item>)
    ensures |items| == |objs|
    ensures forall i :: 0 <= i < |objs| ==> items[i] == NormalizeObj(objs[i], uid(i))
  {
    seq(|objs|, i requires 0 <= i < |objs| => NormalizeObj(objs[i], uid(i)))
  }

  /** `findIndex` by id: the first position holding `id`. */
  function IndexOf(items: seq<Item>, id: string): (r: Option<nat>)
    ensures r.Some? ==> r.value < |items| && items[r.value].id == id
    ensures r.Some? ==> forall j :: 0 <= j < r.value ==> items[j].id != id
    ensures r.None? ==> forall j :: 0 <= j < |items| ==> items[j].id != id
  {
    if items == [] then None
    else if items[0].id == id then Some(0)
    else match IndexOf(items[1..], id)
      case Some(k) => Some(k + 1)
      case None => None
  }

  /** `filter((it) => it.id !== id)`. */
  function WithoutId(items: seq<Item>, id: string): (r: seq<Item>)
    ensures |r| <= |items|
    ensures |r| == |items| ==> forall j :: 0 <= j < |items| ==> items[j].id != id
    ensures forall x :: x in r <==> x in items && x.id != id
  {
    if items == [] then []
    else if items[0].id == id then WithoutId(items[1..], id)
    else [items[0]] + WithoutId(items[1..], id)
  }

  /** Filtering keeps ids distinct. */
  lemma {:induction false} WithoutIdUnique(items: seq<Item>, id: string)
    requires UniqueIds(items)
    ensures UniqueIds(WithoutId(items, id))
    decreases |items|
  {
    if items != [] {
      var tail := items[1..];
      UniqueTail(items);
      WithoutIdUnique(tail, id);
      var rest := WithoutId(tail, id);
      if items[0].id != id {
        forall j | 0 <= j < |rest|
          ensures rest[j].id != items[0].id
        {
          assert rest[j] in tail;
          var k :| 0 <= k < |tail| && tail[k] == rest[j];
          assert items[k + 1] == rest[j];
        }
        UniqueCons(items[0], rest);
      }
    }
  }

  /** Dropping the first item keeps the ids distinct. */
  lemma UniqueTail(items: seq<Item>)
    requires items != [] && UniqueIds(items)
    ensures UniqueIds(items[1..])
  {
    var tail := items[1..];
    forall i, j | 0 <= i < j < |tail|
      ensures tail[i].id != tail[j].id
    {
      assert tail[i] == items[i + 1] && tail[j] == items[j + 1];
    }
  }

  /** An item whose id no item of `rest` has, in front of distinct items. */
  lemma UniqueCons(x: Item, rest: seq<Item>)
    requires UniqueIds(rest) && forall j :: 0 <= j < |rest| ==> rest[j].id != x.id
    ensures UniqueIds([x] + rest)
  {
    var r := [x] + rest;
    forall i, j | 0 <= i < j < |r|
      ensures r[i].id != r[j].id
    {
      if i > 0 {
        assert r[i] == rest[i - 1];
      }
      assert r[j] == rest[j - 1];
    }
  }

  /** The order of placement: the locked item (the first with `lockedId`) and
      then every item whose id differs from it. */
  function Ordered(normalized: seq<Item>, locked: Option<nat>, lockedId: string): (ordered: seq<Item>)
    requires locked.Some? ==> locked.value < |normalized| && normalized[locked.value].id == lockedId
    ensures |ordered| <= |normalized|
    ensures forall x :: x in ordered ==> x in normalized
  {
    if locked.Some? then [normalized[locked.value]] + WithoutId(normalized, lockedId) else normalized
  }

  /** Where the loop body of `stabilizeLayout` puts one normalised item, given
      the cells already taken: items without a location are packed from row 1,
      then an item that does not fit is pushed down from where it is. */
  function Place(occupied: set<Cell>, it: Item): (cell: Cell)
    ensures Normalized(it) ==> Valid(it.(row := cell.0, col := cell.1))
    ensures it.row != 0 && it.col != 0 && Fits(occupied, it.row, it.col, it.span) ==> cell == (it.row, it.col)
  {
    var first := if it.row == 0 || it.col == 0 then NextFit(occupied, 1, it.span, 1) else (it.row, it.col);
    if Fits(occupied, first.0, first.1, it.span) then first
    else NextFit(occupied, first.0, it.span, first.1)
  }

  /** The loop of `stabilizeLayout`: every item placed in turn against the
      cells of the items before it. */
  function PlaceAll(occupied: set<Cell>, items: seq<Item>): (placed: seq<Item>)
    ensures |placed| == |items|
    ensures forall i :: 0 <= i < |items| ==> placed[i] == items[i].(row := placed[i].row, col := placed[i].col)
    ensures forall i :: 0 <= i < |items| && Normalized(items[i]) ==> Valid(placed[i])
    decreases |items|
  {
    if items == [] then []
    else
      var cell := Place(occupied, items[0]);
      var p := items[0].(row := cell.0, col := cell.1);
      [p] + PlaceAll(occupied + Cells(p.row, p.col, p.span), items[1..])
  }

  /** One step of the placement loop. */
  lemma PlaceAllStep(placed: seq<Item>, occupied: set<Cell>, items: seq<Item>, i: nat)
    requires i < |items|
    ensures var cell := Place(occupied, items[i]);
      placed + PlaceAll(occupied, items[i..]) ==
      (placed + [items[i].(row := cell.0, col := cell.1)]) + PlaceAll(occupied + Cells(cell.0, cell.1, items[i].span), items[i + 1..])
  {
    assert items[i..][1..] == items[i + 1..];
  }

  /** What `map.get(id)` returns for `new Map(placed.map(it => [it.id, it]))`:
      the position of the last item with that id. */
  function LastIndexOf(placed: seq<Item>, id: string): (r: Option<nat>)
    ensures r.Some? ==> r.value < |placed| && placed[r.value].id == id
    ensures r.Some? ==> forall j :: r.value < j < |placed| ==> placed[j].id != id
    ensures r.None? <==> forall j :: 0 <= j < |placed| ==> placed[j].id != id
  {
    if placed == [] then None
    else if placed[|placed| - 1].id == id then Some(|placed| - 1)
    else LastIndexOf(placed[..|placed| - 1], id)
  }

  /** `normalized.map((it) => map.get(it.id) || it)`. */
  function Restore(normalized: seq<Item>, placed: seq<Item>): (r: seq<Item>)
    ensures |r| == |normalized|
  {
    seq(|normalized|, i requires 0 <= i < |normalized| =>
      match LastIndexOf(placed, normalized[i].id)
      case Some(j) => placed[j]
      case None => normalized[i])
  }

  /** The locked item: the first with `lockedId`, when `lockedId` is given
      ("" stands for `null`). */
  function LockedIndex(normalized: seq<Item>, lockedId: string): (r: Option<nat>)
    ensures r.Some? ==> r.value < |normalized| && normalized[r.value].id == lockedId
  {
    if lockedId != "" then IndexOf(normalized, lockedId) else None
  }

  /** `stabilizeLayout(items, lockedId)`; `uid(i)` is the id `uid()` would
      give the i-th item. */
  function Stabilize(objs: seq<Obj>, lockedId: string, uid: nat -> string): (r: seq<Item>)
    ensures |r| == |objs|
  {
    var normalized := NormalizeAll(objs, uid);
    var locked := LockedIndex(normalized, lockedId);
    var placed := PlaceAll({}, Ordered(normalized, locked, lockedId));
    if locked.None? then placed else Restore(normalized, placed)
  }

  /** The body of the loop of `stabilizeLayout` for one item, which re-applies
      the normalisers before placing it. */
  method PlaceItem(occupied: set<Cell>, it: Item) returns (span: int, row: int, col: int)
    requires Normalized(it)
    ensures span == it.span && (row, col) == Place(occupied, it)
  {
    NormalizeFixpoints(it.span, it.row, it.col);
    span := NormalizeSpan(Int(it.span));
    row := NormalizeRow(Int(it.row));
    col := NormalizeCol(Int(it.col), Int(span));
    if row == 0 || col == 0 {
      row, col := FindNextFit(occupied, 1, span, 1);
    }
    var fits := CanFit(occupied, row, col, span);
    if !fits {
      row, col := FindNextFit(occupied, row, span, col);
    }
  }

  /** The items to place are normalised. */
  lemma OrderedNormalized(normalized: seq<Item>, locked: Option<nat>, lockedId: string)
    requires locked.Some? ==> locked.value < |normalized| && normalized[locked.value].id == lockedId
    requires forall i :: 0 <= i < |normalized| ==> Normalized(normalized[i])
    ensures forall i :: 0 <= i < |Ordered(normalized, locked, lockedId)| ==> Normalized(Ordered(normalized, locked, lockedId)[i])
  {
    var ordered := Ordered(normalized, locked, lockedId);
    forall i | 0 <= i < |ordered|
      ensures Normalized(ordered[i])
    {
      assert ordered[i] in normalized;
    }
  }

  /** `stabilizeLayout`, with its loop over an occupancy set. */
  method StabilizeLayout(objs: seq<Obj>, lockedId: string, uid: nat -> string) returns (result: seq<Item>)
    ensures result == Stabilize(objs, lockedId, uid)
  {
    var normalized := NormalizeAll(objs, uid);
    var locked := LockedIndex(normalized, lockedId);
    var ordered := Ordered(normalized, locked, lockedId);
    OrderedNormalized(normalized, locked, lockedId);
    var occupied: set<Cell> := {};
    var placed: seq<Item> := [];
    var i := 0;
    while i < |ordered|
      invariant 0 <= i <= |ordered|
      invariant placed + PlaceAll(occupied, ordered[i..]) == PlaceAll({}, ordered)
    {
      var it := ordered[i];
      var span, row, col := PlaceItem(occupied, it);
      PlaceAllStep(placed, occupied, ordered, i);
      assert it.(span := span, row := row, col := col) == it.(row := row, col := col);
      occupied := Occupy(occupied, row, col, span);
      placed := placed + [it.(span := span, row := row, col := col)];
      i := i + 1;
    }
    assert ordered[i..] == [];
    assert PlaceAll(occupied, ordered[i..]) == [];
    assert placed == PlaceAll({}, ordered);
    if locked.None? {
      return placed;
    }
    result := Restore(normalized, placed);
  }
}
