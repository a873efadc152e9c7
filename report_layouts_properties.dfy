/**
 * Properties of the migration and of the exported mutations of
 * src/lib/stores/reportLayouts.js.
 */
module ReportLayoutsProperties {
  import opened Wrappers
  import opened JsNumber
  import opened LayoutItems
  import opened LayoutGrid
  import opened LayoutStabilize
  import opened LayoutProperties
  import opened ReportLayouts

  /** A migrated object carries normalised geometry. */
  lemma MigrateNormalized(o: Obj, newId: string)
    ensures var m := Migrate(o, newId);
      m.row.Finite? && m.col.Finite? && IsInt(m.row.x) && IsInt(m.col.x) &&
      Normalized(Item(m.id, m.spec, NormalizeSpan(o.span), m.row.x.Floor, m.col.x.Floor))
  {
  }

  /** Normalising a migrated object changes nothing but a missing id. */
  lemma NormalizeMigrated(o: Obj, newId: string, laterId: string)
    ensures var m := Migrate(o, newId);
      var it := NormalizeObj(m, laterId);
      it.span == NormalizeSpan(o.span) && it.spec == m.spec &&
      (m.id != "" ==> it.id == m.id)
  {
    var span := NormalizeSpan(o.span);
    NormalizeFixpoints(span, 0, 0);
  }

  /** `normalizeItems` on an array: one item per object entry, in order; a
      current item (truthy id and spec) keeps both, a legacy object gets the
      k-th fresh id and its spec or itself as spec; every span is the
      normalised stored span and every item is placed validly. */
  lemma NormalizeItemsShape(entries: seq<Entry>, ids: nat -> string)
    requires forall i: nat :: ids(i) != ""
    ensures var objs := ObjectsOf(entries);
      var items := NormalizeItems(Some(entries), ids);
      |items| == |objs| &&
      forall k :: 0 <= k < |objs| ==>
        Valid(items[k]) &&
        items[k].span == NormalizeSpan(objs[k].span) &&
        (objs[k].id != "" && objs[k].spec.Truthy() ==> items[k].id == objs[k].id && items[k].spec == objs[k].spec) &&
        (!(objs[k].id != "" && objs[k].spec.Truthy()) ==>
          items[k].id == ids(k) && items[k].spec == (if objs[k].spec.Truthy() then objs[k].spec else Whole(objs[k])))
  {
    var objs := ObjectsOf(entries);
    var migrated := MigrateAll(objs, ids);
    var later := Shift(ids, |objs|);
    var normalized := NormalizeAll(migrated, later);
    assert LockedIndex(normalized, "") == None;
    var items := NormalizeItems(Some(entries), ids);
    assert items == PlaceAll({}, normalized);
    StabilizeValid(migrated, "", later);
    forall k | 0 <= k < |objs|
      ensures items[k].span == NormalizeSpan(objs[k].span)
      ensures items[k].id == migrated[k].id && items[k].spec == migrated[k].spec
    {
      NormalizeMigrated(objs[k], ids(k), later(k));
    }
  }

  lemma ObjectsOfEntries(items: seq<Item>)
    ensures ObjectsOf(ToEntries(items)) == ToObjs(items)
  {
    if items != [] {
      assert ToEntries(items)[1..] == ToEntries(items[1..]);
      ObjectsOfEntries(items[1..]);
      assert ToObjs(items) == [ToObj(items[0])] + ToObjs(items[1..]);
    }
  }

  /** Re-running `normalizeItems` on a stable layout whose specs are all
      truthy gives it back: the mutations then start from the stored items. */
  lemma RenormalizeStable(items: seq<Item>, ids: nat -> string)
    requires Stable(items)
    requires forall i :: 0 <= i < |items| ==> items[i].spec.Truthy()
    ensures Renormalize(items, ids) == items
  {
    ObjectsOfEntries(items);
    var objs := ToObjs(items);
    var migrated := MigrateAll(objs, ids);
    forall k | 0 <= k < |objs|
      ensures migrated[k] == objs[k]
    {
      NormalizeFixpoints(items[k].span, items[k].row, items[k].col);
    }
    assert migrated == objs;
    StableFixpoint(items, "", Shift(ids, |objs|));
  }

  /** An item whose spec was set to a falsy value is taken for a legacy item by
      the next `normalizeItems`: it gets a fresh id and itself as its spec. */
  lemma RenormalizeFalsySpec(items: seq<Item>, ids: nat -> string, k: nat)
    requires forall i: nat :: ids(i) != ""
    requires k < |items| && !items[k].spec.Truthy()
    ensures |Renormalize(items, ids)| == |items|
    ensures Renormalize(items, ids)[k].id == ids(k)
    ensures Renormalize(items, ids)[k].spec == Whole(ToObj(items[k]))
  {
    ObjectsOfEntries(items);
    NormalizeItemsShape(ToEntries(items), ids);
  }

  /** The items `normalizeItems` gives back for stored items are all placed
      and all have an id. */
  lemma RenormalizeShape(stored: seq<Item>, ids: nat -> string)
    requires forall i: nat :: ids(i) != ""
    ensures |Renormalize(stored, ids)| == |stored|
    ensures forall k :: 0 <= k < |stored| ==> Valid(Renormalize(stored, ids)[k]) && Renormalize(stored, ids)[k].id != ""
  {
    ObjectsOfEntries(stored);
    NormalizeItemsShape(ToEntries(stored), ids);
  }

  /** The item `addReportItem` appends to placed items shares no cell with
      any of them, provided fewer than 499 items are there. */
  lemma AppendedItemFits(items: seq<Item>, spec: Spec, span: Number, ids: nat -> string)
    requires forall i :: 0 <= i < |items| ==> Valid(items[i])
    requires |items| + 1 < ROW_LIMIT
    ensures var added := AppendedItem(items, spec, span, ids);
      added.id == NewId(ids) && added.spec == spec && added.span == NormalizeSpan(span) &&
      Valid(added) && forall i :: 0 <= i < |items| ==> !Overlap(items[i], added)
  {
    var occupied := Occupancy(items);
    var added := AppendedItem(items, spec, span, ids);
    NextFitFits(occupied, 1, added.span, 1, |items|);
    forall i | 0 <= i < |items|
      ensures !Overlap(items[i], added)
    {
      assert occupied + Cells(items[i].row, items[i].col, items[i].span) == occupied;
      FitsBesideNoOverlap(occupied, items[i], added);
    }
  }

  /** `addReportItem` appends exactly one card, with the fresh id, and it
      overlaps none of the normalised cards before it. */
  lemma AddReportItemFits(m: Reports, clientId: string, spec: Spec, span: Number, ids: nat -> string)
    requires clientId != "" && spec.Truthy()
    requires forall i: nat :: ids(i) != ""
    requires |Current(m, clientId).items| + 1 < ROW_LIMIT
    ensures var items := Renormalize(Current(m, clientId).items, NormalizeIds(ids));
      var r := AddReportItem(m, clientId, spec, span, ids);
      |r[clientId].items| == |items| + 1 && r[clientId].items[..|items|] == items &&
      var added := r[clientId].items[|items|];
      added.id == NewId(ids) && added.spec == spec && added.span == NormalizeSpan(span) &&
      Valid(added) && forall i :: 0 <= i < |items| ==> !Overlap(items[i], added)
  {
    var items := Renormalize(Current(m, clientId).items, NormalizeIds(ids));
    RenormalizeShape(Current(m, clientId).items, NormalizeIds(ids));
    AppendedItemFits(items, spec, span, ids);
    var r := AddReportItem(m, clientId, spec, span, ids);
    assert r[clientId].items == items + [AppendedItem(items, spec, span, ids)];
  }

  /** One placed item with an id is left as it is by the normalisers. */
  lemma NormalizeStoredAll(items: seq<Item>, extra: seq<Obj>, uid: nat -> string)
    requires forall j :: 0 <= j < |items| ==> Valid(items[j]) && items[j].id != ""
    ensures forall j :: 0 <= j < |items| ==> NormalizeAll(ToObjs(items) + extra, uid)[j] == items[j]
  {
    forall j | 0 <= j < |items|
      ensures NormalizeAll(ToObjs(items) + extra, uid)[j] == items[j]
    {
      assert (ToObjs(items) + extra)[j] == ToObj(items[j]);
      NormalizeStoredItem(items[j], uid(j));
    }
  }

  /** The first index holding an id is what `findIndex` returns. */
  lemma IndexOfFirst(items: seq<Item>, id: string, k: nat)
    requires k < |items| && items[k].id == id
    requires forall j :: 0 <= j < k ==> items[j].id != id
    ensures IndexOf(items, id) == Some(k)
  {
    var r := IndexOf(items, id);
    assert r.Some? ==> r.value <= k;
    assert r.Some? ==> r.value >= k;
  }

  /** The list `addReportItemAt` stores holds the new card last, exactly at
      the requested slot, when no placed item already has the new id and the
      row is not `Infinity`; every card keeps its id and is placed. */
  lemma InsertedAtLands(items: seq<Item>, spec: Spec, span: Number, row: Number, col: Number, ids: nat -> string)
    requires forall j :: 0 <= j < |items| ==> Valid(items[j]) && items[j].id != "" && items[j].id != NewId(ids)
    requires NewId(ids) != "" && row != PosInf
    ensures |InsertedAt(items, spec, span, row, col, ids)| == |items| + 1
    ensures forall j :: 0 <= j < |items| ==> InsertedAt(items, spec, span, row, col, ids)[j].id == items[j].id
    ensures forall j :: 0 <= j <= |items| ==> Valid(InsertedAt(items, spec, span, row, col, ids)[j])
    ensures InsertedAt(items, spec, span, row, col, ids)[|items|] ==
      Item(NewId(ids), spec, NormalizeSpan(span), RequestedRow(row).x.Floor, RequestedCol(col, NormalizeSpan(span)))
  {
    InsertedShape(items, spec, span, row, col, ids);
    InsertedLocked(items, spec, span, row, col, ids);
  }

  /** The ids and validity half of `InsertedAtLands`. */
  lemma InsertedShape(items: seq<Item>, spec: Spec, span: Number, row: Number, col: Number, ids: nat -> string)
    requires forall j :: 0 <= j < |items| ==> items[j].id != ""
    requires NewId(ids) != ""
    ensures |InsertedAt(items, spec, span, row, col, ids)| == |items| + 1
    ensures forall j :: 0 <= j < |items| ==> InsertedAt(items, spec, span, row, col, ids)[j].id == items[j].id
    ensures forall j :: 0 <= j <= |items| ==> Valid(InsertedAt(items, spec, span, row, col, ids)[j])
  {
    StabilizeAppended(items, AddedAt(spec, span, row, col, ids), NewId(ids), StabilizeIds(ids, |items|));
  }

  /** Re-packing the stored items with one more object appended keeps every
      id in place and places every card. */
  lemma StabilizeAppended(items: seq<Item>, added: Obj, lockedId: string, uid: nat -> string)
    requires forall j :: 0 <= j < |items| ==> items[j].id != ""
    requires added.id != ""
    ensures |Stabilize(ToObjs(items) + [added], lockedId, uid)| == |items| + 1
    ensures forall j :: 0 <= j < |items| ==> Stabilize(ToObjs(items) + [added], lockedId, uid)[j].id == items[j].id
    ensures forall j :: 0 <= j <= |items| ==> Valid(Stabilize(ToObjs(items) + [added], lockedId, uid)[j])
  {
    var next := ToObjs(items) + [added];
    forall j | 0 <= j < |items|
      ensures next[j].id == items[j].id
    {
      assert next[j] == ToObjs(items)[j];
    }
    assert next[|items|] == added;
    StabilizePlacesAll(next, lockedId, uid);
  }

  /** The new-card half of `InsertedAtLands`. */
  lemma InsertedLocked(items: seq<Item>, spec: Spec, span: Number, row: Number, col: Number, ids: nat -> string)
    requires forall j :: 0 <= j < |items| ==> Valid(items[j]) && items[j].id != "" && items[j].id != NewId(ids)
    requires NewId(ids) != "" && row != PosInf
    ensures InsertedAt(items, spec, span, row, col, ids)[|items|] ==
      Item(NewId(ids), spec, NormalizeSpan(span), RequestedRow(row).x.Floor, RequestedCol(col, NormalizeSpan(span)))
  {
    var n := |items|;
    var nextSpan := NormalizeSpan(span);
    var added := AddedAt(spec, span, row, col, ids);
    var next := ToObjs(items) + [added];
    var sids := StabilizeIds(ids, n);
    var normalized := NormalizeAll(next, sids);
    NormalizeStoredAll(items, [added], sids);
    NormalizeFixpoints(nextSpan, RequestedRow(row).x.Floor, RequestedCol(col, nextSpan));
    assert next[n] == added;
    assert normalized[n] == Item(NewId(ids), spec, nextSpan, RequestedRow(row).x.Floor, RequestedCol(col, nextSpan));
    IndexOfFirst(normalized, NewId(ids), n);
    StabilizeKeepsLocked(next, NewId(ids), sids, n);
  }

  /** `addReportItemAt` on a report none of whose cards has the fresh id
      leaves the new card at `max(1, round(row))` and the clamped column. */
  lemma AddReportItemAtLands(m: Reports, clientId: string, spec: Spec, span: Number, row: Number, col: Number, ids: nat -> string)
    requires clientId != "" && spec.Truthy() && row != PosInf
    requires forall i: nat :: ids(i) != ""
    requires forall j :: 0 <= j < |Renormalize(Current(m, clientId).items, NormalizeIds(ids))| ==>
      Renormalize(Current(m, clientId).items, NormalizeIds(ids))[j].id != NewId(ids)
    ensures var n := |Current(m, clientId).items|;
      var r := AddReportItemAt(m, clientId, spec, span, row, col, ids);
      |r[clientId].items| == n + 1 &&
      r[clientId].items[n] == Item(NewId(ids), spec, NormalizeSpan(span), RequestedRow(row).x.Floor,
                                   RequestedCol(col, NormalizeSpan(span)))
  {
    RenormalizeShape(Current(m, clientId).items, NormalizeIds(ids));
    InsertedAtLands(Renormalize(Current(m, clientId).items, NormalizeIds(ids)), spec, span, row, col, ids);
  }

  /** Lists with the same ids position by position find an id at the same index. */
  lemma IndexOfSameIds(a: seq<Item>, b: seq<Item>, id: string)
    requires |a| == |b| && forall j :: 0 <= j < |a| ==> a[j].id == b[j].id
    ensures IndexOf(a, id) == IndexOf(b, id)
  {
    if a != [] && a[0].id != id {
      IndexOfSameIds(a[1..], b[1..], id);
    }
  }

  /** Normalising the list `placeReportItem` hands to `stabilizeLayout`
      gives the placed items with the chosen one moved to the requested slot. */
  lemma PlacedAtNormalized(items: seq<Item>, idx: nat, row: Number, col: Number, uid: nat -> string)
    requires forall j :: 0 <= j < |items| ==> Valid(items[j]) && items[j].id != ""
    requires idx < |items| && row != PosInf
    ensures NormalizeAll(PlacedAt(items, idx, row, col), uid) ==
      items[idx := items[idx].(row := RequestedRow(row).x.Floor, col := RequestedCol(col, items[idx].span))]
  {
    var locked := items[idx];
    var next := PlacedAt(items, idx, row, col);
    var reqRow := RequestedRow(row).x.Floor;
    var reqCol := RequestedCol(col, locked.span);
    NormalizeFixpoints(locked.span, 0, 0);
    NormalizeFixpoints(locked.span, reqRow, reqCol);
    var normalized := NormalizeAll(next, uid);
    var expected := items[idx := locked.(row := reqRow, col := reqCol)];
    forall j | 0 <= j < |items|
      ensures normalized[j] == expected[j]
    {
      if j != idx {
        assert next[j] == ToObj(items[j]);
        NormalizeStoredItem(items[j], uid(j));
      }
    }
  }

  /** The list `placeReportItem` stores holds the chosen card exactly at the
      requested slot when the row is not `Infinity`; every card keeps its id
      and is placed. */
  lemma ReplacedLands(items: seq<Item>, idx: nat, row: Number, col: Number, ids: nat -> string)
    requires forall j :: 0 <= j < |items| ==> Valid(items[j]) && items[j].id != ""
    requires idx < |items| && IndexOf(items, items[idx].id) == Some(idx) && row != PosInf
    ensures |Replaced(items, idx, row, col, ids)| == |items|
    ensures forall j :: 0 <= j < |items| ==> Replaced(items, idx, row, col, ids)[j].id == items[j].id
    ensures forall j :: 0 <= j < |items| ==> Valid(Replaced(items, idx, row, col, ids)[j])
    ensures Replaced(items, idx, row, col, ids)[idx] ==
      items[idx].(row := RequestedRow(row).x.Floor, col := RequestedCol(col, items[idx].span))
  {
    ReplacedShape(items, idx, row, col, ids);
    ReplacedLocked(items, idx, row, col, ids);
  }

  /** The ids and validity half of `ReplacedLands`. */
  lemma ReplacedShape(items: seq<Item>, idx: nat, row: Number, col: Number, ids: nat -> string)
    requires forall j :: 0 <= j < |items| ==> items[j].id != ""
    requires idx < |items|
    ensures |Replaced(items, idx, row, col, ids)| == |items|
    ensures forall j :: 0 <= j < |items| ==> Replaced(items, idx, row, col, ids)[j].id == items[j].id
    ensures forall j :: 0 <= j < |items| ==> Valid(Replaced(items, idx, row, col, ids)[j])
  {
    var sids := StabilizeIds(ids, |items|);
    var next := PlacedAt(items, idx, row, col);
    forall j | 0 <= j < |items|
      ensures next[j].id == items[j].id
    {
      if j != idx {
        assert next[j] == ToObjs(items)[j];
      }
    }
    StabilizePlacesAll(next, items[idx].id, sids);
  }

  /** The locked-card half of `ReplacedLands`. */
  lemma {:induction false} ReplacedLocked(items: seq<Item>, idx: nat, row: Number, col: Number, ids: nat -> string)
    requires forall j :: 0 <= j < |items| ==> Valid(items[j]) && items[j].id != ""
    requires idx < |items| && IndexOf(items, items[idx].id) == Some(idx) && row != PosInf
    ensures Replaced(items, idx, row, col, ids)[idx] ==
      items[idx].(row := RequestedRow(row).x.Floor, col := RequestedCol(col, items[idx].span))
  {
    var locked := items[idx];
    var sids := StabilizeIds(ids, |items|);
    var next := PlacedAt(items, idx, row, col);
    PlacedAtNormalized(items, idx, row, col, sids);
    var normalized := NormalizeAll(next, sids);
    IndexOfSameIds(normalized, items, locked.id);
    StabilizeKeepsLocked(next, locked.id, sids, idx);
  }

  /** `placeReportItem` on a known id whose requested row is not `Infinity`
      leaves that card at `max(1, round(row))` and the clamped column; an
      unknown id changes nothing. */
  lemma PlaceReportItemLands(m: Reports, clientId: string, id: string, row: Number, col: Number, ids: nat -> string, idx: nat)
    requires clientId != "" && id != "" && row != PosInf
    requires forall i: nat :: ids(i) != ""
    requires IndexOf(Renormalize(Current(m, clientId).items, NormalizeIds(ids)), id) == Some(idx)
    ensures var items := Renormalize(Current(m, clientId).items, NormalizeIds(ids));
      var r := PlaceReportItem(m, clientId, id, row, col, ids);
      |r[clientId].items| == |items| &&
      r[clientId].items[idx] == items[idx].(row := RequestedRow(row).x.Floor, col := RequestedCol(col, items[idx].span))
  {
    var items := Renormalize(Current(m, clientId).items, NormalizeIds(ids));
    RenormalizeShape(Current(m, clientId).items, NormalizeIds(ids));
    ReplacedLands(items, idx, row, col, ids);
  }

  /** `removeReportItem` on a stable layout with truthy specs keeps every
      other card where it was. */
  lemma RemoveKeepsGeometry(m: Reports, clientId: string, id: string, ids: nat -> string)
    requires clientId != "" && id != ""
    requires Stable(Current(m, clientId).items)
    requires forall i :: 0 <= i < |Current(m, clientId).items| ==> Current(m, clientId).items[i].spec.Truthy()
    ensures forall x :: x in RemoveReportItem(m, clientId, id, ids)[clientId].items <==>
      x in Current(m, clientId).items && x.id != id
  {
    RenormalizeStable(Current(m, clientId).items, NormalizeIds(ids));
  }

  /** `setReportItemSpec` on a stable layout with truthy specs changes specs
      only. */
  lemma SetSpecKeepsGeometry(m: Reports, clientId: string, id: string, spec: Spec, ids: nat -> string)
    requires clientId != "" && id != ""
    requires Stable(Current(m, clientId).items)
    requires forall i :: 0 <= i < |Current(m, clientId).items| ==> Current(m, clientId).items[i].spec.Truthy()
    ensures var after := SetReportItemSpec(m, clientId, id, spec, ids)[clientId].items;
      |after| == |Current(m, clientId).items| &&
      forall i :: 0 <= i < |after| ==>
        after[i] == Current(m, clientId).items[i].(spec := if after[i].id == id then spec else after[i].spec)
  {
    RenormalizeStable(Current(m, clientId).items, NormalizeIds(ids));
  }

  /** `reorderReportItems` on a stable layout with truthy specs permutes the
      stored cards without moving any of them on the grid. */
  lemma ReorderKeepsCards(m: Reports, clientId: string, fromId: string, toId: string, ids: nat -> string)
    requires clientId != "" && fromId != "" && toId != "" && fromId != toId
    requires Stable(Current(m, clientId).items)
    requires forall i :: 0 <= i < |Current(m, clientId).items| ==> Current(m, clientId).items[i].spec.Truthy()
    ensures var r := ReorderReportItems(m, clientId, fromId, toId, ids);
      clientId in r ==> multiset(r[clientId].items) == multiset(Current(m, clientId).items)
  {
    RenormalizeStable(Current(m, clientId).items, NormalizeIds(ids));
  }

  /** When every row from the start to `row` is full and the preferred
      column of `row` fits, `findNextFit` returns that slot. */
  lemma NextFitPreferred(occupied: set<Cell>, start: int, span: int, maxCol: int, pref: int, row: int)
    requires 1 <= span <= COLS && maxCol == COLS - span + 1 && start >= 1 && 1 <= pref <= maxCol
    requires start <= row < ROW_LIMIT
    requires forall q :: start <= q < row ==> RowFull(occupied, q, span, maxCol)
    requires Fits(occupied, row, pref, span)
    ensures NextFit(occupied, start, span, pref) == (row, pref)
  {
    var r := NextFit(occupied, start, span, pref);
    assert r.0 < row ==> !Fits(occupied, r.0, r.1, span) by {
      if r.0 < row && 1 <= r.1 <= maxCol {
        assert RowFull(occupied, r.0, span, maxCol);
      }
    }
    assert !RowFull(occupied, row, span, maxCol);
  }

  /** The packing of the span example: A widened to 4 at (1,1), then B
      (span 2, at (1,3)) and C (span 4, at (2,1)) pushed down. */
  lemma ExamplePacking(a: Item, b: Item, c: Item)
    requires a == Item("A", Payload("a"), 4, 1, 1)
    requires b == Item("B", Payload("b"), 2, 1, 3)
    requires c == Item("C", Payload("c"), 4, 2, 1)
    ensures PlaceAll({}, [a, b, c]) == [a, b.(row := 2), c.(row := 3)]
  {
    var occ1 := Cells(1, 1, 4);
    var occ2 := occ1 + Cells(2, 3, 2);
    assert Place({}, a) == (1, 1);
    ExampleMovesB(b);
    ExampleMovesC(c);
    assert PlaceAll(occ2, [c]) == [c.(row := 3)] by {
      assert [c][1..] == [];
    }
    assert PlaceAll(occ1, [b, c]) == [b.(row := 2), c.(row := 3)] by {
      assert [b, c][1..] == [c];
    }
    assert PlaceAll({}, [a, b, c]) == [a] + PlaceAll(occ1, [b, c]) by {
      assert {} + Cells(1, 1, 4) == occ1;
      assert [a, b, c][1..] == [b, c];
    }
  }

  /** B does not fit beside A in row 1 and moves to (2, 3). */
  lemma ExampleMovesB(b: Item)
    requires b == Item("B", Payload("b"), 2, 1, 3)
    ensures Place(Cells(1, 1, 4), b) == (2, 3)
  {
    var occ1 := Cells(1, 1, 4);
    assert RowFull(occ1, 1, 2, 3) by {
      forall k | 1 <= k <= 3 ensures !Fits(occ1, 1, k, 2) { assert (1, k) in occ1; }
    }
    NextFitPreferred(occ1, 1, 2, 3, 3, 2);
    assert (1, 3) in occ1;
  }

  /** C does not fit in row 2 beside B and moves to (3, 1). */
  lemma ExampleMovesC(c: Item)
    requires c == Item("C", Payload("c"), 4, 2, 1)
    ensures Place(Cells(1, 1, 4) + Cells(2, 3, 2), c) == (3, 1)
  {
    var occ2 := Cells(1, 1, 4) + Cells(2, 3, 2);
    assert RowFull(occ2, 2, 4, 1) by { assert (2, 3) in occ2; }
    NextFitPreferred(occ2, 2, 4, 1, 1, 3);
    assert (2, 3) in occ2;
  }

  /** Placed items with ids come back from the normalisers unchanged. */
  lemma NormalizeStored(items: seq<Item>, uid: nat -> string)
    requires forall j :: 0 <= j < |items| ==> Valid(items[j]) && items[j].id != ""
    ensures NormalizeAll(ToObjs(items), uid) == items
  {
    NormalizeStoredAll(items, [], uid);
    assert ToObjs(items) + [] == ToObjs(items);
  }

  /** The placing order of the span example: A, locked, then B and C. */
  lemma ExampleOrder(a: Item, b: Item, c: Item)
    requires a.id == "A" && b.id == "B" && c.id == "C"
    ensures LockedIndex([a, b, c], "A") == Some(0)
    ensures Ordered([a, b, c], Some(0), "A") == [a, b, c]
  {
    assert WithoutId([a, b, c], "A") == [b, c] by {
      assert [a, b, c][1..] == [b, c];
      assert [b, c][1..] == [c];
      assert WithoutId([c], "A") == [c] by { assert [c][1..] == []; }
    }
  }

  /** Restoring the order of the span example. */
  lemma ExampleRestore(a: Item, b: Item, c: Item, placed: seq<Item>)
    requires a.id == "A" && b.id == "B" && c.id == "C"
    requires |placed| == 3 && placed[0].id == "A" && placed[1].id == "B" && placed[2].id == "C"
    ensures Restore([a, b, c], placed) == placed
  {
    assert LastIndexOf(placed, "A") == Some(0) by {
      assert placed[..2][..1] == placed[..1];
    }
    assert LastIndexOf(placed, "B") == Some(1);
    assert LastIndexOf(placed, "C") == Some(2);
  }

  /** The re-packing of the span example. */
  lemma ExampleRespan(a: Item, b: Item, c: Item, ids: nat -> string)
    requires a == Item("A", Payload("a"), 2, 1, 1)
    requires b == Item("B", Payload("b"), 2, 1, 3)
    requires c == Item("C", Payload("c"), 4, 2, 1)
    ensures Respanned([a, b, c], "A", Int(4), ids) == [a.(span := 4), b.(row := 2), c.(row := 3)]
  {
    var a4 := a.(span := 4);
    var widened := [a4, b, c];
    var placed := [a4, b.(row := 2), c.(row := 3)];
    assert WithSpan([a, b, c], "A", 4) == widened;
    var sids := StabilizeIds(ids, 3);
    NormalizeStored(widened, sids);
    ExampleOrder(a4, b, c);
    ExamplePacking(a4, b, c);
    ExampleRestore(a4, b, c, placed);
  }

  /** The span example as a store update: widening A to 4 keeps A at (1,1)
      and moves B to (2,3) and C to (3,1). */
  lemma WidenLockedExample(m: Reports, a: Item, b: Item, c: Item, ids: nat -> string)
    requires a == Item("A", Payload("a"), 2, 1, 1)
    requires b == Item("B", Payload("b"), 2, 1, 3)
    requires c == Item("C", Payload("c"), 4, 2, 1)
    requires m == map["client" := Report("Report", [a, b, c])]
    ensures SetReportItemSpan(m, "client", "A", Int(4), ids)["client"].items ==
      [a.(span := 4), b.(row := 2), c.(row := 3)]
  {
    var items := [a, b, c];
    assert Stable(items) by {
      assert !Overlap(items[0], items[1]) && !Overlap(items[0], items[2]) && !Overlap(items[1], items[2]);
    }
    RenormalizeStable(items, NormalizeIds(ids));
    ExampleRespan(a, b, c, ids);
  }
}
