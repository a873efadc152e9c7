/**
 * What `stabilizeLayout` (src/lib/stores/reportLayouts.js:112-155) guarantees:
 * ids kept in order, every item placed validly, no shared cells while the
 * scans stay below row 500, the locked item kept where it asked to be, and
 * a stable layout returned unchanged.
 */
module LayoutProperties {
  import opened Wrappers
  import opened JsNumber
  import opened LayoutItems
  import opened LayoutGrid
  import opened LayoutStabilize

  /** The condition under which no search of the packer reaches `ROW_LIMIT`:
      every item's (normalised) row plus the number of items stays within it. */
  predicate RowsBounded(objs: seq<Obj>) {
    forall i :: 0 <= i < |objs| ==> Max(1, NormalizeRow(objs[i].row)) + |objs| <= ROW_LIMIT
  }

  predicate FitsAt(occupied: set<Cell>, it: Item) {
    Fits(occupied, it.row, it.col, it.span)
  }

  /** A card that fits beside the cells of `p` shares no cell with `p`. */
  lemma FitsBesideNoOverlap(occupied: set<Cell>, p: Item, q: Item)
    requires p.span >= 1 && q.span >= 1
    requires FitsAt(occupied + Cells(p.row, p.col, p.span), q)
    ensures !Overlap(p, q) && FitsAt(occupied, q)
  {
    var c := Max(p.col, q.col);
    assert q.col <= c < q.col + q.span ==> (q.row, c) !in occupied + Cells(p.row, p.col, p.span);
  }

  /** A card that fits and shares no cell with `p` still fits once `p`'s cells are taken. */
  lemma NoOverlapStillFits(occupied: set<Cell>, p: Item, q: Item)
    requires FitsAt(occupied, q) && !Overlap(p, q)
    ensures FitsAt(occupied + Cells(p.row, p.col, p.span), q)
  {
  }

  /** With at most `k` rows taken and the item's row plus `k` below `ROW_LIMIT`,
      the loop body puts the item at a slot that fits. */
  lemma PlaceFits(occupied: set<Cell>, it: Item, k: nat)
    requires Normalized(it)
    requires |RowsOf(occupied)| <= k && Max(1, it.row) + k < ROW_LIMIT
    ensures Fits(occupied, Place(occupied, it).0, Place(occupied, it).1, it.span)
  {
    if it.row == 0 || it.col == 0 {
      NextFitFits(occupied, 1, it.span, 1, k);
    } else if !Fits(occupied, it.row, it.col, it.span) {
      NextFitFits(occupied, it.row, it.span, it.col, k);
    }
  }

  /** Under the row bound, the placement loop yields cards that fit against the
      initial occupancy and share no cell with one another. */
  lemma {:induction false} PlaceAllDisjoint(occupied: set<Cell>, items: seq<Item>, k: nat)
    requires forall i :: 0 <= i < |items| ==> Normalized(items[i]) && Max(1, items[i].row) + k + |items| <= ROW_LIMIT
    requires |RowsOf(occupied)| <= k
    ensures Disjoint(PlaceAll(occupied, items))
    ensures forall i :: 0 <= i < |items| ==> FitsAt(occupied, PlaceAll(occupied, items)[i])
    decreases |items|
  {
    if items != [] {
      var placed := PlaceAll(occupied, items);
      var cell := Place(occupied, items[0]);
      var p := items[0].(row := cell.0, col := cell.1);
      var next := occupied + Cells(p.row, p.col, p.span);
      PlaceFits(occupied, items[0], k);
      RowsOfOccupy(occupied, p.row, p.col, p.span);
      assert forall i :: 0 <= i < |items[1..]| ==> items[1..][i] == items[i + 1];
      PlaceAllDisjoint(next, items[1..], k + 1);
      var rest := PlaceAll(next, items[1..]);
      assert placed == [p] + rest;
      forall j | 0 <= j < |rest|
        ensures rest[j].span >= 1
      {
        assert rest[j].span == items[1..][j].span;
      }
      ConsFits(occupied, p, rest);
    }
  }

  /** A card that fits, followed by disjoint cards that fit beside it: the
      list is disjoint and every card fits without the first one's cells. */
  lemma ConsFits(occupied: set<Cell>, p: Item, rest: seq<Item>)
    requires p.span >= 1 && FitsAt(occupied, p) && Disjoint(rest)
    requires forall j :: 0 <= j < |rest| ==> rest[j].span >= 1 && FitsAt(occupied + Cells(p.row, p.col, p.span), rest[j])
    ensures Disjoint([p] + rest)
    ensures forall i :: 0 <= i < |[p] + rest| ==> FitsAt(occupied, ([p] + rest)[i])
  {
    var placed := [p] + rest;
    forall j | 0 <= j < |rest|
      ensures !Overlap(p, rest[j]) && FitsAt(occupied, rest[j])
    {
      FitsBesideNoOverlap(occupied, p, rest[j]);
    }
    forall i, j | 0 <= i < j < |placed|
      ensures !Overlap(placed[i], placed[j])
    {
      if i > 0 {
        assert placed[i] == rest[i - 1] && placed[j] == rest[j - 1];
      } else {
        assert placed[j] == rest[j - 1];
      }
    }
    forall i | 0 <= i < |placed|
      ensures FitsAt(occupied, placed[i])
    {
      if i > 0 {
        assert placed[i] == rest[i - 1];
      }
    }
  }

  /** Every normalised item has an item with the same id in the placement order. */
  lemma OrderedCoversIds(normalized: seq<Item>, locked: Option<nat>, lockedId: string, i: nat)
    requires locked.Some? ==> locked.value < |normalized| && normalized[locked.value].id == lockedId
    requires i < |normalized|
    ensures exists j :: 0 <= j < |Ordered(normalized, locked, lockedId)| && Ordered(normalized, locked, lockedId)[j].id == normalized[i].id
  {
    var ordered := Ordered(normalized, locked, lockedId);
    if locked.Some? {
      if normalized[i].id == lockedId {
        assert ordered[0].id == normalized[i].id;
      } else {
        assert normalized[i] in WithoutId(normalized, lockedId);
        assert normalized[i] in ordered;
      }
    } else {
      assert ordered[i].id == normalized[i].id;
    }
  }

  /** The restore step finds every normalised id among the placed items. */
  lemma RestoreFinds(normalized: seq<Item>, locked: Option<nat>, lockedId: string, i: nat)
    requires locked.Some? ==> locked.value < |normalized| && normalized[locked.value].id == lockedId
    requires i < |normalized|
    ensures LastIndexOf(PlaceAll({}, Ordered(normalized, locked, lockedId)), normalized[i].id).Some?
  {
    OrderedCoversIds(normalized, locked, lockedId, i);
    var ordered := Ordered(normalized, locked, lockedId);
    var j :| 0 <= j < |ordered| && ordered[j].id == normalized[i].id;
    assert PlaceAll({}, ordered)[j].id == normalized[i].id;
  }

  /** `stabilizeLayout` returns one item per input item, with the normalised
      ids in the input order. */
  lemma StabilizeKeepsIds(objs: seq<Obj>, lockedId: string, uid: nat -> string)
    ensures |Stabilize(objs, lockedId, uid)| == |objs|
    ensures forall i :: 0 <= i < |objs| ==>
      Stabilize(objs, lockedId, uid)[i].id == (if objs[i].id != "" then objs[i].id else uid(i))
  {
    var normalized := NormalizeAll(objs, uid);
    var locked := LockedIndex(normalized, lockedId);
    var placed := PlaceAll({}, Ordered(normalized, locked, lockedId));
    if locked.Some? {
      forall i | 0 <= i < |objs|
        ensures Stabilize(objs, lockedId, uid)[i].id == normalized[i].id
      {
        RestoreFinds(normalized, locked, lockedId, i);
      }
    }
  }

  /** Every item `stabilizeLayout` returns has a span in [1, 4], a row of at
      least 1 and a column at which it lies inside the grid. */
  lemma StabilizeValid(objs: seq<Obj>, lockedId: string, uid: nat -> string)
    ensures forall i :: 0 <= i < |Stabilize(objs, lockedId, uid)| ==> Valid(Stabilize(objs, lockedId, uid)[i])
  {
    var normalized := NormalizeAll(objs, uid);
    var locked := LockedIndex(normalized, lockedId);
    var ordered := Ordered(normalized, locked, lockedId);
    var placed := PlaceAll({}, ordered);
    forall i | 0 <= i < |ordered|
      ensures Normalized(ordered[i])
    {
      assert ordered[i] in normalized;
    }
    assert forall j :: 0 <= j < |placed| ==> Valid(placed[j]);
    if locked.Some? {
      forall i | 0 <= i < |normalized|
        ensures LastIndexOf(placed, normalized[i].id).Some?
      {
        RestoreFinds(normalized, locked, lockedId, i);
      }
      RestoreValid(normalized, placed);
    }
  }

  /** Restoring from valid placements that hold every id gives valid items. */
  lemma RestoreValid(normalized: seq<Item>, placed: seq<Item>)
    requires forall j :: 0 <= j < |placed| ==> Valid(placed[j])
    requires forall i :: 0 <= i < |normalized| ==> LastIndexOf(placed, normalized[i].id).Some?
    ensures forall i :: 0 <= i < |normalized| ==> Valid(Restore(normalized, placed)[i])
  {
    var r := Restore(normalized, placed);
    forall i | 0 <= i < |normalized|
      ensures Valid(r[i])
    {
      assert r[i] == placed[LastIndexOf(placed, normalized[i].id).value];
    }
  }

  /** With unique normalised ids, and every search staying below row 500,
      no two items `stabilizeLayout` returns share a cell. */
  lemma StabilizeNoOverlap(objs: seq<Obj>, lockedId: string, uid: nat -> string)
    requires UniqueIds(NormalizeAll(objs, uid))
    requires RowsBounded(objs)
    ensures Disjoint(Stabilize(objs, lockedId, uid))
  {
    var normalized := NormalizeAll(objs, uid);
    var locked := LockedIndex(normalized, lockedId);
    var ordered := Ordered(normalized, locked, lockedId);
    var placed := PlaceAll({}, ordered);
    NormalizedPlaceable(objs, uid);
    OrderedPlaceable(normalized, locked, lockedId, |objs|);
    assert RowsOf({}) == {};
    PlaceAllDisjoint({}, ordered, 0);
    if locked.Some? {
      forall i | 0 <= i < |normalized|
        ensures LastIndexOf(placed, normalized[i].id).Some?
      {
        RestoreFinds(normalized, locked, lockedId, i);
      }
      RestoreDisjoint(normalized, placed);
    }
  }

  /** Items the packer can place while its searches stay below `ROW_LIMIT`,
      with `n` rows to spare. */
  predicate Placeable(items: seq<Item>, n: int) {
    forall i :: 0 <= i < |items| ==> Normalized(items[i]) && Max(1, items[i].row) + n <= ROW_LIMIT
  }

  /** Under the row bound the normalised items are placeable. */
  lemma NormalizedPlaceable(objs: seq<Obj>, uid: nat -> string)
    requires RowsBounded(objs)
    ensures Placeable(NormalizeAll(objs, uid), |objs|)
  {
    var normalized := NormalizeAll(objs, uid);
    forall i | 0 <= i < |normalized|
      ensures Normalized(normalized[i]) && Max(1, normalized[i].row) + |objs| <= ROW_LIMIT
    {
      assert normalized[i].row == NormalizeRow(objs[i].row);
    }
  }

  /** The placement order keeps only items of the normalised list. */
  lemma OrderedPlaceable(normalized: seq<Item>, locked: Option<nat>, lockedId: string, n: int)
    requires locked.Some? ==> locked.value < |normalized| && normalized[locked.value].id == lockedId
    requires Placeable(normalized, n)
    ensures Placeable(Ordered(normalized, locked, lockedId), n)
  {
    var ordered := Ordered(normalized, locked, lockedId);
    forall i | 0 <= i < |ordered|
      ensures Normalized(ordered[i]) && Max(1, ordered[i].row) + n <= ROW_LIMIT
    {
      assert ordered[i] in normalized;
      var m :| 0 <= m < |normalized| && normalized[m] == ordered[i];
    }
  }

  /** Restoring items with distinct ids from a disjoint placement that holds
      all of them gives a disjoint list. */
  lemma RestoreDisjoint(normalized: seq<Item>, placed: seq<Item>)
    requires UniqueIds(normalized) && Disjoint(placed)
    requires forall i :: 0 <= i < |normalized| ==> LastIndexOf(placed, normalized[i].id).Some?
    ensures Disjoint(Restore(normalized, placed))
  {
    var r := Restore(normalized, placed);
    forall i, i' | 0 <= i < i' < |r|
      ensures !Overlap(r[i], r[i'])
    {
      var j := LastIndexOf(placed, normalized[i].id).value;
      var j' := LastIndexOf(placed, normalized[i'].id).value;
      assert r[i] == placed[j] && r[i'] == placed[j'];
      assert j != j';
      if j < j' {
        assert !Overlap(placed[j], placed[j']);
      } else {
        assert !Overlap(placed[j'], placed[j]);
      }
    }
  }

  /** The locked item is placed first, on an empty grid: whenever its
      normalised row and column are both nonzero, it comes back exactly as
      normalised. */
  lemma StabilizeKeepsLocked(objs: seq<Obj>, lockedId: string, uid: nat -> string, k: nat)
    requires lockedId != "" && IndexOf(NormalizeAll(objs, uid), lockedId) == Some(k)
    requires NormalizeAll(objs, uid)[k].row != 0 && NormalizeAll(objs, uid)[k].col != 0
    ensures Stabilize(objs, lockedId, uid)[k] == NormalizeAll(objs, uid)[k]
  {
    var normalized := NormalizeAll(objs, uid);
    var locked := LockedIndex(normalized, lockedId);
    var ordered := Ordered(normalized, locked, lockedId);
    var placed := PlaceAll({}, ordered);
    var it := normalized[k];
    assert Fits({}, it.row, it.col, it.span);
    assert placed[0] == it;
    forall j | 0 < j < |placed|
      ensures placed[j].id != lockedId
    {
      assert ordered[j] in WithoutId(normalized, lockedId);
    }
    assert LastIndexOf(placed, lockedId) == Some(0);
  }

  /** A layout that needs no repair: valid placements with present, unique
      ids and no shared cells. */
  predicate Stable(items: seq<Item>) {
    (forall i :: 0 <= i < |items| ==> Valid(items[i]) && items[i].id != "") &&
    UniqueIds(items) && Disjoint(items)
  }

  /** Normalising the stored form of a valid item gives the item back. */
  lemma NormalizeStoredItem(it: Item, newId: string)
    requires Valid(it) && it.id != ""
    ensures NormalizeObj(ToObj(it), newId) == it
  {
    NormalizeFixpoints(it.span, it.row, it.col);
  }

  /** The placement loop leaves cards that already fit, and share no cell, where they are. */
  lemma {:induction false} PlaceAllStable(occupied: set<Cell>, items: seq<Item>)
    requires forall i :: 0 <= i < |items| ==> Valid(items[i]) && FitsAt(occupied, items[i])
    requires Disjoint(items)
    ensures PlaceAll(occupied, items) == items
    decreases |items|
  {
    if items != [] {
      var p := items[0];
      assert Place(occupied, p) == (p.row, p.col);
      var rest := items[1..];
      forall i | 0 <= i < |rest|
        ensures Valid(rest[i]) && FitsAt(occupied + Cells(p.row, p.col, p.span), rest[i])
      {
        assert rest[i] == items[i + 1];
        NoOverlapStillFits(occupied, p, rest[i]);
      }
      assert Disjoint(rest) by {
        forall i, j | 0 <= i < j < |rest|
          ensures !Overlap(rest[i], rest[j])
        {
          assert rest[i] == items[i + 1] && rest[j] == items[j + 1];
        }
      }
      PlaceAllStable(occupied + Cells(p.row, p.col, p.span), rest);
      assert items == [p] + rest;
    }
  }

  /** Distinct members of a stable layout share no cell. */
  lemma StableMembersApart(items: seq<Item>, a: Item, b: Item)
    requires Stable(items) && a in items && b in items && a.id != b.id
    ensures !Overlap(a, b)
  {
    var i :| 0 <= i < |items| && items[i] == a;
    var j :| 0 <= j < |items| && items[j] == b;
    if i < j {
      assert !Overlap(items[i], items[j]);
    } else {
      assert !Overlap(items[j], items[i]);
    }
  }

  /** The placement order of a stable layout is itself stable. */
  lemma OrderedStable(items: seq<Item>, locked: Option<nat>, lockedId: string)
    requires Stable(items)
    requires locked.Some? ==> locked.value < |items| && items[locked.value].id == lockedId
    ensures UniqueIds(Ordered(items, locked, lockedId))
    ensures Disjoint(Ordered(items, locked, lockedId))
    ensures forall i :: 0 <= i < |Ordered(items, locked, lockedId)| ==>
      Valid(Ordered(items, locked, lockedId)[i]) && FitsAt({}, Ordered(items, locked, lockedId)[i])
  {
    var ordered := Ordered(items, locked, lockedId);
    if locked.Some? {
      var w := WithoutId(items, lockedId);
      WithoutIdUnique(items, lockedId);
      forall i, j | 0 <= i < j < |ordered|
        ensures ordered[i].id != ordered[j].id
      {
        if i == 0 {
          assert ordered[j] == w[j - 1] && ordered[j] in w;
        } else {
          assert ordered[i] == w[i - 1] && ordered[j] == w[j - 1];
        }
      }
    }
    forall i, j | 0 <= i < j < |ordered|
      ensures !Overlap(ordered[i], ordered[j])
    {
      StableMembersApart(items, ordered[i], ordered[j]);
    }
    forall i | 0 <= i < |ordered|
      ensures Valid(ordered[i]) && FitsAt({}, ordered[i])
    {
      assert ordered[i] in items;
    }
  }

  /** Restoring the order of a stable layout from any reordering of it with
      the same ids gives the layout back. */
  lemma RestoreStable(items: seq<Item>, locked: Option<nat>, lockedId: string)
    requires Stable(items)
    requires locked.Some? ==> locked.value < |items| && items[locked.value].id == lockedId
    requires PlaceAll({}, Ordered(items, locked, lockedId)) == Ordered(items, locked, lockedId)
    ensures Restore(items, Ordered(items, locked, lockedId)) == items
  {
    var ordered := Ordered(items, locked, lockedId);
    var r := Restore(items, ordered);
    forall i | 0 <= i < |items|
      ensures r[i] == items[i]
    {
      RestoreFinds(items, locked, lockedId, i);
      var j := LastIndexOf(ordered, items[i].id).value;
      assert ordered[j] in items;
      var m :| 0 <= m < |items| && items[m] == ordered[j];
      assert m == i;
    }
  }

  /** A stable layout is returned unchanged, whatever item is locked. */
  lemma StableFixpoint(items: seq<Item>, lockedId: string, uid: nat -> string)
    requires Stable(items)
    ensures Stabilize(ToObjs(items), lockedId, uid) == items
  {
    var objs := ToObjs(items);
    var normalized := NormalizeAll(objs, uid);
    forall i | 0 <= i < |items|
      ensures normalized[i] == items[i]
    {
      NormalizeStoredItem(items[i], uid(i));
    }
    assert normalized == items;
    var locked := LockedIndex(items, lockedId);
    OrderedStable(items, locked, lockedId);
    PlaceAllStable({}, Ordered(items, locked, lockedId));
    if locked.Some? {
      RestoreStable(items, locked, lockedId);
    }
  }

  /** Items that all carry ids come back one for one, with their ids, each
      validly placed. */
  lemma StabilizePlacesAll(objs: seq<Obj>, lockedId: string, uid: nat -> string)
    requires forall j :: 0 <= j < |objs| ==> objs[j].id != ""
    ensures |Stabilize(objs, lockedId, uid)| == |objs|
    ensures forall j :: 0 <= j < |objs| ==> Stabilize(objs, lockedId, uid)[j].id == objs[j].id && Valid(Stabilize(objs, lockedId, uid)[j])
  {
    StabilizeKeepsIds(objs, lockedId, uid);
    StabilizeValid(objs, lockedId, uid);
  }

  /** Under the no-overlap conditions and with non-empty fresh ids, the
      output of `stabilizeLayout` is a stable layout. */
  lemma StabilizeStable(objs: seq<Obj>, lockedId: string, uid: nat -> string)
    requires UniqueIds(NormalizeAll(objs, uid))
    requires RowsBounded(objs)
    requires forall i: nat :: uid(i) != ""
    ensures Stable(Stabilize(objs, lockedId, uid))
  {
    var r := Stabilize(objs, lockedId, uid);
    var normalized := NormalizeAll(objs, uid);
    StabilizeKeepsIds(objs, lockedId, uid);
    StabilizeValid(objs, lockedId, uid);
    StabilizeNoOverlap(objs, lockedId, uid);
    forall i | 0 <= i < |r|
      ensures r[i].id == normalized[i].id && r[i].id != ""
    {
      assert uid(i) != "";
    }
    forall i, j | 0 <= i < j < |r|
      ensures r[i].id != r[j].id
    {
      assert normalized[i].id != normalized[j].id;
    }
  }

  /** Under the no-overlap conditions and with non-empty fresh ids,
      re-running `stabilizeLayout` on its own output, with any locked id,
      changes nothing. */
  lemma StabilizeIdempotent(objs: seq<Obj>, lockedId: string, lockedId2: string, uid: nat -> string, uid2: nat -> string)
    requires UniqueIds(NormalizeAll(objs, uid))
    requires RowsBounded(objs)
    requires forall i: nat :: uid(i) != ""
    ensures Stabilize(ToObjs(Stabilize(objs, lockedId, uid)), lockedId2, uid2) == Stabilize(objs, lockedId, uid)
  {
    StabilizeStable(objs, lockedId, uid);
    StableFixpoint(Stabilize(objs, lockedId, uid), lockedId2, uid2);
  }

  /** The row bound is needed: two full-width items stored at row 600 are both
      left at (600, 1), because the search never scans from a row of 500 or more. */
  lemma OverlapPastRowLimit(uid: nat -> string)
    ensures var a := Obj("a", Payload("x"), Int(4), Int(600), Int(1), "");
      var b := Obj("b", Payload("y"), Int(4), Int(600), Int(1), "");
      var r := Stabilize([a, b], "", uid);
      |r| == 2 && Overlap(r[0], r[1])
  {
    var a := Obj("a", Payload("x"), Int(4), Int(600), Int(1), "");
    var b := Obj("b", Payload("y"), Int(4), Int(600), Int(1), "");
    NormalizeFixpoints(4, 600, 1);
    var normalized := NormalizeAll([a, b], uid);
    assert normalized[0] == Item("a", Payload("x"), 4, 600, 1);
    assert normalized[1] == Item("b", Payload("y"), 4, 600, 1);
    assert Fits({}, 600, 1, 4);
    var occ := Cells(600, 1, 4);
    assert !Fits(occ, 600, 1, 4) by {
      assert (600, 1) in occ;
    }
    assert NextFit(occ, 600, 4, 1) == (600, 1);
    var pa := Item("a", Payload("x"), 4, 600, 1);
    var pb := Item("b", Payload("y"), 4, 600, 1);
    assert Place({}, normalized[0]) == (600, 1);
    assert Place(occ, normalized[1]) == (600, 1);
    assert PlaceAll(occ, normalized[1..]) == [pb];
    assert PlaceAll({}, normalized) == [pa, pb];
  }
}
