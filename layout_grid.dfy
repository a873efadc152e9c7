/**
 * Grid geometry and the free-slot search of the report-layout store
 * (`canFit`, `occupy` and `findNextFit` in src/lib/stores/reportLayouts.js).
 * The occupancy map keyed by "row:col" becomes a set of cells: the owner id
 * stored in the map is never read back.
 */
module LayoutGrid {
  import opened Wrappers
  import opened LayoutItems

  /** `findNextFit` scans rows strictly below this bound. */
  const ROW_LIMIT: int := 500

  type Cell = (int, int)

  /** The cells a card `span` columns wide covers when placed at `(row, col)`. */
  function Cells(row: int, col: int, span: int): (s: set<Cell>)
    ensures forall r: int, c: int :: (r, c) in s <==> r == row && col <= c < col + span
  {
    set c | col <= c < col + span :: (row, c)
  }

  /** The condition `canFit` decides: the card lies in the grid and none of
      its cells is taken. */
  predicate Fits(occupied: set<Cell>, row: int, col: int, span: int) {
    row >= 1 && 1 <= col <= COLS - span + 1 &&
    forall c :: col <= c < col + span ==> (row, c) !in occupied
  }

  /** `canFit`. */
  method CanFit(occupied: set<Cell>, row: int, col: int, span: int) returns (fits: bool)
    ensures fits == Fits(occupied, row, col, span)
  {
    if row < 1 {
      return false;
    }
    var maxCol := COLS - span + 1;
    if col < 1 || col > maxCol {
      return false;
    }
    var c := col;
    while c < col + span
      invariant c >= col
      invariant forall k :: col <= k < c ==> (row, k) !in occupied
      decreases col + span - c
    {
      if (row, c) in occupied {
        return false;
      }
      c := c + 1;
    }
    return true;
  }

  /** `occupy`: the cells of the card are added and nothing else changes. */
  method Occupy(occupied: set<Cell>, row: int, col: int, span: int) returns (next: set<Cell>)
    ensures next == occupied + Cells(row, col, span)
  {
    next := occupied;
    var c := col;
    while c < col + span
      invariant col <= c <= Max(col, col + span)
      invariant next == occupied + Cells(row, col, c - col)
      decreases col + span - c
    {
      next := next + {(row, c)};
      c := c + 1;
    }
    assert Cells(row, col, c - col) == Cells(row, col, span);
  }

  /** `Math.max(1, Number(startRow) || 1)`: where the scan starts. */
  function StartRow(startRow: int): (r: int)
    ensures r >= 1
    ensures startRow >= 1 ==> r == startRow
    ensures startRow < 1 ==> r == 1
  {
    Max(1, if startRow == 0 then 1 else startRow)
  }

  /** `clamp(Number(preferredCol) || 1, 1, maxCol)`. */
  function PreferredCol(preferredCol: int, maxCol: int): (r: int)
    requires maxCol >= 1
    ensures 1 <= r <= maxCol
    ensures 1 <= preferredCol <= maxCol ==> r == preferredCol
    ensures preferredCol < 1 ==> r == 1
    ensures preferredCol > maxCol ==> r == maxCol
  {
    Max(1, Min(maxCol, if preferredCol == 0 then 1 else preferredCol))
  }

  /** No column of `row` can take the card. */
  predicate RowFull(occupied: set<Cell>, row: int, span: int, maxCol: int) {
    forall k :: 1 <= k <= maxCol ==> !Fits(occupied, row, k, span)
  }

  /** The inner column scan: the first column in `[col, maxCol]`, other than
      `pref`, at which the card fits. */
  function OtherFit(occupied: set<Cell>, row: int, span: int, pref: int, col: int, maxCol: int): (r: Option<int>)
    ensures r.Some? ==> col <= r.value <= maxCol && r.value != pref && Fits(occupied, row, r.value, span)
    ensures r.Some? ==> forall k :: col <= k < r.value && k != pref ==> !Fits(occupied, row, k, span)
    ensures r.None? ==> forall k :: col <= k <= maxCol && k != pref ==> !Fits(occupied, row, k, span)
    decreases maxCol - col + 1
  {
    if col > maxCol then None
    else if col != pref && Fits(occupied, row, col, span) then Some(col)
    else OtherFit(occupied, row, span, pref, col + 1, maxCol)
  }

  /** One row of the scan: the preferred column if it fits, else the first
      other column that fits. */
  function RowFit(occupied: set<Cell>, row: int, span: int, pref: int, maxCol: int): (r: Option<int>)
    requires 1 <= pref <= maxCol
    ensures r.Some? ==> 1 <= r.value <= maxCol && Fits(occupied, row, r.value, span)
    ensures Fits(occupied, row, pref, span) ==> r == Some(pref)
    ensures r.Some? && r.value != pref ==> forall k :: 1 <= k < r.value ==> !Fits(occupied, row, k, span)
    ensures r.None? <==> RowFull(occupied, row, span, maxCol)
  {
    if Fits(occupied, row, pref, span) then Some(pref)
    else OtherFit(occupied, row, span, pref, 1, maxCol)
  }

  /** The row scan from `row` up to `ROW_LIMIT`: the first row with a fitting
      column, and that column. */
  function Search(occupied: set<Cell>, row: int, span: int, pref: int, maxCol: int): (r: Option<Cell>)
    requires 1 <= pref <= maxCol
    ensures r.Some? ==> row <= r.value.0 < ROW_LIMIT
    ensures r.Some? ==> RowFit(occupied, r.value.0, span, pref, maxCol) == Some(r.value.1)
    ensures r.Some? ==> forall q :: row <= q < r.value.0 ==> RowFull(occupied, q, span, maxCol)
    ensures r.None? <==> forall q :: row <= q < ROW_LIMIT ==> RowFull(occupied, q, span, maxCol)
    decreases ROW_LIMIT - row
  {
    if row >= ROW_LIMIT then None
    else match RowFit(occupied, row, span, pref, maxCol)
      case Some(c) => Some((row, c))
      case None => Search(occupied, row + 1, span, pref, maxCol)
  }

  /** `findNextFit`. When the card fits the grid, the result is either the first
      fitting slot of the row-major scan from the start row (the clamped
      preferred column first), or, when every scanned row below `ROW_LIMIT` is
      full, the unchecked fallback `(start row, 1)`. */
  function NextFit(occupied: set<Cell>, startRow: int, span: int, preferredCol: int): (r: Cell)
    ensures r.0 >= StartRow(startRow) && r.1 >= 1
    ensures COLS - span + 1 < 1 ==> r == (StartRow(startRow), 1)
    ensures COLS - span + 1 >= 1 ==>
      var s, maxCol := StartRow(startRow), COLS - span + 1;
      var pref := PreferredCol(preferredCol, maxCol);
      || (r.0 < ROW_LIMIT && Fits(occupied, r.0, r.1, span) &&
          (forall q :: s <= q < r.0 ==> RowFull(occupied, q, span, maxCol)) &&
          (Fits(occupied, r.0, pref, span) ==> r.1 == pref) &&
          (r.1 != pref ==> forall k :: 1 <= k < r.1 ==> !Fits(occupied, r.0, k, span)))
      || (r == (s, 1) && forall q :: s <= q < ROW_LIMIT ==> RowFull(occupied, q, span, maxCol))
  {
    var row := StartRow(startRow);
    var maxCol := COLS - span + 1;
    if maxCol < 1 then (row, 1)
    else match Search(occupied, row, span, PreferredCol(preferredCol, maxCol), maxCol)
      case Some(cell) => cell
      case None => (row, 1)
  }

  /** `findNextFit`, scanning rows and columns as the source does. */
  method FindNextFit(occupied: set<Cell>, startRow: int, span: int, preferredCol: int) returns (row: int, col: int)
    ensures (row, col) == NextFit(occupied, startRow, span, preferredCol)
  {
    row := StartRow(startRow);
    var maxCol := COLS - span + 1;
    if maxCol < 1 {
      return row, 1;
    }
    ghost var start := row;
    while row < ROW_LIMIT
      invariant start <= row
      invariant Search(occupied, start, span, PreferredCol(preferredCol, maxCol), maxCol)
             == Search(occupied, row, span, PreferredCol(preferredCol, maxCol), maxCol)
      decreases ROW_LIMIT - row
    {
      var pref := PreferredCol(preferredCol, maxCol);
      var fits := CanFit(occupied, row, pref, span);
      if fits {
        return row, pref;
      }
      var c := 1;
      while c <= maxCol
        invariant 1 <= c <= maxCol + 1
        invariant OtherFit(occupied, row, span, pref, 1, maxCol) == OtherFit(occupied, row, span, pref, c, maxCol)
      {
        if c != pref {
          fits := CanFit(occupied, row, c, span);
          if fits {
            return row, c;
          }
        }
        c := c + 1;
      }
      row := row + 1;
    }
    return StartRow(startRow), 1;
  }

  /** A row with no taken cell has room at column 1 for any valid span. */
  lemma EmptyRowFits(occupied: set<Cell>, row: int, span: int)
    requires row >= 1 && 1 <= span <= COLS
    requires forall c :: (row, c) !in occupied
    ensures Fits(occupied, row, 1, span)
  {
  }

  /** The rows in which some cell is taken. */
  function RowsOf(occupied: set<Cell>): (rows: set<int>)
    ensures forall c :: c in occupied ==> c.0 in rows
    ensures forall r :: r in rows ==> exists c :: c in occupied && c.0 == r
  {
    set c | c in occupied :: c.0
  }

  /** If a row in `[s, ROW_LIMIT)` is empty, the search from `s` finds a slot
      at or above it. */
  lemma {:induction false} SearchFindsEmptyRow(occupied: set<Cell>, s: int, span: int, pref: int, free: int)
    requires 1 <= span <= COLS && 1 <= pref <= COLS - span + 1
    requires 1 <= s <= free < ROW_LIMIT && free !in RowsOf(occupied)
    ensures Search(occupied, s, span, pref, COLS - span + 1).Some?
    ensures Search(occupied, s, span, pref, COLS - span + 1).value.0 <= free
  {
    EmptyRowFits(occupied, free, span);
    assert !RowFull(occupied, free, span, COLS - span + 1);
  }

  lemma {:induction false} SubsetCard<T>(a: set<T>, b: set<T>)
    requires a <= b
    ensures |a| <= |b|
    decreases |a|
  {
    if a != {} {
      var x :| x in a;
      SubsetCard(a - {x}, b - {x});
    }
  }

  function RowRange(s: int, n: nat): (rows: set<int>)
    ensures forall r :: r in rows <==> s <= r < s + n
  {
    if n == 0 then {} else RowRange(s, n - 1) + {s + n - 1}
  }

  lemma {:induction false} RowRangeCard(s: int, n: nat)
    ensures |RowRange(s, n)| == n
  {
    if n > 0 {
      var below := RowRange(s, n - 1);
      RowRangeCard(s, n - 1);
      assert s + n - 1 !in below;
      assert RowRange(s, n) == below + {s + n - 1};
    }
  }

  /** Pigeonhole: when at most `k` rows are taken, one of the `k + 1` rows
      `s .. s + k` is empty. */
  lemma EmptyRowExists(occupied: set<Cell>, s: int, k: nat) returns (free: int)
    requires |RowsOf(occupied)| <= k
    ensures s <= free <= s + k && free !in RowsOf(occupied)
  {
    if forall r :: s <= r <= s + k ==> r in RowsOf(occupied) {
      assert RowRange(s, k + 1) <= RowsOf(occupied);
      SubsetCard(RowRange(s, k + 1), RowsOf(occupied));
      RowRangeCard(s, k + 1);
      assert false;
    }
    free :| s <= free <= s + k && free !in RowsOf(occupied);
  }

  /** Taking the cells of one more card adds at most one row. */
  lemma RowsOfOccupy(occupied: set<Cell>, row: int, col: int, span: int)
    ensures RowsOf(occupied + Cells(row, col, span)) <= RowsOf(occupied) + {row}
    ensures |RowsOf(occupied + Cells(row, col, span))| <= |RowsOf(occupied)| + 1
  {
    var after := RowsOf(occupied + Cells(row, col, span));
    assert after <= RowsOf(occupied) + {row};
    SubsetCard(after, RowsOf(occupied) + {row});
  }

  /** When the occupancy spans at most `k` rows and `StartRow(start) + k` stays
      below `ROW_LIMIT`, `findNextFit` returns a slot that fits. */
  lemma NextFitFits(occupied: set<Cell>, start: int, span: int, pref: int, k: nat)
    requires 1 <= span <= COLS
    requires |RowsOf(occupied)| <= k && StartRow(start) + k < ROW_LIMIT
    ensures Fits(occupied, NextFit(occupied, start, span, pref).0, NextFit(occupied, start, span, pref).1, span)
    ensures NextFit(occupied, start, span, pref).0 <= StartRow(start) + k
  {
    var free := EmptyRowExists(occupied, StartRow(start), k);
    SearchFindsEmptyRow(occupied, StartRow(start), span, PreferredCol(pref, COLS - span + 1), free);
  }
}
