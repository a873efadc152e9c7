/**
 * The values the report-layout store works on, and the normalisers that turn
 * stored span/row/col fields into grid coordinates
 * (src/lib/stores/reportLayouts.js).
 */
module LayoutItems {
  import opened JsNumber

  /** The width of the report grid in columns. */
  const COLS: int := 4

  /** A card spec as the layout engine sees it: only its truthiness matters, except
      that a legacy entry stored as a bare spec object becomes its own spec. */
  datatype Spec = NoSpec | Payload(data: string) | Whole(obj: Obj) {
    predicate Truthy() {
      !NoSpec?
    }
  }

  /** A stored item object before normalisation. `id` is the stored id, with ""
      standing for any falsy id; `span`, `row` and `col` are `Number(...)` of the
      stored fields (NaN when a field is missing); `rest` stands for the fields
      the layout engine does not read. */
  datatype Obj = Obj(id: string, spec: Spec, span: Number, row: Number, col: Number, rest: string)

  /** An element of a stored item list: an object, or anything else (null, a
      number, a string), which the migration drops. */
  datatype Entry = NonObject | Object(obj: Obj)

  /** A normalised item: `{ id, spec, span, row, col }` with integer geometry. */
  datatype Item = Item(id: string, spec: Spec, span: int, row: int, col: int)

  function Max(a: int, b: int): int { if a < b then b else a }

  function Min(a: int, b: int): int { if a < b then a else b }

  /** The largest starting column of a card `span` columns wide, floored at 1
      (`Math.max(1, COLS - span + 1)`). */
  function MaxColFor(span: int): (r: int)
    ensures r >= 1
    ensures 1 <= span <= COLS ==> r == COLS - span + 1
  {
    Max(1, COLS - span + 1)
  }

  /** `normalizeSpan`: 2 for a non-finite value, otherwise the rounded value
      clamped to `[1, 4]`. */
  function NormalizeSpan(n: Number): (r: int)
    ensures 1 <= r <= 4
    ensures !n.Finite? ==> r == 2
    ensures n.Finite? && 1 <= RoundReal(n.x) <= 4 ==> r == RoundReal(n.x)
    ensures n.Finite? && RoundReal(n.x) < 1 ==> r == 1
    ensures n.Finite? && RoundReal(n.x) > 4 ==> r == 4
  {
    if !n.Finite? then 2 else ClampToInt(Round(n), 1, 4)
  }

  /** `normalizeRow`: 0 for a non-finite value, otherwise the rounded value
      floored at 0. */
  function NormalizeRow(n: Number): (r: int)
    ensures r >= 0
    ensures !n.Finite? ==> r == 0
    ensures n.Finite? && RoundReal(n.x) >= 0 ==> r == RoundReal(n.x)
    ensures n.Finite? && RoundReal(n.x) < 0 ==> r == 0
  {
    if !n.Finite? then 0 else Max(0, RoundReal(n.x))
  }

  /** `normalizeCol`: 0 for a non-finite value, otherwise the rounded value
      clamped to `[0, max(1, COLS - normalizeSpan(span) + 1)]`. */
  function NormalizeCol(n: Number, span: Number): (r: int)
    ensures 0 <= r <= MaxColFor(NormalizeSpan(span))
    ensures !n.Finite? ==> r == 0
    ensures n.Finite? && 0 <= RoundReal(n.x) <= MaxColFor(NormalizeSpan(span)) ==> r == RoundReal(n.x)
    ensures n.Finite? && RoundReal(n.x) < 0 ==> r == 0
    ensures n.Finite? && RoundReal(n.x) > MaxColFor(NormalizeSpan(span)) ==> r == MaxColFor(NormalizeSpan(span))
  {
    if !n.Finite? then 0 else ClampToInt(Round(n), 0, MaxColFor(NormalizeSpan(span)))
  }

  /** The normalisers leave their own results unchanged. */
  lemma NormalizeFixpoints(span: int, row: int, col: int)
    requires 1 <= span <= 4 && row >= 0 && 0 <= col <= MaxColFor(span)
    ensures NormalizeSpan(Int(span)) == span
    ensures NormalizeRow(Int(row)) == row
    ensures NormalizeCol(Int(col), Int(span)) == col
  {
    assert RoundReal(span as real) == span;
    assert RoundReal(row as real) == row;
    assert RoundReal(col as real) == col;
  }

  /** An item as a stored object again. */
  function ToObj(it: Item): (o: Obj)
    ensures o.id == it.id && o.spec == it.spec
    ensures o.span == Int(it.span) && o.row == Int(it.row) && o.col == Int(it.col)
  {
    Obj(it.id, it.spec, Int(it.span), Int(it.row), Int(it.col), "")
  }

  function ToObjs(items: seq<Item>): (os: seq<Obj>)
    ensures |os| == |items|
    ensures forall i :: 0 <= i < |items| ==> os[i] == ToObj(items[i])
  {
    seq(|items|, i requires 0 <= i < |items| => ToObj(items[i]))
  }
}
