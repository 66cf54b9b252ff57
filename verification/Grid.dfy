/** Widgets, their slots on the grid, and the occupancy array both layout engines share:
    a flat row-major sequence of cells, `row * columns + col`. */
module Grid {

  datatype Size = Sm | Wide | Tall | Lg

  datatype Item = Item(id: string, size: Size)

  datatype Span = Span(w: int, h: int)

  datatype Slot = Slot(col: int, row: int, w: int, h: int)

  datatype Positioned = Positioned(item: Item, slot: Slot)

  function SizeMap(size: Size): Span {
    match size
    case Sm => Span(1, 1)
    case Wide => Span(2, 1)
    case Tall => Span(1, 2)
    case Lg => Span(2, 2)
  }

  /** One or two cells each way: wide and large items span two columns where there are two, tall and
      large ones two rows. */
  function SpanOf(item: Item, columns: int): (r: Span)
    ensures r.h == 2 <==> item.size in {Tall, Lg}
    ensures columns >= 2 ==> (r.w == 2 <==> item.size in {Wide, Lg})
    ensures columns >= 1 ==> 1 <= r.w <= 2 && r.w <= columns && 1 <= r.h <= 2
  {
    var s := SizeMap(item.size);
    Span(if s.w < columns then s.w else columns, s.h)
  }

  predicate Overlap(a: Slot, b: Slot) {
    && a.col < b.col + b.w
    && b.col < a.col + a.w
    && a.row < b.row + b.h
    && b.row < a.row + a.h
  }

  predicate Contains(outer: Slot, inner: Slot) {
    && inner.col >= outer.col
    && inner.row >= outer.row
    && inner.col + inner.w <= outer.col + outer.w
    && inner.row + inner.h <= outer.row + outer.h
  }

  /** A non-empty slot lying within `columns` columns and `rows` rows. */
  predicate Inside(s: Slot, columns: int, rows: int) {
    && 0 <= s.col && 0 <= s.row && 1 <= s.w && 1 <= s.h
    && s.col + s.w <= columns && s.row + s.h <= rows
  }

  ghost predicate AllDisjoint(ps: seq<Positioned>) {
    forall i, j :: 0 <= i < j < |ps| ==> !Overlap(ps[i].slot, ps[j].slot)
  }

  function Items(ps: seq<Positioned>): (r: seq<Item>)
    ensures |r| == |ps|
  {
    seq(|ps|, k requires 0 <= k < |ps| => ps[k].item)
  }

  // ---------- cells ----------

  /** Slot `s` covers cell `k` of a grid with `columns` columns. */
  predicate Covers(columns: int, s: Slot, k: int)
    requires columns >= 1
  {
    && s.row <= k / columns < s.row + s.h
    && s.col <= k % columns < s.col + s.w
  }

  function Marked(occupied: seq<bool>, columns: int, s: Slot, value: bool): (r: seq<bool>)
    requires columns >= 1
    ensures |r| == |occupied|
  {
    seq(|occupied|, k requires 0 <= k < |occupied| => if Covers(columns, s, k) then value else occupied[k])
  }

  /** The bounds test and the scan over the slot's cells. */
  predicate Fits(occupied: seq<bool>, columns: int, rows: int, s: Slot)
    requires columns >= 1
  {
    && s.col + s.w <= columns && s.row + s.h <= rows
    && forall k | 0 <= k < |occupied| && Covers(columns, s, k) :: !occupied[k]
  }

  function FreeFrom(occupied: seq<bool>, k: nat): (r: int)
    requires k <= |occupied|
    requires forall i :: 0 <= i < k ==> occupied[i]
    ensures -1 <= r < |occupied|
    ensures r >= 0 ==> !occupied[r] && forall i :: 0 <= i < r ==> occupied[i]
    ensures r < 0 ==> forall i :: 0 <= i < |occupied| ==> occupied[i]
    decreases |occupied| - k
  {
    if k == |occupied| then -1
    else if !occupied[k] then k
    else FreeFrom(occupied, k + 1)
  }

  /** `occupied.indexOf(false)` */
  function FirstFree(occupied: seq<bool>): (r: int)
    ensures -1 <= r < |occupied|
    ensures r >= 0 ==> !occupied[r] && forall i :: 0 <= i < r ==> occupied[i]
    ensures r < 0 ==> forall i :: 0 <= i < |occupied| ==> occupied[i]
  {
    FreeFrom(occupied, 0)
  }

  lemma {:induction false} CellAt(columns: int, row: int, col: int)
    requires columns >= 1 && 0 <= col < columns
    ensures (row * columns + col) / columns == row
    ensures (row * columns + col) % columns == col
  {
    var k := row * columns + col;
    var q, r := k / columns, k % columns;
    assert k == q * columns + r;
    if q < row { MulGap(row, q, columns); }
    if row < q { MulGap(q, row, columns); }
  }

  lemma {:induction false} MulGap(a: int, b: int, c: int)
    requires a >= b + 1 && c >= 1
    ensures a * c >= b * c + c
  {
    assert (a - b - 1) * c >= 0;
  }

  lemma {:induction false} CellInRange(columns: int, rows: int, row: int, col: int)
    requires 0 <= col < columns && 0 <= row < rows
    ensures 0 <= row * columns + col < rows * columns
  {
    MulGap(rows, row, columns);
    assert row * columns >= 0;
  }

  lemma {:induction false} CellSplit(columns: int, k: int)
    requires columns >= 1
    ensures (k / columns) * columns + k % columns == k
    ensures 0 <= k % columns < columns
  {
  }

  lemma {:induction false} CellRow(columns: int, rows: int, k: int)
    requires columns >= 1 && 0 <= k < rows * columns
    ensures 0 <= k / columns < rows
  {
    if rows < k / columns { MulGap(k / columns, rows, columns); }
  }

  /** Two slots of the grid overlap exactly when they share a cell. */
  lemma {:induction false} OverlapIffShareCell(columns: int, rows: int, a: Slot, b: Slot)
    requires columns >= 1 && Inside(a, columns, rows) && Inside(b, columns, rows)
    ensures Overlap(a, b) <==> exists k :: 0 <= k < rows * columns && Covers(columns, a, k) && Covers(columns, b, k)
  {
    if Overlap(a, b) {
      var row := if a.row > b.row then a.row else b.row;
      var col := if a.col > b.col then a.col else b.col;
      CellAt(columns, row, col);
      CellInRange(columns, rows, row, col);
      assert Covers(columns, a, row * columns + col) && Covers(columns, b, row * columns + col);
    }
  }

  /** A slot of the grid contains another exactly when it covers all its cells. */
  lemma {:induction false} ContainsIffCells(columns: int, rows: int, outer: Slot, inner: Slot)
    requires columns >= 1 && Inside(outer, columns, rows) && Inside(inner, columns, rows)
    ensures Contains(outer, inner) <==> forall k :: 0 <= k < rows * columns && Covers(columns, inner, k) ==> Covers(columns, outer, k)
  {
    if forall k :: 0 <= k < rows * columns && Covers(columns, inner, k) ==> Covers(columns, outer, k) {
      CellAt(columns, inner.row, inner.col);
      CellInRange(columns, rows, inner.row, inner.col);
      assert Covers(columns, outer, inner.row * columns + inner.col);
      var row, col := inner.row + inner.h - 1, inner.col + inner.w - 1;
      CellAt(columns, row, col);
      CellInRange(columns, rows, row, col);
      assert Covers(columns, outer, row * columns + col);
    }
  }

  /** Clearing what was marked on free cells restores the array. */
  lemma {:induction false} UnmarkRestores(occupied: seq<bool>, columns: int, rows: int, s: Slot)
    requires columns >= 1 && Fits(occupied, columns, rows, s)
    ensures Marked(Marked(occupied, columns, s, true), columns, s, false) == occupied
  {
  }
}
