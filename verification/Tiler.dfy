/** The budgeted backtracking tiler: what the search computes, as a function of the
    occupancy array, the used flags and the remaining budget. */
module Tiler {
  import opened Wrappers
  import opened Grid

  const BUDGET := 20000

  datatype Board = Board(columns: int, rows: int, sizes: seq<Span>)

  predicate WellFormed(b: Board) {
    && b.columns >= 1 && b.rows >= 1
    && forall i | 0 <= i < |b.sizes| :: 1 <= b.sizes[i].w <= b.columns && 1 <= b.sizes[i].h
  }

  function SlotAt(b: Board, cell: int, size: Span): Slot
    requires b.columns >= 1
  {
    Slot(cell % b.columns, cell / b.columns, size.w, size.h)
  }

  function Area(sizes: seq<Span>): int {
    if |sizes| == 0 then 0 else sizes[0].w * sizes[0].h + Area(sizes[1..])
  }

  function RowsFor(sizes: seq<Span>, columns: int): int
    requires columns >= 1
  {
    var ceiling := (Area(sizes) + columns - 1) / columns;
    if ceiling > 1 then ceiling else 1
  }

  function Spans(items: seq<Item>, columns: int): (r: seq<Span>)
    ensures |r| == |items|
  {
    seq(|items|, k requires 0 <= k < |items| => SpanOf(items[k], columns))
  }

  function BoardFor(items: seq<Item>, columns: int): (b: Board)
    requires columns >= 1
    ensures WellFormed(b) && |b.sizes| == |items|
  {
    var sizes := Spans(items, columns);
    Board(columns, RowsFor(sizes, columns), sizes)
  }

  // ---------- the simple meaning: an order of the items, each at the first free cell ----------

  /** Placing the unused items in this order, each at the first free cell, fits. */
  predicate Completes(b: Board, occupied: seq<bool>, used: seq<bool>, order: seq<int>)
    requires WellFormed(b) && |used| == |b.sizes|
    decreases |order|
  {
    |order| == 0 ||
    ( && FirstFree(occupied) >= 0
      && 0 <= order[0] < |used|
      && !used[order[0]]
      && Fits(occupied, b.columns, b.rows, SlotAt(b, FirstFree(occupied), b.sizes[order[0]]))
      && Completes(b, Marked(occupied, b.columns, SlotAt(b, FirstFree(occupied), b.sizes[order[0]]), true),
                   used[order[0] := true], order[1..]))
  }

  /** The positions such an order produces. */
  function Placed(b: Board, items: seq<Item>, occupied: seq<bool>, used: seq<bool>, order: seq<int>): (ps: seq<Positioned>)
    requires WellFormed(b) && |used| == |b.sizes| == |items|
    requires Completes(b, occupied, used, order)
    ensures |ps| == |order|
    decreases |order|
  {
    if |order| == 0 then
      []
    else
      var s := SlotAt(b, FirstFree(occupied), b.sizes[order[0]]);
      [Positioned(items[order[0]], s)] +
      Placed(b, items, Marked(occupied, b.columns, s, true), used[order[0] := true], order[1..])
  }

  // ---------- the search itself ----------

  datatype Outcome = Outcome(order: Option<seq<int>>, budget: int)

  /** `place(index)` */
  function Search(b: Board, occupied: seq<bool>, used: seq<bool>, index: nat, budget: int): (r: Outcome)
    requires WellFormed(b) && |used| == |b.sizes| && index <= |used|
    ensures r.budget <= budget
    ensures r.order.Some? && index < |used| ==> 0 <= r.budget
    ensures r.order.Some? ==>
              && |r.order.value| == |used| - index <= budget - r.budget
              && Completes(b, occupied, used, r.order.value)
    decreases |used| - index, |used| + 1
  {
    if index == |used| then
      Outcome(Some([]), budget)
    else if budget - 1 < 0 then
      Outcome(None, budget - 1)
    else if FirstFree(occupied) < 0 then
      Outcome(None, budget - 1)
    else
      Try(b, occupied, used, index, budget - 1, 0, {})
  }

  /** The loop over the items inside `place(index)`, from item `i` on. */
  function Try(b: Board, occupied: seq<bool>, used: seq<bool>, index: nat, budget: int, i: nat, tried: set<Span>): (r: Outcome)
    requires WellFormed(b) && |used| == |b.sizes| && index < |used| && i <= |used|
    requires FirstFree(occupied) >= 0
    ensures r.budget <= budget
    ensures r.order.Some? && (index + 1 < |used| || 0 <= budget) ==> 0 <= r.budget
    ensures r.order.Some? ==>
              && |r.order.value| == |used| - index <= budget + 1 - r.budget
              && Completes(b, occupied, used, r.order.value)
    decreases |used| - index, |used| - i
  {
    if i == |used| then
      Outcome(None, budget)
    else
      var s := SlotAt(b, FirstFree(occupied), b.sizes[i]);
      if used[i] || b.sizes[i] in tried || !Fits(occupied, b.columns, b.rows, s) then
        Try(b, occupied, used, index, budget, i + 1, tried)
      else
        var inner := Search(b, Marked(occupied, b.columns, s, true), used[i := true], index + 1, budget);
        if inner.order.Some? then
          Outcome(Some([i] + inner.order.value), inner.budget)
        else
          Try(b, occupied, used, index, inner.budget, i + 1, tried + {b.sizes[i]})
  }

  function Clear(n: nat): (r: seq<bool>)
    ensures |r| == n
  {
    seq(n, _ => false)
  }

  function Cells(b: Board): (n: nat)
    requires WellFormed(b)
    ensures n == b.rows * b.columns
  {
    assert b.rows * b.columns >= 0;
    b.rows * b.columns
  }

  function SearchFor(items: seq<Item>, columns: int): Outcome
    requires columns >= 1
  {
    var b := BoardFor(items, columns);
    Search(b, Clear(Cells(b)), Clear(|items|), 0, BUDGET)
  }

  /** What `tile(items, columns)` returns. */
  function Tiling(items: seq<Item>, columns: int): Option<seq<Positioned>> {
    if |items| == 0 || columns < 1 then
      Some([])
    else
      var b := BoardFor(items, columns);
      var r := SearchFor(items, columns);
      if r.order.Some? then
        Some(Placed(b, items, Clear(Cells(b)), Clear(|items|), r.order.value))
      else
        None
  }

  // ---------- completeness: pruning by shape loses no solution ----------

  function SwapIndex(k: int, i: int, j: int): int {
    if k == i then j else if k == j then i else k
  }

  function SwapOrder(order: seq<int>, i: int, j: int): (r: seq<int>)
    ensures |r| == |order|
  {
    seq(|order|, k requires 0 <= k < |order| => SwapIndex(order[k], i, j))
  }

  /** Two items of the same shape can trade places in any completing order. */
  lemma {:induction false} SameShapeSwap(b: Board, occupied: seq<bool>, used: seq<bool>, order: seq<int>, i: int, j: int)
    requires WellFormed(b) && |used| == |b.sizes|
    requires 0 <= i < |used| && 0 <= j < |used| && b.sizes[i] == b.sizes[j]
    requires Completes(b, occupied, used, order)
    ensures Completes(b, occupied, used[i := used[j]][j := used[i]], SwapOrder(order, i, j))
    decreases |order|
  {
    if |order| > 0 {
      var s := SlotAt(b, FirstFree(occupied), b.sizes[order[0]]);
      var used' := used[order[0] := true];
      SameShapeSwap(b, Marked(occupied, b.columns, s, true), used', order[1..], i, j);
      var swapped := used[i := used[j]][j := used[i]];
      assert used'[i := used'[j]][j := used'[i]] == swapped[SwapIndex(order[0], i, j) := true];
      assert SwapOrder(order, i, j)[1..] == SwapOrder(order[1..], i, j);
    }
  }

  /** Completeness of the search: a failure within budget means that no order completes. */
  lemma {:induction false} SearchComplete(b: Board, occupied: seq<bool>, used: seq<bool>, index: nat, budget: int, order: seq<int>)
    requires WellFormed(b) && |used| == |b.sizes| && index <= |used|
    requires Search(b, occupied, used, index, budget).order.None?
    requires Search(b, occupied, used, index, budget).budget >= 0
    requires |order| == |used| - index
    ensures !Completes(b, occupied, used, order)
    decreases |used| - index, |used| + 1
  {
    if FirstFree(occupied) >= 0 && 0 <= order[0] {
      TryComplete(b, occupied, used, index, budget - 1, 0, {}, order);
    }
  }

  lemma {:induction false} TryComplete(b: Board, occupied: seq<bool>, used: seq<bool>, index: nat, budget: int,
                                       i: nat, tried: set<Span>, order: seq<int>)
    requires WellFormed(b) && |used| == |b.sizes| && index < |used| && i <= |used|
    requires FirstFree(occupied) >= 0
    requires Try(b, occupied, used, index, budget, i, tried).order.None?
    requires Try(b, occupied, used, index, budget, i, tried).budget >= 0
    requires |order| == |used| - index && i <= order[0]
    requires order[0] < |used| ==> b.sizes[order[0]] !in tried
    ensures !Completes(b, occupied, used, order)
    decreases |used| - index, |used| - i
  {
    if i < |used| && order[0] < |used| {
      var s := SlotAt(b, FirstFree(occupied), b.sizes[i]);
      if used[i] || b.sizes[i] in tried || !Fits(occupied, b.columns, b.rows, s) {
        if i < order[0] {
          TryComplete(b, occupied, used, index, budget, i + 1, tried, order);
        }
      } else {
        var occupied', used' := Marked(occupied, b.columns, s, true), used[i := true];
        var inner := Search(b, occupied', used', index + 1, budget);
        if b.sizes[order[0]] != b.sizes[i] {
          TryComplete(b, occupied, used, index, inner.budget, i + 1, tried + {b.sizes[i]}, order);
        } else if Completes(b, occupied, used, order) {
          SameShapeSwap(b, occupied, used, order, i, order[0]);
          var order' := SwapOrder(order, i, order[0]);
          assert order'[0] == i;
          assert used[i := used[order[0]]][order[0] := used[i]] == used;
          SearchComplete(b, occupied', used', index + 1, budget, order'[1..]);
          assert false;
        }
      }
    }
  }
}
