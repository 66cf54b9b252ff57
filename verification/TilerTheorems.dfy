/** The tiler's contract: a success is a first-free tiling of exactly the given items, a
    failure within budget is final, and a tiling read back in its own order is retraced
    step by step. */
module TilerTheorems {
  import opened Wrappers
  import opened Grid
  import opened Tiler
  import opened TilerProofs

  lemma {:induction false} PlacedAt(b: Board, items: seq<Item>, occupied: seq<bool>, used: seq<bool>, order: seq<int>, k: nat)
    requires WellFormed(b) && |used| == |b.sizes| == |items|
    requires Completes(b, occupied, used, order) && k < |order|
    ensures 0 <= order[k] < |items|
    ensures var p := Placed(b, items, occupied, used, order)[k];
            p.item == items[order[k]] && Span(p.slot.w, p.slot.h) == b.sizes[order[k]]
    decreases |order|
  {
    if k > 0 {
      var s := SlotAt(b, FirstFree(occupied), b.sizes[order[0]]);
      PlacedAt(b, items, Marked(occupied, b.columns, s, true), used[order[0] := true], order[1..], k - 1);
    }
  }

  /** Slots in strict row-major order. */
  ghost predicate RowMajor(columns: int, ps: seq<Positioned>) {
    forall i, j :: 0 <= i < j < |ps| ==> Origin(columns, ps[i].slot) < Origin(columns, ps[j].slot)
  }

  /** Which input item went to each output position: a bijection keeping same-shape items in order. */
  ghost predicate Arranges(items: seq<Item>, columns: int, order: seq<int>, ps: seq<Positioned>) {
    && |order| == |ps| == |items|
    && (forall k :: 0 <= k < |order| ==> 0 <= order[k] < |items| && ps[k].item == items[order[k]])
    && (forall j, k :: 0 <= j < k < |order| ==> order[j] != order[k])
    && (forall j, k | 0 <= j < k < |order| && SpanOf(ps[j].item, columns) == SpanOf(ps[k].item, columns) :: order[j] < order[k])
  }

  lemma {:induction false} IncreasingFrom(b: Board, items: seq<Item>, occupied: seq<bool>, used: seq<bool>, order: seq<int>, i: nat, j: nat)
    requires WellFormed(b) && |used| == |b.sizes| == |items| && |occupied| == Cells(b)
    requires Completes(b, occupied, used, order) && i < j < |order|
    ensures var ps := Placed(b, items, occupied, used, order);
            Origin(b.columns, ps[i].slot) < Origin(b.columns, ps[j].slot)
    decreases |order|
  {
    if i == 0 {
      PlacedIncreasing(b, items, occupied, used, order, j);
    } else {
      var s := SlotAt(b, FirstFree(occupied), b.sizes[order[0]]);
      IncreasingFrom(b, items, Marked(occupied, b.columns, s, true), used[order[0] := true], order[1..], i - 1, j - 1);
    }
  }

  /** Success: the items exactly, each at its own span, on the board, disjoint, row-major. */
  lemma {:induction false} TileSound(items: seq<Item>, columns: int)
    requires columns >= 1 && |items| > 0 && Tiling(items, columns).Some?
    ensures var ps, rows := Tiling(items, columns).value, BoardFor(items, columns).rows;
            && multiset(Items(ps)) == multiset(items)
            && (forall k :: 0 <= k < |ps| ==> Inside(ps[k].slot, columns, rows)
                                              && Span(ps[k].slot.w, ps[k].slot.h) == SpanOf(ps[k].item, columns))
            && AllDisjoint(ps)
            && RowMajor(columns, ps)
  {
    var b := BoardFor(items, columns);
    var blank, fresh' := Clear(Cells(b)), Clear(|items|);
    var order := SearchFor(items, columns).order.value;
    var ps := Tiling(items, columns).value;
    UnusedClear(items);
    PlacedUses(b, items, blank, fresh', order);
    forall k | 0 <= k < |ps|
      ensures Inside(ps[k].slot, columns, b.rows) && Span(ps[k].slot.w, ps[k].slot.h) == SpanOf(ps[k].item, columns)
    {
      PlacedInside(b, items, blank, fresh', order, k);
      PlacedAt(b, items, blank, fresh', order, k);
    }
    forall i, j | 0 <= i < j < |ps|
      ensures !Overlap(ps[i].slot, ps[j].slot) && Origin(columns, ps[i].slot) < Origin(columns, ps[j].slot)
    {
      PlacedDisjoint(b, items, blank, fresh', order, i, j);
      IncreasingFrom(b, items, blank, fresh', order, i, j);
    }
  }

  /** Success fills the grid from the top: no gap before any origin. */
  lemma {:induction false} TileLeavesNoGap(items: seq<Item>, columns: int, n: nat, cell: int)
    requires columns >= 1 && |items| > 0 && Tiling(items, columns).Some?
    requires n < |Tiling(items, columns).value|
    requires 0 <= cell < Origin(columns, Tiling(items, columns).value[n].slot)
    ensures var ps := Tiling(items, columns).value;
            exists j :: 0 <= j < n && Covers(columns, ps[j].slot, cell)
  {
    var b := BoardFor(items, columns);
    var blank := Clear(Cells(b));
    PlacedCoversBefore(b, items, blank, Clear(|items|), SearchFor(items, columns).order.value, n);
    assert !blank[cell];
  }

  /** Success is a bijection that keeps same-shape items in input order. */
  lemma {:induction false} TileKeepsShapeOrder(items: seq<Item>, columns: int) returns (order: seq<int>)
    requires columns >= 1 && |items| > 0 && Tiling(items, columns).Some?
    ensures Arranges(items, columns, order, Tiling(items, columns).value)
  {
    var b := BoardFor(items, columns);
    var blank, fresh' := Clear(Cells(b)), Clear(|items|);
    order := SearchFor(items, columns).order.value;
    OrderFresh(b, blank, fresh', order);
    SearchFirstOfShape(b, blank, fresh', 0, BUDGET);
    FirstOfShapeIncreasing(b, blank, fresh', order);
    var ps := Tiling(items, columns).value;
    forall k | 0 <= k < |order| ensures ps[k].item == items[order[k]] {
      PlacedAt(b, items, blank, fresh', order, k);
    }
  }

  /** Failure within budget: no order of the items, each placed at the first free cell, fits. */
  lemma {:induction false} TileComplete(items: seq<Item>, columns: int, order: seq<int>)
    requires columns >= 1 && |items| > 0
    requires Tiling(items, columns).None? && SearchFor(items, columns).budget >= 0
    requires |order| == |items|
    ensures var b := BoardFor(items, columns);
            !Completes(b, Clear(Cells(b)), Clear(|items|), order)
  {
    var b := BoardFor(items, columns);
    SearchComplete(b, Clear(Cells(b)), Clear(|items|), 0, BUDGET, order);
  }

  // ---------- the normal form ----------

  function Range(k: nat, n: nat): (r: seq<int>)
    requires k <= n
    ensures |r| == n - k
  {
    seq(n - k, i => k + i)
  }

  lemma {:induction false} SkipUsed(b: Board, occupied: seq<bool>, used: seq<bool>, k: nat, budget: int, i: nat)
    requires WellFormed(b) && |used| == |b.sizes| && i <= k < |used| && FirstFree(occupied) >= 0
    requires forall j :: 0 <= j < k ==> used[j]
    ensures Try(b, occupied, used, k, budget, i, {}) == Try(b, occupied, used, k, budget, k, {})
    decreases k - i
  {
    if i < k {
      SkipUsed(b, occupied, used, k, budget, i + 1);
    }
  }

  /** The board and items of a retrace: the shapes of `order` in sequence, from position `k` on. */
  ghost predicate Reorders(b: Board, items: seq<Item>, order: seq<int>, b': Board, sorted: seq<Item>, k: nat) {
    && |items| == |b.sizes| == |b'.sizes| == |sorted| == k + |order|
    && b'.columns == b.columns && b'.rows == b.rows
    && forall m :: 0 <= m < |order| ==> 0 <= order[m] < |items|
                                        && b'.sizes[k + m] == b.sizes[order[m]] && sorted[k + m] == items[order[m]]
  }

  lemma {:induction false} Retrace(b: Board, items: seq<Item>, occupied: seq<bool>, used: seq<bool>, order: seq<int>,
                                   b': Board, sorted: seq<Item>, used': seq<bool>, k: nat, budget: int)
    requires WellFormed(b) && WellFormed(b') && |used| == |used'| == |items|
    requires Reorders(b, items, order, b', sorted, k)
    requires Completes(b, occupied, used, order)
    requires forall j :: 0 <= j < |used'| ==> (used'[j] <==> j < k)
    requires budget >= |order|
    ensures Search(b', occupied, used', k, budget) == Outcome(Some(Range(k, |items|)), budget - |order|)
    ensures Placed(b', sorted, occupied, used', Range(k, |items|)) == Placed(b, items, occupied, used, order)
    decreases |order|
  {
    if |order| == 0 {
      assert Range(k, |items|) == [];
    } else {
      var s := SlotAt(b, FirstFree(occupied), b.sizes[order[0]]);
      assert b'.sizes[k + 0] == b.sizes[order[0]];
      assert s == SlotAt(b', FirstFree(occupied), b'.sizes[k]);
      var marked := Marked(occupied, b.columns, s, true);
      forall m | 0 <= m < |order[1..]|
        ensures b'.sizes[k + 1 + m] == b.sizes[order[1..][m]] && sorted[k + 1 + m] == items[order[1..][m]]
      {
        assert order[1..][m] == order[m + 1];
        assert b'.sizes[k + (m + 1)] == b.sizes[order[m + 1]];
      }
      Retrace(b, items, marked, used[order[0] := true], order[1..], b', sorted, used'[k := true], k + 1, budget - 1);
      SkipUsed(b', occupied, used', k, budget - 1, 0);
      assert Range(k, |items|) == [k] + Range(k + 1, |items|);
      assert Range(k, |items|)[1..] == Range(k + 1, |items|);
    }
  }

  function Remove<T>(xs: seq<T>, j: nat): (r: seq<T>)
    requires j < |xs|
    ensures multiset(r) == multiset(xs) - multiset{xs[j]}
  {
    assert xs == xs[..j] + [xs[j]] + xs[j + 1..];
    xs[..j] + xs[j + 1..]
  }

  lemma {:induction false} AreaRemove(sizes: seq<Span>, j: nat)
    requires j < |sizes|
    ensures Area(sizes) == sizes[j].w * sizes[j].h + Area(Remove(sizes, j))
  {
    if j == 0 {
      assert Remove(sizes, 0) == sizes[1..];
    } else {
      AreaRemove(sizes[1..], j - 1);
      assert Remove(sizes, j)[1..] == Remove(sizes[1..], j - 1);
    }
  }

  lemma {:induction false} SpansRemove(items: seq<Item>, columns: int, j: nat)
    requires j < |items|
    ensures Spans(Remove(items, j), columns) == Remove(Spans(items, columns), j)
  {
  }

  /** The area, and so the number of rows, does not depend on the order. */
  lemma {:induction false} AreaPermutes(xs: seq<Item>, ys: seq<Item>, columns: int)
    requires multiset(xs) == multiset(ys)
    ensures Area(Spans(xs, columns)) == Area(Spans(ys, columns))
  {
    assert |multiset(xs)| == |multiset(ys)|;
    if |xs| > 0 {
      assert xs[0] in multiset(ys);
      var j :| 0 <= j < |ys| && ys[j] == xs[0];
      AreaPermutes(Remove(xs, 0), Remove(ys, j), columns);
      SpansRemove(xs, columns, 0);
      SpansRemove(ys, columns, j);
      AreaRemove(Spans(xs, columns), 0);
      AreaRemove(Spans(ys, columns), j);
    }
  }

  lemma {:induction false} AreaPositive(sizes: seq<Span>)
    requires forall k :: 0 <= k < |sizes| ==> sizes[k].w >= 1 && sizes[k].h >= 1
    ensures Area(sizes) >= |sizes|
    decreases |sizes|
  {
    if |sizes| > 0 {
      AreaPositive(sizes[1..]);
      assert sizes[0].w * sizes[0].h >= 1;
    }
  }

  /** The board has the least number of whole rows that hold the items. */
  lemma {:induction false} BoardIsLeast(items: seq<Item>, columns: int)
    requires columns >= 1 && |items| > 0
    ensures var rows := BoardFor(items, columns).rows;
            rows >= 1 && (rows - 1) * columns < Area(Spans(items, columns)) <= rows * columns
    ensures forall k :: 0 <= k < |items| ==> Spans(items, columns)[k] == SpanOf(items[k], columns)
  {
    var area := Area(Spans(items, columns));
    AreaPositive(Spans(items, columns));
    var rows := (area + columns - 1) / columns;
    assert rows * columns <= area + columns - 1 < rows * columns + columns by { CellSplit(columns, area + columns - 1); }
    if rows < 1 { MulGap(1, rows, columns); }
  }

  /** A tiling is a fixed point: its own output order reproduces it with no backtracking,
      one `place` call an item. */
  lemma {:induction false} TileFixpoint(items: seq<Item>, columns: int)
    requires columns >= 1 && |items| > 0 && Tiling(items, columns).Some?
    ensures var ps := Tiling(items, columns).value;
            && Tiling(Items(ps), columns) == Some(ps)
            && SearchFor(Items(ps), columns) == Outcome(Some(Range(0, |ps|)), BUDGET - |ps|)
  {
    var b := BoardFor(items, columns);
    var blank, fresh' := Clear(Cells(b)), Clear(|items|);
    var order := SearchFor(items, columns).order.value;
    var ps := Tiling(items, columns).value;
    TileSound(items, columns);
    AreaPermutes(items, Items(ps), columns);
    var b' := BoardFor(Items(ps), columns);
    assert b'.rows == b.rows;
    forall m | 0 <= m < |order|
      ensures 0 <= order[m] < |items| && b'.sizes[0 + m] == b.sizes[order[m]] && Items(ps)[0 + m] == items[order[m]]
    {
      PlacedAt(b, items, blank, fresh', order, m);
    }
    Retrace(b, items, blank, fresh', order, b', Items(ps), fresh', 0, BUDGET);
  }
}
