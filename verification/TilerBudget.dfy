/** How much of its budget the search can use, and when that is never all of it. */
module TilerBudget {
  import opened Wrappers
  import opened Grid
  import opened Tiler
  import opened TilerProofs
  import opened TilerTheorems
  import opened GaplessTilings

  /** The calls of `place` with `depth` items left to place, one trial a shape at each. */
  function Calls(shapes: nat, depth: nat): nat {
    if depth == 0 then 0 else 1 + shapes * Calls(shapes, depth - 1)
  }

  function Shapes(b: Board): set<Span> {
    set i | 0 <= i < |b.sizes| :: b.sizes[i]
  }

  /** A call never tries one shape twice, so it spends no more than the search tree over shapes. */
  lemma {:induction false} SearchSpends(b: Board, occupied: seq<bool>, used: seq<bool>, index: nat, budget: int)
    requires WellFormed(b) && |used| == |b.sizes| && index <= |used|
    ensures Search(b, occupied, used, index, budget).budget >= budget - Calls(|Shapes(b)|, |used| - index)
    decreases |used| - index, |used| + 1
  {
    if index < |used| && budget >= 1 && FirstFree(occupied) >= 0 {
      hide Shapes;
      assert Shapes(b) - {} == Shapes(b);
      TrySpends(b, occupied, used, index, budget - 1, 0, {});
    }
  }

  lemma {:induction false} TrySpends(b: Board, occupied: seq<bool>, used: seq<bool>, index: nat, budget: int, i: nat, tried: set<Span>)
    requires WellFormed(b) && |used| == |b.sizes| && index < |used| && i <= |used|
    requires FirstFree(occupied) >= 0
    ensures Try(b, occupied, used, index, budget, i, tried).budget >=
            budget - |Shapes(b) - tried| * Calls(|Shapes(b)|, |used| - index - 1)
    decreases |used| - index, |used| - i
  {
    hide Calls, Fits, Marked, SlotAt, FirstFree;
    var calls := Calls(|Shapes(b)|, |used| - index - 1);
    if i < |used| {
      var s := SlotAt(b, FirstFree(occupied), b.sizes[i]);
      if used[i] || b.sizes[i] in tried || !Fits(occupied, b.columns, b.rows, s) {
        TrySpends(b, occupied, used, index, budget, i + 1, tried);
      } else {
        var inner := Search(b, Marked(occupied, b.columns, s, true), used[i := true], index + 1, budget);
        SearchSpends(b, Marked(occupied, b.columns, s, true), used[i := true], index + 1, budget);
        TrySpends(b, occupied, used, index, inner.budget, i + 1, tried + {b.sizes[i]});
        OneShapeLess(b, tried, b.sizes[i]);
        OneFewer(|Shapes(b) - tried|, calls);
      }
    }
  }

  lemma {:induction false} OneShapeLess(b: Board, tried: set<Span>, shape: Span)
    requires shape in b.sizes && shape !in tried
    ensures |Shapes(b) - (tried + {shape})| == |Shapes(b) - tried| - 1
  {
    assert Shapes(b) - tried == (Shapes(b) - (tried + {shape})) + {shape};
  }

  lemma {:induction false} OneFewer(n: int, c: int)
    ensures n * c == c + (n - 1) * c
  {
  }

  lemma {:induction false} FourShapes(items: seq<Item>, columns: int)
    requires columns >= 1
    ensures |Shapes(BoardFor(items, columns))| <= 4
  {
    var shapes, all := Shapes(BoardFor(items, columns)), {Span(1, 1), Span(2, 1), Span(1, 2), Span(2, 2)};
    assert shapes <= all;
    assert all == shapes + (all - shapes);
  }

  lemma {:induction false} CallsGrow(m: nat, n: nat, d: nat, e: nat)
    requires m <= n && d <= e
    ensures Calls(m, d) <= Calls(n, e)
    decreases e
  {
    if d > 0 {
      CallsGrow(m, n, d - 1, e - 1);
      LargerProduct(m, n, Calls(m, d - 1), Calls(n, e - 1));
    }
  }

  lemma {:induction false} LargerProduct(a: nat, b: nat, c: nat, d: nat)
    requires a <= b && c <= d
    ensures a * c <= b * d
  {
    assert a * c <= a * d <= b * d;
  }

  /** With at most seven items the budget never runs out. */
  lemma {:induction false} SevenItemsFit(items: seq<Item>, columns: int)
    requires columns >= 1 && 0 < |items| <= 7
    ensures SearchFor(items, columns).budget >= 0
  {
    var b, n := BoardFor(items, columns), |items|;
    SearchSpends(b, Clear(Cells(b)), Clear(n), 0, BUDGET);
    FourShapes(items, columns);
    CallsGrow(|Shapes(b)|, 4, n, 7);
    SevenDeep();
  }

  lemma {:induction false} SevenDeep()
    ensures Calls(4, 7) == 5461
  {
    assert Calls(4, 3) == 21;
    assert Calls(4, 5) == 341;
  }

  /** So for them the tiler finds a tiling exactly if a gapless placement of the items exists. */
  lemma {:induction false} SevenItemsDecided(items: seq<Item>, columns: int)
    requires columns >= 1 && 0 < |items| <= 7
    ensures Tiling(items, columns).Some? <==>
            exists order, ps :: Orders(items, order, ps) && Listed(columns, BoardFor(items, columns).rows, ps) && Gapless(columns, ps)
  {
    hide Listed, Gapless, Tiling, Search;
    SevenItemsFit(items, columns);
    if Tiling(items, columns).Some? {
      var ps := Tiling(items, columns).value;
      var order := TileKeepsShapeOrder(items, columns);
      assert Orders(items, order, ps);
      TilingIsGapless(items, columns);
    } else if order, ps :| Orders(items, order, ps) && Listed(columns, BoardFor(items, columns).rows, ps) && Gapless(columns, ps) {
      GaplessCompletes(items, columns, order, ps);
      TileComplete(items, columns, order);
    }
  }

  lemma {:induction false} TilingIsGapless(items: seq<Item>, columns: int)
    requires columns >= 1 && |items| > 0 && Tiling(items, columns).Some?
    ensures var ps := Tiling(items, columns).value;
            Listed(columns, BoardFor(items, columns).rows, ps) && Gapless(columns, ps)
  {
    hide Tiling;
    var ps := Tiling(items, columns).value;
    TileSound(items, columns);
    forall n, cell | 0 <= n < |ps| && 0 <= cell < Origin(columns, ps[n].slot) ensures Taken(columns, ps, n, cell) {
      TileLeavesNoGap(items, columns, n, cell);
    }
  }
}
