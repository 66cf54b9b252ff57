/** Which placements the tiler can return: exactly those that fill the grid from the top, each
    slot's origin at the first cell its predecessors leave free. */
module GaplessTilings {
  import opened Wrappers
  import opened Grid
  import opened Tiler
  import opened TilerProofs
  import opened TilerTheorems
  import ExactTilings

  /** One of the first `n` slots covers the cell. */
  ghost predicate Taken(columns: int, ps: seq<Positioned>, n: int, cell: int)
    requires columns >= 1 && n <= |ps|
  {
    exists j :: 0 <= j < n && Covers(columns, ps[j].slot, cell)
  }

  /** No cell before an origin is left free. */
  ghost predicate Gapless(columns: int, ps: seq<Positioned>)
    requires columns >= 1
  {
    forall n, cell :: 0 <= n < |ps| && 0 <= cell < Origin(columns, ps[n].slot) ==> Taken(columns, ps, n, cell)
  }

  /** Disjoint slots on the board, each its item's span, listed by position. */
  ghost predicate Listed(columns: int, rows: int, ps: seq<Positioned>) {
    && (forall k :: 0 <= k < |ps| ==> Inside(ps[k].slot, columns, rows)
                                      && Span(ps[k].slot.w, ps[k].slot.h) == SpanOf(ps[k].item, columns))
    && AllDisjoint(ps)
    && RowMajor(columns, ps)
  }

  /** `order` names the items of `ps`, each once. */
  ghost predicate Orders(items: seq<Item>, order: seq<int>, ps: seq<Positioned>) {
    && |order| == |ps| == |items|
    && (forall k :: 0 <= k < |order| ==> 0 <= order[k] < |items| && ps[k].item == items[order[k]])
    && (forall j, k :: 0 <= j < k < |order| ==> order[j] != order[k])
  }

  lemma {:induction false} NextIsFree(b: Board, ps: seq<Positioned>, k: nat, c: int)
    requires WellFormed(b) && Listed(b.columns, b.rows, ps) && k < |ps| && 0 <= c < Cells(b) && Covers(b.columns, ps[k].slot, c)
    ensures !Taken(b.columns, ps, k, c)
  {
    hide Covers;
    forall j | 0 <= j < k ensures !Covers(b.columns, ps[j].slot, c) {
      assert !Overlap(ps[j].slot, ps[k].slot);
      OverlapIffShareCell(b.columns, b.rows, ps[j].slot, ps[k].slot);
    }
  }

  /** The next slot starts at the first free cell, over free cells only. */
  lemma {:induction false} NextSlot(b: Board, ps: seq<Positioned>, k: nat, occupied: seq<bool>)
    requires WellFormed(b) && Listed(b.columns, b.rows, ps) && Gapless(b.columns, ps) && k < |ps| && |occupied| == Cells(b)
    requires forall c :: 0 <= c < |occupied| ==> (occupied[c] <==> Taken(b.columns, ps, k, c))
    ensures 0 <= FirstFree(occupied) == Origin(b.columns, ps[k].slot)
    ensures SlotAt(b, FirstFree(occupied), Span(ps[k].slot.w, ps[k].slot.h)) == ps[k].slot
    ensures Fits(occupied, b.columns, b.rows, ps[k].slot)
  {
    hide Taken, Covers, AllDisjoint, RowMajor;
    var s := ps[k].slot;
    var origin := Origin(b.columns, s);
    assert Inside(s, b.columns, b.rows);
    ExactTilings.OriginCell(b, s);
    forall c | 0 <= c < |occupied| && Covers(b.columns, s, c) ensures !occupied[c] { NextIsFree(b, ps, k, c); }
    assert !occupied[origin];
    forall c | 0 <= c < origin ensures occupied[c] { assert Taken(b.columns, ps, k, c); }
    hide Gapless, Listed, Origin;
    assert FirstFree(occupied) == origin;
  }

  lemma {:induction false} TakenNext(b: Board, ps: seq<Positioned>, k: nat, occupied: seq<bool>)
    requires WellFormed(b) && k < |ps|
    requires forall c :: 0 <= c < |occupied| ==> (occupied[c] <==> Taken(b.columns, ps, k, c))
    ensures var marked := Marked(occupied, b.columns, ps[k].slot, true);
            forall c :: 0 <= c < |marked| ==> (marked[c] <==> Taken(b.columns, ps, k + 1, c))
  {
    var marked := Marked(occupied, b.columns, ps[k].slot, true);
    forall c | 0 <= c < |marked| ensures marked[c] <==> Taken(b.columns, ps, k + 1, c) {
      if Taken(b.columns, ps, k, c) {
        var j :| 0 <= j < k && Covers(b.columns, ps[j].slot, c);
        assert Taken(b.columns, ps, k + 1, c);
      }
      if Covers(b.columns, ps[k].slot, c) { assert Taken(b.columns, ps, k + 1, c); }
    }
  }

  /** Placing the items in that order, each at the first free cell, rebuilds the placement. */
  lemma {:induction false} Rebuild(b: Board, items: seq<Item>, order: seq<int>, ps: seq<Positioned>, k: nat,
                                   occupied: seq<bool>, used: seq<bool>)
    requires WellFormed(b) && Listed(b.columns, b.rows, ps) && Gapless(b.columns, ps) && Orders(items, order, ps)
    requires k <= |ps| && |used| == |items| == |b.sizes| && |occupied| == Cells(b)
    requires forall j :: 0 <= j < |ps| ==> b.sizes[order[j]] == Span(ps[j].slot.w, ps[j].slot.h)
    requires forall c :: 0 <= c < |occupied| ==> (occupied[c] <==> Taken(b.columns, ps, k, c))
    requires forall j :: k <= j < |order| ==> !used[order[j]]
    ensures Completes(b, occupied, used, order[k..]) && Placed(b, items, occupied, used, order[k..]) == ps[k..]
    decreases |ps| - k
  {
    hide Listed, Gapless, Taken, Fits, Marked;
    if k < |ps| {
      NextSlot(b, ps, k, occupied);
      TakenNext(b, ps, k, occupied);
      var used' := used[order[k] := true];
      Rebuild(b, items, order, ps, k + 1, Marked(occupied, b.columns, ps[k].slot, true), used');
      assert order[k..][0] == order[k] && order[k..][1..] == order[k + 1..];
      assert ps[k..] == [ps[k]] + ps[k + 1..];
      assert ps[k] == Positioned(items[order[k]], ps[k].slot);
    }
  }

  /** A gapless placement of the items, in whatever order, is one the tiler can find. */
  lemma {:induction false} GaplessCompletes(items: seq<Item>, columns: int, order: seq<int>, ps: seq<Positioned>)
    requires columns >= 1 && Orders(items, order, ps)
    requires Listed(columns, BoardFor(items, columns).rows, ps) && Gapless(columns, ps)
    ensures var b := BoardFor(items, columns);
            && Completes(b, Clear(Cells(b)), Clear(|items|), order)
            && Placed(b, items, Clear(Cells(b)), Clear(|items|), order) == ps
  {
    var b := BoardFor(items, columns);
    assert order[0..] == order && ps[0..] == ps;
    Rebuild(b, items, order, ps, 0, Clear(Cells(b)), Clear(|items|));
  }

  /** Listed by position, a placement is what the tiler makes of its item order exactly if it leaves
      no gap; then it gets there without backtracking. */
  lemma {:induction false} TilingIffGapless(ps: seq<Positioned>, columns: int)
    requires columns >= 1 && 0 < |ps| <= BUDGET
    requires Listed(columns, BoardFor(Items(ps), columns).rows, ps)
    ensures Tiling(Items(ps), columns) == Some(ps) <==> Gapless(columns, ps)
  {
    hide Listed, Tiling;
    var items := Items(ps);
    if Gapless(columns, ps) {
      GaplessTiles(ps, columns);
    }
    if Tiling(items, columns) == Some(ps) {
      forall n, cell | 0 <= n < |ps| && 0 <= cell < Origin(columns, ps[n].slot) ensures Taken(columns, ps, n, cell) {
        TileLeavesNoGap(items, columns, n, cell);
      }
    }
  }

  lemma {:induction false} GaplessTiles(ps: seq<Positioned>, columns: int)
    requires columns >= 1 && 0 < |ps| <= BUDGET
    requires Listed(columns, BoardFor(Items(ps), columns).rows, ps) && Gapless(columns, ps)
    ensures Tiling(Items(ps), columns) == Some(ps)
  {
    hide Listed, Gapless, Completes, Placed;
    var items := Items(ps);
    var b, order := BoardFor(items, columns), Range(0, |ps|);
    var blank, fresh' := Clear(Cells(b)), Clear(|items|);
    GaplessCompletes(items, columns, order, ps);
    Retrace(b, items, blank, fresh', order, b, items, fresh', 0, BUDGET);
  }

  /** A placement that fills the board has no gap. */
  lemma {:induction false} FullIsGapless(columns: int, ps: seq<Positioned>)
    requires columns >= 1 && |ps| > 0
    requires var b := BoardFor(Items(ps), columns); Listed(columns, b.rows, ps) && Area(b.sizes) == b.rows * columns
    ensures Gapless(columns, ps)
  {
    var b := BoardFor(Items(ps), columns);
    var at := seq(|ps|, k requires 0 <= k < |ps| => ps[k].slot);
    assert forall k :: 0 <= k < |ps| ==> b.sizes[k] == Span(ps[k].slot.w, ps[k].slot.h);
    assert ExactTilings.Placement(b, at);
    forall n, cell | 0 <= n < |ps| && 0 <= cell < Origin(columns, ps[n].slot) ensures Taken(columns, ps, n, cell) {
      ExactTilings.OriginCell(b, ps[n].slot);
      ExactTilings.PlacementCoversBoard(b, at, cell);
      var i :| 0 <= i < |at| && Covers(columns, at[i], cell);
      ExactTilings.OriginIsLeast(b, ps[i].slot, cell);
    }
  }
}
