/** Where a dropped item lands: whether the layout of a proposed order is the placement the swap
    was offered for. */
module SwapLanding {
  import opened Wrappers
  import opened Grid
  import opened Tiler
  import opened Arrangement
  import opened ArrangementProofs
  import opened DragProofs
  import opened GaplessTilings
  import TilerTheorems
  import TilerBudget
  import TilerProofs
  import Sorting

  lemma {:induction false} DisjointPermutes(ps: seq<Positioned>, qs: seq<Positioned>)
    requires Proper(ps) && multiset(ps) == multiset(qs)
    ensures Proper(qs)
  {
    ProperSeparates(ps);
    Sorting.SameElements(ps, qs);
    Sorting.DistinctByPermutes(ps, qs, (p: Positioned) => p.slot);
    forall i, j | 0 <= i < j < |qs| ensures !Overlap(qs[i].slot, qs[j].slot) {
      assert qs[i] in ps && qs[j] in ps;
      var a :| 0 <= a < |ps| && ps[a] == qs[i];
      var c :| 0 <= c < |ps| && ps[c] == qs[j];
      if a < c { assert !Overlap(ps[a].slot, ps[c].slot); } else { assert !Overlap(ps[c].slot, ps[a].slot); }
    }
    forall k | 0 <= k < |qs| ensures 1 <= qs[k].slot.w && 1 <= qs[k].slot.h {
      assert qs[k] in ps;
    }
  }

  /** Sorted by position, a valid placement is in strict row-major order. */
  lemma {:induction false} SortedRowMajor(ps: seq<Positioned>, columns: int)
    requires Proper(ps) && forall k :: 0 <= k < |ps| ==> 0 <= ps[k].slot.col < columns
    ensures TilerTheorems.RowMajor(columns, ByPosition(ps))
  {
    var qs := ByPosition(ps);
    EarlierIsWeakOrder();
    Sorting.SortOrdered(ps, Earlier());
    DisjointPermutes(ps, qs);
    ProperSeparates(qs);
    Sorting.SameElements(ps, qs);
    forall i, j | 0 <= i < j < |qs| ensures TilerProofs.Origin(columns, qs[i].slot) < TilerProofs.Origin(columns, qs[j].slot) {
      assert qs[i] in ps && qs[j] in ps && qs[i] in qs && qs[j] in qs;
      assert qs[i].slot != qs[j].slot;
      assert Earlier()(qs[i], qs[j]);
      if qs[i].slot.row < qs[j].slot.row { MulGap(qs[j].slot.row, qs[i].slot.row, columns); }
    }
  }

  lemma {:induction false} MaxRowAtMost(ps: seq<Positioned>, rows: int)
    requires rows >= 0 && forall k :: 0 <= k < |ps| ==> ps[k].slot.row + ps[k].slot.h <= rows
    ensures MaxRow(ps) <= rows
    decreases |ps|
  {
    if |ps| > 0 {
      MaxRowAtMost(ps[1..], rows);
    }
  }

  ghost predicate Exact(ps: seq<Positioned>, columns: int, rows: int) {
    forall k :: 0 <= k < |ps| ==> Inside(ps[k].slot, columns, rows)
                                  && Span(ps[k].slot.w, ps[k].slot.h) == SpanOf(ps[k].item, columns)
  }

  /** A valid placement of exact slots, sorted by position. */
  lemma {:induction false} SortedListed(ps: seq<Positioned>, columns: int, rows: int)
    requires AllDisjoint(ps) && Exact(ps, columns, rows)
    ensures Listed(columns, rows, ByPosition(ps))
  {
    hide Inside, TilerTheorems.RowMajor;
    var qs := ByPosition(ps);
    assert Proper(ps) && forall k :: 0 <= k < |ps| ==> 0 <= ps[k].slot.col < columns by { ExactIsProper(ps, columns, rows); }
    SortedRowMajor(ps, columns);
    DisjointPermutes(ps, qs);
    Sorting.SameElements(ps, qs);
    forall k | 0 <= k < |qs| ensures Inside(qs[k].slot, columns, rows) && Span(qs[k].slot.w, qs[k].slot.h) == SpanOf(qs[k].item, columns) {
      assert qs[k] in ps;
    }
  }

  lemma {:induction false} ExactIsProper(ps: seq<Positioned>, columns: int, rows: int)
    requires AllDisjoint(ps) && Exact(ps, columns, rows)
    ensures Proper(ps) && forall k :: 0 <= k < |ps| ==> 0 <= ps[k].slot.col < columns
  {
  }

  /** The dragged item is at `k` of a tiled layout, and `c` is a swap offered for it. */
  ghost predicate Offered(items: seq<Item>, id: string, columns: int, k: nat, c: Candidate) {
    && columns >= 1 && |items| > 0 && DistinctIds(items) && Tiling(items, columns).Some?
    && var current := Layout(items, columns);
       k < |current| && current[k].item.id == id && c in RowSwaps(items, current, id, current[k].slot, columns, 0)
  }

  /** The placement the swap promises, by position. */
  function Promised(items: seq<Item>, id: string, columns: int, k: nat, c: Candidate): seq<Positioned>
    requires k < |Layout(items, columns)|
  {
    var current := Layout(items, columns);
    ByPosition(SwapAll(current, id, current[k].slot, c.slot))
  }

  lemma {:induction false} WithinBudget(items: seq<Item>, columns: int)
    requires columns >= 1 && |items| > 0 && Tiling(items, columns).Some?
    ensures |items| <= BUDGET
  {
  }

  lemma {:induction false} SwappedExact(items: seq<Item>, id: string, columns: int, k: nat, c: Candidate)
    requires Offered(items, id, columns, k, c)
    ensures var current := Layout(items, columns);
            var next := SwapAll(current, id, current[k].slot, c.slot);
            AllDisjoint(next) && Exact(next, columns, BoardFor(items, columns).rows)
            && Items(next) == Items(current) && multiset(Items(current)) == multiset(items)
  {
    hide Tiling, RowSwaps;
    var current := Layout(items, columns);
    var next := SwapAll(current, id, current[k].slot, c.slot);
    var rows := BoardFor(items, columns).rows;
    OfferedSwapsValid(items, id, columns, k, c);
    TilerTheorems.TileSound(items, columns);
    MaxRowAtMost(current, rows);
    assert Bounded(next, columns, MaxRow(current));
    forall j | 0 <= j < |next| ensures Inside(next[j].slot, columns, rows) && Span(next[j].slot.w, next[j].slot.h) == SpanOf(next[j].item, columns) {
      assert Items(next)[j] == Items(current)[j];
      assert Inside(next[j].slot, columns, MaxRow(current));
    }
  }

  lemma {:induction false} PromisedListed(items: seq<Item>, id: string, columns: int, k: nat, c: Candidate)
    requires Offered(items, id, columns, k, c)
    ensures var placed := Promised(items, id, columns, k, c);
            && c.order == Items(placed) && multiset(c.order) == multiset(items)
            && BoardFor(c.order, columns).rows == BoardFor(items, columns).rows
            && Listed(columns, BoardFor(c.order, columns).rows, placed)
            && 0 < |placed| <= BUDGET
  {
    hide Layout, Tiling, RowSwaps, Listed, AllDisjoint, Exact, Bounded, SwapAll, Area;
    var current := Layout(items, columns);
    var next := SwapAll(current, id, current[k].slot, c.slot);
    var placed := Promised(items, id, columns, k, c);
    OfferedSwapsValid(items, id, columns, k, c);
    SwappedExact(items, id, columns, k, c);
    SortedListed(next, columns, BoardFor(items, columns).rows);
    ItemsPermute(placed, next);
    TilerTheorems.AreaPermutes(items, c.order, columns);
    Sorting.SameElements(c.order, items);
    WithinBudget(items, columns);
  }

  lemma {:induction false} PromisedHasDragged(items: seq<Item>, id: string, columns: int, k: nat, c: Candidate)
    requires Offered(items, id, columns, k, c)
    ensures Positioned(Layout(items, columns)[k].item, c.slot) in Promised(items, id, columns, k, c)
  {
    hide Layout, Tiling, RowSwaps;
    var current := Layout(items, columns);
    var next := SwapAll(current, id, current[k].slot, c.slot);
    OfferedSwapsValid(items, id, columns, k, c);
    Sorting.SameElements(next, ByPosition(next));
    assert Items(next)[k] == Items(current)[k];
    assert next[k] in next;
  }

  /** The grid lays the proposed order out as promised exactly if the promised placement has no gap.
      Then the order is canonical already, and the dragged item lands on its target. */
  lemma {:induction false} SwapLandsIff(items: seq<Item>, id: string, columns: int, k: nat, c: Candidate)
    requires Offered(items, id, columns, k, c)
    ensures var placed := Promised(items, id, columns, k, c);
            && (Tiling(c.order, columns) == Some(placed) <==> Gapless(columns, placed))
            && (Gapless(columns, placed) ==>
                  && Canonical(c.order, columns) == c.order && Layout(c.order, columns) == placed
                  && Positioned(Layout(items, columns)[k].item, c.slot) in Layout(c.order, columns))
  {
    hide Tiling, RowSwaps, Listed, Gapless, Promised, Canonical;
    PromisedListed(items, id, columns, k, c);
    PromisedHasDragged(items, id, columns, k, c);
    TilingIffGapless(Promised(items, id, columns, k, c), columns);
    DistinctIdsPermute(items, c.order);
    if Tiling(c.order, columns).Some? {
      CanonicalOfTiling(c.order, columns);
    }
  }

  /** When the items fill their rows exactly, every swap offered lands. */
  lemma {:induction false} FullGridSwapsLand(items: seq<Item>, id: string, columns: int, k: nat, c: Candidate)
    requires Offered(items, id, columns, k, c)
    requires Area(BoardFor(items, columns).sizes) == BoardFor(items, columns).rows * columns
    ensures Layout(Canonical(c.order, columns), columns) == Promised(items, id, columns, k, c)
    ensures Positioned(Layout(items, columns)[k].item, c.slot) in Layout(Canonical(c.order, columns), columns)
  {
    hide Tiling, Layout, RowSwaps, Listed, Gapless, Promised, Canonical;
    PromisedListed(items, id, columns, k, c);
    TilerTheorems.AreaPermutes(items, c.order, columns);
    FullIsGapless(columns, Promised(items, id, columns, k, c));
    SwapLandsIff(items, id, columns, k, c);
  }

  // ---------- two small grids ----------

  function At(item: Item, col: int, row: int, w: int, h: int): Positioned {
    Positioned(item, Slot(col, row, w, h))
  }

  /** Rows and cells of a two-column board of three items. */
  lemma {:induction false} ThreeOnTwo(a: Item, x: Item, y: Item)
    ensures var area := SizeMap(a.size).w * SizeMap(a.size).h + SizeMap(x.size).w * SizeMap(x.size).h + SizeMap(y.size).w * SizeMap(y.size).h;
            Area(BoardFor([a, x, y], 2).sizes) == area && BoardFor([a, x, y], 2).rows == (area + 1) / 2
  {
    var sizes := BoardFor([a, x, y], 2).sizes;
    assert sizes == [SpanOf(a, 2), SpanOf(x, 2), SpanOf(y, 2)];
    assert sizes[1..] == [SpanOf(x, 2), SpanOf(y, 2)] && sizes[1..][1..] == [SpanOf(y, 2)];
    assert sizes[1..][1..][1..] == [];
    assert forall item :: SpanOf(item, 2) == SizeMap(item.size);
    assert Area(sizes[1..][1..]) == SpanOf(y, 2).w * SpanOf(y, 2).h;
    assert Area(sizes[1..]) == SpanOf(x, 2).w * SpanOf(x, 2).h + SpanOf(y, 2).w * SpanOf(y, 2).h;
  }

  lemma {:induction false} ThreeOrdered(p: Positioned, q: Positioned, r: Positioned)
    requires !Overlap(p.slot, q.slot) && !Overlap(p.slot, r.slot) && !Overlap(q.slot, r.slot)
    requires TilerProofs.Origin(2, p.slot) < TilerProofs.Origin(2, q.slot) < TilerProofs.Origin(2, r.slot)
    ensures AllDisjoint([p, q, r]) && TilerTheorems.RowMajor(2, [p, q, r])
    ensures Items([p, q, r]) == [p.item, q.item, r.item]
  {
  }

  lemma {:induction false} ThreeTile(p: Positioned, q: Positioned, r: Positioned)
    requires Listed(2, BoardFor([p.item, q.item, r.item], 2).rows, [p, q, r]) && Gapless(2, [p, q, r])
    ensures Layout([p.item, q.item, r.item], 2) == [p, q, r] && Tiling([p.item, q.item, r.item], 2).Some?
  {
    hide Listed, Gapless, Tiling;
    assert Items([p, q, r]) == [p.item, q.item, r.item];
    GaplessTiles([p, q, r], 2);
  }

  const DRAGGED := Item("a", Wide)
  const TWIN := Item("a", Sm)
  const OTHER := Item("b", Sm)

  lemma {:induction false} TwinsBelow()
    ensures Layout([DRAGGED, TWIN, OTHER], 2) == [At(DRAGGED, 0, 0, 2, 1), At(TWIN, 0, 1, 1, 1), At(OTHER, 1, 1, 1, 1)]
  {
    hide Tiling, Layout;
    var p, q, r := At(DRAGGED, 0, 0, 2, 1), At(TWIN, 0, 1, 1, 1), At(OTHER, 1, 1, 1, 1);
    var current := [p, q, r];
    ThreeOnTwo(DRAGGED, TWIN, OTHER);
    ThreeOrdered(p, q, r);
    assert forall cell :: 0 <= cell < 2 ==> Taken(2, current, 1, cell) && Taken(2, current, 2, cell) by {
      assert forall cell :: 0 <= cell < 2 ==> Covers(2, current[0].slot, cell);
    }
    assert Taken(2, current, 2, 2) by { assert Covers(2, current[1].slot, 2); }
    ThreeTile(p, q, r);
  }

  /** Two items share the id of the dragged one: the swap offered puts both on the target and its
      order loses an item. */
  lemma {:induction false} SharedIdBreaksSwap() returns (items: seq<Item>, c: Candidate)
    ensures c in Candidates(items, "a", 2)
    ensures !AllDisjoint(SwapAll(Layout(items, 2), "a", Layout(items, 2)[0].slot, c.slot))
    ensures multiset(c.order) != multiset(items)
  {
    hide Layout, RowSwaps, MoveCandidates, Lookup, ByPosition;
    items := [DRAGGED, TWIN, OTHER];
    var p, q, r := At(DRAGGED, 0, 0, 2, 1), At(TWIN, 0, 1, 1, 1), At(OTHER, 1, 1, 1, 1);
    var current, slot := [p, q, r], Slot(0, 1, 2, 1);
    TwinsBelow();
    TwoInside(p, q, r, slot);
    c := SwapCandidate(items, current, "a", p.slot, slot);
    assert p.slot.(col := 0, row := 1) == slot;
    assert SwapAt(items, current, "a", p.slot, 1, 0, c);
    SwapsOffered(items, "a", 2, p.slot, c);
    assert FirstPosition(current, "a", 0) == 0;
    var next := SwapAll(current, "a", p.slot, slot);
    assert Overlap(next[0].slot, next[1].slot);
    SwapOrderPermutesIff(items, "a", 2, p.slot, slot);
    assert DRAGGED in items && TWIN in items && DRAGGED != TWIN;
  }

  /** A target that holds exactly the other two. */
  lemma {:induction false} TwoInside(p: Positioned, q: Positioned, r: Positioned, slot: Slot)
    requires !Overlap(slot, p.slot) && !Overlap(p.slot, slot)
    requires Overlap(q.slot, slot) && Overlap(r.slot, slot) && Contains(slot, q.slot) && Contains(slot, r.slot)
    requires 0 <= p.slot.row + p.slot.h <= slot.row && slot.row + slot.h >= r.slot.row + r.slot.h >= q.slot.row + q.slot.h
    ensures Swappable([p, q, r], p.slot, slot)
    ensures MaxRow([p, q, r]) == r.slot.row + r.slot.h
  {
    assert [p, q, r][1..] == [q, r] && [q, r][1..] == [r] && [r][1..] == [];
    assert CountOverlapping([r], slot) == 1 + CountOverlapping([r][1..], slot) == 1;
    assert CountOverlapping([q, r], slot) == 1 + CountOverlapping([q, r][1..], slot);
    assert CountOverlapping([p, q, r], slot) == CountOverlapping([p, q, r][1..], slot);
    assert MaxRow([r]) == r.slot.row + r.slot.h;
    assert MaxRow([q, r]) == r.slot.row + r.slot.h;
  }

  // A three-item grid with a gap at its end: a large item over a wide and a small one.
  const LARGE := Item("large", Lg)
  const WIDE := Item("wide", Wide)
  const SMALL := Item("small", Sm)

  /** Flat slots of three cells in all that cover the first three cells leave the fourth. */
  lemma {:induction false} FourthIsLeft(ps: seq<Positioned>, m: nat, j0: nat, j1: nat, j2: nat)
    requires m < |ps| == 3 && j0 < m && j1 < m && j2 < m
    requires forall j :: 0 <= j < m ==> Inside(ps[j].slot, 2, 4) && ps[j].slot.h == 1
    requires forall i, j :: 0 <= i < j < m ==> ps[i].slot.w + ps[j].slot.w <= 3
    requires Covers(2, ps[j0].slot, 0) && Covers(2, ps[j1].slot, 1) && Covers(2, ps[j2].slot, 2)
    ensures !Taken(2, ps, m, 3)
  {
  }

  lemma {:induction false} ThreeCellsCannotCoverFour(ps: seq<Positioned>, m: nat)
    requires m < |ps| == 3
    requires forall j :: 0 <= j < m ==> Inside(ps[j].slot, 2, 4) && ps[j].slot.h == 1
    requires forall i, j :: 0 <= i < j < m ==> ps[i].slot.w + ps[j].slot.w <= 3
    ensures exists cell :: 0 <= cell < 4 && !Taken(2, ps, m, cell)
  {
    if Taken(2, ps, m, 0) && Taken(2, ps, m, 1) && Taken(2, ps, m, 2) {
      var j0 :| 0 <= j0 < m && Covers(2, ps[j0].slot, 0);
      var j1 :| 0 <= j1 < m && Covers(2, ps[j1].slot, 1);
      var j2 :| 0 <= j2 < m && Covers(2, ps[j2].slot, 2);
      FourthIsLeft(ps, m, j0, j1, j2);
    }
  }

  /** The swap offered may not land: in a grid with a gap the tiler pulls the dragged item up, away
      from its target. */
  lemma {:induction false} SwapNeedNotLand() returns (items: seq<Item>, c: Candidate)
    ensures Offered(items, LARGE.id, 2, 0, c) && c in Candidates(items, LARGE.id, 2) && Layout(items, 2)[0].item == LARGE
    ensures Positioned(LARGE, c.slot) !in Layout(c.order, 2)
    ensures Positioned(LARGE, c.slot) !in Layout(Canonical(c.order, 2), 2)
  {
    items := [LARGE, WIDE, SMALL];
    var p, q, r := At(LARGE, 0, 0, 2, 2), At(WIDE, 0, 2, 2, 1), At(SMALL, 0, 3, 1, 1);
    var slot := Slot(0, 2, 2, 2);
    LargeOnTop();
    TwoInside(p, q, r, slot);
    c := SwapCandidate(items, [p, q, r], LARGE.id, p.slot, slot);
    assert p.slot.(col := 0, row := 2) == slot;
    assert SwapAt(items, [p, q, r], LARGE.id, p.slot, 2, 0, c);
    SwapsOffered(items, LARGE.id, 2, p.slot, c);
    assert FirstPosition([p, q, r], LARGE.id, 0) == 0;
    PromisedListed(items, LARGE.id, 2, 0, c);
    LargeNotBelow(c.order);
    CanonicalKeepsLayout(c.order, 2);
    Sorting.SameElements(Layout(Canonical(c.order, 2), 2), Layout(c.order, 2));
  }

  lemma {:induction false} LargeOnTop()
    ensures Layout([LARGE, WIDE, SMALL], 2) == [At(LARGE, 0, 0, 2, 2), At(WIDE, 0, 2, 2, 1), At(SMALL, 0, 3, 1, 1)]
    ensures Tiling([LARGE, WIDE, SMALL], 2).Some?
  {
    hide Tiling, Layout;
    var p, q, r := At(LARGE, 0, 0, 2, 2), At(WIDE, 0, 2, 2, 1), At(SMALL, 0, 3, 1, 1);
    var ps := [p, q, r];
    ThreeOnTwo(LARGE, WIDE, SMALL);
    ThreeOrdered(p, q, r);
    assert forall cell :: 0 <= cell < 4 ==> Covers(2, ps[0].slot, cell);
    assert forall cell :: 4 <= cell < 6 ==> Covers(2, ps[1].slot, cell);
    forall n, cell | 0 <= n < 3 && 0 <= cell < TilerProofs.Origin(2, ps[n].slot) ensures Taken(2, ps, n, cell) {
      assert cell < 4 || Covers(2, ps[1].slot, cell);
    }
    ThreeTile(p, q, r);
  }

  lemma {:induction false} ThreeItems(order: seq<Item>) returns (indices: seq<int>)
    requires multiset(order) == multiset([LARGE, WIDE, SMALL])
    ensures |order| == 3 && |indices| == 3 && DistinctIds(order)
    ensures forall x :: x in order <==> x in [LARGE, WIDE, SMALL]
    ensures forall k :: 0 <= k < 3 ==> 0 <= indices[k] < 3 && order[indices[k]] == [LARGE, WIDE, SMALL][k]
    ensures BoardFor(order, 2).rows == 4
  {
    var items := [LARGE, WIDE, SMALL];
    Sorting.SameElements(items, order);
    DistinctIdsPermute(items, order);
    TilerTheorems.AreaPermutes(items, order, 2);
    ThreeOnTwo(LARGE, WIDE, SMALL);
    assert LARGE in order && WIDE in order && SMALL in order;
    var i :| 0 <= i < 3 && order[i] == LARGE;
    var j :| 0 <= j < 3 && order[j] == WIDE;
    var k :| 0 <= k < 3 && order[k] == SMALL;
    indices := [i, j, k];
  }

  /** Whatever the order, the tiler finds a tiling of the three items. */
  lemma {:induction false} ThreeItemsTile(order: seq<Item>)
    requires multiset(order) == multiset([LARGE, WIDE, SMALL])
    ensures Tiling(order, 2).Some?
  {
    hide Tiling, Listed, Gapless;
    var items := [LARGE, WIDE, SMALL];
    var ps := [At(LARGE, 0, 0, 2, 2), At(WIDE, 0, 2, 2, 1), At(SMALL, 0, 3, 1, 1)];
    var indices := ThreeItems(order);
    LargeOnTop();
    ThreeOnTwo(LARGE, WIDE, SMALL);
    TilerBudget.TilingIsGapless(items, 2);
    assert forall k :: 0 <= k < 3 ==> ps[k].item == [LARGE, WIDE, SMALL][k];
    assert Orders(order, indices, ps);
    TilerBudget.SevenItemsDecided(order, 2);
  }

  lemma {:induction false} OthersAreFlat(ps: seq<Positioned>, m: nat)
    requires |ps| == 3 && m < 3 && ps[m].item == LARGE && Listed(2, 4, ps) && DistinctIds(Items(ps))
    requires forall x :: x in Items(ps) ==> x in [LARGE, WIDE, SMALL]
    ensures forall j :: 0 <= j < m ==> Inside(ps[j].slot, 2, 4) && ps[j].slot.h == 1
    ensures forall i, j :: 0 <= i < j < m ==> ps[i].slot.w + ps[j].slot.w <= 3
  {
    var xs := Items(ps);
    forall j | 0 <= j < m ensures xs[j] == ps[j].item && (xs[j] == WIDE || xs[j] == SMALL) {
      assert xs[j] in xs && xs[j].id != xs[m].id;
    }
    assert forall i, j :: 0 <= i < j < m ==> xs[i].id != xs[j].id;
  }

  lemma {:induction false} NoGapAt(ps: seq<Positioned>, m: nat, cell: int)
    requires Gapless(2, ps) && m < |ps| && 0 <= cell < TilerProofs.Origin(2, ps[m].slot)
    ensures Taken(2, ps, m, cell)
  {
  }

  lemma {:induction false} LargeStartsHigh(ps: seq<Positioned>, m: nat)
    requires |ps| == 3 && m < 3 && ps[m].item == LARGE && Listed(2, 4, ps) && Gapless(2, ps) && DistinctIds(Items(ps))
    requires forall x :: x in Items(ps) ==> x in [LARGE, WIDE, SMALL]
    ensures TilerProofs.Origin(2, ps[m].slot) < 4
  {
    hide Listed, Gapless, Taken, DistinctIds;
    OthersAreFlat(ps, m);
    ThreeCellsCannotCoverFour(ps, m);
    var cell :| 0 <= cell < 4 && !Taken(2, ps, m, cell);
    if cell < TilerProofs.Origin(2, ps[m].slot) { NoGapAt(ps, m, cell); }
  }

  /** And the large one is not in its last two rows: the other two cannot fill the rows above. */
  lemma {:induction false} LargeNotBelow(order: seq<Item>)
    requires multiset(order) == multiset([LARGE, WIDE, SMALL])
    ensures Positioned(LARGE, Slot(0, 2, 2, 2)) !in Layout(order, 2)
  {
    hide Tiling, Gapless, Listed, DistinctIds, BoardFor;
    ThreeItemsTile(order);
    var indices := ThreeItems(order);
    var ps := Layout(order, 2);
    TilerBudget.TilingIsGapless(order, 2);
    TilesAreThese(order);
    DistinctIdsPermute(order, Items(ps));
    Sorting.SameElements(order, Items(ps));
    forall m | 0 <= m < |ps| ensures ps[m] != Positioned(LARGE, Slot(0, 2, 2, 2)) {
      if ps[m].item == LARGE { LargeStartsHigh(ps, m); }
    }
  }

  lemma {:induction false} TilesAreThese(order: seq<Item>)
    requires |order| > 0 && Tiling(order, 2).Some?
    ensures multiset(Items(Tiling(order, 2).value)) == multiset(order)
  {
    TilerTheorems.TileSound(order, 2);
  }
}
