/** The layout as one placement, the canonical order as a normal form, and drags that keep
    the placement valid. */
module ArrangementProofs {
  import opened Wrappers
  import opened Grid
  import opened Tiler
  import opened Arrangement
  import TilerProofs
  import TilerTheorems
  import Packer
  import Sorting

  // ---------- permutations and ids ----------

  lemma {:induction false} ItemsPermute(ps: seq<Positioned>, qs: seq<Positioned>)
    requires multiset(ps) == multiset(qs)
    ensures multiset(Items(ps)) == multiset(Items(qs))
  {
    Sorting.SameElements(ps, qs);
    if |ps| > 0 {
      assert ps[0] in qs;
      var j :| 0 <= j < |qs| && qs[j] == ps[0];
      ItemsPermute(Without(ps, 0), Without(qs, j));
      ItemsWithout(ps, 0);
      ItemsWithout(qs, j);
    }
  }

  lemma {:induction false} ItemsWithout(ps: seq<Positioned>, j: nat)
    requires j < |ps|
    ensures multiset(Items(ps)) == multiset{ps[j].item} + multiset(Items(Without(ps, j)))
  {
    assert Items(Without(ps, j)) == Without(Items(ps), j);
  }

  ghost predicate DistinctIds(items: seq<Item>) {
    forall i, j :: 0 <= i < j < |items| ==> items[i].id != items[j].id
  }

  /** Items sharing an id are one and the same item. */
  ghost predicate ConsistentIds(items: seq<Item>) {
    forall x, y :: x in items && y in items && x.id == y.id ==> x == y
  }

  lemma {:induction false} DistinctIdsPermute(xs: seq<Item>, ys: seq<Item>)
    requires multiset(xs) == multiset(ys) && DistinctIds(xs)
    ensures DistinctIds(ys)
  {
    Sorting.DistinctByPermutes(xs, ys, (x: Item) => x.id);
  }

  lemma {:induction false} LastWithFinds(items: seq<Item>, x: Item)
    requires x in items && ConsistentIds(items)
    ensures LastWith(items, x.id) == Some(x)
    decreases |items|
  {
    var last := items[|items| - 1];
    if last.id != x.id {
      var init := items[..|items| - 1];
      assert items == init + [last];
      assert forall y :: y in init ==> y in items;
      LastWithFinds(init, x);
    } else {
      assert last in items;
    }
  }

  lemma {:induction false} LastWithIsItem(items: seq<Item>, id: string)
    ensures var r := LastWith(items, id); r.Some? ==> r.value in items && r.value.id == id
    decreases |items|
  {
    if |items| > 0 && items[|items| - 1].id != id {
      LastWithIsItem(items[..|items| - 1], id);
    }
  }

  lemma {:induction false} LookupItems(items: seq<Item>, ps: seq<Positioned>)
    requires ConsistentIds(items) && forall p :: p in ps ==> p.item in items
    ensures Lookup(items, ps) == Items(ps)
  {
    if |ps| > 0 {
      LastWithFinds(items, ps[0].item);
      LookupItems(items, ps[1..]);
      assert Items(ps) == [ps[0].item] + Items(ps[1..]);
    }
  }

  lemma {:induction false} DistinctIsConsistent(items: seq<Item>)
    requires DistinctIds(items)
    ensures ConsistentIds(items)
  {
  }

  // ---------- the layout ----------

  /** Whichever engine answers: every item once, on real slots, no two overlapping. */
  lemma {:induction false} LayoutValid(items: seq<Item>, columns: int)
    ensures var ps := Layout(items, columns);
            && (columns >= 1 ==> multiset(Items(ps)) == multiset(items))
            && (forall k :: 0 <= k < |ps| ==>
                  0 <= ps[k].slot.col && 0 <= ps[k].slot.row && ps[k].slot.col + ps[k].slot.w <= columns
                  && 1 <= SpanOf(ps[k].item, columns).w <= ps[k].slot.w && 1 <= SpanOf(ps[k].item, columns).h <= ps[k].slot.h)
            && AllDisjoint(ps)
  {
    if |items| > 0 && columns >= 1 {
      if Tiling(items, columns).Some? {
        TilerTheorems.TileSound(items, columns);
      } else {
        Packer.PackingValid(items, columns);
        var ps := Layout(items, columns);
        forall k | 0 <= k < |ps|
          ensures 0 <= ps[k].slot.col && 0 <= ps[k].slot.row && ps[k].slot.col + ps[k].slot.w <= columns
                  && 1 <= SpanOf(ps[k].item, columns).w <= ps[k].slot.w && 1 <= SpanOf(ps[k].item, columns).h <= ps[k].slot.h
        {
          assert Packer.PackedOk(ps[k], columns, 0);
        }
      }
    }
  }

  ghost predicate Proper(ps: seq<Positioned>) {
    && AllDisjoint(ps)
    && forall k :: 0 <= k < |ps| ==> 1 <= ps[k].slot.w && 1 <= ps[k].slot.h
  }

  lemma {:induction false} LayoutProper(items: seq<Item>, columns: int)
    ensures Proper(Layout(items, columns))
    ensures columns >= 1 ==> multiset(Items(Layout(items, columns))) == multiset(items)
    ensures columns < 1 ==> Layout(items, columns) == []
  {
    LayoutValid(items, columns);
  }

  lemma {:induction false} EarlierIsWeakOrder()
    ensures Sorting.WeakOrder(Earlier())
  {
  }

  /** Disjoint real slots have different origins, so sorting by position is unambiguous. */
  lemma {:induction false} ProperSeparates(ps: seq<Positioned>)
    requires Proper(ps)
    ensures Sorting.Separates(ps, Earlier())
    ensures forall i, j :: 0 <= i < j < |ps| ==> ps[i].slot != ps[j].slot
  {
    forall i, j | 0 <= i < j < |ps|
      ensures ps[i].slot.row != ps[j].slot.row || ps[i].slot.col != ps[j].slot.col
    {
      assert !Overlap(ps[i].slot, ps[j].slot);
    }
    forall a, c | a in ps && c in ps && a != c ensures Earlier()(a, c) || Earlier()(c, a) {
      var i :| 0 <= i < |ps| && ps[i] == a;
      var j :| 0 <= j < |ps| && ps[j] == c;
      if i < j { assert !Overlap(ps[i].slot, ps[j].slot); } else { assert !Overlap(ps[j].slot, ps[i].slot); }
    }
  }

  // ---------- stability forces distinct ids ----------

  lemma {:induction false} LastPositionIs(ps: seq<Positioned>, id: string)
    ensures var r := LastPosition(ps, id); r.Some? ==> r.value in ps && r.value.item.id == id
    decreases |ps|
  {
    if |ps| > 0 && ps[|ps| - 1].item.id != id {
      LastPositionIs(ps[..|ps| - 1], id);
    }
  }

  lemma {:induction false} LastPositionFinds(ps: seq<Positioned>, k: nat)
    requires k < |ps| && DistinctIds(Items(ps))
    ensures LastPosition(ps, ps[k].item.id) == Some(ps[k])
    decreases |ps|
  {
    var n := |ps| - 1;
    if k < n {
      assert Items(ps)[k].id != Items(ps)[n].id;
      var init := ps[..n];
      assert forall j :: 0 <= j < n ==> Items(init)[j] == Items(ps)[j];
      LastPositionFinds(init, k);
    }
  }

  /** A stable comparison is only possible when no id repeats: two slots cannot both be the
      one slot the id maps to. */
  lemma {:induction false} StableMeansDistinct(current: seq<Positioned>, next: seq<Positioned>)
    requires Proper(current) && Stable(current, next)
    ensures DistinctIds(Items(current))
  {
    ProperSeparates(current);
    forall i, j | 0 <= i < j < |current| ensures current[i].item.id != current[j].item.id {
      assert current[i].slot != current[j].slot;
    }
  }

  /** Repeated ids switch reordering off, whatever the columns. */
  lemma {:induction false} DuplicateIdsStayPut(items: seq<Item>, columns: int)
    requires !DistinctIds(items)
    ensures Canonical(items, columns) == items
  {
    var current := Layout(items, columns);
    LayoutProper(items, columns);
    if |current| == |items| {
      var ordered := Lookup(items, ByPosition(current));
      if Stable(current, Layout(ordered, columns)) {
        StableMeansDistinct(current, Layout(ordered, columns));
        DistinctIdsPermute(Items(current), items);
        assert false;
      }
    }
  }

  // ---------- the canonical order ----------

  /** What `Canonical` looks up is the layout's own items, in position order. */
  lemma {:induction false} OrderedItems(items: seq<Item>, columns: int)
    requires columns >= 1 && DistinctIds(items)
    ensures Lookup(items, ByPosition(Layout(items, columns))) == Items(ByPosition(Layout(items, columns)))
    ensures multiset(Items(ByPosition(Layout(items, columns)))) == multiset(items)
  {
    var current := Layout(items, columns);
    LayoutProper(items, columns);
    DistinctIsConsistent(items);
    ItemsPermute(ByPosition(current), current);
    Sorting.SameElements(Items(ByPosition(current)), items);
    var sorted := ByPosition(current);
    forall p | p in sorted ensures p.item in items {
      var k :| 0 <= k < |sorted| && sorted[k] == p;
      assert Items(sorted)[k] == p.item;
    }
    LookupItems(items, sorted);
  }

  /** The canonical order is a permutation of the items, for all items and columns. */
  lemma {:induction false} CanonicalPermutes(items: seq<Item>, columns: int)
    ensures multiset(Canonical(items, columns)) == multiset(items)
  {
    LayoutProper(items, columns);
    if !DistinctIds(items) {
      DuplicateIdsStayPut(items, columns);
    } else if columns >= 1 {
      OrderedItems(items, columns);
    } else if |items| == 0 {
      assert ByPosition(Layout(items, columns)) == [];
    }
  }

  lemma {:induction false} DistinctElements<T>(xs: seq<T>, ys: seq<T>)
    requires forall i, j :: 0 <= i < j < |xs| ==> xs[i] != xs[j]
    requires forall x :: x in xs ==> x in ys
    requires |xs| == |ys|
    ensures multiset(xs) == multiset(ys)
    decreases |xs|
  {
    if |xs| > 0 {
      assert xs[0] in ys;
      var j :| 0 <= j < |ys| && ys[j] == xs[0];
      var ys' := Without(ys, j);
      forall x | x in xs[1..] ensures x in ys' {
        var i :| 0 <= i < |xs[1..]| && xs[1..][i] == x;
        assert xs[i + 1] != xs[0] && xs[i + 1] in ys;
        assert x in multiset(ys') ;
      }
      DistinctElements(xs[1..], ys');
      assert xs == [xs[0]] + xs[1..];
    }
  }

  /** Stability means exactly the same placement. */
  lemma {:induction false} StableSamePlacement(items: seq<Item>, ordered: seq<Item>, current: seq<Positioned>, next: seq<Positioned>)
    requires Proper(current) && Stable(current, next)
    requires multiset(items) == multiset(ordered)
    requires multiset(Items(current)) == multiset(items) && multiset(Items(next)) == multiset(ordered)
    ensures multiset(current) == multiset(next)
  {
    StableMeansDistinct(current, next);
    DistinctIsConsistent(Items(current));
    ProperSeparates(current);
    Sorting.SameElements(Items(current), Items(next));
    forall p | p in current ensures p in next {
      var k :| 0 <= k < |current| && current[k] == p;
      var n := LastPosition(next, p.item.id);
      LastPositionIs(next, p.item.id);
      var m :| 0 <= m < |next| && next[m] == n.value;
      assert Items(current)[k] == p.item && Items(next)[m] == n.value.item;
      assert n.value.item in Items(next);
      assert n.value.item == p.item;
    }
    DistinctElements(current, next);
  }

  /** The canonical order leaves every item's layout position unchanged. */
  lemma {:induction false} CanonicalKeepsLayout(items: seq<Item>, columns: int)
    ensures multiset(Layout(Canonical(items, columns), columns)) == multiset(Layout(items, columns))
  {
    LayoutProper(items, columns);
    var current, ordered := Layout(items, columns), Canonical(items, columns);
    LayoutProper(ordered, columns);
    CanonicalPermutes(items, columns);
    if ordered != items {
      StableSamePlacement(items, ordered, current, Layout(ordered, columns));
    }
  }

  lemma {:induction false} CanonicalMoved(items: seq<Item>, columns: int)
    requires Canonical(items, columns) != items
    ensures columns >= 1 && DistinctIds(items)
    ensures Canonical(items, columns) == Lookup(items, ByPosition(Layout(items, columns)))
    ensures |Layout(items, columns)| == |items|
  {
    if !DistinctIds(items) { DuplicateIdsStayPut(items, columns); }
    LayoutProper(items, columns);
  }

  lemma {:induction false} SamePlacementStable(current: seq<Positioned>, next: seq<Positioned>)
    requires multiset(current) == multiset(next) && DistinctIds(Items(next))
    ensures Stable(current, next)
  {
    Sorting.SameElements(current, next);
    forall k | 0 <= k < |current| ensures LastPosition(next, current[k].item.id) == Some(current[k]) {
      assert current[k] in next;
      var j :| 0 <= j < |next| && next[j] == current[k];
      LastPositionFinds(next, j);
    }
  }

  /** Which order is canonical, whichever engine lays the items out: the items by position, if laying
      them out in that order leaves everything where it was, and otherwise the order given. */
  lemma {:induction false} CanonicalIs(items: seq<Item>, columns: int)
    requires columns >= 1 && DistinctIds(items)
    ensures var current := Layout(items, columns);
            var ordered := Items(ByPosition(current));
            Canonical(items, columns) == if multiset(Layout(ordered, columns)) == multiset(current) then ordered else items
  {
    hide Layout, ByPosition, Lookup, Stable;
    var current := Layout(items, columns);
    var ordered := Items(ByPosition(current));
    var next := Layout(ordered, columns);
    LayoutProper(items, columns);
    LayoutProper(ordered, columns);
    OrderedItems(items, columns);
    Sorting.SameElements(Items(current), items);
    Sorting.SameElements(ordered, items);
    DistinctIdsPermute(items, ordered);
    DistinctIdsPermute(ordered, Items(next));
    if multiset(current) == multiset(next) {
      SamePlacementStable(current, next);
    }
    if Stable(current, next) {
      StableSamePlacement(items, ordered, current, next);
    }
    if ordered <= items { assert ordered == items; }
  }

  /** Canonicalising twice changes nothing more. */
  lemma {:induction false} CanonicalIdempotent(items: seq<Item>, columns: int)
    ensures Canonical(Canonical(items, columns), columns) == Canonical(items, columns)
  {
    var ordered := Canonical(items, columns);
    if ordered != items {
      CanonicalMoved(items, columns);
      var current, next := Layout(items, columns), Layout(ordered, columns);
      LayoutProper(items, columns);
      LayoutProper(ordered, columns);
      CanonicalKeepsLayout(items, columns);
      CanonicalPermutes(items, columns);
      EarlierIsWeakOrder();
      ProperSeparates(current);
      Sorting.SortCanonical(current, next, Earlier());
      DistinctIdsPermute(items, ordered);
      OrderedItems(items, columns);
      OrderedItems(ordered, columns);
    }
  }

  lemma {:induction false} StableWithItself(ps: seq<Positioned>)
    requires DistinctIds(Items(ps))
    ensures Stable(ps, ps)
  {
    forall k | 0 <= k < |ps| ensures LastPosition(ps, ps[k].item.id) == Some(ps[k]) {
      LastPositionFinds(ps, k);
    }
  }

  lemma {:induction false} PositionOrderFixpoint(ps: seq<Positioned>)
    requires Sorting.Ordered(ps, Earlier())
    ensures ByPosition(ps) == ps
  {
    Sorting.SortFixpoint(ps, Earlier());
  }

  /** A layout listed in position order that its own item order reproduces is canonical. */
  lemma {:induction false} SettledOrder(items: seq<Item>, columns: int, ps: seq<Positioned>)
    requires columns >= 1 && DistinctIds(items) && ps == Layout(items, columns)
    requires Sorting.Ordered(ps, Earlier()) && Layout(Items(ps), columns) == ps
    ensures Canonical(items, columns) == Items(ps)
  {
    hide Layout, Lookup, Stable, ByPosition, DistinctIds;
    LayoutProper(items, columns);
    PositionOrderFixpoint(ps);
    OrderedItems(items, columns);
    Sorting.SameElements(Items(ps), items);
    DistinctIdsPermute(items, Items(ps));
    StableWithItself(ps);
  }

  /** The normal form: when the tiler succeeds, the canonical order is the tiling read in
      position order. */
  lemma {:induction false} CanonicalOfTiling(items: seq<Item>, columns: int)
    requires columns >= 1 && |items| > 0 && DistinctIds(items) && Tiling(items, columns).Some?
    ensures Canonical(items, columns) == Items(Tiling(items, columns).value)
  {
    hide Tiling, Canonical;
    var ps := Tiling(items, columns).value;
    TilerTheorems.TileSound(items, columns);
    TilerTheorems.TileFixpoint(items, columns);
    RowMajorOrdered(ps, columns);
    SettledOrder(items, columns, ps);
  }

  lemma {:induction false} RowMajorOrdered(ps: seq<Positioned>, columns: int)
    requires columns >= 1 && TilerTheorems.RowMajor(columns, ps)
    requires forall k :: 0 <= k < |ps| ==> 0 <= ps[k].slot.col < columns
    ensures Sorting.Ordered(ps, Earlier())
  {
    forall i, j | 0 <= i < j < |ps| ensures !Earlier()(ps[j], ps[i]) {
      assert TilerProofs.Origin(columns, ps[i].slot) < TilerProofs.Origin(columns, ps[j].slot);
      if ps[j].slot.row < ps[i].slot.row { MulGap(ps[i].slot.row, ps[j].slot.row, columns); }
    }
  }

  // ---------- moves ----------

  lemma {:induction false} InsertAt<T>(rest: seq<T>, x: T, index: nat)
    requires index <= |rest|
    ensures var m := rest[..index] + [x] + rest[index..];
            && |m| == |rest| + 1 && m[index] == x && m[..index] == rest[..index] && m[index + 1..] == rest[index..]
            && Without(m, index) == rest
            && multiset(m) == multiset{x} + multiset(rest)
  {
    var m := rest[..index] + [x] + rest[index..];
    assert rest == rest[..index] + rest[index..];
    assert Without(m, index) == m[..index] + m[index + 1..];
  }

  /** Moving an item permutes the order, puts it at its index and leaves the others as they were. */
  lemma {:induction false} MoveToPermutes(items: seq<Item>, id: string, index: int)
    ensures multiset(MoveTo(items, id, index)) == multiset(items)
    ensures var from := FindIndex(items, id, 0);
            from >= 0 && 0 <= index < |items| ==>
              && |MoveTo(items, id, index)| == |items|
              && MoveTo(items, id, index)[index] == items[from]
              && Without(MoveTo(items, id, index), index) == Without(items, from)
  {
    var from := FindIndex(items, id, 0);
    if from >= 0 && 0 <= index < |items| {
      InsertAt(Without(items, from), items[from], index);
    }
  }

  lemma {:induction false} PutBack<T>(xs: seq<T>, k: nat)
    requires k < |xs|
    ensures Without(xs, k)[..k] + [xs[k]] + Without(xs, k)[k..] == xs
  {
  }

  /** With distinct ids a move is undone by moving the item back. */
  lemma {:induction false} MoveToUndone(items: seq<Item>, id: string, index: int)
    requires DistinctIds(items) && FindIndex(items, id, 0) >= 0 && 0 <= index < |items|
    ensures MoveTo(MoveTo(items, id, index), id, FindIndex(items, id, 0)) == items
  {
    var from := FindIndex(items, id, 0);
    var moved := MoveTo(items, id, index);
    MoveToPermutes(items, id, index);
    DistinctIdsPermute(items, moved);
    PutBack(items, from);
  }
}
