/** Every drag candidate leads to a valid arrangement: swaps keep the placement disjoint and
    in bounds, and every candidate order is a permutation of the items. */
module DragProofs {
  import opened Wrappers
  import opened Grid
  import opened Arrangement
  import opened ArrangementProofs
  import Sorting

  ghost predicate Bounded(ps: seq<Positioned>, columns: int, rows: int) {
    forall k :: 0 <= k < |ps| ==> Inside(ps[k].slot, columns, rows)
  }

  lemma {:induction false} LayoutBounded(items: seq<Item>, columns: int)
    ensures Bounded(Layout(items, columns), columns, MaxRow(Layout(items, columns)))
    ensures AllDisjoint(Layout(items, columns))
  {
    LayoutValid(items, columns);
  }

  /** The target of a swap: the dragged shape elsewhere on the occupied rows. */
  ghost predicate Target(current: seq<Positioned>, columns: int, dragged: Slot, slot: Slot) {
    && slot.w == dragged.w && slot.h == dragged.h
    && Inside(slot, columns, MaxRow(current))
    && Swappable(current, dragged, slot)
  }

  /** Only the item at `k` has the dragged id. */
  ghost predicate OnlyDragged(current: seq<Positioned>, id: string, k: int) {
    && 0 <= k < |current| && current[k].item.id == id
    && forall j :: 0 <= j < |current| && j != k ==> current[j].item.id != id
  }

  lemma {:induction false} SwapKeepsPair(current: seq<Positioned>, id: string, k: nat, slot: Slot, columns: int, i: nat, j: nat)
    requires AllDisjoint(current) && Bounded(current, columns, MaxRow(current)) && OnlyDragged(current, id, k)
    requires Target(current, columns, current[k].slot, slot)
    requires i < j < |current|
    ensures var next := SwapAll(current, id, current[k].slot, slot); !Overlap(next[i].slot, next[j].slot)
  {
    var a, c, dragged := current[i].slot, current[j].slot, current[k].slot;
    assert !Overlap(a, c);
    if i < k { assert !Overlap(a, dragged); }
    if k < i { assert !Overlap(dragged, a); }
    if j < k { assert !Overlap(c, dragged); }
    if k < j { assert !Overlap(dragged, c); }
    assert Overlap(a, slot) ==> Contains(slot, a);
    assert Overlap(c, slot) ==> Contains(slot, c);
    assert Inside(a, columns, MaxRow(current)) && Inside(c, columns, MaxRow(current));
  }

  /** A swap gives a valid placement of the same items in slots of the same shapes: the dragged item
      on the target, those it displaced side by side as before where it was, the others unmoved. */
  lemma {:induction false} SwapKeepsPlacement(current: seq<Positioned>, id: string, k: nat, slot: Slot, columns: int)
    requires AllDisjoint(current) && Bounded(current, columns, MaxRow(current)) && OnlyDragged(current, id, k)
    requires Target(current, columns, current[k].slot, slot)
    ensures var next := SwapAll(current, id, current[k].slot, slot);
            && AllDisjoint(next)
            && Bounded(next, columns, MaxRow(current))
            && Items(next) == Items(current)
            && next[k].slot == slot
            && (forall j :: 0 <= j < |next| ==> next[j].slot.w == current[j].slot.w && next[j].slot.h == current[j].slot.h)
            && (forall j :: 0 <= j < |next| && j != k && !Overlap(current[j].slot, slot) ==> next[j] == current[j])
            && (forall j :: 0 <= j < |next| && j != k && Overlap(current[j].slot, slot) ==>
                  && Contains(current[k].slot, next[j].slot)
                  && next[j].slot.col - current[k].slot.col == current[j].slot.col - slot.col
                  && next[j].slot.row - current[k].slot.row == current[j].slot.row - slot.row)
  {
    var dragged := current[k].slot;
    var next := SwapAll(current, id, dragged, slot);
    forall i, j | 0 <= i < j < |next| ensures !Overlap(next[i].slot, next[j].slot) {
      SwapKeepsPair(current, id, k, slot, columns, i, j);
    }
    forall j | 0 <= j < |next| ensures Inside(next[j].slot, columns, MaxRow(current)) {
      assert Inside(current[j].slot, columns, MaxRow(current)) && Inside(dragged, columns, MaxRow(current));
      assert Overlap(current[j].slot, slot) ==> Contains(slot, current[j].slot);
    }
  }

  /** And only then: were the dragged id to repeat, both items would land on the target. */
  lemma {:induction false} SwapValidIff(current: seq<Positioned>, id: string, k: nat, slot: Slot, columns: int)
    requires AllDisjoint(current) && Bounded(current, columns, MaxRow(current))
    requires k < |current| && current[k].item.id == id
    requires Target(current, columns, current[k].slot, slot)
    ensures AllDisjoint(SwapAll(current, id, current[k].slot, slot)) <==> OnlyDragged(current, id, k)
  {
    var next := SwapAll(current, id, current[k].slot, slot);
    if OnlyDragged(current, id, k) {
      SwapKeepsPlacement(current, id, k, slot, columns);
    } else {
      var j :| 0 <= j < |current| && j != k && current[j].item.id == id;
      assert Inside(current[j].slot, columns, MaxRow(current));
      assert Overlap(next[j].slot, next[k].slot) && Overlap(next[k].slot, next[j].slot);
      assert !AllDisjoint(next) by { if j < k { } else { assert Overlap(next[k].slot, next[j].slot); } }
    }
  }

  // ---------- orders ----------

  lemma {:induction false} LookupContains(items: seq<Item>, ps: seq<Positioned>, x: Item)
    requires x in Lookup(items, ps)
    ensures x in items && LastWith(items, x.id) == Some(x)
  {
    var found := LastWith(items, ps[0].item.id);
    LastWithIsItem(items, ps[0].item.id);
    if found == Some(x) {
    } else {
      LookupContains(items, ps[1..], x);
    }
  }

  /** Looking positions up by id gives back a permutation exactly when items sharing an id are equal. */
  lemma {:induction false} LookupPermutesIff(items: seq<Item>, ps: seq<Positioned>)
    requires multiset(Items(ps)) == multiset(items)
    ensures multiset(Lookup(items, ps)) == multiset(items) <==> ConsistentIds(items)
  {
    if ConsistentIds(items) {
      PositionsNameItems(items, ps);
    } else if multiset(Lookup(items, ps)) == multiset(items) {
      Sorting.SameElements(Lookup(items, ps), items);
      var x, y :| x in items && y in items && x.id == y.id && x != y;
      LookupContains(items, ps, x);
      LookupContains(items, ps, y);
      assert false;
    }
  }

  lemma {:induction false} SwapItems(current: seq<Positioned>, id: string, dragged: Slot, slot: Slot)
    ensures multiset(Items(ByPosition(SwapAll(current, id, dragged, slot)))) == multiset(Items(current))
  {
    var next := SwapAll(current, id, dragged, slot);
    assert Items(next) == Items(current);
    ItemsPermute(ByPosition(next), next);
  }

  /** The order a swap proposes is a permutation exactly when items sharing an id are equal. */
  lemma {:induction false} SwapOrderPermutesIff(items: seq<Item>, id: string, columns: int, dragged: Slot, slot: Slot)
    requires columns >= 1
    ensures multiset(SwapCandidate(items, Layout(items, columns), id, dragged, slot).order) == multiset(items)
            <==> ConsistentIds(items)
  {
    var current := Layout(items, columns);
    LayoutProper(items, columns);
    SwapItems(current, id, dragged, slot);
    LookupPermutesIff(items, ByPosition(SwapAll(current, id, dragged, slot)));
  }

  /** A target is free of the dragged slot, two different items reach into it, and whoever does lies
      in it whole. */
  lemma {:induction false} SwappableIff(current: seq<Positioned>, dragged: Slot, slot: Slot)
    ensures Swappable(current, dragged, slot) <==>
            && !Overlap(slot, dragged)
            && (exists i, j :: 0 <= i < j < |current| && Overlap(current[i].slot, slot) && Overlap(current[j].slot, slot))
            && (forall k :: 0 <= k < |current| && Overlap(current[k].slot, slot) ==> Contains(slot, current[k].slot))
  {
    TwoOverlap(current, slot);
  }

  lemma {:induction false} TwoOverlap(current: seq<Positioned>, slot: Slot)
    ensures CountOverlapping(current, slot) >= 1 <==> exists i :: 0 <= i < |current| && Overlap(current[i].slot, slot)
    ensures CountOverlapping(current, slot) >= 2 <==>
            exists i, j :: 0 <= i < j < |current| && Overlap(current[i].slot, slot) && Overlap(current[j].slot, slot)
    decreases |current|
  {
    if |current| > 0 {
      var rest := current[1..];
      TwoOverlap(rest, slot);
      assert forall i :: 0 <= i < |rest| ==> rest[i] == current[i + 1];
      assert forall i :: 1 <= i < |current| ==> current[i] == rest[i - 1];
    }
  }

  // ---------- which candidates are offered ----------

  /** Candidate `c` is the swap with the slot at this row and column. */
  ghost predicate SwapAt(items: seq<Item>, current: seq<Positioned>, id: string, dragged: Slot, row: int, col: int, c: Candidate) {
    var slot := dragged.(col := col, row := row);
    Swappable(current, dragged, slot) && c == SwapCandidate(items, current, id, dragged, slot)
  }

  lemma {:induction false} ColumnSwapsIff(items: seq<Item>, current: seq<Positioned>, id: string, dragged: Slot, columns: int,
                                          row: int, col: nat, c: Candidate)
    ensures c in ColumnSwaps(items, current, id, dragged, columns, row, col) <==>
            exists to: int :: col <= to <= columns - dragged.w && SwapAt(items, current, id, dragged, row, to, c)
    decreases columns - dragged.w - col
  {
    hide SwapCandidate, Swappable;
    if col + dragged.w <= columns {
      ColumnSwapsIff(items, current, id, dragged, columns, row, col + 1, c);
      var slot := dragged.(col := col, row := row);
      var head := if Swappable(current, dragged, slot) then [SwapCandidate(items, current, id, dragged, slot)] else [];
      assert c in head <==> SwapAt(items, current, id, dragged, row, col, c);
    }
  }

  ghost predicate InRow(items: seq<Item>, current: seq<Positioned>, id: string, dragged: Slot, columns: int, row: int, c: Candidate) {
    c in ColumnSwaps(items, current, id, dragged, columns, row, 0)
  }

  lemma {:induction false} RowSwapsIff(items: seq<Item>, current: seq<Positioned>, id: string, dragged: Slot, columns: int,
                                       row: nat, c: Candidate)
    ensures c in RowSwaps(items, current, id, dragged, columns, row) <==>
            exists to: int :: row <= to <= MaxRow(current) - dragged.h && InRow(items, current, id, dragged, columns, to, c)
    decreases MaxRow(current) - dragged.h - row
  {
    hide ColumnSwaps;
    if row + dragged.h <= MaxRow(current) {
      RowSwapsIff(items, current, id, dragged, columns, row + 1, c);
      assert InRow(items, current, id, dragged, columns, row, c) <==> c in ColumnSwaps(items, current, id, dragged, columns, row, 0);
    }
  }

  /** Candidate `c` is the move to index `to`, with the slot the item then gets. */
  ghost predicate MovesTo(items: seq<Item>, id: string, columns: int, to: int, c: Candidate) {
    && to != FindIndex(items, id, 0) && c.order == MoveTo(items, id, to)
    && var ps := Layout(c.order, columns);
       var k := FirstPosition(ps, id, 0);
       k >= 0 && c.slot == ps[k].slot
  }

  lemma {:induction false} MoveCandidatesIff(items: seq<Item>, id: string, columns: int, index: nat, c: Candidate)
    requires index <= |items|
    ensures c in MoveCandidates(items, id, columns, index) <==>
            exists to: int :: index <= to < |items| && MovesTo(items, id, columns, to, c)
    decreases |items| - index
  {
    hide Layout, MoveTo, MovesTo, FindIndex, FirstPosition;
    if index < |items| {
      hide MoveCandidates;
      MoveCandidatesIff(items, id, columns, index + 1, c);
      MoveCandidatesStep(items, id, columns, index, c);
    }
  }

  lemma {:induction false} MoveCandidatesStep(items: seq<Item>, id: string, columns: int, index: nat, c: Candidate)
    requires index < |items|
    ensures c in MoveCandidates(items, id, columns, index) <==>
            MovesTo(items, id, columns, index, c) || c in MoveCandidates(items, id, columns, index + 1)
  {
    hide Layout, MoveTo;
  }

  /** A move is offered to every index but the item's own. */
  lemma {:induction false} EveryMoveOffered(items: seq<Item>, id: string, columns: int, to: nat) returns (c: Candidate)
    requires columns >= 1 && FindIndex(items, id, 0) >= 0 && to < |items| && to != FindIndex(items, id, 0)
    ensures c in MoveCandidates(items, id, columns, 0) && c.order == MoveTo(items, id, to)
  {
    hide Layout, MoveTo, MoveCandidates;
    var order := MoveTo(items, id, to);
    var ps := Layout(order, columns);
    var x := items[FindIndex(items, id, 0)];
    MoveToPermutes(items, id, to);
    LayoutProper(order, columns);
    Sorting.SameElements(Items(ps), items);
    assert x in Items(ps);
    var j :| 0 <= j < |Items(ps)| && Items(ps)[j] == x;
    assert ps[j].item.id == id;
    var k := FirstPosition(ps, id, 0);
    c := Candidate(order, ps[k].slot);
    assert MovesTo(items, id, columns, to, c);
    MoveCandidatesIff(items, id, columns, 0, c);
  }

  /** A swap is offered exactly for the slots on the occupied rows that leave the dragged slot
      and hold at least two whole items. */
  lemma {:induction false} SwapsOffered(items: seq<Item>, id: string, columns: int, dragged: Slot, c: Candidate)
    requires 1 <= dragged.w && 1 <= dragged.h
    ensures var current := Layout(items, columns);
            c in RowSwaps(items, current, id, dragged, columns, 0) <==>
            exists row: int, col: int :: Inside(dragged.(col := col, row := row), columns, MaxRow(current))
                                         && SwapAt(items, current, id, dragged, row, col, c)
  {
    hide Layout, SwapAt, ColumnSwaps, RowSwaps;
    var current := Layout(items, columns);
    RowSwapsIff(items, current, id, dragged, columns, 0, c);
    forall row: int
      ensures InRow(items, current, id, dragged, columns, row, c) <==>
              exists col: int :: 0 <= col <= columns - dragged.w && SwapAt(items, current, id, dragged, row, col, c)
    {
      ColumnSwapsIff(items, current, id, dragged, columns, row, 0, c);
    }
    if c in RowSwaps(items, current, id, dragged, columns, 0) {
      var row: int :| 0 <= row <= MaxRow(current) - dragged.h && InRow(items, current, id, dragged, columns, row, c);
      var col: int :| 0 <= col <= columns - dragged.w && SwapAt(items, current, id, dragged, row, col, c);
      assert Inside(dragged.(col := col, row := row), columns, MaxRow(current));
    } else {
      forall row: int, col: int | Inside(dragged.(col := col, row := row), columns, MaxRow(current))
        ensures !SwapAt(items, current, id, dragged, row, col, c)
      {
        assert !InRow(items, current, id, dragged, columns, row, c);
      }
    }
  }

  lemma {:induction false} DraggedIsOnly(items: seq<Item>, id: string, columns: int, k: nat)
    requires DistinctIds(items) && columns >= 1
    requires k < |Layout(items, columns)| && Layout(items, columns)[k].item.id == id
    ensures OnlyDragged(Layout(items, columns), id, k)
  {
    hide Layout;
    var current := Layout(items, columns);
    LayoutProper(items, columns);
    DistinctIdsPermute(items, Items(current));
    forall j | 0 <= j < |current| && j != k ensures current[j].item.id != id {
      if j < k { assert Items(current)[j].id != Items(current)[k].id; }
      else { assert Items(current)[k].id != Items(current)[j].id; }
    }
  }

  /** Every swap offered: the items in position order of a valid placement that has the dragged
      item on its target and every item in a slot of its old shape. */
  lemma {:induction false} OfferedSwapsValid(items: seq<Item>, id: string, columns: int, k: nat, c: Candidate)
    requires DistinctIds(items) && columns >= 1
    requires k < |Layout(items, columns)| && Layout(items, columns)[k].item.id == id
    requires var current := Layout(items, columns); c in RowSwaps(items, current, id, current[k].slot, columns, 0)
    ensures var current := Layout(items, columns);
            var next := SwapAll(current, id, current[k].slot, c.slot);
            && AllDisjoint(next) && Bounded(next, columns, MaxRow(current))
            && Items(next) == Items(current) && next[k].slot == c.slot
            && (forall j :: 0 <= j < |next| ==> next[j].slot.w == current[j].slot.w && next[j].slot.h == current[j].slot.h)
            && c.order == Items(ByPosition(next))
  {
    hide Layout, RowSwaps;
    var current := Layout(items, columns);
    var dragged := current[k].slot;
    LayoutBounded(items, columns);
    LayoutProper(items, columns);
    SwapsOffered(items, id, columns, dragged, c);
    var row: int, col: int :| Inside(dragged.(col := col, row := row), columns, MaxRow(current))
                              && SwapAt(items, current, id, dragged, row, col, c);
    DraggedIsOnly(items, id, columns, k);
    SwapKeepsPlacement(current, id, k, c.slot, columns);
    SwapItems(current, id, dragged, c.slot);
    DistinctIsConsistent(items);
    PositionsNameItems(items, ByPosition(SwapAll(current, id, dragged, c.slot)));
  }

  lemma {:induction false} PositionsNameItems(items: seq<Item>, ps: seq<Positioned>)
    requires multiset(Items(ps)) == multiset(items) && ConsistentIds(items)
    ensures Lookup(items, ps) == Items(ps)
  {
    Sorting.SameElements(Items(ps), items);
    forall p | p in ps ensures p.item in items {
      var k :| 0 <= k < |ps| && ps[k] == p;
      assert Items(ps)[k] == p.item;
    }
    LookupItems(items, ps);
  }

  /** With the item in the list, the moves come in the order of their indexes, its own left out. */
  lemma {:induction false} MovesInOrder(items: seq<Item>, id: string, columns: int, index: nat)
    requires columns >= 1 && FindIndex(items, id, 0) >= 0 && index <= |items|
    ensures var moves, own := MoveCandidates(items, id, columns, index), FindIndex(items, id, 0);
            && |moves| == |items| - index - (if index <= own then 1 else 0)
            && forall j :: 0 <= j < |moves| ==> MovesTo(items, id, columns, if index + j < own || own < index then index + j else index + j + 1, moves[j])
    decreases |items| - index
  {
    hide Layout, MoveTo, MovesTo;
    if index < |items| {
      MovesInOrder(items, id, columns, index + 1);
      var rest := MoveCandidates(items, id, columns, index + 1);
      if index != FindIndex(items, id, 0) {
        var head := MoveHead(items, id, columns, index);
        assert MoveCandidates(items, id, columns, index) == [head] + rest;
      } else {
        assert MoveCandidates(items, id, columns, index) == rest;
      }
    }
  }

  lemma {:induction false} MoveHead(items: seq<Item>, id: string, columns: int, index: nat) returns (head: Candidate)
    requires columns >= 1 && FindIndex(items, id, 0) >= 0 && index < |items| && index != FindIndex(items, id, 0)
    ensures MovesTo(items, id, columns, index, head)
    ensures MoveCandidates(items, id, columns, index) == [head] + MoveCandidates(items, id, columns, index + 1)
  {
    hide Layout, MoveTo;
    MoveFound(items, id, columns, index);
    var ps := Layout(MoveTo(items, id, index), columns);
    head := Candidate(MoveTo(items, id, index), ps[FirstPosition(ps, id, 0)].slot);
  }

  lemma {:induction false} MoveFound(items: seq<Item>, id: string, columns: int, to: int)
    requires columns >= 1 && FindIndex(items, id, 0) >= 0
    ensures FirstPosition(Layout(MoveTo(items, id, to), columns), id, 0) >= 0
  {
    hide Layout, MoveTo;
    var order := MoveTo(items, id, to);
    var ps := Layout(order, columns);
    var x := items[FindIndex(items, id, 0)];
    MoveToPermutes(items, id, to);
    LayoutProper(order, columns);
    Sorting.SameElements(Items(ps), items);
    assert x in Items(ps);
    var j :| 0 <= j < |Items(ps)| && Items(ps)[j] == x;
    assert ps[j].item.id == id;
  }

  /** What `candidatesFor` returns for an item of the list: first the swaps, exactly the offered ones,
      then one move to every other index, in order, each with the slot the item then gets. */
  lemma {:induction false} CandidatesAre(items: seq<Item>, id: string, columns: int) returns (k: nat, n: nat)
    requires columns >= 1 && FindIndex(items, id, 0) >= 0
    ensures var current, cs, own := Layout(items, columns), Candidates(items, id, columns), FindIndex(items, id, 0);
            && k < |current| && current[k].item.id == id && (forall i :: 0 <= i < k ==> current[i].item.id != id)
            && n <= |cs| && |cs| == n + |items| - 1
            && (forall c :: c in cs[..n] <==>
                  exists row: int, col: int :: Inside(current[k].slot.(col := col, row := row), columns, MaxRow(current))
                                               && SwapAt(items, current, id, current[k].slot, row, col, c))
            && (forall j :: n <= j < |cs| ==> MovesTo(items, id, columns, if j - n < own then j - n else j - n + 1, cs[j]))
  {
    hide Layout, MoveTo, MoveCandidates, RowSwaps, SwapAt, MovesTo;
    var current := Layout(items, columns);
    LayoutProper(items, columns);
    Sorting.SameElements(Items(current), items);
    var x := items[FindIndex(items, id, 0)];
    assert x in Items(current);
    var at :| 0 <= at < |Items(current)| && Items(current)[at] == x;
    assert current[at].item.id == id;
    k := FirstPosition(current, id, 0);
    var swaps, moves := RowSwaps(items, current, id, current[k].slot, columns, 0), MoveCandidates(items, id, columns, 0);
    n := |swaps|;
    MovesInOrder(items, id, columns, 0);
    assert Candidates(items, id, columns) == swaps + moves && (swaps + moves)[..n] == swaps;
    forall c ensures c in swaps <==>
      exists row: int, col: int :: Inside(current[k].slot.(col := col, row := row), columns, MaxRow(current))
                                   && SwapAt(items, current, id, current[k].slot, row, col, c)
    {
      SwapsOffered(items, id, columns, current[k].slot, c);
    }
  }

  /** An item that is not in the list has no candidates. */
  lemma {:induction false} NoCandidates(items: seq<Item>, id: string, columns: int)
    requires columns >= 1 && FindIndex(items, id, 0) < 0
    ensures Candidates(items, id, columns) == []
  {
    hide Layout;
    var current := Layout(items, columns);
    LayoutProper(items, columns);
    Sorting.SameElements(Items(current), items);
    forall i | 0 <= i < |current| ensures current[i].item.id != id {
      assert Items(current)[i] in items;
    }
  }

  /** Every candidate order, swap or move, is a permutation of the items. */
  lemma {:induction false} CandidatesPermute(items: seq<Item>, id: string, columns: int)
    requires ConsistentIds(items)
    ensures forall c :: c in Candidates(items, id, columns) ==> multiset(c.order) == multiset(items)
  {
    hide Layout, MoveTo, MoveCandidates, RowSwaps, SwapAt;
    var current := Layout(items, columns);
    var k := FirstPosition(current, id, 0);
    LayoutProper(items, columns);
    forall c | c in Candidates(items, id, columns) ensures multiset(c.order) == multiset(items) {
      var dragged := current[k].slot;
      if c in RowSwaps(items, current, id, dragged, columns, 0) {
        SwapPermutes(items, id, columns, dragged, c);
      } else {
        MoveCandidatesIff(items, id, columns, 0, c);
        var to :| 0 <= to < |items| && MovesTo(items, id, columns, to, c);
        MoveToPermutes(items, id, to);
      }
    }
  }

  lemma {:induction false} SwapPermutes(items: seq<Item>, id: string, columns: int, dragged: Slot, c: Candidate)
    requires ConsistentIds(items) && columns >= 1 && 1 <= dragged.w && 1 <= dragged.h
    requires c in RowSwaps(items, Layout(items, columns), id, dragged, columns, 0)
    ensures multiset(c.order) == multiset(items)
  {
    hide Layout, RowSwaps, SwapCandidate;
    var current := Layout(items, columns);
    SwapsOffered(items, id, columns, dragged, c);
    var row: int, col: int :| Inside(dragged.(col := col, row := row), columns, MaxRow(current))
                              && SwapAt(items, current, id, dragged, row, col, c);
    SwapOrderPermutesIff(items, id, columns, dragged, dragged.(col := col, row := row));
  }
}
