/** Reordering on top of the two engines: the layout, its canonical item order, moving an
    item, and the orders a drag may lead to. */
module Arrangement {
  import opened Wrappers
  import opened Grid
  import opened Tiler
  import Packer
  import Sorting

  function Layout(items: seq<Item>, columns: int): seq<Positioned> {
    var tiled := Tiling(items, columns);
    if tiled.Some? then tiled.value else Packer.Packing(items, columns)
  }

  /** Row-major order of positions, the comparator of both sorts. */
  function Earlier(): (Positioned, Positioned) -> bool {
    (a: Positioned, b: Positioned) =>
      a.slot.row < b.slot.row || (a.slot.row == b.slot.row && a.slot.col < b.slot.col)
  }

  function ByPosition(ps: seq<Positioned>): seq<Positioned> {
    Sorting.Sort(ps, Earlier())
  }

  /** A map built from the items by id: later entries win. */
  function LastWith(items: seq<Item>, id: string): Option<Item>
    decreases |items|
  {
    if |items| == 0 then None
    else if items[|items| - 1].id == id then Some(items[|items| - 1])
    else LastWith(items[..|items| - 1], id)
  }

  function LastPosition(ps: seq<Positioned>, id: string): Option<Positioned>
    decreases |ps|
  {
    if |ps| == 0 then None
    else if ps[|ps| - 1].item.id == id then Some(ps[|ps| - 1])
    else LastPosition(ps[..|ps| - 1], id)
  }

  /** The items the positions name, looked up by id; names not found are dropped. */
  function Lookup(items: seq<Item>, ps: seq<Positioned>): seq<Item> {
    if |ps| == 0 then
      []
    else
      var found := LastWith(items, ps[0].item.id);
      (if found.Some? then [found.value] else []) + Lookup(items, ps[1..])
  }

  /** Every position is the one its item has in `next`. */
  predicate Stable(current: seq<Positioned>, next: seq<Positioned>) {
    forall k | 0 <= k < |current| ::
      var n := LastPosition(next, current[k].item.id);
      n.Some? && n.value.slot == current[k].slot
  }

  function Canonical(items: seq<Item>, columns: int): seq<Item> {
    var current := Layout(items, columns);
    if |current| != |items| then
      items
    else
      var ordered := Lookup(items, ByPosition(current));
      if ordered <= items then items
      else if Stable(current, Layout(ordered, columns)) then ordered
      else items
  }

  function FindIndex(items: seq<Item>, id: string, k: nat): (r: int)
    requires k <= |items|
    ensures -1 <= r < |items|
    ensures r >= 0 ==> items[r].id == id && forall i :: k <= i < r ==> items[i].id != id
    ensures r < 0 ==> forall i :: k <= i < |items| ==> items[i].id != id
    decreases |items| - k
  {
    if k == |items| then -1
    else if items[k].id == id then k
    else FindIndex(items, id, k + 1)
  }

  function Without<T>(xs: seq<T>, k: nat): (r: seq<T>)
    requires k < |xs|
    ensures |r| == |xs| - 1
    ensures multiset(r) == multiset(xs) - multiset{xs[k]}
  {
    assert xs == xs[..k] + [xs[k]] + xs[k + 1..];
    xs[..k] + xs[k + 1..]
  }

  function MoveTo(items: seq<Item>, id: string, index: int): seq<Item> {
    var from := FindIndex(items, id, 0);
    if from < 0 || from == index || index < 0 || index >= |items| then
      items
    else
      var rest := Without(items, from);
      rest[..index] + [items[from]] + rest[index..]
  }

  // ---------- drag candidates ----------

  datatype Candidate = Candidate(order: seq<Item>, slot: Slot)

  function FirstPosition(ps: seq<Positioned>, id: string, k: nat): (r: int)
    requires k <= |ps|
    ensures -1 <= r < |ps|
    ensures r >= 0 ==> ps[r].item.id == id && forall i :: k <= i < r ==> ps[i].item.id != id
    ensures r < 0 ==> forall i :: k <= i < |ps| ==> ps[i].item.id != id
    decreases |ps| - k
  {
    if k == |ps| then -1
    else if ps[k].item.id == id then k
    else FirstPosition(ps, id, k + 1)
  }

  function MaxRow(ps: seq<Positioned>): (r: int)
    ensures forall k :: 0 <= k < |ps| ==> ps[k].slot.row + ps[k].slot.h <= r
    ensures r == 0 || exists k :: 0 <= k < |ps| && ps[k].slot.row + ps[k].slot.h == r
  {
    if |ps| == 0 then
      0
    else
      var rest := MaxRow(ps[1..]);
      var bottom := ps[0].slot.row + ps[0].slot.h;
      assert forall k :: 1 <= k < |ps| ==> ps[k] == ps[1..][k - 1];
      assert forall k :: 0 <= k < |ps| - 1 ==> ps[1..][k] == ps[k + 1];
      if bottom > rest then bottom else rest
  }

  function CountOverlapping(ps: seq<Positioned>, slot: Slot): nat {
    if |ps| == 0 then 0
    else (if Overlap(ps[0].slot, slot) then 1 else 0) + CountOverlapping(ps[1..], slot)
  }

  /** The target slot is free of the dragged item and holds at least two whole items. */
  predicate Swappable(current: seq<Positioned>, dragged: Slot, slot: Slot) {
    && !Overlap(slot, dragged)
    && CountOverlapping(current, slot) >= 2
    && forall k | 0 <= k < |current| && Overlap(current[k].slot, slot) :: Contains(slot, current[k].slot)
  }

  /** The dragged item goes to the target, the items there move into the slot it left. */
  function SwapOne(p: Positioned, id: string, dragged: Slot, slot: Slot): Positioned {
    if p.item.id == id then
      p.(slot := p.slot.(col := slot.col, row := slot.row))
    else if Overlap(p.slot, slot) then
      p.(slot := p.slot.(col := p.slot.col - slot.col + dragged.col, row := p.slot.row - slot.row + dragged.row))
    else
      p
  }

  function SwapAll(current: seq<Positioned>, id: string, dragged: Slot, slot: Slot): (next: seq<Positioned>)
    ensures |next| == |current|
  {
    seq(|current|, k requires 0 <= k < |current| => SwapOne(current[k], id, dragged, slot))
  }

  function SwapCandidate(items: seq<Item>, current: seq<Positioned>, id: string, dragged: Slot, slot: Slot): Candidate {
    Candidate(Lookup(items, ByPosition(SwapAll(current, id, dragged, slot))), slot)
  }

  /** The swap candidates of one row, from column `col` on. */
  function ColumnSwaps(items: seq<Item>, current: seq<Positioned>, id: string, dragged: Slot, columns: int, row: int, col: nat): seq<Candidate>
    decreases columns - dragged.w - col
  {
    if col + dragged.w > columns then
      []
    else
      var slot := dragged.(col := col, row := row);
      (if Swappable(current, dragged, slot) then [SwapCandidate(items, current, id, dragged, slot)] else []) +
      ColumnSwaps(items, current, id, dragged, columns, row, col + 1)
  }

  function RowSwaps(items: seq<Item>, current: seq<Positioned>, id: string, dragged: Slot, columns: int, row: nat): seq<Candidate>
    decreases MaxRow(current) - dragged.h - row
  {
    if row + dragged.h > MaxRow(current) then
      []
    else
      ColumnSwaps(items, current, id, dragged, columns, row, 0) +
      RowSwaps(items, current, id, dragged, columns, row + 1)
  }

  function MoveCandidates(items: seq<Item>, id: string, columns: int, index: nat): seq<Candidate>
    requires index <= |items|
    decreases |items| - index
  {
    if index == |items| then
      []
    else
      (if index == FindIndex(items, id, 0) then
         []
       else
         var order := MoveTo(items, id, index);
         var ps := Layout(order, columns);
         var k := FirstPosition(ps, id, 0);
         if k < 0 then [] else [Candidate(order, ps[k].slot)]) +
      MoveCandidates(items, id, columns, index + 1)
  }

  function Candidates(items: seq<Item>, id: string, columns: int): seq<Candidate> {
    var current := Layout(items, columns);
    var k := FirstPosition(current, id, 0);
    if k < 0 then []
    else RowSwaps(items, current, id, current[k].slot, columns, 0) + MoveCandidates(items, id, columns, 0)
  }

  // ---------- `candidatesFor` as it runs ----------

  lemma {:induction false} Regroup<T>(a: seq<T>, b: seq<T>, c: seq<T>)
    ensures a + (b + c) == (a + b) + c
  {
  }

  method CollectRow(items: seq<Item>, current: seq<Positioned>, id: string, dragged: Slot, columns: int, row: nat,
                    before: seq<Candidate>) returns (candidates: seq<Candidate>)
    ensures candidates == before + ColumnSwaps(items, current, id, dragged, columns, row, 0)
  {
    hide SwapCandidate, Swappable;
    candidates := before;
    var col := 0;
    while col + dragged.w <= columns
      invariant 0 <= col
      invariant candidates + ColumnSwaps(items, current, id, dragged, columns, row, col) ==
                before + ColumnSwaps(items, current, id, dragged, columns, row, 0)
      decreases columns - dragged.w - col
    {
      var slot := dragged.(col := col, row := row);
      ghost var rest := ColumnSwaps(items, current, id, dragged, columns, row, col + 1);
      if Swappable(current, dragged, slot) {
        Regroup(candidates, [SwapCandidate(items, current, id, dragged, slot)], rest);
        candidates := candidates + [SwapCandidate(items, current, id, dragged, slot)];
      } else {
        assert [] + rest == rest;
      }
      col := col + 1;
    }
  }

  method CollectSwaps(items: seq<Item>, current: seq<Positioned>, id: string, dragged: Slot, columns: int)
      returns (candidates: seq<Candidate>)
    ensures candidates == RowSwaps(items, current, id, dragged, columns, 0)
  {
    var maxRows := MaxRow(current);
    candidates := [];
    var row := 0;
    while row + dragged.h <= maxRows
      invariant 0 <= row
      invariant candidates + RowSwaps(items, current, id, dragged, columns, row) ==
                RowSwaps(items, current, id, dragged, columns, 0)
      decreases maxRows - dragged.h - row
    {
      Regroup(candidates, ColumnSwaps(items, current, id, dragged, columns, row, 0),
              RowSwaps(items, current, id, dragged, columns, row + 1));
      candidates := CollectRow(items, current, id, dragged, columns, row, candidates);
      row := row + 1;
    }
  }

  method CandidatesFor(items: seq<Item>, id: string, columns: int) returns (candidates: seq<Candidate>)
    ensures candidates == Candidates(items, id, columns)
  {
    hide Layout, RowSwaps, MoveTo;
    var current := Layout(items, columns);
    var k := FirstPosition(current, id, 0);
    if k < 0 {
      return [];
    }
    candidates := CollectSwaps(items, current, id, current[k].slot, columns);
    ghost var swaps := candidates;
    var currentIndex := FindIndex(items, id, 0);
    var index := 0;
    while index < |items|
      invariant 0 <= index <= |items|
      invariant candidates + MoveCandidates(items, id, columns, index) == swaps + MoveCandidates(items, id, columns, 0)
    {
      ghost var rest := MoveCandidates(items, id, columns, index + 1);
      if index != currentIndex {
        var order := MoveTo(items, id, index);
        var ps := Layout(order, columns);
        var j := FirstPosition(ps, id, 0);
        if j >= 0 {
          Regroup(candidates, [Candidate(order, ps[j].slot)], rest);
          candidates := candidates + [Candidate(order, ps[j].slot)];
        } else {
          assert [] + rest == rest;
        }
      } else {
        assert [] + rest == rest;
      }
      index := index + 1;
    }
  }
}
