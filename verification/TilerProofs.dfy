/** What a successful tiling looks like, why a failed one is final, and why the
    tiler's own output order is a fixed point. */
module TilerProofs {
  import opened Wrappers
  import opened Grid
  import opened Tiler

  function Origin(columns: int, s: Slot): int {
    s.row * columns + s.col
  }

  /** Cells below `c` are all covered by the first `n` placed slots. */
  ghost predicate CoveredBelow(columns: int, ps: seq<Positioned>, n: nat, occupied: seq<bool>, c: int)
    requires columns >= 1 && n <= |ps| && c <= |occupied|
  {
    forall k :: 0 <= k < c ==> occupied[k] || exists j :: 0 <= j < n && Covers(columns, ps[j].slot, k)
  }

  // ---------- geometry of a completing order ----------

  lemma {:induction false} HeadInside(b: Board, occupied: seq<bool>, used: seq<bool>, order: seq<int>)
    requires WellFormed(b) && |used| == |b.sizes| && |occupied| == Cells(b)
    requires Completes(b, occupied, used, order) && |order| > 0
    ensures Inside(SlotAt(b, FirstFree(occupied), b.sizes[order[0]]), b.columns, b.rows)
    ensures Origin(b.columns, SlotAt(b, FirstFree(occupied), b.sizes[order[0]])) == FirstFree(occupied)
    ensures Covers(b.columns, SlotAt(b, FirstFree(occupied), b.sizes[order[0]]), FirstFree(occupied))
  {
  }

  /** A placed slot lies on the board, over cells that were free. */
  ghost predicate OnFreeCells(b: Board, occupied: seq<bool>, s: Slot)
    requires b.columns >= 1
  {
    && Inside(s, b.columns, b.rows)
    && forall c :: 0 <= c < |occupied| && Covers(b.columns, s, c) ==> !occupied[c]
  }

  lemma {:induction false} DisjointFromMarked(b: Board, occupied: seq<bool>, s: Slot, t: Slot)
    requires WellFormed(b) && |occupied| == Cells(b) && Inside(s, b.columns, b.rows)
    requires OnFreeCells(b, Marked(occupied, b.columns, s, true), t)
    ensures !Overlap(s, t)
  {
    OverlapIffShareCell(b.columns, b.rows, s, t);
    var marked := Marked(occupied, b.columns, s, true);
    forall c | 0 <= c < b.rows * b.columns && Covers(b.columns, s, c) ensures !Covers(b.columns, t, c) {
      assert marked[c];
    }
  }

  lemma {:induction false} PlacedInside(b: Board, items: seq<Item>, occupied: seq<bool>, used: seq<bool>, order: seq<int>, k: nat)
    requires WellFormed(b) && |used| == |b.sizes| == |items| && |occupied| == Cells(b)
    requires Completes(b, occupied, used, order) && k < |order|
    ensures OnFreeCells(b, occupied, Placed(b, items, occupied, used, order)[k].slot)
    decreases |order|
  {
    HeadInside(b, occupied, used, order);
    var s := SlotAt(b, FirstFree(occupied), b.sizes[order[0]]);
    if k > 0 {
      var marked := Marked(occupied, b.columns, s, true);
      PlacedInside(b, items, marked, used[order[0] := true], order[1..], k - 1);
    }
  }

  lemma {:induction false} PlacedDisjoint(b: Board, items: seq<Item>, occupied: seq<bool>, used: seq<bool>, order: seq<int>, i: nat, j: nat)
    requires WellFormed(b) && |used| == |b.sizes| == |items| && |occupied| == Cells(b)
    requires Completes(b, occupied, used, order) && i < j < |order|
    ensures var ps := Placed(b, items, occupied, used, order); !Overlap(ps[i].slot, ps[j].slot)
    decreases |order|
  {
    var s := SlotAt(b, FirstFree(occupied), b.sizes[order[0]]);
    var occupied', used' := Marked(occupied, b.columns, s, true), used[order[0] := true];
    if i == 0 {
      HeadInside(b, occupied, used, order);
      PlacedInside(b, items, occupied', used', order[1..], j - 1);
      DisjointFromMarked(b, occupied, s, Placed(b, items, occupied', used', order[1..])[j - 1].slot);
    } else {
      PlacedDisjoint(b, items, occupied', used', order[1..], i - 1, j - 1);
    }
  }

  /** Origins come in strictly increasing row-major order, the first one at the first free cell. */
  lemma {:induction false} PlacedIncreasing(b: Board, items: seq<Item>, occupied: seq<bool>, used: seq<bool>, order: seq<int>, n: nat)
    requires WellFormed(b) && |used| == |b.sizes| == |items| && |occupied| == Cells(b)
    requires Completes(b, occupied, used, order) && n < |order|
    ensures var ps := Placed(b, items, occupied, used, order);
            && Origin(b.columns, ps[0].slot) == FirstFree(occupied)
            && Origin(b.columns, ps[0].slot) <= Origin(b.columns, ps[n].slot) < |occupied|
            && (n > 0 ==> Origin(b.columns, ps[0].slot) < Origin(b.columns, ps[n].slot))
    decreases |order|
  {
    HeadInside(b, occupied, used, order);
    if n > 0 {
      var s := SlotAt(b, FirstFree(occupied), b.sizes[order[0]]);
      var occupied', used' := Marked(occupied, b.columns, s, true), used[order[0] := true];
      PlacedIncreasing(b, items, occupied', used', order[1..], n - 1);
    }
  }

  /** Every cell before an origin was occupied at the start or is covered by an earlier slot. */
  lemma {:induction false} PlacedCoversBefore(b: Board, items: seq<Item>, occupied: seq<bool>, used: seq<bool>, order: seq<int>, n: nat)
    requires WellFormed(b) && |used| == |b.sizes| == |items| && |occupied| == Cells(b)
    requires Completes(b, occupied, used, order) && n < |order|
    ensures var ps := Placed(b, items, occupied, used, order);
            && Origin(b.columns, ps[n].slot) <= |occupied|
            && CoveredBelow(b.columns, ps, n, occupied, Origin(b.columns, ps[n].slot))
    decreases |order|
  {
    PlacedIncreasing(b, items, occupied, used, order, n);
    if n > 0 {
      var s := SlotAt(b, FirstFree(occupied), b.sizes[order[0]]);
      var occupied', used' := Marked(occupied, b.columns, s, true), used[order[0] := true];
      var ps, rest := Placed(b, items, occupied, used, order), Placed(b, items, occupied', used', order[1..]);
      PlacedCoversBefore(b, items, occupied', used', order[1..], n - 1);
      forall k | 0 <= k < Origin(b.columns, ps[n].slot)
        ensures occupied[k] || exists j :: 0 <= j < n && Covers(b.columns, ps[j].slot, k)
      {
        assert occupied'[k] || exists j :: 0 <= j < n - 1 && Covers(b.columns, rest[j].slot, k);
        if occupied'[k] {
          assert occupied[k] || Covers(b.columns, ps[0].slot, k);
        } else {
          var j :| 0 <= j < n - 1 && Covers(b.columns, rest[j].slot, k);
          assert ps[j + 1] == rest[j];
        }
      }
    }
  }

  // ---------- the order is a bijection with the input ----------

  /** The items whose flag is not set, in input order. */
  function Unused(items: seq<Item>, used: seq<bool>): seq<Item>
    requires |items| == |used|
  {
    if |items| == 0 then []
    else (if used[0] then [] else [items[0]]) + Unused(items[1..], used[1..])
  }

  lemma {:induction false} UnusedStep(items: seq<Item>, used: seq<bool>, i: nat)
    requires |items| == |used| && i < |used| && !used[i]
    ensures multiset(Unused(items, used)) == multiset{items[i]} + multiset(Unused(items, used[i := true]))
    ensures |Unused(items, used)| == 1 + |Unused(items, used[i := true])|
  {
    if i == 0 {
      assert used[0 := true][1..] == used[1..];
    } else {
      UnusedStep(items[1..], used[1..], i - 1);
      assert used[i := true][1..] == used[1..][i - 1 := true];
    }
  }

  lemma {:induction false} UnusedClear(items: seq<Item>)
    ensures Unused(items, Clear(|items|)) == items
  {
    if |items| > 0 {
      UnusedClear(items[1..]);
      assert Clear(|items|)[1..] == Clear(|items[1..]|);
    }
  }

  lemma {:induction false} ItemsHead(item: Item, s: Slot, rest: seq<Positioned>)
    ensures multiset(Items([Positioned(item, s)] + rest)) == multiset{item} + multiset(Items(rest))
  {
    assert Items([Positioned(item, s)] + rest) == [item] + Items(rest);
  }

  lemma {:induction false} PlacedUses(b: Board, items: seq<Item>, occupied: seq<bool>, used: seq<bool>, order: seq<int>)
    requires WellFormed(b) && |used| == |b.sizes| == |items|
    requires Completes(b, occupied, used, order) && |order| == |Unused(items, used)|
    ensures multiset(Items(Placed(b, items, occupied, used, order))) == multiset(Unused(items, used))
    decreases |order|
  {
    if |order| > 0 {
      var s := SlotAt(b, FirstFree(occupied), b.sizes[order[0]]);
      var occupied', used' := Marked(occupied, b.columns, s, true), used[order[0] := true];
      UnusedStep(items, used, order[0]);
      PlacedUses(b, items, occupied', used', order[1..]);
      ItemsHead(items[order[0]], s, Placed(b, items, occupied', used', order[1..]));
    }
  }

  /** No used index is placed again, so an order never repeats. */
  lemma {:induction false} OrderFresh(b: Board, occupied: seq<bool>, used: seq<bool>, order: seq<int>)
    requires WellFormed(b) && |used| == |b.sizes| && Completes(b, occupied, used, order)
    ensures forall k :: 0 <= k < |order| ==> 0 <= order[k] < |used| && !used[order[k]]
    ensures forall j, k :: 0 <= j < k < |order| ==> order[j] != order[k]
    decreases |order|
  {
    if |order| > 0 {
      var s := SlotAt(b, FirstFree(occupied), b.sizes[order[0]]);
      OrderFresh(b, Marked(occupied, b.columns, s, true), used[order[0] := true], order[1..]);
    }
  }

  // ---------- same-shape items keep their input order ----------

  /** At every step the item taken is the first unused one of its shape. */
  predicate FirstOfShape(b: Board, used: seq<bool>, order: seq<int>)
    requires |used| == |b.sizes|
    decreases |order|
  {
    |order| == 0 ||
    ( && 0 <= order[0] < |used|
      && (forall j :: 0 <= j < order[0] ==> used[j] || b.sizes[j] != b.sizes[order[0]])
      && FirstOfShape(b, used[order[0] := true], order[1..]))
  }

  lemma {:induction false} SearchFirstOfShape(b: Board, occupied: seq<bool>, used: seq<bool>, index: nat, budget: int)
    requires WellFormed(b) && |used| == |b.sizes| && index <= |used|
    requires Search(b, occupied, used, index, budget).order.Some?
    ensures FirstOfShape(b, used, Search(b, occupied, used, index, budget).order.value)
    decreases |used| - index, |used| + 1
  {
    if index < |used| {
      TryFirstOfShape(b, occupied, used, index, budget - 1, 0, {});
    }
  }

  lemma {:induction false} TryFirstOfShape(b: Board, occupied: seq<bool>, used: seq<bool>, index: nat, budget: int, i: nat, tried: set<Span>)
    requires WellFormed(b) && |used| == |b.sizes| && index < |used| && i <= |used|
    requires FirstFree(occupied) >= 0
    requires Try(b, occupied, used, index, budget, i, tried).order.Some?
    // every earlier item is used, of a shape already tried, or of a shape that does not fit here
    requires forall j :: 0 <= j < i ==> used[j] || b.sizes[j] in tried
                                        || !Fits(occupied, b.columns, b.rows, SlotAt(b, FirstFree(occupied), b.sizes[j]))
    ensures FirstOfShape(b, used, Try(b, occupied, used, index, budget, i, tried).order.value)
    decreases |used| - index, |used| - i
  {
    var s := SlotAt(b, FirstFree(occupied), b.sizes[i]);
    if used[i] || b.sizes[i] in tried || !Fits(occupied, b.columns, b.rows, s) {
      TryFirstOfShape(b, occupied, used, index, budget, i + 1, tried);
    } else {
      var occupied', used' := Marked(occupied, b.columns, s, true), used[i := true];
      var inner := Search(b, occupied', used', index + 1, budget);
      if inner.order.Some? {
        SearchFirstOfShape(b, occupied', used', index + 1, budget);
      } else {
        TryFirstOfShape(b, occupied, used, index, inner.budget, i + 1, tried + {b.sizes[i]});
      }
    }
  }

  lemma {:induction false} FirstOfShapeIncreasing(b: Board, occupied: seq<bool>, used: seq<bool>, order: seq<int>)
    requires WellFormed(b) && |used| == |b.sizes|
    requires Completes(b, occupied, used, order) && FirstOfShape(b, used, order)
    ensures forall k :: 0 <= k < |order| ==> 0 <= order[k] < |used|
    ensures forall j, k :: 0 <= j < k < |order| && b.sizes[order[j]] == b.sizes[order[k]] ==> order[j] < order[k]
    decreases |order|
  {
    if |order| > 0 {
      var s := SlotAt(b, FirstFree(occupied), b.sizes[order[0]]);
      FirstOfShapeIncreasing(b, Marked(occupied, b.columns, s, true), used[order[0] := true], order[1..]);
      OrderFresh(b, occupied, used, order);
    }
  }
}
