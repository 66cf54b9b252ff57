/** `tile` as it runs: three arrays and a budget shared by the recursive `place`, with
    each trial marked and unmarked in place, proved against `Tiler.Search`. */
module TileSearch {
  import opened Wrappers
  import opened Grid
  import opened Tiler
  import opened CellLoops

  class Searcher {
    const board: Board
    const items: seq<Item>
    const occupied: array<bool>
    const used: array<bool>
    const result: array<Positioned>
    var budget: int

    ghost predicate Valid()
    {
      && WellFormed(board)
      && |items| == |board.sizes| == used.Length == result.Length
      && occupied.Length == Cells(board)
      && occupied != used
    }

    constructor (items: seq<Item>, columns: int)
      requires columns >= 1
      ensures Valid() && fresh(occupied) && fresh(used) && fresh(result)
      ensures board == BoardFor(items, columns) && this.items == items && budget == 20000
      ensures occupied[..] == Clear(Cells(board)) && used[..] == Clear(|items|)
    {
      var b := BoardFor(items, columns);
      board := b;
      this.items := items;
      occupied := new bool[Cells(b)](_ => false);
      used := new bool[|items|](_ => false);
      result := new Positioned[|items|];
      budget := BUDGET;
    }

    /** One trial of `place`: mark item `i` at `s`, go on, and undo the mark on failure. */
    method Trial(index: nat, i: nat, s: Slot) returns (ok: bool)
      requires Valid() && index < |items| && i < |items| && !used[i]
      requires Inside(s, board.columns, board.rows) && Fits(occupied[..], board.columns, board.rows, s)
      modifies occupied, used, result, this`budget
      ensures var inner := Search(board, Marked(old(occupied[..]), board.columns, s, true), old(used[..])[i := true],
                                  index + 1, old(budget));
              && ok == inner.order.Some? && budget == inner.budget
              && (ok ==> result[index..] ==
                         [Positioned(items[i], s)] +
                         Placed(board, items, Marked(old(occupied[..]), board.columns, s, true), old(used[..])[i := true],
                                inner.order.value))
      ensures !ok ==> occupied[..] == old(occupied[..]) && used[..] == old(used[..])
      ensures result[..index] == old(result[..index])
      decreases |items| - index, 0
    {
      ghost var occ, use := occupied[..], used[..];
      used[i] := true;
      MarkCells(occupied, board.columns, board.rows, s, true);
      result[index] := Positioned(items[i], s);
      assert used[..] == use[i := true];
      ghost var head := result[..index + 1];
      ok := Place(index + 1);
      assert result[index] == result[..index + 1][index] == head[index];
      assert result[..index] == result[..index + 1][..index] == head[..index];
      if ok {
        assert result[index..] == [result[index]] + result[index + 1..];
      } else {
        MarkCells(occupied, board.columns, board.rows, s, false);
        used[i] := false;
        UnmarkRestores(occ, board.columns, board.rows, s);
        assert used[..] == use;
      }
    }

    /** Failure leaves both arrays exactly as they were; success writes the placement from `index` on. */
    method Place(index: nat) returns (ok: bool)
      requires Valid() && index <= |items|
      modifies occupied, used, result, this`budget
      ensures var found := Search(board, old(occupied[..]), old(used[..]), index, old(budget));
              && ok == found.order.Some? && budget == found.budget
              && (ok ==> result[index..] == Placed(board, items, old(occupied[..]), old(used[..]), found.order.value))
      ensures !ok ==> occupied[..] == old(occupied[..]) && used[..] == old(used[..])
      ensures result[..index] == old(result[..index])
      decreases |items| - index, 1
    {
      if index == |items| {
        return true;
      }
      budget := budget - 1;
      if budget < 0 {
        return false;
      }
      ghost var occ, use := occupied[..], used[..];
      var firstFree := FirstFree(occupied[..]);
      if firstFree < 0 {
        return false;
      }
      CellRow(board.columns, board.rows, firstFree);
      var row, col := firstFree / board.columns, firstFree % board.columns;
      ghost var goal := Try(board, occ, use, index, budget, 0, {});
      var tried: set<Span> := {};
      for i := 0 to |items|
        invariant occupied[..] == occ && used[..] == use
        invariant result[..index] == old(result[..index])
        invariant Try(board, occ, use, index, budget, i, tried) == goal
      {
        if used[i] {
          continue;
        }
        var size := board.sizes[i];
        var s := Slot(col, row, size.w, size.h);
        assert s == SlotAt(board, FirstFree(occ), board.sizes[i]);
        var fits := ScanFree(occupied, board.columns, board.rows, s);
        if size in tried || !fits {
          continue;
        }
        tried := tried + {size};
        ghost var inner := Search(board, Marked(occ, board.columns, s, true), use[i := true], index + 1, budget);
        ok := Trial(index, i, s);
        if ok {
          assert ([i] + inner.order.value)[1..] == inner.order.value;
          return true;
        }
      }
      return false;
    }
  }

  method Tile(items: seq<Item>, columns: int) returns (placed: Option<seq<Positioned>>)
    ensures placed == Tiling(items, columns)
  {
    if |items| == 0 || columns < 1 {
      return Some([]);
    }
    var search := new Searcher(items, columns);
    var ok := search.Place(0);
    if ok {
      assert search.result[0..] == search.result[..];
      return Some(search.result[..]);
    }
    return None;
  }
}
