/** The nested loops over a slot's cells, `row * columns + col`, that test and mark the
    occupancy array in place. */
module CellLoops {
  import opened Grid

  /** One more cell of a row. */
  lemma {:induction false} NextCell(columns: int, row: int, col: int, w: int, k: int)
    requires columns >= 1 && 0 <= col && 0 <= w && col + w < columns
    ensures Covers(columns, Slot(col, row, w + 1, 1), k)
            <==> Covers(columns, Slot(col, row, w, 1), k) || k == row * columns + (col + w)
  {
    CellAt(columns, row, col + w);
    assert k == (k / columns) * columns + k % columns;
  }

  lemma {:induction false} NextCells(columns: int, row: int, col: int, w: int, n: nat)
    requires columns >= 1 && 0 <= col && 0 <= w && col + w < columns
    ensures forall k {:trigger Covers(columns, Slot(col, row, w + 1, 1), k)} :: 0 <= k < n ==>
              (Covers(columns, Slot(col, row, w + 1, 1), k)
               <==> Covers(columns, Slot(col, row, w, 1), k) || k == row * columns + (col + w))
  {
    forall k {:trigger Covers(columns, Slot(col, row, w + 1, 1), k)} | 0 <= k < n
      ensures Covers(columns, Slot(col, row, w + 1, 1), k)
              <==> Covers(columns, Slot(col, row, w, 1), k) || k == row * columns + (col + w)
    {
      NextCell(columns, row, col, w, k);
    }
  }

  /** No cell under the slot is occupied. */
  ghost predicate FreeUnder(occupied: seq<bool>, columns: int, s: Slot)
    requires columns >= 1
  {
    forall k | 0 <= k < |occupied| && Covers(columns, s, k) :: !occupied[k]
  }

  lemma {:induction false} FreeNextCell(occupied: seq<bool>, columns: int, row: int, col: int, w: int)
    requires columns >= 1 && 0 <= col && 0 <= w && col + w < columns
    requires FreeUnder(occupied, columns, Slot(col, row, w, 1))
    requires 0 <= row * columns + (col + w) < |occupied| && !occupied[row * columns + (col + w)]
    ensures FreeUnder(occupied, columns, Slot(col, row, w + 1, 1))
  {
    NextCells(columns, row, col, w, |occupied|);
  }

  lemma {:induction false} MarkNextCell(occupied: seq<bool>, columns: int, row: int, col: int, w: int, value: bool)
    requires columns >= 1 && 0 <= col && 0 <= w && col + w < columns && 0 <= row * columns + (col + w) < |occupied|
    ensures Marked(occupied, columns, Slot(col, row, w + 1, 1), value) ==
            Marked(occupied, columns, Slot(col, row, w, 1), value)[row * columns + (col + w) := value]
  {
    NextCells(columns, row, col, w, |occupied|);
  }

  /** The bounds test, then the scan for an occupied cell under the slot. */
  method ScanFree(occupied: array<bool>, columns: int, rows: int, s: Slot) returns (free: bool)
    requires columns >= 1 && rows >= 0 && occupied.Length == rows * columns
    requires 0 <= s.row && 0 <= s.col && 1 <= s.w && 1 <= s.h
    ensures free == Fits(occupied[..], columns, rows, s)
  {
    if s.col + s.w > columns || s.row + s.h > rows {
      return false;
    }
    ghost var cells := occupied[..];
    for r := s.row to s.row + s.h
      invariant FreeUnder(cells, columns, s.(h := r - s.row))
    {
      for c := s.col to s.col + s.w
        invariant FreeUnder(cells, columns, Slot(s.col, r, c - s.col, 1))
      {
        CellInRange(columns, rows, r, c);
        if occupied[r * columns + c] {
          CellAt(columns, r, c);
          assert Covers(columns, s, r * columns + c) && cells[r * columns + c];
          return false;
        }
        FreeNextCell(cells, columns, r, s.col, c - s.col);
      }
    }
    return true;
  }

  /** Every cell under the slot is set to `value`, no other cell changes. */
  method MarkCells(occupied: array<bool>, columns: int, rows: int, s: Slot, value: bool)
    requires columns >= 1 && occupied.Length == rows * columns && Inside(s, columns, rows)
    modifies occupied
    ensures occupied[..] == Marked(old(occupied[..]), columns, s, value)
  {
    ghost var before := occupied[..];
    for r := s.row to s.row + s.h
      invariant occupied[..] == Marked(before, columns, s.(h := r - s.row), value)
    {
      ghost var above := occupied[..];
      for c := s.col to s.col + s.w
        invariant occupied[..] == Marked(above, columns, Slot(s.col, r, c - s.col, 1), value)
      {
        CellInRange(columns, rows, r, c);
        MarkNextCell(above, columns, r, s.col, c - s.col, value);
        occupied[r * columns + c] := value;
      }
    }
  }
}
