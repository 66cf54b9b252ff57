/** `pack` as it runs: a fresh occupancy array per band, first-fit over the remaining
    items with the rest deferred, then rectangles growing into the holes in place. */
module PackRun {
  import opened Grid
  import opened CellLoops
  import opened Packer

  /** The first cursor where the span fits, scanning the array in row-major order. */
  method FindFirstFit(occupied: array<bool>, columns: int, height: int, span: Span) returns (index: int)
    requires columns >= 1 && height >= 0 && occupied.Length == height * columns && 1 <= span.w && 1 <= span.h
    ensures index == FirstFit(occupied[..], columns, height, span)
  {
    ghost var blocked := Blocked(occupied[..], columns, height, span);
    var cursor := 0;
    while cursor < occupied.Length
      invariant 0 <= cursor <= occupied.Length
      invariant forall k :: 0 <= k < cursor ==> blocked[k]
    {
      CellRow(columns, height, cursor);
      var free := ScanFree(occupied, columns, height, SlotOf(columns, cursor, span));
      if free {
        assert !blocked[cursor];
        assert FirstFree(blocked) == cursor;
        return cursor;
      }
      cursor := cursor + 1;
    }
    assert FirstFree(blocked) == -1;
    return -1;
  }

  /** First-fit over all of `remaining`; after the first item that does not fit, everything is deferred. */
  method FillBand(remaining: seq<Item>, columns: int, height: int, occupied: array<bool>)
      returns (placed: seq<Positioned>, deferred: seq<Item>)
    requires columns >= 1 && height >= 0 && occupied.Length == height * columns
    modifies occupied
    ensures Fill(remaining, columns, height, Band([], old(occupied[..]))) == Band(placed, occupied[..])
    ensures |placed| <= |remaining| && deferred == remaining[|placed|..]
  {
    placed, deferred := [], [];
    ghost var goal := Fill(remaining, columns, height, Band([], occupied[..]));
    for i := 0 to |remaining|
      invariant |deferred| == 0 ==> |placed| == i && Fill(remaining[i..], columns, height, Band(placed, occupied[..])) == goal
      invariant |deferred| > 0 ==> |placed| < i && deferred == remaining[|placed|..i] && goal == Band(placed, occupied[..])
    {
      var item := remaining[i];
      var index := FindFirstFit(occupied, columns, height, SpanOf(item, columns));
      if index < 0 || |deferred| > 0 {
        deferred := deferred + [item];
        continue;
      }
      var s := SlotOf(columns, index, SpanOf(item, columns));
      CellRow(columns, height, index);
      assert !Blocked(occupied[..], columns, height, SpanOf(item, columns))[index];
      MarkCells(occupied, columns, height, s, true);
      placed := placed + [Positioned(item, s)];
      assert remaining[i..][1..] == remaining[i + 1..];
    }
    FillSize(remaining, columns, height, Band([], old(occupied[..])));
    assert remaining[|remaining|..] == [];
  }

  /** One pass over the cells, growing a neighbour into every hole that has one. */
  method StretchHoles(placed: seq<Positioned>, columns: int, occupied: array<bool>) returns (grown: seq<Positioned>)
    requires columns >= 1
    modifies occupied
    ensures StretchFrom(Band(placed, old(occupied[..])), columns, 0) == Band(grown, occupied[..])
  {
    grown := placed;
    ghost var goal := StretchFrom(Band(placed, occupied[..]), columns, 0);
    for index := 0 to occupied.Length
      invariant StretchFrom(Band(grown, occupied[..]), columns, index) == goal
    {
      if occupied[index] {
        continue;
      }
      ghost var before := Band(grown, occupied[..]);
      var row, col := index / columns, index % columns;
      var right := FindRight(grown, row, col, 0);
      var below := FindBelow(grown, row, col, 0);
      if right < 0 && below < 0 {
        continue;
      }
      if right >= 0 {
        grown := grown[right := Widen(grown[right])];
      } else {
        grown := grown[below := Heighten(grown[below])];
      }
      occupied[index] := true;
      assert Band(grown, occupied[..]) == StretchAt(before, columns, index);
    }
  }

  /** One band: its own array, first-fit, then the holes. */
  method PackBand(remaining: seq<Item>, columns: int) returns (placed: seq<Positioned>, deferred: seq<Item>, blockHeight: int)
    requires columns >= 1 && |remaining| > 0
    ensures Slab(placed, blockHeight) == FirstSlab(remaining, columns)
    ensures |placed| <= |remaining| && deferred == remaining[|placed|..]
  {
    blockHeight := BandHeight(remaining, columns);
    MulGap(blockHeight, 0, columns);
    var occupied := new bool[blockHeight * columns](_ => false);
    assert occupied[..] == Blank(blockHeight * columns);
    placed, deferred := FillBand(remaining, columns, blockHeight, occupied);
    placed := StretchHoles(placed, columns, occupied);
  }

  method Pack(items: seq<Item>, columns: int) returns (result: seq<Positioned>)
    requires columns >= 1
    ensures result == Packing(items, columns)
  {
    hide FirstSlab;
    result := [];
    var rowOffset, remaining := 0, items;
    while |remaining| > 0
      invariant result + Stack(Slabs(remaining, columns), rowOffset) == Packing(items, columns)
      decreases |remaining|
    {
      SlabsUnfold(remaining, columns);
      var placed, deferred, blockHeight := PackBand(remaining, columns);
      result := result + Shift(placed, rowOffset);
      rowOffset := rowOffset + blockHeight;
      remaining := deferred;
    }
  }
}
