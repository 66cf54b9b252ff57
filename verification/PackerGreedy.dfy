/** That the packer is greedy: bands as high as their first items ask and no higher, every item at the
    first place it fits, no hole left that a neighbour could fill when its turn comes, no row between bands. */
module PackerGreedy {
  import opened Grid
  import opened Packer

  /** A band is as high as the highest of the first `columns` items that remain. */
  lemma {:induction false} BandHeightIs(remaining: seq<Item>, columns: int)
    requires columns >= 1 && |remaining| > 0
    ensures var first := if |remaining| < columns then remaining else remaining[..columns];
            && (forall k :: 0 <= k < |first| ==> SpanOf(first[k], columns).h <= BandHeight(remaining, columns))
            && (exists k :: 0 <= k < |first| && SpanOf(first[k], columns).h == BandHeight(remaining, columns))
  {
    var first := if |remaining| < columns then remaining else remaining[..columns];
    assert |first| > 0 && BandHeight(remaining, columns) == MaxHeight(first, columns);
  }

  /** The placement of the first `n` items is what the next one meets. */
  lemma {:induction false} FillStep(remaining: seq<Item>, columns: int, height: int, band: Band, n: nat)
    requires columns >= 1 && n < |remaining|
    ensures var before := Fill(remaining[..n], columns, height, band);
            |before.placed| == |band.placed| + n ==>
              var cell := FirstFit(before.occupied, columns, height, SpanOf(remaining[n], columns));
              if cell < 0 then Fill(remaining, columns, height, band) == before
              else
                var p := Positioned(remaining[n], SlotOf(columns, cell, SpanOf(remaining[n], columns)));
                && Fill(remaining[..n + 1], columns, height, band) == Band(before.placed + [p], Marked(before.occupied, columns, p.slot, true))
    decreases |remaining|
  {
    var span := SpanOf(remaining[0], columns);
    var cell := FirstFit(band.occupied, columns, height, span);
    if n == 0 {
      assert remaining[..0] == [] && remaining[..1] == [remaining[0]] && remaining[..1][1..] == [];
    } else {
      assert remaining[..n][0] == remaining[0] && remaining[..n][1..] == remaining[1..][..n - 1];
      assert remaining[..n + 1][0] == remaining[0] && remaining[..n + 1][1..] == remaining[1..][..n];
      if cell >= 0 {
        var s := SlotOf(columns, cell, span);
        FillStep(remaining[1..], columns, height,
                 Band(band.placed + [Positioned(remaining[0], s)], Marked(band.occupied, columns, s, true)), n - 1);
      }
    }
  }

  /** First-fit: it stops only at an item that fits nowhere on the band. */
  lemma {:induction false} FillStops(remaining: seq<Item>, columns: int, height: int, band: Band)
    requires columns >= 1
    ensures var r := Fill(remaining, columns, height, band);
            var n := |r.placed| - |band.placed|;
            && 0 <= n <= |remaining|
            && (n < |remaining| ==> forall k :: 0 <= k < |r.occupied| ==>
                  !Fits(r.occupied, columns, height, SlotOf(columns, k, SpanOf(remaining[n], columns))))
    decreases |remaining|
  {
    if |remaining| > 0 {
      var span := SpanOf(remaining[0], columns);
      var cell := FirstFit(band.occupied, columns, height, span);
      if cell >= 0 {
        var s := SlotOf(columns, cell, span);
        FillStops(remaining[1..], columns, height,
                  Band(band.placed + [Positioned(remaining[0], s)], Marked(band.occupied, columns, s, true)));
      }
    }
  }

  // ---------- holes ----------

  /** The rectangle of `p`, one column wider or one row higher, covers its own cells and the hole, and
      nothing else. */
  ghost predicate CanWiden(columns: int, p: Positioned, index: int)
    requires columns >= 1
  {
    GrowsBy(columns, p.slot, Widen(p).slot, index) && !Covers(columns, p.slot, index)
  }

  ghost predicate CanHeighten(columns: int, p: Positioned, index: int)
    requires columns >= 1
  {
    GrowsBy(columns, p.slot, Heighten(p).slot, index) && !Covers(columns, p.slot, index)
  }

  lemma {:induction false} CanWidenIff(columns: int, height: int, p: Positioned, index: nat)
    requires columns >= 1 && Inside(p.slot, columns, height) && index < height * columns
    ensures CanWiden(columns, p, index) <==> GrowsRight(p.slot, index / columns, index % columns)
  {
    var s := p.slot;
    if GrowsRight(s, index / columns, index % columns) {
      WidenGrows(columns, s, index);
    }
    NewCells(columns, s, s.(w := s.w + 1), s.row, s.col + s.w);
    NewCells(columns, s, s.(w := s.w + 1), s.row + 1, s.col + s.w);
  }

  /** The cell at this row and column, and what covers it. */
  lemma {:induction false} NewCells(columns: int, s: Slot, t: Slot, row: int, col: int)
    requires columns >= 1
    ensures 0 <= col < columns ==>
              && (Covers(columns, s, row * columns + col) <==> s.row <= row < s.row + s.h && s.col <= col < s.col + s.w)
              && (Covers(columns, t, row * columns + col) <==> t.row <= row < t.row + t.h && t.col <= col < t.col + t.w)
              && (row + 1) * columns + col != row * columns + col
  {
    if 0 <= col < columns { CellAt(columns, row, col); }
  }

  lemma {:induction false} CanHeightenIff(columns: int, height: int, p: Positioned, index: nat)
    requires columns >= 1 && Inside(p.slot, columns, height) && index < height * columns
    ensures CanHeighten(columns, p, index) <==> GrowsDown(p.slot, index / columns, index % columns)
  {
    var s := p.slot;
    if GrowsDown(s, index / columns, index % columns) {
      HeightenGrows(columns, s, index);
    }
    NewCells(columns, s, s.(h := s.h + 1), s.row + s.h, s.col);
    NewCells(columns, s, s.(h := s.h + 1), s.row + s.h, s.col + 1);
  }

  /** A hole is filled exactly if some rectangle can grow into it: the first that can grow right, or
      else the first that can grow down. Nothing else changes. */
  lemma {:induction false} HoleFilled(band: Band, columns: int, height: int, index: nat)
    requires columns >= 1 && BandOk(band, columns, height) && index < |band.occupied| && !band.occupied[index]
    ensures var r := StretchAt(band, columns, index);
            if exists j :: 0 <= j < |band.placed| && CanWiden(columns, band.placed[j], index) then
              exists j :: 0 <= j < |band.placed| && CanWiden(columns, band.placed[j], index)
                          && (forall i :: 0 <= i < j ==> !CanWiden(columns, band.placed[i], index))
                          && r == Band(band.placed[j := Widen(band.placed[j])], band.occupied[index := true])
            else if exists j :: 0 <= j < |band.placed| && CanHeighten(columns, band.placed[j], index) then
              exists j :: 0 <= j < |band.placed| && CanHeighten(columns, band.placed[j], index)
                          && (forall i :: 0 <= i < j ==> !CanHeighten(columns, band.placed[i], index))
                          && r == Band(band.placed[j := Heighten(band.placed[j])], band.occupied[index := true])
            else r == band
  {
    hide CanWiden, CanHeighten, GrowsRight, GrowsDown, Covers, AllDisjoint, CoveredBy;
    forall j | 0 <= j < |band.placed|
      ensures CanWiden(columns, band.placed[j], index) <==> GrowsRight(band.placed[j].slot, index / columns, index % columns)
      ensures CanHeighten(columns, band.placed[j], index) <==> GrowsDown(band.placed[j].slot, index / columns, index % columns)
    {
      assert SlotOk(band.placed[j], columns, height);
      CanWidenIff(columns, height, band.placed[j], index);
      CanHeightenIff(columns, height, band.placed[j], index);
    }
  }

  // ---------- bands ----------

  /** Growing moves no rectangle. */
  lemma {:induction false} StretchMovesNone(band: Band, columns: int, index: nat)
    requires columns >= 1 && index <= |band.occupied|
    ensures var r := StretchFrom(band, columns, index);
            forall j :: 0 <= j < |r.placed| ==>
              r.placed[j].slot.row == band.placed[j].slot.row && r.placed[j].slot.col == band.placed[j].slot.col
    decreases |band.occupied| - index
  {
    if index < |band.occupied| {
      StretchMovesNone(StretchAt(band, columns, index), columns, index + 1);
    }
  }

  lemma {:induction false} FillKeepsPlaced(remaining: seq<Item>, columns: int, height: int, band: Band)
    requires columns >= 1
    ensures band.placed <= Fill(remaining, columns, height, band).placed
    decreases |remaining|
  {
    if |remaining| > 0 {
      var span := SpanOf(remaining[0], columns);
      var cell := FirstFit(band.occupied, columns, height, span);
      if cell >= 0 {
        var s := SlotOf(columns, cell, span);
        FillKeepsPlaced(remaining[1..], columns, height,
                        Band(band.placed + [Positioned(remaining[0], s)], Marked(band.occupied, columns, s, true)));
      }
    }
  }

  /** Every band starts with its first item in its corner. */
  lemma {:induction false} BandStartsInCorner(remaining: seq<Item>, columns: int)
    requires columns >= 1 && |remaining| > 0
    ensures |FirstSlab(remaining, columns).placed| > 0
    ensures FirstSlab(remaining, columns).placed[0].slot.row == 0 && FirstSlab(remaining, columns).placed[0].slot.col == 0
  {
    var height := BandHeight(remaining, columns);
    MulGap(height, 0, columns);
    var blank, span := Blank(height * columns), SpanOf(remaining[0], columns);
    assert Fits(blank, columns, height, SlotOf(columns, 0, span));
    assert FirstFit(blank, columns, height, span) == 0;
    var p := Positioned(remaining[0], SlotOf(columns, 0, span));
    FillKeepsPlaced(remaining[1..], columns, height, Band([] + [p], Marked(blank, columns, p.slot, true)));
    var filled := Fill(remaining, columns, height, Band([], blank));
    assert filled.placed[0] == p;
    StretchMovesNone(filled, columns, 0);
  }

  function HeightOf(slabs: seq<Slab>): int {
    if |slabs| == 0 then 0 else slabs[0].height + HeightOf(slabs[1..])
  }

  function SizeOf(slabs: seq<Slab>): nat {
    if |slabs| == 0 then 0 else |slabs[0].placed| + SizeOf(slabs[1..])
  }

  lemma {:induction false} StackSize(slabs: seq<Slab>, rowOffset: int)
    ensures |Stack(slabs, rowOffset)| == SizeOf(slabs)
    decreases |slabs|
  {
    if |slabs| > 0 { StackSize(slabs[1..], rowOffset + slabs[0].height); }
  }

  /** The rectangles of band `i` keep their places within it and lie below all the rows of the bands
      before it, with no row between. */
  lemma {:induction false} StackAt(slabs: seq<Slab>, rowOffset: int, i: nat, j: nat)
    requires i < |slabs| && j < |slabs[i].placed|
    ensures var at := SizeOf(slabs[..i]) + j;
            && at < |Stack(slabs, rowOffset)|
            && Stack(slabs, rowOffset)[at] ==
               slabs[i].placed[j].(slot := slabs[i].placed[j].slot.(row := slabs[i].placed[j].slot.row + rowOffset + HeightOf(slabs[..i])))
    decreases i
  {
    StackSize(slabs, rowOffset);
    StackSize(slabs[1..], rowOffset + slabs[0].height);
    if i == 0 {
      assert slabs[..0] == [];
    } else {
      assert slabs[..i][0] == slabs[0] && slabs[..i][1..] == slabs[1..][..i - 1];
      StackAt(slabs[1..], rowOffset + slabs[0].height, i - 1, j);
    }
  }

  /** Every band of the packing starts in its corner, right below the rows of the bands before it. */
  lemma {:induction false} BandsTouch(items: seq<Item>, columns: int, i: nat)
    requires columns >= 1 && i < |Slabs(items, columns)|
    ensures var slabs := Slabs(items, columns);
            && |slabs[i].placed| > 0 && SizeOf(slabs[..i]) < |Packing(items, columns)|
            && var first := Packing(items, columns)[SizeOf(slabs[..i])].slot; first.col == 0 && first.row == HeightOf(slabs[..i])
  {
    SlabInCorner(items, columns, i);
    StackAt(Slabs(items, columns), 0, i, 0);
  }

  lemma {:induction false} SlabInCorner(remaining: seq<Item>, columns: int, i: nat)
    requires columns >= 1 && i < |Slabs(remaining, columns)|
    ensures var slab := Slabs(remaining, columns)[i];
            |slab.placed| > 0 && slab.placed[0].slot.row == 0 && slab.placed[0].slot.col == 0
    decreases i
  {
    hide FirstSlab;
    SlabsUnfold(remaining, columns);
    if i == 0 {
      BandStartsInCorner(remaining, columns);
    } else {
      SlabInCorner(remaining[|FirstSlab(remaining, columns).placed|..], columns, i - 1);
    }
  }
}
