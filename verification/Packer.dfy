/** The fallback packer: bands of first-fit placement, then stretching rectangles into
    the holes, one cell at a time. */
module Packer {
  import opened Grid

  datatype Band = Band(placed: seq<Positioned>, occupied: seq<bool>)

  // ---------- what each step computes ----------

  function MaxHeight(items: seq<Item>, columns: int): (h: int)
    ensures forall k :: 0 <= k < |items| ==> SpanOf(items[k], columns).h <= h
    ensures |items| > 0 ==> h >= 1
    ensures |items| > 0 ==> exists k :: 0 <= k < |items| && SpanOf(items[k], columns).h == h
  {
    if |items| == 0 then
      0
    else
      var rest := MaxHeight(items[1..], columns);
      var h := SpanOf(items[0], columns).h;
      assert forall k :: 1 <= k < |items| ==> items[k] == items[1..][k - 1];
      assert forall k :: 0 <= k < |items| - 1 ==> items[1..][k] == items[k + 1];
      if h > rest then h else rest
  }

  function BandHeight(remaining: seq<Item>, columns: int): int
    requires columns >= 1
  {
    MaxHeight(if |remaining| < columns then remaining else remaining[..columns], columns)
  }

  function SlotOf(columns: int, cell: int, span: Span): Slot
    requires columns >= 1
  {
    Slot(cell % columns, cell / columns, span.w, span.h)
  }

  /** For every cursor, whether the span does not fit there. */
  function Blocked(occupied: seq<bool>, columns: int, height: int, span: Span): (r: seq<bool>)
    requires columns >= 1
    ensures |r| == |occupied|
  {
    seq(|occupied|, k requires 0 <= k < |occupied| => !Fits(occupied, columns, height, SlotOf(columns, k, span)))
  }

  /** The first cursor where the span fits, or -1. */
  function FirstFit(occupied: seq<bool>, columns: int, height: int, span: Span): (r: int)
    requires columns >= 1
    ensures -1 <= r < |occupied|
    ensures r >= 0 ==> Fits(occupied, columns, height, SlotOf(columns, r, span))
    ensures forall k :: 0 <= k < (if r >= 0 then r else |occupied|) ==> !Fits(occupied, columns, height, SlotOf(columns, k, span))
  {
    var blocked := Blocked(occupied, columns, height, span);
    assert forall k :: 0 <= k < |occupied| ==> blocked[k] == !Fits(occupied, columns, height, SlotOf(columns, k, span));
    FirstFree(blocked)
  }

  /** First-fit over `remaining`, up to the first item that does not fit. */
  function Fill(remaining: seq<Item>, columns: int, height: int, band: Band): (r: Band)
    requires columns >= 1
    decreases |remaining|
  {
    if |remaining| == 0 then
      band
    else
      var span := SpanOf(remaining[0], columns);
      var cell := FirstFit(band.occupied, columns, height, span);
      if cell < 0 then
        band
      else
        var s := SlotOf(columns, cell, span);
        Fill(remaining[1..], columns, height,
             Band(band.placed + [Positioned(remaining[0], s)], Marked(band.occupied, columns, s, true)))
  }

  predicate GrowsRight(s: Slot, row: int, col: int) {
    s.col + s.w == col && s.row <= row && s.row + s.h > row && s.h == 1
  }

  predicate GrowsDown(s: Slot, row: int, col: int) {
    s.row + s.h == row && s.col == col && s.w == 1
  }

  /** The index of the first placed rectangle that can grow right into the hole, or -1. */
  function FindRight(placed: seq<Positioned>, row: int, col: int, j: nat): (r: int)
    requires j <= |placed|
    ensures -1 <= r < |placed|
    ensures r >= 0 ==> GrowsRight(placed[r].slot, row, col)
    ensures forall i :: j <= i < (if r >= 0 then r else |placed|) ==> !GrowsRight(placed[i].slot, row, col)
    decreases |placed| - j
  {
    if j == |placed| then -1
    else if GrowsRight(placed[j].slot, row, col) then j
    else FindRight(placed, row, col, j + 1)
  }

  /** The index of the first placed rectangle that can grow down into the hole, or -1. */
  function FindBelow(placed: seq<Positioned>, row: int, col: int, j: nat): (r: int)
    requires j <= |placed|
    ensures -1 <= r < |placed|
    ensures r >= 0 ==> GrowsDown(placed[r].slot, row, col)
    ensures forall i :: j <= i < (if r >= 0 then r else |placed|) ==> !GrowsDown(placed[i].slot, row, col)
    decreases |placed| - j
  {
    if j == |placed| then -1
    else if GrowsDown(placed[j].slot, row, col) then j
    else FindBelow(placed, row, col, j + 1)
  }

  function Widen(p: Positioned): Positioned {
    p.(slot := p.slot.(w := p.slot.w + 1))
  }

  function Heighten(p: Positioned): Positioned {
    p.(slot := p.slot.(h := p.slot.h + 1))
  }

  /** Fill the hole at `index`, if a neighbour can grow into it. */
  function StretchAt(band: Band, columns: int, index: nat): (r: Band)
    requires columns >= 1 && index < |band.occupied|
    ensures |r.occupied| == |band.occupied| && |r.placed| == |band.placed|
  {
    if band.occupied[index] then
      band
    else
      var row, col := index / columns, index % columns;
      var right := FindRight(band.placed, row, col, 0);
      var below := FindBelow(band.placed, row, col, 0);
      if right >= 0 then
        Band(band.placed[right := Widen(band.placed[right])], band.occupied[index := true])
      else if below >= 0 then
        Band(band.placed[below := Heighten(band.placed[below])], band.occupied[index := true])
      else
        band
  }

  function StretchFrom(band: Band, columns: int, index: nat): (r: Band)
    requires columns >= 1 && index <= |band.occupied|
    ensures |r.occupied| == |band.occupied| && |r.placed| == |band.placed|
    decreases |band.occupied| - index
  {
    if index == |band.occupied| then band
    else StretchFrom(StretchAt(band, columns, index), columns, index + 1)
  }

  function Shift(ps: seq<Positioned>, rows: int): (r: seq<Positioned>)
    ensures |r| == |ps|
  {
    seq(|ps|, k requires 0 <= k < |ps| => ps[k].(slot := ps[k].slot.(row := ps[k].slot.row + rows)))
  }

  function Blank(n: int): (r: seq<bool>)
    ensures |r| == if n >= 0 then n else 0
  {
    seq(if n >= 0 then n else 0, _ => false)
  }

  /** One band: first-fit, then stretch. */
  function BandFor(remaining: seq<Item>, columns: int): (r: Band)
    requires columns >= 1
  {
    var height := BandHeight(remaining, columns);
    StretchFrom(Fill(remaining, columns, height, Band([], Blank(height * columns))), columns, 0)
  }

  /** A finished band and the number of rows it takes. */
  datatype Slab = Slab(placed: seq<Positioned>, height: int)

  function FirstSlab(remaining: seq<Item>, columns: int): Slab
    requires columns >= 1
  {
    Slab(BandFor(remaining, columns).placed, BandHeight(remaining, columns))
  }

  /** The bands of the items still remaining, top to bottom. */
  function Slabs(remaining: seq<Item>, columns: int): seq<Slab>
    requires columns >= 1
    decreases |remaining|
  {
    if |remaining| == 0 then
      []
    else
      BandPlacesSome(remaining, columns);
      var slab := FirstSlab(remaining, columns);
      [slab] + Slabs(remaining[|slab.placed|..], columns)
  }

  /** Bands put one under the other, the first one at `rowOffset`. */
  function Stack(slabs: seq<Slab>, rowOffset: int): seq<Positioned> {
    if |slabs| == 0 then []
    else Shift(slabs[0].placed, rowOffset) + Stack(slabs[1..], rowOffset + slabs[0].height)
  }

  /** What `pack` returns. */
  function Packing(items: seq<Item>, columns: int): seq<Positioned>
    requires columns >= 1
  {
    Stack(Slabs(items, columns), 0)
  }

  // ---------- termination: every band places a non-empty prefix ----------

  lemma {:induction false} FillSize(remaining: seq<Item>, columns: int, height: int, band: Band)
    requires columns >= 1
    ensures var r := Fill(remaining, columns, height, band);
            |band.placed| <= |r.placed| <= |band.placed| + |remaining| && |r.occupied| == |band.occupied|
    decreases |remaining|
  {
    if |remaining| > 0 {
      var span := SpanOf(remaining[0], columns);
      var cell := FirstFit(band.occupied, columns, height, span);
      if cell >= 0 {
        var s := SlotOf(columns, cell, span);
        FillSize(remaining[1..], columns, height,
                 Band(band.placed + [Positioned(remaining[0], s)], Marked(band.occupied, columns, s, true)));
      }
    }
  }

  lemma {:induction false} BandPlacesSome(remaining: seq<Item>, columns: int)
    requires columns >= 1 && |remaining| > 0
    ensures 0 < |BandFor(remaining, columns).placed| <= |remaining|
  {
    var height := BandHeight(remaining, columns);
    MulGap(height, 0, columns);
    var blank := Blank(height * columns);
    assert Fits(blank, columns, height, SlotOf(columns, 0, SpanOf(remaining[0], columns)));
    assert !Blocked(blank, columns, height, SpanOf(remaining[0], columns))[0];
    assert FirstFit(blank, columns, height, SpanOf(remaining[0], columns)) == 0;
    var s := SlotOf(columns, 0, SpanOf(remaining[0], columns));
    FillSize(remaining[1..], columns, height, Band([Positioned(remaining[0], s)], Marked(blank, columns, s, true)));
    assert [] + [Positioned(remaining[0], s)] == [Positioned(remaining[0], s)];
  }

  // ---------- the band invariant ----------

  /** The array is the disjoint union of the placed rectangles, all on the band, none
      smaller than its item's span. */
  ghost predicate BandOk(band: Band, columns: int, height: int)
    requires columns >= 1
  {
    && |band.occupied| == height * columns
    && (forall j :: 0 <= j < |band.placed| ==> SlotOk(band.placed[j], columns, height))
    && AllDisjoint(band.placed)
    && (forall k :: 0 <= k < |band.occupied| ==> (band.occupied[k] <==> CoveredBy(band.placed, columns, k)))
  }

  ghost predicate SlotOk(p: Positioned, columns: int, height: int) {
    && Inside(p.slot, columns, height)
    && SpanOf(p.item, columns).w <= p.slot.w && SpanOf(p.item, columns).h <= p.slot.h
  }

  ghost predicate CoveredBy(placed: seq<Positioned>, columns: int, k: int)
    requires columns >= 1
  {
    exists j :: 0 <= j < |placed| && Covers(columns, placed[j].slot, k)
  }

  lemma {:induction false} CoveredByAppend(placed: seq<Positioned>, p: Positioned, columns: int, k: int)
    requires columns >= 1
    ensures CoveredBy(placed + [p], columns, k) <==> CoveredBy(placed, columns, k) || Covers(columns, p.slot, k)
  {
    if CoveredBy(placed, columns, k) {
      var j :| 0 <= j < |placed| && Covers(columns, placed[j].slot, k);
      assert (placed + [p])[j] == placed[j];
    }
    if Covers(columns, p.slot, k) { assert (placed + [p])[|placed|] == p; }
  }

  /** A slot over free cells is disjoint from everything placed. */
  lemma {:induction false} FreeIsDisjoint(band: Band, columns: int, height: int, s: Slot, j: nat)
    requires columns >= 1 && BandOk(band, columns, height) && j < |band.placed|
    requires Inside(s, columns, height)
    requires forall k | 0 <= k < |band.occupied| && Covers(columns, s, k) :: !band.occupied[k]
    ensures !Overlap(band.placed[j].slot, s)
  {
    assert SlotOk(band.placed[j], columns, height);
    OverlapIffShareCell(columns, height, band.placed[j].slot, s);
    forall k | 0 <= k < height * columns && Covers(columns, band.placed[j].slot, k) ensures !Covers(columns, s, k) {
      assert CoveredBy(band.placed, columns, k);
    }
  }

  lemma {:induction false} PlaceKeepsBand(band: Band, columns: int, height: int, p: Positioned)
    requires columns >= 1 && BandOk(band, columns, height) && SlotOk(p, columns, height)
    requires Fits(band.occupied, columns, height, p.slot)
    ensures BandOk(Band(band.placed + [p], Marked(band.occupied, columns, p.slot, true)), columns, height)
  {
    var placed', occupied' := band.placed + [p], Marked(band.occupied, columns, p.slot, true);
    forall i, j | 0 <= i < j < |placed'| ensures !Overlap(placed'[i].slot, placed'[j].slot) {
      if j == |band.placed| { FreeIsDisjoint(band, columns, height, p.slot, i); }
    }
    forall k | 0 <= k < |occupied'| ensures occupied'[k] <==> CoveredBy(placed', columns, k) {
      CoveredByAppend(band.placed, p, columns, k);
    }
  }

  lemma {:induction false} FillKeepsBand(remaining: seq<Item>, columns: int, height: int, band: Band)
    requires columns >= 1 && BandOk(band, columns, height)
    ensures BandOk(Fill(remaining, columns, height, band), columns, height)
    decreases |remaining|
  {
    if |remaining| > 0 {
      var span := SpanOf(remaining[0], columns);
      var cell := FirstFit(band.occupied, columns, height, span);
      if cell >= 0 {
        var p := Positioned(remaining[0], SlotOf(columns, cell, span));
        CellRow(columns, height, cell);
        PlaceKeepsBand(band, columns, height, p);
        FillKeepsBand(remaining[1..], columns, height,
                      Band(band.placed + [p], Marked(band.occupied, columns, p.slot, true)));
      }
    }
  }

  /** Rectangle `j` grows by exactly the free cell `index`. */
  ghost predicate GrowsBy(columns: int, s: Slot, t: Slot, index: int)
    requires columns >= 1
  {
    forall k :: Covers(columns, t, k) <==> Covers(columns, s, k) || k == index
  }

  lemma {:induction false} WidenGrows(columns: int, s: Slot, index: int)
    requires columns >= 1 && 1 <= s.w && GrowsRight(s, index / columns, index % columns)
    ensures GrowsBy(columns, s, s.(w := s.w + 1), index)
  {
    forall k ensures Covers(columns, s.(w := s.w + 1), k) <==> Covers(columns, s, k) || k == index {
      assert k == (k / columns) * columns + k % columns;
      assert index == (index / columns) * columns + index % columns;
    }
  }

  lemma {:induction false} HeightenGrows(columns: int, s: Slot, index: int)
    requires columns >= 1 && 1 <= s.h && GrowsDown(s, index / columns, index % columns)
    ensures GrowsBy(columns, s, s.(h := s.h + 1), index)
  {
    forall k ensures Covers(columns, s.(h := s.h + 1), k) <==> Covers(columns, s, k) || k == index {
      assert k == (k / columns) * columns + k % columns;
      assert index == (index / columns) * columns + index % columns;
    }
  }

  lemma {:induction false} GrowthStaysDisjoint(band: Band, columns: int, height: int, j: nat, t: Slot, index: nat, i: nat)
    requires columns >= 1 && BandOk(band, columns, height) && j < |band.placed| && i < |band.placed| && i != j
    requires index < |band.occupied| && !band.occupied[index]
    requires Inside(t, columns, height) && GrowsBy(columns, band.placed[j].slot, t, index)
    ensures !Overlap(band.placed[i].slot, t) && !Overlap(t, band.placed[i].slot)
  {
    var s, u := band.placed[j].slot, band.placed[i].slot;
    assert SlotOk(band.placed[i], columns, height) && SlotOk(band.placed[j], columns, height);
    OverlapIffShareCell(columns, height, u, t);
    OverlapIffShareCell(columns, height, u, s);
    assert !Overlap(u, s) by {
      if i < j { assert !Overlap(band.placed[i].slot, band.placed[j].slot); }
      else { assert !Overlap(band.placed[j].slot, band.placed[i].slot); }
    }
    forall k | 0 <= k < height * columns && Covers(columns, u, k) ensures !Covers(columns, t, k) {
      assert CoveredBy(band.placed, columns, k);
    }
  }

  lemma {:induction false} GrowthCoverage(band: Band, columns: int, j: nat, p: Positioned, index: nat, k: int)
    requires columns >= 1 && j < |band.placed| && GrowsBy(columns, band.placed[j].slot, p.slot, index)
    ensures CoveredBy(band.placed[j := p], columns, k) <==> CoveredBy(band.placed, columns, k) || k == index
  {
    var placed' := band.placed[j := p];
    if k == index { assert Covers(columns, placed'[j].slot, k); }
    if i :| 0 <= i < |band.placed| && Covers(columns, band.placed[i].slot, k) {
      assert Covers(columns, placed'[i].slot, k);
    }
    if i :| 0 <= i < |placed'| && Covers(columns, placed'[i].slot, k) {
      assert Covers(columns, band.placed[i].slot, k) || k == index;
    }
  }

  lemma {:induction false} GrowKeepsBand(band: Band, columns: int, height: int, j: nat, p: Positioned, index: nat)
    requires columns >= 1 && BandOk(band, columns, height) && j < |band.placed|
    requires index < |band.occupied| && !band.occupied[index]
    requires SlotOk(p, columns, height) && GrowsBy(columns, band.placed[j].slot, p.slot, index)
    ensures BandOk(Band(band.placed[j := p], band.occupied[index := true]), columns, height)
  {
    var placed', occupied' := band.placed[j := p], band.occupied[index := true];
    forall a, c | 0 <= a < c < |placed'| ensures !Overlap(placed'[a].slot, placed'[c].slot) {
      if a == j { GrowthStaysDisjoint(band, columns, height, j, p.slot, index, c); }
      if c == j { GrowthStaysDisjoint(band, columns, height, j, p.slot, index, a); }
    }
    forall k | 0 <= k < |occupied'| ensures occupied'[k] <==> CoveredBy(placed', columns, k) {
      GrowthCoverage(band, columns, j, p, index, k);
    }
  }

  lemma {:induction false} StretchKeepsBand(band: Band, columns: int, height: int, index: nat)
    requires columns >= 1 && BandOk(band, columns, height) && index < |band.occupied|
    ensures BandOk(StretchAt(band, columns, index), columns, height)
    ensures Items(StretchAt(band, columns, index).placed) == Items(band.placed)
  {
    if !band.occupied[index] {
      var row, col := index / columns, index % columns;
      CellRow(columns, height, index);
      var right := FindRight(band.placed, row, col, 0);
      var below := FindBelow(band.placed, row, col, 0);
      if right >= 0 {
        assert SlotOk(band.placed[right], columns, height);
        WidenGrows(columns, band.placed[right].slot, index);
        GrowKeepsBand(band, columns, height, right, Widen(band.placed[right]), index);
      } else if below >= 0 {
        assert SlotOk(band.placed[below], columns, height);
        HeightenGrows(columns, band.placed[below].slot, index);
        GrowKeepsBand(band, columns, height, below, Heighten(band.placed[below]), index);
      }
    }
  }

  lemma {:induction false} StretchAllKeepsBand(band: Band, columns: int, height: int, index: nat)
    requires columns >= 1 && BandOk(band, columns, height) && index <= |band.occupied|
    ensures BandOk(StretchFrom(band, columns, index), columns, height)
    ensures Items(StretchFrom(band, columns, index).placed) == Items(band.placed)
    decreases |band.occupied| - index
  {
    if index < |band.occupied| {
      StretchKeepsBand(band, columns, height, index);
      StretchAllKeepsBand(StretchAt(band, columns, index), columns, height, index + 1);
    }
  }

  lemma {:induction false} FillTakesPrefix(remaining: seq<Item>, columns: int, height: int, band: Band)
    requires columns >= 1
    ensures var r := Fill(remaining, columns, height, band);
            && |band.placed| <= |r.placed| <= |band.placed| + |remaining|
            && Items(r.placed) == Items(band.placed) + remaining[..|r.placed| - |band.placed|]
    decreases |remaining|
  {
    FillSize(remaining, columns, height, band);
    if |remaining| > 0 {
      var span := SpanOf(remaining[0], columns);
      var cell := FirstFit(band.occupied, columns, height, span);
      if cell >= 0 {
        var p := Positioned(remaining[0], SlotOf(columns, cell, span));
        var next := Band(band.placed + [p], Marked(band.occupied, columns, p.slot, true));
        FillTakesPrefix(remaining[1..], columns, height, next);
        var n := |Fill(remaining, columns, height, band).placed| - |band.placed|;
        assert Items(next.placed) == Items(band.placed) + [remaining[0]];
        assert remaining[..n] == [remaining[0]] + remaining[1..][..n - 1];
      }
    }
  }

  /** Every band satisfies the invariant and places exactly a prefix of what remains. */
  lemma {:induction false} BandInvariant(remaining: seq<Item>, columns: int)
    requires columns >= 1 && |remaining| > 0
    ensures var band := BandFor(remaining, columns);
            && BandOk(band, columns, BandHeight(remaining, columns))
            && 0 < |band.placed| <= |remaining|
            && Items(band.placed) == remaining[..|band.placed|]
  {
    var height := BandHeight(remaining, columns);
    BandPlacesSome(remaining, columns);
    MulGap(height, 0, columns);
    var empty := Band([], Blank(height * columns));
    assert BandOk(empty, columns, height);
    FillKeepsBand(remaining, columns, height, empty);
    FillTakesPrefix(remaining, columns, height, empty);
    StretchAllKeepsBand(Fill(remaining, columns, height, empty), columns, height, 0);
  }

  // ---------- the whole packing ----------

  /** Within the columns, from row `top` on, never smaller than the span. */
  ghost predicate PackedOk(p: Positioned, columns: int, top: int) {
    && 0 <= p.slot.col && p.slot.col + p.slot.w <= columns && top <= p.slot.row
    && 1 <= SpanOf(p.item, columns).w <= p.slot.w && 1 <= SpanOf(p.item, columns).h <= p.slot.h
  }

  /** A band of valid, pairwise disjoint slots. */
  ghost predicate SlabOk(slab: Slab, columns: int) {
    && 0 <= slab.height
    && (forall j :: 0 <= j < |slab.placed| ==> SlotOk(slab.placed[j], columns, slab.height))
    && AllDisjoint(slab.placed)
  }

  /** Valid bands that take up the items in order, each item once. */
  ghost predicate SlabsFor(slabs: seq<Slab>, items: seq<Item>, columns: int)
    decreases |slabs|
  {
    if |slabs| == 0 then
      |items| == 0
    else
      var n := |slabs[0].placed|;
      && SlabOk(slabs[0], columns)
      && n <= |items| && Items(slabs[0].placed) == items[..n]
      && SlabsFor(slabs[1..], items[n..], columns)
  }

  lemma {:induction false} FirstSlabOk(remaining: seq<Item>, columns: int)
    requires columns >= 1 && |remaining| > 0
    ensures var slab := FirstSlab(remaining, columns);
            && SlabOk(slab, columns)
            && 0 < |slab.placed| <= |remaining| && Items(slab.placed) == remaining[..|slab.placed|]
  {
    BandInvariant(remaining, columns);
  }

  lemma {:induction false} SlabsUnfold(remaining: seq<Item>, columns: int)
    requires columns >= 1 && |remaining| > 0
    ensures var slab := FirstSlab(remaining, columns);
            && 0 < |slab.placed| <= |remaining|
            && Slabs(remaining, columns) == [slab] + Slabs(remaining[|slab.placed|..], columns)
  {
    BandPlacesSome(remaining, columns);
  }

  lemma {:induction false} SlabsValid(remaining: seq<Item>, columns: int)
    requires columns >= 1
    ensures SlabsFor(Slabs(remaining, columns), remaining, columns)
    decreases |remaining|
  {
    if |remaining| > 0 {
      var slab := FirstSlab(remaining, columns);
      FirstSlabOk(remaining, columns);
      SlabsUnfold(remaining, columns);
      SlabsValid(remaining[|slab.placed|..], columns);
    }
  }

  /** A band moved down to its offset stays valid, inside its own rows. */
  lemma {:induction false} ShiftedSlab(slab: Slab, columns: int, rowOffset: int)
    requires SlabOk(slab, columns)
    ensures var ps := Shift(slab.placed, rowOffset);
            && Items(ps) == Items(slab.placed)
            && AllDisjoint(ps)
            && forall k :: 0 <= k < |ps| ==> PackedOk(ps[k], columns, rowOffset)
                                             && ps[k].slot.row + ps[k].slot.h <= rowOffset + slab.height
  {
    var ps := Shift(slab.placed, rowOffset);
    forall k | 0 <= k < |ps|
      ensures PackedOk(ps[k], columns, rowOffset) && ps[k].slot.row + ps[k].slot.h <= rowOffset + slab.height
    {
      assert SlotOk(slab.placed[k], columns, slab.height);
    }
    forall i, j | 0 <= i < j < |ps| ensures !Overlap(ps[i].slot, ps[j].slot) {
      assert !Overlap(slab.placed[i].slot, slab.placed[j].slot);
    }
  }

  /** Valid placements in row bands one above the other combine. */
  lemma {:induction false} StackBands(above: seq<Positioned>, below: seq<Positioned>, columns: int, top: int, middle: int)
    requires top <= middle && AllDisjoint(above) && AllDisjoint(below)
    requires forall k :: 0 <= k < |above| ==> PackedOk(above[k], columns, top) && above[k].slot.row + above[k].slot.h <= middle
    requires forall k :: 0 <= k < |below| ==> PackedOk(below[k], columns, middle)
    ensures AllDisjoint(above + below)
    ensures forall k :: 0 <= k < |above + below| ==> PackedOk((above + below)[k], columns, top)
  {
    var ps := above + below;
    forall i, j | 0 <= i < j < |ps| ensures !Overlap(ps[i].slot, ps[j].slot) {
      if i < |above| <= j { assert PackedOk(below[j - |above|], columns, middle); }
    }
    forall k | 0 <= k < |ps| ensures PackedOk(ps[k], columns, top) {
      if k >= |above| { assert PackedOk(below[k - |above|], columns, middle); }
    }
  }

  /** Items in input order, each once, in valid and pairwise disjoint slots from row `top` on. */
  ghost predicate PackedValid(ps: seq<Positioned>, items: seq<Item>, columns: int, top: int) {
    && Items(ps) == items
    && (forall k :: 0 <= k < |ps| ==> PackedOk(ps[k], columns, top))
    && AllDisjoint(ps)
  }

  lemma {:induction false} StackValid(slabs: seq<Slab>, items: seq<Item>, columns: int, rowOffset: int)
    requires columns >= 1 && SlabsFor(slabs, items, columns)
    ensures PackedValid(Stack(slabs, rowOffset), items, columns, rowOffset)
    decreases |slabs|
  {
    if |slabs| > 0 {
      var n := |slabs[0].placed|;
      var above, below := Shift(slabs[0].placed, rowOffset), Stack(slabs[1..], rowOffset + slabs[0].height);
      StackValid(slabs[1..], items[n..], columns, rowOffset + slabs[0].height);
      ShiftedSlab(slabs[0], columns, rowOffset);
      StackBands(above, below, columns, rowOffset, rowOffset + slabs[0].height);
      assert items == items[..n] + items[n..];
    }
  }

  /** The packer's contract: every item once, in input order, within the columns, never
      smaller than its span, no two overlapping. */
  lemma {:induction false} PackingValid(items: seq<Item>, columns: int)
    requires columns >= 1
    ensures PackedValid(Packing(items, columns), items, columns, 0)
  {
    SlabsValid(items, columns);
    StackValid(Slabs(items, columns), items, columns, 0);
  }
}
