/** When the spans fill the grid exactly, a failed search rules out every exact tiling,
    not only the ones built first-free: any disjoint placement can be replayed first-free. */
module ExactTilings {
  import opened Wrappers
  import opened Grid
  import opened Tiler
  import opened TilerProofs

  /** A slot for every item, on the board, no two overlapping. */
  ghost predicate Placement(b: Board, at: seq<Slot>) {
    && |at| == |b.sizes|
    && (forall i :: 0 <= i < |at| ==> at[i].w == b.sizes[i].w && at[i].h == b.sizes[i].h && Inside(at[i], b.columns, b.rows))
    && (forall i, j :: 0 <= i < j < |at| ==> !Overlap(at[i], at[j]))
  }

  // ---------- counting cells ----------

  ghost function AllCells(n: nat): (r: set<int>)
    ensures forall k :: k in r <==> 0 <= k < n
    ensures |r| == n
  {
    if n == 0 then {} else AllCells(n - 1) + {n - 1}
  }

  ghost function CellSet(columns: int, n: nat, s: Slot): set<int>
    requires columns >= 1
  {
    set k | k in AllCells(n) && Covers(columns, s, k)
  }

  lemma {:induction false} LastCell(columns: int, rows: int, n: nat, s: Slot)
    requires columns >= 1 && n == rows * columns
    requires 0 <= s.col && 0 <= s.row < rows && 1 <= s.w && s.h == 1 && s.col + s.w <= columns
    ensures var k := s.row * columns + (s.col + s.w - 1);
            && k !in CellSet(columns, n, s.(w := s.w - 1))
            && CellSet(columns, n, s) == CellSet(columns, n, s.(w := s.w - 1)) + {k}
  {
    var k := s.row * columns + (s.col + s.w - 1);
    CellAt(columns, s.row, s.col + s.w - 1);
    CellInRange(columns, rows, s.row, s.col + s.w - 1);
    forall c | c in CellSet(columns, n, s) && c !in CellSet(columns, n, s.(w := s.w - 1)) ensures c == k {
      CellSplit(columns, c);
    }
  }

  lemma {:induction false} NoCells(columns: int, n: nat, s: Slot)
    requires columns >= 1 && (s.w == 0 || s.h == 0)
    ensures |CellSet(columns, n, s)| == 0
  {
    assert CellSet(columns, n, s) == {};
  }

  lemma {:induction false} StripSize(columns: int, rows: int, n: nat, s: Slot)
    requires columns >= 1 && n == rows * columns
    requires 0 <= s.col && 0 <= s.row < rows && 0 <= s.w && s.h == 1 && s.col + s.w <= columns
    ensures |CellSet(columns, n, s)| == s.w
    decreases s.w
  {
    if s.w == 0 {
      NoCells(columns, n, s);
    } else {
      StripSize(columns, rows, n, s.(w := s.w - 1));
      LastCell(columns, rows, n, s);
    }
  }

  lemma {:induction false} LastRow(columns: int, n: nat, s: Slot)
    requires columns >= 1 && s.h >= 1
    ensures CellSet(columns, n, s) ==
            CellSet(columns, n, s.(h := s.h - 1)) + CellSet(columns, n, Slot(s.col, s.row + s.h - 1, s.w, 1))
    ensures CellSet(columns, n, s.(h := s.h - 1)) !! CellSet(columns, n, Slot(s.col, s.row + s.h - 1, s.w, 1))
  {
  }

  lemma {:induction false} GrowRow(columns: int, rows: int, n: nat, s: Slot)
    requires columns >= 1 && n == rows * columns
    requires 0 <= s.col && 0 <= s.row && 0 <= s.w && 1 <= s.h && s.col + s.w <= columns && s.row + s.h <= rows
    ensures |CellSet(columns, n, s)| == |CellSet(columns, n, s.(h := s.h - 1))| + s.w
  {
    LastRow(columns, n, s);
    StripSize(columns, rows, n, Slot(s.col, s.row + s.h - 1, s.w, 1));
  }

  lemma {:induction false} SlotSize(columns: int, rows: int, n: nat, s: Slot)
    requires columns >= 1 && n == rows * columns
    requires 0 <= s.col && 0 <= s.row && 0 <= s.w && 0 <= s.h && s.col + s.w <= columns && s.row + s.h <= rows
    ensures |CellSet(columns, n, s)| == s.w * s.h
    decreases s.h
  {
    if s.h == 0 {
      NoCells(columns, n, s);
    } else {
      SlotSize(columns, rows, n, s.(h := s.h - 1));
      GrowRow(columns, rows, n, s);
      assert s.w * s.h == s.w * (s.h - 1) + s.w;
    }
  }

  ghost function CoveredCells(columns: int, n: nat, at: seq<Slot>): set<int>
    requires columns >= 1
  {
    if |at| == 0 then {} else CellSet(columns, n, at[0]) + CoveredCells(columns, n, at[1..])
  }

  lemma {:induction false} CoveredIff(columns: int, n: nat, at: seq<Slot>, k: int)
    requires columns >= 1 && 0 <= k < n
    ensures k in CoveredCells(columns, n, at) <==> exists i :: 0 <= i < |at| && Covers(columns, at[i], k)
  {
    if |at| > 0 {
      CoveredIff(columns, n, at[1..], k);
      if i :| 0 <= i < |at| && Covers(columns, at[i], k) {
        if i > 0 { assert at[1..][i - 1] == at[i]; }
      }
    }
  }

  lemma {:induction false} CoveredInRange(columns: int, n: nat, at: seq<Slot>)
    requires columns >= 1
    ensures CoveredCells(columns, n, at) <= AllCells(n)
  {
    if |at| > 0 {
      CoveredInRange(columns, n, at[1..]);
    }
  }

  lemma {:induction false} HeadDisjoint(b: Board, at: seq<Slot>)
    requires WellFormed(b) && Placement(b, at) && |at| > 0
    ensures CellSet(b.columns, Cells(b), at[0]) !! CoveredCells(b.columns, Cells(b), at[1..])
  {
    var n := Cells(b);
    CoveredInRange(b.columns, n, at[1..]);
    forall k | k in CellSet(b.columns, n, at[0]) ensures k !in CoveredCells(b.columns, n, at[1..]) {
      CoveredIff(b.columns, n, at[1..], k);
      forall i | 0 <= i < |at[1..]| ensures !Covers(b.columns, at[1..][i], k) {
        OverlapIffShareCell(b.columns, b.rows, at[0], at[i + 1]);
        assert at[1..][i] == at[i + 1];
      }
    }
  }

  lemma {:induction false} CoveredSize(b: Board, at: seq<Slot>)
    requires WellFormed(b) && Placement(b, at)
    ensures |CoveredCells(b.columns, Cells(b), at)| == Area(b.sizes)
    decreases |at|
  {
    if |at| > 0 {
      var b' := b.(sizes := b.sizes[1..]);
      HeadDisjoint(b, at);
      CoveredSize(b', at[1..]);
      SlotSize(b.columns, b.rows, Cells(b), at[0]);
    }
  }

  lemma {:induction false} SameSizeSubset(a: set<int>, c: set<int>)
    requires a <= c && |a| == |c|
    ensures a == c
  {
    assert |c - a| == 0;
  }

  /** A placement whose area is the whole board leaves no cell uncovered. */
  lemma {:induction false} PlacementCoversBoard(b: Board, at: seq<Slot>, k: int)
    requires WellFormed(b) && Placement(b, at) && Area(b.sizes) == b.rows * b.columns
    requires 0 <= k < b.rows * b.columns
    ensures exists i :: 0 <= i < |at| && Covers(b.columns, at[i], k)
  {
    CoveredSize(b, at);
    CoveredInRange(b.columns, Cells(b), at);
    SameSizeSubset(CoveredCells(b.columns, Cells(b), at), AllCells(Cells(b)));
    CoveredIff(b.columns, Cells(b), at, k);
  }

  // ---------- replaying a placement first-free ----------

  /** The array holds exactly the cells of the used items' slots. */
  ghost predicate Holds(b: Board, occupied: seq<bool>, used: seq<bool>, at: seq<Slot>)
    requires WellFormed(b) && |used| == |at|
  {
    forall k :: 0 <= k < |occupied| ==>
      (occupied[k] <==> exists i :: 0 <= i < |at| && used[i] && Covers(b.columns, at[i], k))
  }

  function CountFree(used: seq<bool>): nat {
    if |used| == 0 then 0 else (if used[0] then 0 else 1) + CountFree(used[1..])
  }

  lemma {:induction false} CountFreeStep(used: seq<bool>, i: nat)
    requires i < |used| && !used[i]
    ensures CountFree(used) == 1 + CountFree(used[i := true])
  {
    if i == 0 {
      assert used[0 := true][1..] == used[1..];
    } else {
      CountFreeStep(used[1..], i - 1);
      assert used[i := true][1..] == used[1..][i - 1 := true];
    }
  }

  lemma {:induction false} CountFreeWitness(used: seq<bool>) returns (i: nat)
    requires CountFree(used) > 0
    ensures i < |used| && !used[i]
  {
    if !used[0] {
      i := 0;
    } else {
      i := CountFreeWitness(used[1..]);
      i := i + 1;
    }
  }

  lemma {:induction false} CountFreeClear(n: nat)
    ensures CountFree(Clear(n)) == n
  {
    if n > 0 {
      CountFreeClear(n - 1);
      assert Clear(n)[1..] == Clear(n - 1);
    }
  }

  /** An unused item's slot lies over free cells. */
  lemma {:induction false} UnusedIsFree(b: Board, occupied: seq<bool>, used: seq<bool>, at: seq<Slot>, i: nat, k: int)
    requires WellFormed(b) && |used| == |at| && Placement(b, at) && |occupied| == Cells(b) && Holds(b, occupied, used, at)
    requires i < |at| && !used[i] && 0 <= k < |occupied| && Covers(b.columns, at[i], k)
    ensures !occupied[k]
  {
    forall j | 0 <= j < |at| && used[j] ensures !Covers(b.columns, at[j], k) {
      OverlapIffShareCell(b.columns, b.rows, at[i], at[j]);
      assert !Overlap(at[i], at[j]) by { if i < j { } else { assert !Overlap(at[j], at[i]); } }
    }
  }

  lemma {:induction false} OriginCell(b: Board, s: Slot)
    requires WellFormed(b) && Inside(s, b.columns, b.rows)
    ensures 0 <= Origin(b.columns, s) < Cells(b)
    ensures Covers(b.columns, s, Origin(b.columns, s))
    ensures SlotAt(b, Origin(b.columns, s), Span(s.w, s.h)) == s
  {
    CellAt(b.columns, s.row, s.col);
    CellInRange(b.columns, b.rows, s.row, s.col);
  }

  lemma {:induction false} OriginIsLeast(b: Board, s: Slot, k: int)
    requires WellFormed(b) && Inside(s, b.columns, b.rows) && 0 <= k < Cells(b) && Covers(b.columns, s, k)
    ensures Origin(b.columns, s) <= k
  {
    assert k == (k / b.columns) * b.columns + k % b.columns;
    if s.row < k / b.columns { MulGap(k / b.columns, s.row, b.columns); }
  }

  /** The item covering the first free cell has its origin there. */
  lemma {:induction false} FirstFreeOwner(b: Board, occupied: seq<bool>, used: seq<bool>, at: seq<Slot>) returns (i: nat)
    requires WellFormed(b) && |used| == |at| && Placement(b, at) && |occupied| == Cells(b) && Holds(b, occupied, used, at)
    requires Area(b.sizes) == b.rows * b.columns && FirstFree(occupied) >= 0
    ensures i < |at| && !used[i] && at[i] == SlotAt(b, FirstFree(occupied), b.sizes[i])
  {
    var c := FirstFree(occupied);
    PlacementCoversBoard(b, at, c);
    i :| 0 <= i < |at| && Covers(b.columns, at[i], c);
    OriginCell(b, at[i]);
    OriginIsLeast(b, at[i], c);
    if Origin(b.columns, at[i]) < c {
      UnusedIsFree(b, occupied, used, at, i, Origin(b.columns, at[i]));
      assert false;
    }
  }

  lemma {:induction false} ReplayFirstFree(b: Board, occupied: seq<bool>, used: seq<bool>, at: seq<Slot>) returns (order: seq<int>)
    requires WellFormed(b) && |used| == |at| && Placement(b, at) && |occupied| == Cells(b) && Holds(b, occupied, used, at)
    requires Area(b.sizes) == b.rows * b.columns
    ensures |order| == CountFree(used) && Completes(b, occupied, used, order)
    decreases CountFree(used)
  {
    if CountFree(used) == 0 {
      order := [];
    } else {
      var u := CountFreeWitness(used);
      OriginCell(b, at[u]);
      UnusedIsFree(b, occupied, used, at, u, Origin(b.columns, at[u]));
      var i := FirstFreeOwner(b, occupied, used, at);
      forall k | 0 <= k < |occupied| && Covers(b.columns, at[i], k) ensures !occupied[k] {
        UnusedIsFree(b, occupied, used, at, i, k);
      }
      CountFreeStep(used, i);
      var rest := ReplayFirstFree(b, Marked(occupied, b.columns, at[i], true), used[i := true], at);
      order := [i] + rest;
    }
  }

  /** If the search gives up within budget and the areas add up to the grid, no exact tiling exists. */
  lemma {:induction false} NoExactTiling(items: seq<Item>, columns: int, at: seq<Slot>)
    requires columns >= 1 && |items| > 0
    requires Tiling(items, columns).None? && SearchFor(items, columns).budget >= 0
    requires var b := BoardFor(items, columns); Area(b.sizes) == b.rows * columns
    ensures !Placement(BoardFor(items, columns), at)
  {
    var b := BoardFor(items, columns);
    if Placement(b, at) {
      var used := Clear(|items|);
      var order := ReplayFirstFree(b, Clear(Cells(b)), used, at);
      CountFreeClear(|items|);
      SearchComplete(b, Clear(Cells(b)), used, 0, BUDGET, order);
      assert false;
    }
  }
}
