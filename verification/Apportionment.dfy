/** Largest-remainder apportionment of a reward budget over voting positions. */
module Apportionment {
  import opened Wrappers
  import Sorting

  datatype Position = Position(tokenId: int, owner: string, power: int)

  datatype Allocation = Allocation(tokenId: int, owner: string, power: int, amount: int, remainder: int)

  function TotalPower(positions: seq<Position>): int {
    if |positions| == 0 then 0 else positions[0].power + TotalPower(positions[1..])
  }

  function TotalAmount(allocations: seq<Allocation>): int {
    if |allocations| == 0 then 0 else allocations[0].amount + TotalAmount(allocations[1..])
  }

  function FloorShare(p: Position, budget: int, total: int): Allocation
    requires total > 0
  {
    Allocation(p.tokenId, p.owner, p.power, budget * p.power / total, budget * p.power % total)
  }

  function FloorShares(positions: seq<Position>, budget: int, total: int): (r: seq<Allocation>)
    requires total > 0
    ensures |r| == |positions|
  {
    seq(|positions|, k requires 0 <= k < |positions| => FloorShare(positions[k], budget, total))
  }

  /** Larger remainder first, then larger voting power, then smaller token id. */
  function ServedFirst(): (Allocation, Allocation) -> bool {
    (a: Allocation, b: Allocation) =>
      a.remainder > b.remainder
      || (a.remainder == b.remainder && a.power > b.power)
      || (a.remainder == b.remainder && a.power == b.power && a.tokenId < b.tokenId)
  }

  function SmallerToken(): (Allocation, Allocation) -> bool {
    (a: Allocation, b: Allocation) => a.tokenId < b.tokenId
  }

  /** One extra unit for each of the first `n`. */
  function Handed(sorted: seq<Allocation>, n: int): (r: seq<Allocation>)
    ensures |r| == |sorted|
  {
    seq(|sorted|, k requires 0 <= k < |sorted| =>
      if k < n then sorted[k].(amount := sorted[k].amount + 1) else sorted[k])
  }

  function Leftover(positions: seq<Position>, budget: int): int
    requires TotalPower(positions) > 0
  {
    budget - TotalAmount(FloorShares(positions, budget, TotalPower(positions)))
  }

  /** The allocation in hand-out order, and as it is written out, by token id. */
  function ServedShares(positions: seq<Position>, budget: int): (r: seq<Allocation>)
    requires TotalPower(positions) > 0
    ensures |r| == |positions|
  {
    Handed(Sorting.Sort(FloorShares(positions, budget, TotalPower(positions)), ServedFirst()), Leftover(positions, budget))
  }

  function Allotted(positions: seq<Position>, budget: int): (r: seq<Allocation>)
    requires TotalPower(positions) > 0
    ensures |r| == |positions|
  {
    Sorting.Sort(ServedShares(positions, budget), SmallerToken())
  }

  /** What the scan of token ids guarantees about the positions it collects. */
  ghost predicate Eligible(positions: seq<Position>) {
    && (forall i :: 0 <= i < |positions| ==> positions[i].power > 0)
    && (forall i, j :: 0 <= i < j < |positions| ==> positions[i].tokenId != positions[j].tokenId)
  }

  // ---------- which positions are eligible ----------

  const ZERO_ADDRESS := "0x0000000000000000000000000000000000000000"

  /** One token id's reads: skipped without an owner, a readable voting power, or any power. */
  function ReadPosition(tokenId: int, ownerOf: int -> Option<string>, votingPower: int -> Option<int>,
                        balanceOfNFT: int -> Option<int>): Option<Position> {
    var owner := ownerOf(tokenId);
    var power := if votingPower(tokenId).Some? then votingPower(tokenId) else balanceOfNFT(tokenId);
    if owner.None? || owner.value == ZERO_ADDRESS || power.None? || power.value <= 0 then None
    else Some(Position(tokenId, owner.value, power.value))
  }

  /** The scan collects exactly the readable positions with power, each token id once. */
  method CollectPositions(scanLimit: int, ownerOf: int -> Option<string>, votingPower: int -> Option<int>,
                          balanceOfNFT: int -> Option<int>) returns (positions: seq<Position>)
    ensures Eligible(positions)
    ensures forall p :: p in positions <==>
              && 1 <= p.tokenId < scanLimit && p.power > 0
              && ownerOf(p.tokenId) == Some(p.owner) && p.owner != ZERO_ADDRESS
              && (votingPower(p.tokenId) == Some(p.power) || (votingPower(p.tokenId).None? && balanceOfNFT(p.tokenId) == Some(p.power)))
  {
    positions := [];
    var tokenId := 1;
    while tokenId < scanLimit
      invariant 1 <= tokenId && Eligible(positions)
      invariant forall p :: p in positions <==>
                  1 <= p.tokenId < scanLimit && p.tokenId < tokenId
                  && ReadPosition(p.tokenId, ownerOf, votingPower, balanceOfNFT) == Some(p)
      decreases scanLimit - tokenId
    {
      var read := ReadPosition(tokenId, ownerOf, votingPower, balanceOfNFT);
      if read.Some? {
        forall i | 0 <= i < |positions| ensures positions[i].tokenId != tokenId {
          assert positions[i] in positions;
        }
        positions := positions + [read.value];
      }
      tokenId := tokenId + 1;
    }
  }

  // ---------- the leftover ----------

  function TotalRemainder(allocations: seq<Allocation>): int {
    if |allocations| == 0 then 0 else allocations[0].remainder + TotalRemainder(allocations[1..])
  }

  function CountNonzero(allocations: seq<Allocation>): nat {
    if |allocations| == 0 then 0
    else (if allocations[0].remainder != 0 then 1 else 0) + CountNonzero(allocations[1..])
  }

  lemma {:induction false} PositiveTotal(positions: seq<Position>)
    requires forall i :: 0 <= i < |positions| ==> positions[i].power > 0
    ensures TotalPower(positions) >= 0
    ensures |positions| > 0 ==> TotalPower(positions) > 0
  {
    if |positions| > 0 {
      PositiveTotal(positions[1..]);
    }
  }

  /** Share `a` is the exact quota `budget * power / total`, rounded down or, if `up`, up. */
  ghost predicate Rounded(a: Allocation, budget: int, total: int, up: bool) {
    && 0 <= a.remainder < total
    && (a.amount - (if up then 1 else 0)) * total + a.remainder == budget * a.power
  }

  lemma {:induction false} FloorShareRounded(p: Position, budget: int, total: int)
    requires total > 0
    ensures Rounded(FloorShare(p, budget, total), budget, total, false)
  {
    assert budget * p.power == (budget * p.power / total) * total + budget * p.power % total;
  }

  lemma {:induction false} SharesAddUp(positions: seq<Position>, budget: int, total: int)
    requires total > 0
    ensures var shares := FloorShares(positions, budget, total);
            TotalAmount(shares) * total + TotalRemainder(shares) == budget * TotalPower(positions)
  {
    if |positions| > 0 {
      var shares := FloorShares(positions, budget, total);
      SharesAddUp(positions[1..], budget, total);
      FloorShareRounded(positions[0], budget, total);
      assert shares[1..] == FloorShares(positions[1..], budget, total);
      Distribute(shares[0].amount, TotalAmount(shares[1..]), total);
      Distribute(positions[0].power, TotalPower(positions[1..]), budget);
    }
  }

  lemma {:induction false} Distribute(a: int, b: int, c: int)
    ensures (a + b) * c == a * c + b * c && c * (a + b) == c * a + c * b
  {
  }

  lemma {:induction false} RemainderBound(allocations: seq<Allocation>, total: int)
    requires total > 0 && forall i :: 0 <= i < |allocations| ==> 0 <= allocations[i].remainder < total
    ensures 0 <= TotalRemainder(allocations) <= CountNonzero(allocations) * (total - 1)
  {
    if |allocations| > 0 {
      RemainderBound(allocations[1..], total);
      if allocations[0].remainder != 0 {
        Distribute(1, CountNonzero(allocations[1..]), total - 1);
      }
    }
  }

  lemma {:induction false} LessFactor(r: int, n: nat, t: int)
    requires t > 0 && 0 <= r * t <= n * (t - 1)
    ensures 0 <= r && (r < n || (r == 0 && n == 0))
  {
    if r < 0 { Scale(r, -1, t); }
    if r >= n { Scale(n, r, t); Distribute(t - 1, 1, n); }
  }

  lemma {:induction false} Scale(a: int, b: int, t: int)
    requires a <= b && t > 0
    ensures a * t <= b * t
  {
    assert (b - a) * t >= 0;
  }

  lemma {:induction false} LeftoverScaled(positions: seq<Position>, budget: int)
    requires TotalPower(positions) > 0
    ensures var total := TotalPower(positions);
            Leftover(positions, budget) * total == TotalRemainder(FloorShares(positions, budget, total))
  {
    var total := TotalPower(positions);
    SharesAddUp(positions, budget, total);
    Distribute(budget, -TotalAmount(FloorShares(positions, budget, total)), total);
  }

  /** Fewer leftover units than positions with a non-zero remainder. */
  lemma {:induction false} LeftoverBound(positions: seq<Position>, budget: int)
    requires TotalPower(positions) > 0
    ensures var nonzero := CountNonzero(FloorShares(positions, budget, TotalPower(positions)));
            0 <= Leftover(positions, budget) && (Leftover(positions, budget) < nonzero || Leftover(positions, budget) == nonzero == 0)
  {
    var total := TotalPower(positions);
    var shares := FloorShares(positions, budget, total);
    LeftoverScaled(positions, budget);
    forall i | 0 <= i < |shares| ensures 0 <= shares[i].remainder < total {
      FloorShareRounded(positions[i], budget, total);
    }
    RemainderBound(shares, total);
    LessFactor(Leftover(positions, budget), CountNonzero(shares), total);
  }

  lemma {:induction false} CountNonzeroAtMost(allocations: seq<Allocation>)
    ensures CountNonzero(allocations) <= |allocations|
  {
    if |allocations| > 0 {
      CountNonzeroAtMost(allocations[1..]);
    }
  }

  lemma {:induction false} CountNonzeroWithout(allocations: seq<Allocation>, j: nat)
    requires j < |allocations|
    ensures CountNonzero(allocations) ==
            (if allocations[j].remainder != 0 then 1 else 0) + CountNonzero(allocations[..j] + allocations[j + 1..])
  {
    if j == 0 {
      assert allocations[..0] + allocations[1..] == allocations[1..];
    } else {
      CountNonzeroWithout(allocations[1..], j - 1);
      assert (allocations[..j] + allocations[j + 1..])[1..] == allocations[1..][..j - 1] + allocations[1..][j..];
    }
  }

  lemma {:induction false} TotalAmountWithout(allocations: seq<Allocation>, j: nat)
    requires j < |allocations|
    ensures TotalAmount(allocations) == allocations[j].amount + TotalAmount(allocations[..j] + allocations[j + 1..])
  {
    if j == 0 {
      assert allocations[..0] + allocations[1..] == allocations[1..];
    } else {
      TotalAmountWithout(allocations[1..], j - 1);
      assert (allocations[..j] + allocations[j + 1..])[1..] == allocations[1..][..j - 1] + allocations[1..][j..];
    }
  }

  lemma {:induction false} WithoutElements<T>(ys: seq<T>, j: nat)
    requires j < |ys|
    ensures multiset(ys[..j] + ys[j + 1..]) == multiset(ys) - multiset{ys[j]}
  {
    assert ys == ys[..j] + [ys[j]] + ys[j + 1..];
  }

  /** Sums and counts do not depend on the order. */
  lemma {:induction false} TotalsPermute(xs: seq<Allocation>, ys: seq<Allocation>)
    requires multiset(xs) == multiset(ys)
    ensures TotalAmount(xs) == TotalAmount(ys) && CountNonzero(xs) == CountNonzero(ys)
  {
    Sorting.SameElements(xs, ys);
    if |xs| > 0 {
      assert xs[0] in ys;
      var j :| 0 <= j < |ys| && ys[j] == xs[0];
      Sorting.TailElements(xs);
      WithoutElements(ys, j);
      TotalsPermute(xs[1..], ys[..j] + ys[j + 1..]);
      TotalAmountWithout(ys, j);
      CountNonzeroWithout(ys, j);
    }
  }

  lemma {:induction false} ServedFirstIsWeakOrder()
    ensures Sorting.WeakOrder(ServedFirst())
    ensures Sorting.WeakOrder(SmallerToken())
  {
  }

  /** Sorted by remainder, the positions with a non-zero remainder come first. */
  lemma {:induction false} NonzeroFirst(sorted: seq<Allocation>, k: nat)
    requires Sorting.Ordered(sorted, ServedFirst()) && k < CountNonzero(sorted)
    requires forall i :: 0 <= i < |sorted| ==> sorted[i].remainder >= 0
    ensures k < |sorted| && sorted[k].remainder > 0
  {
    CountNonzeroAtMost(sorted);
    if sorted[0].remainder == 0 {
      forall i | 0 <= i < |sorted| ensures sorted[i].remainder == 0 {
        if i > 0 { assert !ServedFirst()(sorted[i], sorted[0]); }
      }
      AllZero(sorted);
      assert false;
    }
    if k > 0 {
      NonzeroFirst(sorted[1..], k - 1);
    }
  }

  lemma {:induction false} AllZero(allocations: seq<Allocation>)
    requires forall i :: 0 <= i < |allocations| ==> allocations[i].remainder == 0
    ensures CountNonzero(allocations) == 0
  {
    if |allocations| > 0 {
      AllZero(allocations[1..]);
    }
  }

  // ---------- what the served shares are ----------

  function SortedShares(positions: seq<Position>, budget: int): seq<Allocation>
    requires TotalPower(positions) > 0
  {
    Sorting.Sort(FloorShares(positions, budget, TotalPower(positions)), ServedFirst())
  }

  lemma {:induction false} SortedShare(positions: seq<Position>, budget: int, k: nat)
    requires TotalPower(positions) > 0 && k < |positions|
    ensures Rounded(SortedShares(positions, budget)[k], budget, TotalPower(positions), false)
    ensures exists i :: 0 <= i < |positions|
                        && SortedShares(positions, budget)[k] == FloorShare(positions[i], budget, TotalPower(positions))
  {
    var total := TotalPower(positions);
    var shares := FloorShares(positions, budget, total);
    Sorting.SameElements(shares, SortedShares(positions, budget));
    assert SortedShares(positions, budget)[k] in shares;
    var i :| 0 <= i < |shares| && shares[i] == SortedShares(positions, budget)[k];
    FloorShareRounded(positions[i], budget, total);
  }

  lemma {:induction false} ServedHaveRemainder(positions: seq<Position>, budget: int, k: nat)
    requires TotalPower(positions) > 0 && k < |positions| && k < Leftover(positions, budget)
    ensures SortedShares(positions, budget)[k].remainder > 0
  {
    var shares, sorted := FloorShares(positions, budget, TotalPower(positions)), SortedShares(positions, budget);
    LeftoverBound(positions, budget);
    TotalsPermute(sorted, shares);
    forall i | 0 <= i < |sorted| ensures sorted[i].remainder >= 0 {
      SortedShare(positions, budget, i);
    }
    ServedFirstIsWeakOrder();
    Sorting.SortOrdered(shares, ServedFirst());
    NonzeroFirst(sorted, k);
  }

  /** A leftover unit goes only to a position with a non-zero remainder, so every share is its
      exact quota rounded down or up. */
  lemma {:induction false} ServedShareRounded(positions: seq<Position>, budget: int, k: nat)
    requires TotalPower(positions) > 0 && k < |positions|
    ensures var a, n := ServedShares(positions, budget)[k], Leftover(positions, budget);
            && Rounded(a, budget, TotalPower(positions), k < n)
            && (k < n ==> a.remainder > 0)
  {
    hide Leftover;
    SortedShare(positions, budget, k);
    assert ServedShares(positions, budget) == Handed(SortedShares(positions, budget), Leftover(positions, budget));
    if k < Leftover(positions, budget) {
      ServedHaveRemainder(positions, budget, k);
    }
  }

  lemma {:induction false} HandedTotal(sorted: seq<Allocation>, n: int)
    requires 0 <= n <= |sorted|
    ensures TotalAmount(Handed(sorted, n)) == TotalAmount(sorted) + n
  {
    if |sorted| > 0 {
      var m := if n > 0 then n - 1 else 0;
      HandedTotal(sorted[1..], m);
      assert Handed(sorted, n)[1..] == Handed(sorted[1..], m);
    }
  }

  /** The hand-out never wraps around and the amounts add up to the budget exactly. */
  lemma {:induction false} BudgetExact(positions: seq<Position>, budget: int)
    requires TotalPower(positions) > 0
    ensures 0 <= Leftover(positions, budget) <= |positions|
    ensures |positions| > 0 ==> Leftover(positions, budget) < |positions|
    ensures TotalAmount(ServedShares(positions, budget)) == budget
    ensures TotalAmount(Allotted(positions, budget)) == budget
  {
    var shares := FloorShares(positions, budget, TotalPower(positions));
    var sorted := SortedShares(positions, budget);
    LeftoverBound(positions, budget);
    CountNonzeroAtMost(shares);
    TotalsPermute(sorted, shares);
    HandedTotal(sorted, Leftover(positions, budget));
    TotalsPermute(Allotted(positions, budget), ServedShares(positions, budget));
  }

  // ---------- as it runs ----------

  lemma {:induction false} HandedNext(sorted: seq<Allocation>, n: nat)
    requires n < |sorted|
    ensures Handed(sorted, n)[n := Handed(sorted, n)[n].(amount := Handed(sorted, n)[n].amount + 1)] == Handed(sorted, n + 1)
  {
  }

  /** The hand-out loop: one unit each, in order, starting over at the end of the list. */
  method HandOut(sorted: seq<Allocation>, leftover: int) returns (allocations: seq<Allocation>)
    requires 0 <= leftover < |sorted|
    ensures allocations == Handed(sorted, leftover)
  {
    allocations := sorted;
    var remainder, index := leftover, 0;
    while remainder > 0
      invariant 0 <= remainder && index == leftover - remainder
      invariant allocations == Handed(sorted, index)
    {
      HandedNext(sorted, index);
      allocations := allocations[index := allocations[index].(amount := allocations[index].amount + 1)];
      remainder := remainder - 1;
      index := index + 1;
      if index >= |allocations| {
        index := 0;
      }
    }
  }

  /** Fails only when there is no position to allocate to. */
  method Allocate(positions: seq<Position>, budget: int) returns (r: Result<seq<Allocation>, string>)
    requires Eligible(positions) && budget > 0
    ensures |positions| == 0 <==> r.Err?
    ensures r.Ok? ==> TotalPower(positions) > 0 && r.value == Allotted(positions, budget)
  {
    if |positions| == 0 {
      return Err("No active veCENT positions with voting power were found");
    }
    PositiveTotal(positions);
    var shares := FloorShares(positions, budget, TotalPower(positions));
    var remainder := budget - TotalAmount(shares);
    BudgetExact(positions, budget);
    var allocations := HandOut(Sorting.Sort(shares, ServedFirst()), remainder);
    assert allocations == ServedShares(positions, budget);
    if TotalAmount(allocations) != budget {
      return Err("Allocation mismatch");
    }
    return Ok(Sorting.Sort(allocations, SmallerToken()));
  }
}
