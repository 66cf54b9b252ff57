/** The allocation is the best integer approximation of the exact quotas, is fair, and does
    not depend on the order in which the positions were read. */
module ApportionmentProofs {
  import opened Apportionment
  import Sorting

  lemma {:induction false} OutputShare(positions: seq<Position>, budget: int, a: Allocation) returns (k: nat)
    requires TotalPower(positions) > 0 && a in Allotted(positions, budget)
    ensures k < |positions| && ServedShares(positions, budget)[k] == a
    ensures Rounded(a, budget, TotalPower(positions), k < Leftover(positions, budget))
  {
    hide Leftover, ServedShares;
    var served := ServedShares(positions, budget);
    Sorting.SameElements(served, Allotted(positions, budget));
    k :| 0 <= k < |served| && served[k] == a;
    ServedShareRounded(positions, budget, k);
  }

  // ---------- the quota rule ----------

  /** Every amount is within one unit of its exact quota, so it is the quota's floor or ceiling. */
  lemma {:induction false} QuotaRule(positions: seq<Position>, budget: int, a: Allocation)
    requires TotalPower(positions) > 0 && a in Allotted(positions, budget)
    ensures var total := TotalPower(positions);
            && (a.amount - 1) * total < budget * a.power < (a.amount + 1) * total
            && (a.remainder == 0 ==> a.amount * total == budget * a.power)
  {
    hide Leftover, ServedShares, Allotted, TotalPower;
    var k := OutputShare(positions, budget, a);
    ServedShareRounded(positions, budget, k);
    Distribute(a.amount, 1, TotalPower(positions));
    Distribute(a.amount, -1, TotalPower(positions));
  }

  lemma {:induction false} FactorNonNegative(a: int, t: int)
    requires t > 0 && (a + 1) * t > 0
    ensures a >= 0
  {
    if a < 0 { Scale(a + 1, 0, t); }
  }

  lemma {:induction false} ProductPositive(a: int, c: int)
    requires a > 0 && c > 0
    ensures a * c > 0
  {
  }

  lemma {:induction false} PowerPositive(positions: seq<Position>, budget: int, a: Allocation)
    requires Eligible(positions) && TotalPower(positions) > 0 && a in Allotted(positions, budget)
    ensures a.power > 0
  {
    hide Leftover, ServedShares, Allotted;
    var k := OutputShare(positions, budget, a);
    assert ServedShares(positions, budget) == Handed(SortedShares(positions, budget), Leftover(positions, budget)) by {
      ServedDefinition(positions, budget);
    }
    SortedShare(positions, budget, k);
  }

  lemma {:induction false} ServedDefinition(positions: seq<Position>, budget: int)
    requires TotalPower(positions) > 0
    ensures ServedShares(positions, budget) == Handed(SortedShares(positions, budget), Leftover(positions, budget))
  {
  }

  /** Amounts are never negative when the budget and the powers are positive. */
  lemma {:induction false} AmountsNonNegative(positions: seq<Position>, budget: int, a: Allocation)
    requires Eligible(positions) && budget > 0 && TotalPower(positions) > 0 && a in Allotted(positions, budget)
    ensures a.amount >= 0 && a.power > 0
  {
    hide Allotted, Eligible;
    PowerPositive(positions, budget, a);
    QuotaRule(positions, budget, a);
    ProductPositive(budget, a.power);
    FactorNonNegative(a.amount, TotalPower(positions));
  }

  // ---------- monotonicity ----------

  lemma {:induction false} FloorsInOrder(fa: int, ra: int, fb: int, rb: int, total: int)
    requires total > 0 && 0 <= ra < total && 0 <= rb < total
    requires fa * total + ra >= fb * total + rb
    ensures fa > fb || (fa == fb && ra >= rb)
  {
    if fa < fb { Scale(fa + 1, fb, total); Distribute(fa, 1, total); }
  }

  /** Served before: the comparator of the hand-out, read off two positions of the sorted list. */
  lemma {:induction false} ServedEarlier(positions: seq<Position>, budget: int, i: nat, j: nat)
    requires TotalPower(positions) > 0 && i < |positions| && j < |positions|
    requires ServedFirst()(SortedShares(positions, budget)[i], SortedShares(positions, budget)[j])
    ensures i < j
  {
    ServedFirstIsWeakOrder();
    Sorting.SortOrdered(FloorShares(positions, budget, TotalPower(positions)), ServedFirst());
  }

  /** More power means no smaller floor, and at equal floors no smaller remainder. */
  lemma {:induction false} PowerOrdersFloors(a: Allocation, c: Allocation, budget: int, total: int, upA: bool, upC: bool)
    requires budget > 0 && total > 0 && a.power >= c.power
    requires Rounded(a, budget, total, upA) && Rounded(c, budget, total, upC)
    ensures var fa, fc := a.amount - (if upA then 1 else 0), c.amount - (if upC then 1 else 0);
            fa > fc || (fa == fc && a.remainder >= c.remainder)
    ensures a.power > c.power && a.amount - (if upA then 1 else 0) == c.amount - (if upC then 1 else 0) ==> a.remainder > c.remainder
    ensures a.power == c.power ==> a.remainder == c.remainder
  {
    var fa, fc := a.amount - (if upA then 1 else 0), c.amount - (if upC then 1 else 0);
    Scale(c.power, a.power, budget);
    FloorsInOrder(fa, a.remainder, fc, c.remainder, total);
    if a.power > c.power {
      Scale(c.power + 1, a.power, budget);
      Distribute(c.power, 1, budget);
    } else {
      FloorsInOrder(fc, c.remainder, fa, a.remainder, total);
    }
  }

  /** Strictly greater voting power never gets less; equal power is settled by the smaller token id. */
  lemma {:induction false} MorePowerNeverLess(positions: seq<Position>, budget: int, a: Allocation, c: Allocation)
    requires TotalPower(positions) > 0 && budget > 0
    requires a in Allotted(positions, budget) && c in Allotted(positions, budget)
    requires a.power > c.power || (a.power == c.power && a.tokenId < c.tokenId)
    ensures a.amount >= c.amount
  {
    hide Leftover, Allotted, ServedShares, SortedShares, Rounded;
    var n := Leftover(positions, budget);
    var i := OutputShare(positions, budget, a);
    var j := OutputShare(positions, budget, c);
    PowerOrdersFloors(a, c, budget, TotalPower(positions), i < n, j < n);
    ServedDefinition(positions, budget);
    if a.amount < c.amount {
      ServedEarlier(positions, budget, i, j);
      assert false;
    }
  }

  /** What a position gets beyond its quota rounded down. */
  function Extra(a: Allocation, budget: int, total: int): int
    requires total > 0
  {
    a.amount - budget * a.power / total
  }

  lemma {:induction false} ExtraIs(positions: seq<Position>, budget: int, a: Allocation) returns (k: nat)
    requires TotalPower(positions) > 0 && a in Allotted(positions, budget)
    ensures k < |positions| && ServedShares(positions, budget)[k] == a
    ensures Extra(a, budget, TotalPower(positions)) == if k < Leftover(positions, budget) then 1 else 0
    ensures a.remainder == budget * a.power % TotalPower(positions)
    ensures SortedShares(positions, budget)[k].(amount := a.amount) == a
    ensures exists i :: 0 <= i < |positions| && positions[i] == Position(a.tokenId, a.owner, a.power)
  {
    hide Leftover, Allotted;
    k := OutputShare(positions, budget, a);
    ServedDefinition(positions, budget);
    SortedShare(positions, budget, k);
    var i :| 0 <= i < |positions| && SortedShares(positions, budget)[k] == FloorShare(positions[i], budget, TotalPower(positions));
    assert positions[i] == Position(a.tokenId, a.owner, a.power);
  }

  /** Each gets at most one unit beyond its floor. Of two positions the one with the larger remainder
      gets its unit first, at equal remainders the one with more power, then the smaller token id. */
  lemma {:induction false} UnitsInOrder(positions: seq<Position>, budget: int, a: Allocation, c: Allocation)
    requires TotalPower(positions) > 0 && a in Allotted(positions, budget) && c in Allotted(positions, budget)
    ensures var total := TotalPower(positions);
            var ra, rc := budget * a.power % total, budget * c.power % total;
            && 0 <= Extra(a, budget, total) <= 1
            && (ra > rc || (ra == rc && (a.power > c.power || (a.power == c.power && a.tokenId < c.tokenId))) ==>
                  Extra(a, budget, total) >= Extra(c, budget, total))
  {
    hide Leftover, Allotted, ServedShares, Extra;
    var i := ExtraIs(positions, budget, a);
    var j := ExtraIs(positions, budget, c);
    if ServedFirst()(a, c) {
      assert ServedFirst()(SortedShares(positions, budget)[i], SortedShares(positions, budget)[j]);
      ServedEarlier(positions, budget, i, j);
    }
  }

  /** The output lists every position once, with its owner and power, by ascending token id. */
  lemma {:induction false} EveryPositionAllotted(positions: seq<Position>, budget: int)
    requires Eligible(positions) && TotalPower(positions) > 0
    ensures var out := Allotted(positions, budget);
            && |out| == |positions|
            && (forall p :: p in positions <==> exists a :: a in out && p == Position(a.tokenId, a.owner, a.power))
            && (forall i, j :: 0 <= i < j < |out| ==> out[i].tokenId < out[j].tokenId)
  {
    hide Leftover;
    var out, served, sorted := Allotted(positions, budget), ServedShares(positions, budget), SortedShares(positions, budget);
    var shares := FloorShares(positions, budget, TotalPower(positions));
    Sorting.SameElements(served, out);
    Sorting.SameElements(sorted, shares);
    ServedDefinition(positions, budget);
    forall p | p in positions ensures exists a :: a in out && p == Position(a.tokenId, a.owner, a.power) {
      var i :| 0 <= i < |positions| && positions[i] == p;
      assert shares[i] in sorted;
      var k :| 0 <= k < |sorted| && sorted[k] == shares[i];
      assert served[k] in out;
    }
    forall a | a in out ensures Position(a.tokenId, a.owner, a.power) in positions {
      var k := ExtraIs(positions, budget, a);
    }
    TokensAscend(positions, budget);
  }

  lemma {:induction false} TokensAscend(positions: seq<Position>, budget: int)
    requires Eligible(positions) && TotalPower(positions) > 0
    ensures var out := Allotted(positions, budget);
            forall i, j :: 0 <= i < j < |out| ==> out[i].tokenId < out[j].tokenId
  {
    hide Leftover;
    var out, served, sorted := Allotted(positions, budget), ServedShares(positions, budget), SortedShares(positions, budget);
    var shares := FloorShares(positions, budget, TotalPower(positions));
    var token := (a: Allocation) => a.tokenId;
    assert Sorting.DistinctBy(shares, token);
    Sorting.DistinctByPermutes(shares, sorted, token);
    ServedDefinition(positions, budget);
    assert Sorting.DistinctBy(served, token) by {
      forall i, j | 0 <= i < j < |served| ensures token(served[i]) != token(served[j]) { assert token(sorted[i]) != token(sorted[j]); }
    }
    Sorting.DistinctByPermutes(served, out, token);
    ServedFirstIsWeakOrder();
    Sorting.SortOrdered(served, SmallerToken());
    forall i, j | 0 <= i < j < |out| ensures out[i].tokenId < out[j].tokenId {
      assert token(out[i]) != token(out[j]) && !SmallerToken()(out[j], out[i]);
    }
  }

  // ---------- optimality ----------

  function Abs(x: int): (r: int)
    ensures r >= 0 && (r == x || r == -x)
  {
    if x < 0 then -x else x
  }

  function Sum(xs: seq<int>): int {
    if |xs| == 0 then 0 else xs[0] + Sum(xs[1..])
  }

  function Amounts(allocations: seq<Allocation>): (r: seq<int>)
    ensures |r| == |allocations|
  {
    seq(|allocations|, k requires 0 <= k < |allocations| => allocations[k].amount)
  }

  /** How far the amounts `xs` are from the exact quotas of these positions, in units of 1 / total. */
  function Deviation(allocations: seq<Allocation>, xs: seq<int>, budget: int, total: int): int
    requires |xs| == |allocations|
  {
    if |xs| == 0 then 0
    else Abs(xs[0] * total - budget * allocations[0].power) + Deviation(allocations[1..], xs[1..], budget, total)
  }

  /** `price` is a subgradient of the deviation of `a` at its amount. */
  ghost predicate Priced(a: Allocation, budget: int, total: int, price: int) {
    || (Rounded(a, budget, total, true) && total - 2 * a.remainder <= price <= total)
    || (Rounded(a, budget, total, false) && -total <= price <= total - 2 * a.remainder)
  }

  lemma {:induction false} Product(d: int, t: int, m: int)
    requires d >= 1 && t >= m >= 0
    ensures d * t >= m
  {
    Scale(1, d, t + 1);
    Distribute(t, 1, d);
  }

  /** Changing one amount by any number of units costs at least its price per unit. */
  lemma {:induction false} PricedMove(a: Allocation, budget: int, total: int, price: int, x: int)
    requires Priced(a, budget, total, price)
    ensures Abs(x * total - budget * a.power) >=
            Abs(a.amount * total - budget * a.power) + price * (x - a.amount)
  {
    var d := x - a.amount;
    Distribute(a.amount, d, total);
    Distribute(a.amount, -1, total);
    if d >= 1 {
      Product(d, total - price, if Rounded(a, budget, total, true) && total - 2 * a.remainder <= price then 0 else 2 * a.remainder);
      Distribute(total, -price, d);
    } else if d <= -1 {
      Product(-d, total + price,
              if Rounded(a, budget, total, true) && total - 2 * a.remainder <= price then 2 * (total - a.remainder) else 0);
      Distribute(total, price, -d);
    }
  }

  lemma {:induction false} PricedMoves(allocations: seq<Allocation>, xs: seq<int>, budget: int, total: int, price: int)
    requires |xs| == |allocations|
    requires forall a :: a in allocations ==> Priced(a, budget, total, price)
    ensures Deviation(allocations, xs, budget, total) >=
            Deviation(allocations, Amounts(allocations), budget, total) + price * (Sum(xs) - TotalAmount(allocations))
  {
    if |xs| > 0 {
      assert allocations[0] in allocations;
      PricedMove(allocations[0], budget, total, price, xs[0]);
      assert forall a :: a in allocations[1..] ==> a in allocations;
      PricedMoves(allocations[1..], xs[1..], budget, total, price);
      assert Amounts(allocations)[1..] == Amounts(allocations[1..]);
      Distribute(xs[0] - allocations[0].amount, Sum(xs[1..]) - TotalAmount(allocations[1..]), price);
    }
  }

  /** The marginal price: set by the last position that was handed a unit. */
  lemma {:induction false} MarginalPrice(positions: seq<Position>, budget: int) returns (price: int)
    requires TotalPower(positions) > 0
    ensures forall k :: 0 <= k < |positions| ==> Priced(ServedShares(positions, budget)[k], budget, TotalPower(positions), price)
  {
    hide Leftover;
    var total, n, sorted := TotalPower(positions), Leftover(positions, budget), SortedShares(positions, budget);
    LeftoverNotAll(positions, budget);
    price := if n == 0 then -total else total - 2 * sorted[n - 1].remainder;
    if n > 0 { SortedShare(positions, budget, n - 1); }
    ServedFirstIsWeakOrder();
    Sorting.SortOrdered(FloorShares(positions, budget, total), ServedFirst());
    forall k | 0 <= k < |positions| ensures Priced(ServedShares(positions, budget)[k], budget, total, price) {
      ServedShareRounded(positions, budget, k);
      if 0 < n && k < n - 1 { assert !ServedFirst()(sorted[n - 1], sorted[k]); }
      if 0 < n <= k { assert !ServedFirst()(sorted[k], sorted[n - 1]); }
    }
  }

  lemma {:induction false} LeftoverNotAll(positions: seq<Position>, budget: int)
    requires TotalPower(positions) > 0
    ensures 0 <= Leftover(positions, budget) && (Leftover(positions, budget) > 0 ==> Leftover(positions, budget) < |positions|)
  {
    BudgetExact(positions, budget);
  }

  /** Optimality: no other way to split the budget into integers is closer to the exact quotas. */
  lemma {:induction false} AllotmentOptimal(positions: seq<Position>, budget: int, xs: seq<int>)
    requires TotalPower(positions) > 0
    requires |xs| == |positions| && Sum(xs) == budget
    ensures var out, total := Allotted(positions, budget), TotalPower(positions);
            Deviation(out, Amounts(out), budget, total) <= Deviation(out, xs, budget, total)
  {
    hide Leftover, ServedShares, Allotted, Deviation, Sum, Priced, TotalPower, TotalAmount, Rounded;
    var out := Allotted(positions, budget);
    var price := MarginalPrice(positions, budget);
    forall a | a in out ensures Priced(a, budget, TotalPower(positions), price) {
      var k := OutputShare(positions, budget, a);
    }
    PricedMoves(out, xs, budget, TotalPower(positions), price);
    BudgetExact(positions, budget);
    assert price * (Sum(xs) - TotalAmount(out)) == 0;
  }

  // ---------- independence of the input order ----------

  lemma {:induction false} PowerWithout(ys: seq<Position>, j: nat)
    requires j < |ys|
    ensures TotalPower(ys) == ys[j].power + TotalPower(ys[..j] + ys[j + 1..])
  {
    if j == 0 {
      assert ys[..0] + ys[1..] == ys[1..];
    } else {
      PowerWithout(ys[1..], j - 1);
      assert (ys[..j] + ys[j + 1..])[1..] == ys[1..][..j - 1] + ys[1..][j..];
    }
  }

  lemma {:induction false} SharesWithout(ys: seq<Position>, budget: int, total: int, j: nat)
    requires total > 0 && j < |ys|
    ensures multiset(FloorShares(ys, budget, total)) ==
            multiset{FloorShare(ys[j], budget, total)} + multiset(FloorShares(ys[..j] + ys[j + 1..], budget, total))
  {
    var shares, rest := FloorShares(ys, budget, total), FloorShares(ys[..j] + ys[j + 1..], budget, total);
    assert rest == shares[..j] + shares[j + 1..];
    assert shares == shares[..j] + [shares[j]] + shares[j + 1..];
  }

  lemma {:induction false} SharesHead(xs: seq<Position>, budget: int, total: int)
    requires total > 0 && |xs| > 0
    ensures multiset(FloorShares(xs, budget, total)) ==
            multiset{FloorShare(xs[0], budget, total)} + multiset(FloorShares(xs[1..], budget, total))
  {
    assert FloorShares(xs, budget, total) == [FloorShare(xs[0], budget, total)] + FloorShares(xs[1..], budget, total);
  }

  lemma {:induction false} PowerPermutes(xs: seq<Position>, ys: seq<Position>)
    requires multiset(xs) == multiset(ys)
    ensures TotalPower(xs) == TotalPower(ys)
  {
    Sorting.SameElements(xs, ys);
    if |xs| > 0 {
      assert xs[0] in ys;
      var j :| 0 <= j < |ys| && ys[j] == xs[0];
      Sorting.TailElements(xs);
      WithoutElements(ys, j);
      PowerPermutes(xs[1..], ys[..j] + ys[j + 1..]);
      PowerWithout(ys, j);
    }
  }

  lemma {:induction false} SharesPermute(xs: seq<Position>, ys: seq<Position>, budget: int, total: int)
    requires total > 0 && multiset(xs) == multiset(ys)
    ensures multiset(FloorShares(xs, budget, total)) == multiset(FloorShares(ys, budget, total))
  {
    hide FloorShare, FloorShares;
    Sorting.SameElements(xs, ys);
    if |xs| == 0 {
      assert xs == ys;
    } else {
      assert xs[0] in ys;
      var j :| 0 <= j < |ys| && ys[j] == xs[0];
      Sorting.TailElements(xs);
      WithoutElements(ys, j);
      SharesPermute(xs[1..], ys[..j] + ys[j + 1..], budget, total);
      SharesHead(xs, budget, total);
      SharesWithout(ys, budget, total, j);
    }
  }

  /** Distinct token ids make the hand-out order total. */
  lemma {:induction false} SharesSeparated(positions: seq<Position>, budget: int, total: int)
    requires total > 0 && Eligible(positions)
    ensures Sorting.Separates(FloorShares(positions, budget, total), ServedFirst())
  {
    var shares := FloorShares(positions, budget, total);
    forall a, c | a in shares && c in shares && a != c ensures ServedFirst()(a, c) || ServedFirst()(c, a) {
      var i :| 0 <= i < |shares| && shares[i] == a;
      var j :| 0 <= j < |shares| && shares[j] == c;
      assert positions[i].tokenId != positions[j].tokenId;
    }
  }

  /** Any order of the same positions gives the same allocation. */
  lemma {:induction false} InputOrderIrrelevant(xs: seq<Position>, ys: seq<Position>, budget: int)
    requires Eligible(xs) && multiset(xs) == multiset(ys) && TotalPower(xs) > 0
    ensures TotalPower(ys) > 0 && Allotted(xs, budget) == Allotted(ys, budget)
  {
    PowerPermutes(xs, ys);
    var total := TotalPower(xs);
    SharesPermute(xs, ys, budget, total);
    ServedFirstIsWeakOrder();
    SharesSeparated(xs, budget, total);
    Sorting.SortCanonical(FloorShares(xs, budget, total), FloorShares(ys, budget, total), ServedFirst());
    TotalsPermute(FloorShares(xs, budget, total), FloorShares(ys, budget, total));
  }
}
