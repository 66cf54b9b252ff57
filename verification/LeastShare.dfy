/** Who gets least, and when even that position gets something: read off budget and powers alone. */
module LeastShare {
  import opened Apportionment
  import opened ApportionmentProofs
  import Sorting

  /** The position of least power, with the largest token id among equals. */
  function Weakest(positions: seq<Position>): (w: Position)
    requires |positions| > 0
    ensures w in positions
    ensures forall p :: p in positions ==> p.power > w.power || (p.power == w.power && p.tokenId <= w.tokenId)
  {
    if |positions| == 1 then
      positions[0]
    else
      assert positions == [positions[0]] + positions[1..];
      var rest, p := Weakest(positions[1..]), positions[0];
      if p.power < rest.power || (p.power == rest.power && p.tokenId > rest.tokenId) then p else rest
  }

  /** How many of the shares are served before `a`. */
  function ServedBefore(shares: seq<Allocation>, a: Allocation): nat {
    if |shares| == 0 then 0 else (if ServedFirst()(shares[0], a) then 1 else 0) + ServedBefore(shares[1..], a)
  }

  /** The weakest position's floor is positive, or a leftover unit reaches it. */
  predicate ReachesAll(positions: seq<Position>, budget: int)
    requires |positions| > 0 && TotalPower(positions) > 0
  {
    var w, total := Weakest(positions), TotalPower(positions);
    || budget * w.power >= total
    || ServedBefore(FloorShares(positions, budget, total), FloorShare(w, budget, total)) < Leftover(positions, budget)
  }

  lemma {:induction false} ServedBeforeWithout(shares: seq<Allocation>, a: Allocation, j: nat)
    requires j < |shares|
    ensures ServedBefore(shares, a) == (if ServedFirst()(shares[j], a) then 1 else 0) + ServedBefore(shares[..j] + shares[j + 1..], a)
  {
    if j == 0 {
      assert shares[..0] + shares[1..] == shares[1..];
    } else {
      ServedBeforeWithout(shares[1..], a, j - 1);
      assert (shares[..j] + shares[j + 1..])[1..] == shares[1..][..j - 1] + shares[1..][j..];
    }
  }

  lemma {:induction false} ServedBeforePermutes(xs: seq<Allocation>, ys: seq<Allocation>, a: Allocation)
    requires multiset(xs) == multiset(ys)
    ensures ServedBefore(xs, a) == ServedBefore(ys, a)
    decreases |xs|
  {
    Sorting.SameElements(xs, ys);
    if |xs| > 0 {
      assert xs[0] in ys;
      var j :| 0 <= j < |ys| && ys[j] == xs[0];
      Sorting.TailElements(xs);
      WithoutElements(ys, j);
      ServedBeforePermutes(xs[1..], ys[..j] + ys[j + 1..], a);
      ServedBeforeWithout(ys, a, j);
    }
  }

  /** In hand-out order a share's index is the number served before it. */
  lemma {:induction false} ServedBeforeIsIndex(sorted: seq<Allocation>, a: Allocation, k: nat)
    requires k <= |sorted|
    requires forall i :: 0 <= i < |sorted| ==> (ServedFirst()(sorted[i], a) <==> i < k)
    ensures ServedBefore(sorted, a) == k
    decreases |sorted|
  {
    if |sorted| > 0 {
      assert k == 0 ==> !ServedFirst()(sorted[0], a);
      assert forall i :: 0 <= i < |sorted| - 1 ==> sorted[1..][i] == sorted[i + 1];
      ServedBeforeIsIndex(sorted[1..], a, if k > 0 then k - 1 else 0);
    }
  }

  function Token(): Allocation -> int {
    (a: Allocation) => a.tokenId
  }

  lemma {:induction false} TokensApart(positions: seq<Position>, budget: int)
    requires Eligible(positions) && TotalPower(positions) > 0
    ensures Sorting.DistinctBy(SortedShares(positions, budget), Token())
  {
    hide Leftover;
    var shares := FloorShares(positions, budget, TotalPower(positions));
    assert Sorting.DistinctBy(shares, Token());
    Sorting.DistinctByPermutes(shares, SortedShares(positions, budget), Token());
  }

  /** The index at which a position is served. */
  lemma {:induction false} Rank(positions: seq<Position>, budget: int, w: Position) returns (k: nat)
    requires Eligible(positions) && TotalPower(positions) > 0 && w in positions
    ensures k < |positions| && SortedShares(positions, budget)[k] == FloorShare(w, budget, TotalPower(positions))
    ensures k == ServedBefore(FloorShares(positions, budget, TotalPower(positions)), FloorShare(w, budget, TotalPower(positions)))
  {
    hide FloorShare, ServedBefore;
    var total := TotalPower(positions);
    var shares, sorted, a := FloorShares(positions, budget, total), SortedShares(positions, budget), FloorShare(w, budget, total);
    var i :| 0 <= i < |positions| && positions[i] == w;
    assert shares[i] == a && a in shares;
    Sorting.SameElements(sorted, shares);
    assert a in sorted;
    k :| 0 <= k < |sorted| && sorted[k] == a;
    ServedFirstIsWeakOrder();
    Sorting.SortOrdered(shares, ServedFirst());
    SharesSeparated(positions, budget, total);
    TokensApart(positions, budget);
    IndexCounts(shares, sorted, k);
  }

  lemma {:induction false} IndexCounts(shares: seq<Allocation>, sorted: seq<Allocation>, k: nat)
    requires multiset(sorted) == multiset(shares) && k < |sorted|
    requires Sorting.WeakOrder(ServedFirst()) && Sorting.Ordered(sorted, ServedFirst()) && Sorting.Separates(shares, ServedFirst())
    requires Sorting.DistinctBy(sorted, Token())
    ensures ServedBefore(shares, sorted[k]) == k
  {
    hide ServedBefore;
    Sorting.SameElements(sorted, shares);
    forall j | 0 <= j < |sorted| ensures ServedFirst()(sorted[j], sorted[k]) <==> j < k {
      assert sorted[j] in shares && sorted[k] in shares;
      if j < k {
        assert Token()(sorted[j]) != Token()(sorted[k]);
      } else if k < j {
        assert !ServedFirst()(sorted[j], sorted[k]);
      }
    }
    ServedBeforeIsIndex(sorted, sorted[k], k);
    ServedBeforePermutes(sorted, shares, sorted[k]);
  }

  lemma {:induction false} FloorPositive(w: Position, budget: int, total: int)
    requires total > 0 && w.power > 0 && budget > 0
    ensures FloorShare(w, budget, total).amount >= 0
    ensures FloorShare(w, budget, total).amount > 0 <==> budget * w.power >= total
  {
    ProductPositive(budget, w.power);
  }

  lemma {:induction false} WeakestAmount(positions: seq<Position>, budget: int) returns (k: nat)
    requires Eligible(positions) && |positions| > 0 && TotalPower(positions) > 0 && budget > 0
    ensures k < |positions|
    ensures ServedShares(positions, budget)[k].amount > 0 <==> ReachesAll(positions, budget)
    ensures ServedShares(positions, budget)[k].tokenId == Weakest(positions).tokenId
    ensures ServedShares(positions, budget)[k].power == Weakest(positions).power
  {
    hide Leftover, SortedShares, ServedShares;
    var w := Weakest(positions);
    k := Rank(positions, budget, w);
    ServedDefinition(positions, budget);
    FloorPositive(w, budget, TotalPower(positions));
  }

  /** Nobody gets less than the weakest position. */
  lemma {:induction false} WeakestGetsLeast(positions: seq<Position>, budget: int, k: nat, j: nat)
    requires Eligible(positions) && |positions| > 0 && TotalPower(positions) > 0 && budget > 0
    requires k < |positions| && j < |positions| && ServedShares(positions, budget)[k].tokenId == Weakest(positions).tokenId
    requires ServedShares(positions, budget)[k].power == Weakest(positions).power
    ensures ServedShares(positions, budget)[j].amount >= ServedShares(positions, budget)[k].amount
  {
    hide Leftover, SortedShares, ServedShares, Weakest;
    var served, out, w := ServedShares(positions, budget), Allotted(positions, budget), Weakest(positions);
    if j != k {
      Sorting.SameElements(served, out);
      assert served[j] in out && served[k] in out;
      TokensApart(positions, budget);
      ServedDefinition(positions, budget);
      SortedShare(positions, budget, j);
      assert served[j].tokenId != served[k].tokenId by {
        var sorted := SortedShares(positions, budget);
        assert Token()(sorted[j]) != Token()(sorted[k]);
      }
      var i :| 0 <= i < |positions| && SortedShares(positions, budget)[j] == FloorShare(positions[i], budget, TotalPower(positions));
      assert positions[i] in positions;
      MorePowerNeverLess(positions, budget, served[j], served[k]);
    }
  }

  /** Everybody gets something exactly if the weakest position does. */
  lemma {:induction false} AllPositiveIff(positions: seq<Position>, budget: int)
    requires Eligible(positions) && |positions| > 0 && TotalPower(positions) > 0 && budget > 0
    ensures (forall a :: a in Allotted(positions, budget) ==> a.amount > 0) <==> ReachesAll(positions, budget)
  {
    hide Leftover, SortedShares, ServedShares, Weakest, ReachesAll;
    var served, out := ServedShares(positions, budget), Allotted(positions, budget);
    Sorting.SameElements(served, out);
    var k := WeakestAmount(positions, budget);
    assert served[k] in out;
    if ReachesAll(positions, budget) {
      forall a | a in out ensures a.amount > 0 {
        var j :| 0 <= j < |served| && served[j] == a;
        WeakestGetsLeast(positions, budget, k, j);
      }
    }
  }
}
