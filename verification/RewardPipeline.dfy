/** The three reward scripts in sequence: allocate, build the manifest, validate it. */
module RewardPipeline {
  import opened Wrappers
  import opened Merkle
  import opened RewardManifest
  import Apportionment
  import ApportionmentProofs
  import LeastShare
  import Sorting

  /** The allocation file's positions, which carry no swap instructions. */
  function FromAllocations(allocations: seq<Apportionment.Allocation>): (r: seq<InputPosition>)
    ensures |r| == |allocations|
  {
    seq(|allocations|, k requires 0 <= k < |allocations| => InputPosition(allocations[k].tokenId, allocations[k].amount, []))
  }

  lemma {:induction false} AllottedTokensDistinct(positions: seq<Apportionment.Position>, budget: int)
    requires Apportionment.Eligible(positions) && Apportionment.TotalPower(positions) > 0
    ensures DistinctTokens(FromAllocations(Apportionment.Allotted(positions, budget)))
  {
    hide Apportionment.Leftover;
    var served, out := Apportionment.ServedShares(positions, budget), Apportionment.Allotted(positions, budget);
    var shares := Apportionment.FloorShares(positions, budget, Apportionment.TotalPower(positions));
    TokensPermute(shares, Apportionment.SortedShares(positions, budget));
    assert forall k :: 0 <= k < |served| ==> served[k].tokenId == Apportionment.SortedShares(positions, budget)[k].tokenId by {
      ApportionmentProofs.ServedDefinition(positions, budget);
    }
    TokensPermute(served, out);
  }

  ghost predicate TokensDistinct(allocations: seq<Apportionment.Allocation>) {
    forall i, j :: 0 <= i < j < |allocations| ==> allocations[i].tokenId != allocations[j].tokenId
  }

  lemma {:induction false} TokensPermute(xs: seq<Apportionment.Allocation>, ys: seq<Apportionment.Allocation>)
    requires multiset(xs) == multiset(ys) && TokensDistinct(xs)
    ensures TokensDistinct(ys)
  {
    Sorting.DistinctByPermutes(xs, ys, (x: Apportionment.Allocation) => x.tokenId);
  }

  /** The manifest of an allocation validates exactly when no position was allocated zero: the
      generator lets a zero amount through, the validator does not. */
  lemma {:induction false} PositiveAmountsValidate<H(!new)>(hashing: Hashing<H>, leafHash: (int, int) -> H,
                                                            positions: seq<Apportionment.Position>, budget: int)
    requires Lawful(hashing) && Apportionment.Eligible(positions) && |positions| > 0 && budget > 0
    requires Apportionment.TotalPower(positions) > 0
    requires Encodable(FromAllocations(Apportionment.Allotted(positions, budget)))
    ensures var out := Apportionment.Allotted(positions, budget);
            CheckFrom(hashing, leafHash, ManifestOf(hashing, leafHash, FromAllocations(out)), 0, {}).None? <==>
            forall k :: 0 <= k < |out| ==> out[k].amount > 0
  {
    hide Apportionment.Allotted;
    var out := Apportionment.Allotted(positions, budget);
    var inputs := FromAllocations(out);
    AllottedTokensDistinct(positions, budget);
    GeneratedAcceptedIff(hashing, leafHash, inputs);
    assert forall k :: 0 <= k < |inputs| ==> inputs[k].amount == out[k].amount;
  }

  /** Allocate, generate, validate: accepted exactly when the weakest position's floor share is positive
      or fewer positions are served before it than units are left over. */
  lemma {:induction false} AllocationValidatesIff<H(!new)>(hashing: Hashing<H>, leafHash: (int, int) -> H,
                                                           positions: seq<Apportionment.Position>, budget: int)
    requires Lawful(hashing) && Apportionment.Eligible(positions) && |positions| > 0 && budget > 0
    requires Apportionment.TotalPower(positions) > 0
    requires Encodable(FromAllocations(Apportionment.Allotted(positions, budget)))
    ensures CheckFrom(hashing, leafHash, ManifestOf(hashing, leafHash, FromAllocations(Apportionment.Allotted(positions, budget))), 0, {}).None?
            <==> LeastShare.ReachesAll(positions, budget)
  {
    hide Apportionment.Allotted, CheckFrom, ManifestOf, LeastShare.ReachesAll, Apportionment.TotalPower;
    var out := Apportionment.Allotted(positions, budget);
    PositiveAmountsValidate(hashing, leafHash, positions, budget);
    LeastShare.AllPositiveIff(positions, budget);
    assert forall k :: 0 <= k < |out| ==> out[k] in out;
  }

  /** A budget smaller than the number of positions always leaves somebody with zero, so its
      manifest is always rejected. */
  lemma {:induction false} SmallBudgetRejected<H(!new)>(hashing: Hashing<H>, leafHash: (int, int) -> H,
                                                        positions: seq<Apportionment.Position>, budget: int)
    requires Lawful(hashing) && Apportionment.Eligible(positions) && 0 < budget < |positions|
    requires Apportionment.TotalPower(positions) > 0
    requires Encodable(FromAllocations(Apportionment.Allotted(positions, budget)))
    ensures var out := Apportionment.Allotted(positions, budget);
            CheckFrom(hashing, leafHash, ManifestOf(hashing, leafHash, FromAllocations(out)), 0, {}).Some?
  {
    hide Apportionment.Allotted;
    var out := Apportionment.Allotted(positions, budget);
    PositiveAmountsValidate(hashing, leafHash, positions, budget);
    Apportionment.BudgetExact(positions, budget);
    if forall k :: 0 <= k < |out| ==> out[k].amount > 0 {
      AllPositiveTotal(out);
    }
  }

  lemma {:induction false} AllPositiveTotal(allocations: seq<Apportionment.Allocation>)
    requires forall k :: 0 <= k < |allocations| ==> allocations[k].amount > 0
    ensures Apportionment.TotalAmount(allocations) >= |allocations|
  {
    if |allocations| > 0 {
      AllPositiveTotal(allocations[1..]);
    }
  }
}
