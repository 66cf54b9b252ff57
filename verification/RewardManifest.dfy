/** From allocation to manifest to validation: the two scripts around the Merkle tree. */
module RewardManifest {
  import opened Wrappers
  import opened Merkle
  import Sorting

  datatype Instruction = Instruction(rewardAmountIn: int, minDebtAssetOut: int, swapData: string)

  datatype InputPosition = InputPosition(tokenId: int, amount: int, instructions: seq<Instruction>)

  datatype ManifestPosition<H> = ManifestPosition(tokenId: int, amount: int, proof: seq<H>, instructions: seq<Instruction>)

  datatype Manifest<H> = Manifest(root: H, positions: seq<ManifestPosition<H>>)

  datatype ValidationError =
    | DuplicateToken(tokenId: int)
    | AmountNotPositive(tokenId: int)
    | OutOfRange(tokenId: int)
    | ProofMismatch(tokenId: int)
    | BadInstruction(tokenId: int)
    | InstructionsExceedAmount(tokenId: int)

  const UINT256_LIMIT := 0x1_0000000000000000_0000000000000000_0000000000000000_0000000000000000

  /** Values the ABI encoder of the leaf hash accepts. */
  predicate InUint256(x: int) {
    0 <= x < UINT256_LIMIT
  }

  // ---------- generation ----------

  function SmallerKey<H>(): (Leaf<H>, Leaf<H>) -> bool {
    (a: Leaf<H>, b: Leaf<H>) => a.key < b.key
  }

  function LeafOf<H>(leafHash: (int, int) -> H, p: InputPosition): Leaf<H> {
    Leaf(p.tokenId, leafHash(p.tokenId, p.amount))
  }

  function LeavesOf<H>(leafHash: (int, int) -> H, positions: seq<InputPosition>): (r: seq<Leaf<H>>)
    ensures |r| == |positions|
  {
    seq(|positions|, k requires 0 <= k < |positions| => LeafOf(leafHash, positions[k]))
  }

  function SortedLeaves<H>(leafHash: (int, int) -> H, positions: seq<InputPosition>): (r: seq<Leaf<H>>)
    ensures |r| == |positions|
  {
    Sorting.Sort(LeavesOf(leafHash, positions), SmallerKey())
  }

  function Normalized(i: Instruction): Instruction {
    if i.swapData == "" then i.(swapData := "0x") else i
  }

  function NormalizedAll(instructions: seq<Instruction>): (r: seq<Instruction>)
    ensures |r| == |instructions|
  {
    seq(|instructions|, k requires 0 <= k < |instructions| => Normalized(instructions[k]))
  }

  predicate DistinctTokens(positions: seq<InputPosition>) {
    forall i, j | 0 <= i < j < |positions| :: positions[i].tokenId != positions[j].tokenId
  }

  predicate Encodable(positions: seq<InputPosition>) {
    forall k | 0 <= k < |positions| :: InUint256(positions[k].tokenId) && InUint256(positions[k].amount)
  }

  function ManifestEntry<H>(tree: Tree<H>, p: InputPosition): ManifestPosition<H> {
    ManifestPosition(p.tokenId, p.amount, if p.tokenId in tree.proofs then tree.proofs[p.tokenId] else [],
                     NormalizedAll(p.instructions))
  }

  function TreeOf<H>(hashing: Hashing<H>, leafHash: (int, int) -> H, positions: seq<InputPosition>): Tree<H>
    requires |positions| > 0
  {
    var leaves := SortedLeaves(leafHash, positions);
    Tree(Root(hashing, Hashes(leaves)), Proofs(hashing, leaves, |leaves|))
  }

  function ManifestOf<H>(hashing: Hashing<H>, leafHash: (int, int) -> H, positions: seq<InputPosition>): (m: Manifest<H>)
    requires |positions| > 0
    ensures |m.positions| == |positions|
  {
    var tree := TreeOf(hashing, leafHash, positions);
    Manifest(tree.root, seq(|positions|, k requires 0 <= k < |positions| => ManifestEntry(tree, positions[k])))
  }

  /** The entries of a manifest in the order of the positions, each with its token id, amount and
      instructions; empty swap data is written as `0x`. */
  ghost predicate Carries<H>(entries: seq<ManifestPosition<H>>, positions: seq<InputPosition>) {
    && |entries| == |positions|
    && forall k :: 0 <= k < |positions| ==>
         && entries[k].tokenId == positions[k].tokenId && entries[k].amount == positions[k].amount
         && |entries[k].instructions| == |positions[k].instructions|
         && forall i :: 0 <= i < |positions[k].instructions| ==>
              var given, written := positions[k].instructions[i], entries[k].instructions[i];
              && written.rewardAmountIn == given.rewardAmountIn && written.minDebtAssetOut == given.minDebtAssetOut
              && (if given.swapData == "" then written.swapData == "0x" else written.swapData == given.swapData)
  }

  /** The generator: refuses repeated token ids, values the encoder rejects, and an empty list. */
  method Generate<H>(hashing: Hashing<H>, leafHash: (int, int) -> H, positions: seq<InputPosition>)
      returns (r: Result<Manifest<H>, string>)
    ensures r.Ok? <==> |positions| > 0 && DistinctTokens(positions) && Encodable(positions)
    ensures r.Ok? ==> r.value == ManifestOf(hashing, leafHash, positions)
    ensures r.Ok? ==> Carries(r.value.positions, positions)
  {
    var duplicateIds: set<int> := {};
    for i := 0 to |positions|
      invariant forall id :: id in duplicateIds <==> exists k :: 0 <= k < i && positions[k].tokenId == id
      invariant forall a, c | 0 <= a < c < i :: positions[a].tokenId != positions[c].tokenId
    {
      if positions[i].tokenId in duplicateIds {
        return Err("Duplicate tokenId");
      }
      duplicateIds := duplicateIds + {positions[i].tokenId};
    }
    if !Encodable(positions) {
      return Err("value out-of-bounds");
    }
    var leaves := SortedLeaves(leafHash, positions);
    var tree := BuildMerkleTree(hashing, leaves);
    if tree.Err? {
      return Err(tree.error);
    }
    var built := tree.value;
    var entries := seq(|positions|, k requires 0 <= k < |positions| => ManifestEntry(built, positions[k]));
    return Ok(Manifest(built.root, entries));
  }

  // ---------- validation ----------

  predicate SwapDataOk(swapData: string) {
    "0x" <= swapData && |swapData| % 2 == 0
  }

  function TotalInput(instructions: seq<Instruction>): int {
    if |instructions| == 0 then 0
    else TotalInput(instructions[..|instructions| - 1]) + instructions[|instructions| - 1].rewardAmountIn
  }

  predicate InstructionOk(i: Instruction) {
    i.rewardAmountIn > 0 && i.minDebtAssetOut > 0 && SwapDataOk(i.swapData)
  }

  predicate InstructionsOk(instructions: seq<Instruction>, amount: int) {
    && (forall k | 0 <= k < |instructions| :: InstructionOk(instructions[k]))
    && TotalInput(instructions) <= amount
  }

  /** One position's checks, in the validator's order. */
  function CheckPosition<H(==)>(hashing: Hashing<H>, leafHash: (int, int) -> H, root: H, p: ManifestPosition<H>, seen: set<int>):
      Option<ValidationError>
  {
    if p.tokenId in seen then Some(DuplicateToken(p.tokenId))
    else if p.amount <= 0 then Some(AmountNotPositive(p.tokenId))
    else if !InUint256(p.tokenId) || !InUint256(p.amount) then Some(OutOfRange(p.tokenId))
    else if Fold(hashing, p.proof, leafHash(p.tokenId, p.amount)) != root then Some(ProofMismatch(p.tokenId))
    else if exists k | 0 <= k < |p.instructions| :: !InstructionOk(p.instructions[k]) then Some(BadInstruction(p.tokenId))
    else if TotalInput(p.instructions) > p.amount then Some(InstructionsExceedAmount(p.tokenId))
    else None
  }

  function CheckFrom<H(==)>(hashing: Hashing<H>, leafHash: (int, int) -> H, m: Manifest<H>, k: nat, seen: set<int>):
      Option<ValidationError>
    requires k <= |m.positions|
    decreases |m.positions| - k
  {
    if k == |m.positions| then
      None
    else
      var failure := CheckPosition(hashing, leafHash, m.root, m.positions[k], seen);
      if failure.Some? then failure
      else CheckFrom(hashing, leafHash, m, k + 1, seen + {m.positions[k].tokenId})
  }

  /** One instruction: positive amounts, and swap data that is `0x` and whole bytes. */
  ghost predicate SwapStands(i: Instruction) {
    && i.rewardAmountIn >= 1 && i.minDebtAssetOut >= 1
    && |i.swapData| >= 2 && i.swapData[0] == '0' && i.swapData[1] == 'x' && |i.swapData| % 2 == 0
  }

  /** One entry taken by itself. */
  ghost predicate Stands<H>(hashing: Hashing<H>, leafHash: (int, int) -> H, root: H, p: ManifestPosition<H>) {
    && 1 <= p.amount < UINT256_LIMIT && 0 <= p.tokenId < UINT256_LIMIT
    && Fold(hashing, p.proof, leafHash(p.tokenId, p.amount)) == root
    && (forall i :: 0 <= i < |p.instructions| ==> SwapStands(p.instructions[i]))
    && TotalInput(p.instructions) <= p.amount
  }

  /** Entry `k` is the first that does not stand or repeats a token id, and `e` the first thing wrong
      with it in the order of the checks. */
  ghost predicate Refused<H>(hashing: Hashing<H>, leafHash: (int, int) -> H, m: Manifest<H>, k: int, e: ValidationError)
    requires 0 <= k < |m.positions|
  {
    var p := m.positions[k];
    && (forall i :: 0 <= i < k ==> Stands(hashing, leafHash, m.root, m.positions[i]))
    && (forall i, j :: 0 <= i < j < k ==> m.positions[i].tokenId != m.positions[j].tokenId)
    && e.tokenId == p.tokenId
    && var repeated := exists i :: 0 <= i < k && m.positions[i].tokenId == p.tokenId;
       var inRange := p.amount < UINT256_LIMIT && 0 <= p.tokenId < UINT256_LIMIT;
       var proved := Fold(hashing, p.proof, leafHash(p.tokenId, p.amount)) == m.root;
       var sound := forall i :: 0 <= i < |p.instructions| ==> SwapStands(p.instructions[i]);
       match e
       case DuplicateToken(_) => repeated
       case AmountNotPositive(_) => !repeated && p.amount <= 0
       case OutOfRange(_) => !repeated && p.amount >= 1 && !inRange
       case ProofMismatch(_) => !repeated && p.amount >= 1 && inRange && !proved
       case BadInstruction(_) => !repeated && p.amount >= 1 && inRange && proved && !sound
       case InstructionsExceedAmount(_) => !repeated && p.amount >= 1 && inRange && proved && sound && TotalInput(p.instructions) > p.amount
  }

  lemma {:induction false} FirstFailure<H>(hashing: Hashing<H>, leafHash: (int, int) -> H, m: Manifest<H>, k: nat, seen: set<int>)
    requires k <= |m.positions|
    requires forall id :: id in seen <==> exists i :: 0 <= i < k && m.positions[i].tokenId == id
    requires forall i :: 0 <= i < k ==> Stands(hashing, leafHash, m.root, m.positions[i])
    requires forall i, j :: 0 <= i < j < k ==> m.positions[i].tokenId != m.positions[j].tokenId
    ensures var failure := CheckFrom(hashing, leafHash, m, k, seen);
            failure.Some? ==> exists n :: 0 <= n < |m.positions| && Refused(hashing, leafHash, m, n, failure.value)
    ensures forall i :: SwapStands(i) <==> InstructionOk(i)
    decreases |m.positions| - k
  {
    if k < |m.positions| {
      hide SwapStands, InstructionOk;
      var p := m.positions[k];
      var failure := CheckPosition(hashing, leafHash, m.root, p, seen);
      if failure.Some? {
        assert Refused(hashing, leafHash, m, k, failure.value);
      } else {
        FirstFailure(hashing, leafHash, m, k + 1, seen + {p.tokenId});
      }
    }
  }

  lemma {:induction false} Verdict<H>(hashing: Hashing<H>, leafHash: (int, int) -> H, m: Manifest<H>)
    ensures var failure := CheckFrom(hashing, leafHash, m, 0, {});
            && (failure.None? <==>
                  && (forall i :: 0 <= i < |m.positions| ==> Stands(hashing, leafHash, m.root, m.positions[i]))
                  && (forall i, j :: 0 <= i < j < |m.positions| ==> m.positions[i].tokenId != m.positions[j].tokenId))
            && (failure.Some? ==> exists k :: 0 <= k < |m.positions| && Refused(hashing, leafHash, m, k, failure.value))
  {
    FirstFailure(hashing, leafHash, m, 0, {});
    CheckFromIff(hashing, leafHash, m, 0, {});
    assert forall i :: 0 <= i < |m.positions| ==>
             (Stands(hashing, leafHash, m.root, m.positions[i]) <==> EntryOk(hashing, leafHash, m.root, m.positions[i]));
  }

  method Validate<H(==)>(hashing: Hashing<H>, leafHash: (int, int) -> H, m: Manifest<H>) returns (failure: Option<ValidationError>)
    ensures failure == CheckFrom(hashing, leafHash, m, 0, {})
    ensures failure.None? <==>
      && (forall i :: 0 <= i < |m.positions| ==> Stands(hashing, leafHash, m.root, m.positions[i]))
      && (forall i, j :: 0 <= i < j < |m.positions| ==> m.positions[i].tokenId != m.positions[j].tokenId)
    ensures failure.Some? ==> exists k :: 0 <= k < |m.positions| && Refused(hashing, leafHash, m, k, failure.value)
  {
    hide Stands, Refused;
    Verdict(hashing, leafHash, m);
    var seen: set<int> := {};
    for i := 0 to |m.positions|
      invariant CheckFrom(hashing, leafHash, m, i, seen) == CheckFrom(hashing, leafHash, m, 0, {})
    {
      var p := m.positions[i];
      if p.tokenId in seen {
        return Some(DuplicateToken(p.tokenId));
      }
      if p.amount <= 0 {
        return Some(AmountNotPositive(p.tokenId));
      }
      if !InUint256(p.tokenId) || !InUint256(p.amount) {
        return Some(OutOfRange(p.tokenId));
      }
      var ok := VerifyProof(hashing, p.proof, m.root, leafHash(p.tokenId, p.amount));
      if !ok {
        return Some(ProofMismatch(p.tokenId));
      }
      var totalInput := 0;
      for j := 0 to |p.instructions|
        invariant forall k | 0 <= k < j :: InstructionOk(p.instructions[k])
        invariant totalInput == TotalInput(p.instructions[..j])
      {
        if !InstructionOk(p.instructions[j]) {
          return Some(BadInstruction(p.tokenId));
        }
        assert p.instructions[..j + 1][..j] == p.instructions[..j];
        totalInput := totalInput + p.instructions[j].rewardAmountIn;
      }
      assert p.instructions[..|p.instructions|] == p.instructions;
      if totalInput > p.amount {
        return Some(InstructionsExceedAmount(p.tokenId));
      }
      seen := seen + {p.tokenId};
    }
    return None;
  }

  // ---------- what the validator accepts ----------

  ghost predicate EntryOk<H>(hashing: Hashing<H>, leafHash: (int, int) -> H, root: H, p: ManifestPosition<H>) {
    && 0 < p.amount && InUint256(p.tokenId) && InUint256(p.amount)
    && Fold(hashing, p.proof, leafHash(p.tokenId, p.amount)) == root
    && InstructionsOk(p.instructions, p.amount)
  }

  lemma {:induction false} CheckFromIff<H>(hashing: Hashing<H>, leafHash: (int, int) -> H, m: Manifest<H>, k: nat, seen: set<int>)
    requires k <= |m.positions|
    ensures CheckFrom(hashing, leafHash, m, k, seen).None? <==>
            && (forall i | k <= i < |m.positions| :: EntryOk(hashing, leafHash, m.root, m.positions[i]) && m.positions[i].tokenId !in seen)
            && (forall i, j | k <= i < j < |m.positions| :: m.positions[i].tokenId != m.positions[j].tokenId)
    decreases |m.positions| - k
  {
    if k < |m.positions| {
      CheckFromIff(hashing, leafHash, m, k + 1, seen + {m.positions[k].tokenId});
    }
  }

  // ---------- generated manifests ----------

  lemma {:induction false} KeysAreOrdered<H(!new)>()
    ensures Sorting.WeakOrder(SmallerKey<H>())
  {
  }

  ghost predicate DistinctKeys<H>(leaves: seq<Leaf<H>>) {
    forall i, j :: 0 <= i < j < |leaves| ==> leaves[i].key != leaves[j].key
  }

  /** Sorting keeps the keys distinct. */
  lemma {:induction false} SortedKeysDistinct<H(!new)>(leafHash: (int, int) -> H, positions: seq<InputPosition>)
    requires DistinctTokens(positions)
    ensures DistinctKeys(SortedLeaves(leafHash, positions))
  {
    Sorting.DistinctByPermutes(LeavesOf(leafHash, positions), SortedLeaves(leafHash, positions), (x: Leaf<H>) => x.key);
  }

  /** The leaves of the tree stand by ascending token id. */
  lemma {:induction false} LeavesAscend<H(!new)>(leafHash: (int, int) -> H, positions: seq<InputPosition>)
    requires DistinctTokens(positions)
    ensures var leaves := SortedLeaves(leafHash, positions);
            forall i, j :: 0 <= i < j < |leaves| ==> leaves[i].key < leaves[j].key
  {
    var leaves := SortedLeaves(leafHash, positions);
    KeysAreOrdered<H>();
    Sorting.SortOrdered(LeavesOf(leafHash, positions), SmallerKey<H>());
    SortedKeysDistinct(leafHash, positions);
    forall i, j | 0 <= i < j < |leaves| ensures leaves[i].key < leaves[j].key {
      assert !SmallerKey<H>()(leaves[j], leaves[i]);
    }
  }

  /** With distinct keys every leaf's proof is found under its key. */
  lemma {:induction false} ProofsAt<H>(hashing: Hashing<H>, leaves: seq<Leaf<H>>, n: nat, i: nat)
    requires DistinctKeys(leaves) && i < n <= |leaves|
    ensures leaves[i].key in Proofs(hashing, leaves, n)
    ensures Proofs(hashing, leaves, n)[leaves[i].key] == ProofOf(hashing, Hashes(leaves), i)
    decreases n
  {
    if i < n - 1 {
      ProofsAt(hashing, leaves, n - 1, i);
    }
  }

  /** Every generated entry carries a proof that verifies. */
  lemma {:induction false} GeneratedEntryVerifies<H(!new)>(hashing: Hashing<H>, leafHash: (int, int) -> H,
                                                           positions: seq<InputPosition>, k: nat)
    requires Lawful(hashing) && DistinctTokens(positions) && k < |positions|
    ensures var m := ManifestOf(hashing, leafHash, positions);
            Fold(hashing, m.positions[k].proof, leafHash(positions[k].tokenId, positions[k].amount)) == m.root
  {
    var leaves, sorted := LeavesOf(leafHash, positions), SortedLeaves(leafHash, positions);
    Sorting.SameElements(leaves, sorted);
    assert leaves[k] in sorted;
    var i :| 0 <= i < |sorted| && sorted[i] == leaves[k];
    SortedKeysDistinct(leafHash, positions);
    ProofsAt(hashing, sorted, |sorted|, i);
    ProofComplete(hashing, Hashes(sorted), i);
  }

  /** A generated manifest passes validation exactly when every amount is positive and the swap
      instructions are well-formed and covered by their position's amount. */
  lemma {:induction false} GeneratedAcceptedIff<H(!new)>(hashing: Hashing<H>, leafHash: (int, int) -> H, positions: seq<InputPosition>)
    requires Lawful(hashing) && |positions| > 0 && DistinctTokens(positions) && Encodable(positions)
    ensures CheckFrom(hashing, leafHash, ManifestOf(hashing, leafHash, positions), 0, {}).None? <==>
            forall k | 0 <= k < |positions| ::
              positions[k].amount > 0 && InstructionsOk(NormalizedAll(positions[k].instructions), positions[k].amount)
  {
    var m := ManifestOf(hashing, leafHash, positions);
    CheckFromIff(hashing, leafHash, m, 0, {});
    forall k | 0 <= k < |positions|
      ensures EntryOk(hashing, leafHash, m.root, m.positions[k]) <==>
              positions[k].amount > 0 && InstructionsOk(NormalizedAll(positions[k].instructions), positions[k].amount)
    {
      GeneratedEntryVerifies(hashing, leafHash, positions, k);
    }
    assert forall i, j | 0 <= i < j < |positions| :: m.positions[i].tokenId != m.positions[j].tokenId;
  }

  /** The root and every token's proof do not depend on the order of the positions. */
  lemma {:induction false} OrderIrrelevant<H(!new)>(hashing: Hashing<H>, leafHash: (int, int) -> H,
                                                    xs: seq<InputPosition>, ys: seq<InputPosition>)
    requires |xs| > 0 && |ys| > 0 && DistinctTokens(xs) && multiset(xs) == multiset(ys)
    ensures TreeOf(hashing, leafHash, xs) == TreeOf(hashing, leafHash, ys)
  {
    LeavesPermute(leafHash, xs, ys);
    KeysAreOrdered<H>();
    var leaves := LeavesOf(leafHash, xs);
    forall a, c | a in leaves && c in leaves && a != c ensures a.key < c.key || c.key < a.key {
      var i :| 0 <= i < |leaves| && leaves[i] == a;
      var j :| 0 <= j < |leaves| && leaves[j] == c;
      assert xs[i].tokenId != xs[j].tokenId;
    }
    Sorting.SortCanonical(leaves, LeavesOf(leafHash, ys), SmallerKey());
  }

  lemma {:induction false} LeavesWithout<H>(leafHash: (int, int) -> H, ys: seq<InputPosition>, j: nat)
    requires j < |ys|
    ensures multiset(ys[..j] + ys[j + 1..]) == multiset(ys) - multiset{ys[j]}
    ensures multiset(LeavesOf(leafHash, ys)) ==
            multiset{LeafOf(leafHash, ys[j])} + multiset(LeavesOf(leafHash, ys[..j] + ys[j + 1..]))
  {
    var leaves := LeavesOf(leafHash, ys);
    assert ys == ys[..j] + [ys[j]] + ys[j + 1..];
    assert LeavesOf(leafHash, ys[..j] + ys[j + 1..]) == leaves[..j] + leaves[j + 1..];
    assert leaves == leaves[..j] + [leaves[j]] + leaves[j + 1..];
  }

  lemma {:induction false} LeavesPermute<H>(leafHash: (int, int) -> H, xs: seq<InputPosition>, ys: seq<InputPosition>)
    requires multiset(xs) == multiset(ys)
    ensures multiset(LeavesOf(leafHash, xs)) == multiset(LeavesOf(leafHash, ys))
    decreases |xs|
  {
    hide LeavesOf, LeafOf;
    Sorting.SameElements(xs, ys);
    if |xs| == 0 {
      assert xs == ys;
    } else {
      assert xs[0] in ys;
      var j :| 0 <= j < |ys| && ys[j] == xs[0];
      LeavesWithout(leafHash, xs, 0);
      LeavesWithout(leafHash, ys, j);
      LeavesPermute(leafHash, xs[..0] + xs[1..], ys[..j] + ys[j + 1..]);
    }
  }

  // ---------- no other manifest passes against a generated root ----------

  function LeafDigestOf(): (int, int) -> Digest {
    (tokenId: int, amount: int) => LeafDigest(tokenId, amount)
  }

  lemma {:induction false} MembersAre(leaves: seq<Leaf<Digest>>, x: (int, int))
    requires x in AllMembers(Hashes(leaves))
    ensures exists k :: 0 <= k < |leaves| && x in Members(leaves[k].hash)
  {
    if |leaves| > 0 {
      assert Hashes(leaves)[1..] == Hashes(leaves[1..]);
      if x !in Members(leaves[0].hash) {
        MembersAre(leaves[1..], x);
        var k :| 0 <= k < |leaves[1..]| && x in Members(leaves[1..][k].hash);
        assert leaves[k + 1] == leaves[1..][k];
      }
    }
  }

  /** Whatever manifest passes against the root of a generated one lists only positions that were
      allocated, with their exact amounts, each at most once. */
  lemma {:induction false} AcceptedAreAllocated(above: (Digest, Digest) -> bool, positions: seq<InputPosition>, m: Manifest<Digest>)
    requires |positions| > 0
    requires m.root == ManifestOf(FreeHashing(above), LeafDigestOf(), positions).root
    requires CheckFrom(FreeHashing(above), LeafDigestOf(), m, 0, {}).None?
    ensures forall i :: 0 <= i < |m.positions| ==>
              exists k :: 0 <= k < |positions| && positions[k].tokenId == m.positions[i].tokenId && positions[k].amount == m.positions[i].amount
    ensures forall i, j :: 0 <= i < j < |m.positions| ==> m.positions[i].tokenId != m.positions[j].tokenId
  {
    CheckFromIff(FreeHashing(above), LeafDigestOf(), m, 0, {});
    var leaves, sorted := LeavesOf(LeafDigestOf(), positions), SortedLeaves(LeafDigestOf(), positions);
    Sorting.SameElements(leaves, sorted);
    forall i | 0 <= i < |m.positions|
      ensures exists k :: 0 <= k < |positions| && positions[k].tokenId == m.positions[i].tokenId && positions[k].amount == m.positions[i].amount
    {
      var p := m.positions[i];
      assert EntryOk(FreeHashing(above), LeafDigestOf(), m.root, p);
      ProofSound(above, Hashes(sorted), p.proof, p.tokenId, p.amount);
      MembersAre(sorted, (p.tokenId, p.amount));
      var j :| 0 <= j < |sorted| && (p.tokenId, p.amount) in Members(sorted[j].hash);
      assert sorted[j] in leaves;
      var k :| 0 <= k < |leaves| && leaves[k] == sorted[j];
      assert positions[k].tokenId == p.tokenId && positions[k].amount == p.amount;
    }
  }
}
