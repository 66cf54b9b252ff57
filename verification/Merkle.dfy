/** The reward Merkle tree: levels with odd nodes promoted, a proof per leaf, and the
    verifier's fold. The digest type, its order and its two-argument hash are parameters. */
module Merkle {
  import opened Wrappers

  /** `above(a, b)` is the comparison `a > b` of lower-cased digests; `hash2` hashes two digests in sequence. */
  datatype Hashing<!H> = Hashing(hash2: (H, H) -> H, above: (H, H) -> bool)

  ghost predicate Lawful<H(!new)>(hashing: Hashing<H>) {
    && (forall a, b :: hashing.above(a, b) ==> !hashing.above(b, a))
    && (forall a, b :: a != b ==> hashing.above(a, b) || hashing.above(b, a))
  }

  function PairHash<H>(hashing: Hashing<H>, left: H, right: H): H {
    if hashing.above(left, right) then hashing.hash2(right, left) else hashing.hash2(left, right)
  }

  function NextLevel<H>(hashing: Hashing<H>, level: seq<H>): (next: seq<H>)
    ensures |next| == (|level| + 1) / 2
  {
    if |level| == 0 then []
    else if |level| == 1 then [level[0]]
    else [PairHash(hashing, level[0], level[1])] + NextLevel(hashing, level[2..])
  }

  function Root<H>(hashing: Hashing<H>, level: seq<H>): H
    requires |level| > 0
    decreases |level|
  {
    if |level| == 1 then level[0] else Root(hashing, NextLevel(hashing, level))
  }

  function SiblingOf(index: nat): nat {
    if index % 2 == 0 then index + 1 else index - 1
  }

  /** The proof of the leaf at `index`: its sibling at every level where it has one. */
  function ProofOf<H>(hashing: Hashing<H>, level: seq<H>, index: nat): seq<H>
    requires index < |level|
    decreases |level|
  {
    if |level| == 1 then
      []
    else
      (if SiblingOf(index) < |level| then [level[SiblingOf(index)]] else []) +
      ProofOf(hashing, NextLevel(hashing, level), index / 2)
  }

  /** The verifier's loop over the proof. */
  function Fold<H>(hashing: Hashing<H>, proof: seq<H>, leaf: H): H {
    if |proof| == 0 then leaf else Fold(hashing, proof[1..], PairHash(hashing, leaf, proof[0]))
  }

  // ---------- as they run ----------

  datatype Leaf<H> = Leaf(key: int, hash: H)

  datatype Tree<H> = Tree(root: H, proofs: map<int, seq<H>>)

  function Hashes<H>(leaves: seq<Leaf<H>>): (r: seq<H>)
    ensures |r| == |leaves|
  {
    seq(|leaves|, k requires 0 <= k < |leaves| => leaves[k].hash)
  }

  /** The levels of the tree, bottom up. */
  function Levels<H>(hashing: Hashing<H>, level: seq<H>): (r: seq<seq<H>>)
    requires |level| > 0
    ensures |r| > 0 && r[0] == level
    decreases |level|
  {
    if |level| == 1 then [level] else [level] + Levels(hashing, NextLevel(hashing, level))
  }

  method PairUp<H>(hashing: Hashing<H>, current: seq<H>) returns (next: seq<H>)
    ensures next == NextLevel(hashing, current)
  {
    next := [];
    var i := 0;
    while i < |current|
      invariant 0 <= i <= |current| + 1
      invariant i <= |current| ==> next + NextLevel(hashing, current[i..]) == NextLevel(hashing, current)
      invariant i > |current| ==> next == NextLevel(hashing, current)
    {
      if i + 1 == |current| {
        assert current[i..] == [current[i]];
        next := next + [current[i]];
      } else {
        assert current[i..][2..] == current[i + 2..];
        next := next + [PairHash(hashing, current[i], current[i + 1])];
      }
      i := i + 2;
    }
  }

  method BuildLevels<H>(hashing: Hashing<H>, hashes: seq<H>) returns (levels: seq<seq<H>>, current: seq<H>)
    requires |hashes| > 0
    ensures levels == Levels(hashing, hashes)
    ensures |current| == 1 && current[0] == Root(hashing, hashes)
  {
    current := hashes;
    levels := [current];
    while |current| > 1
      invariant |current| > 0
      invariant levels + Levels(hashing, current)[1..] == Levels(hashing, hashes)
      invariant Root(hashing, current) == Root(hashing, hashes)
      decreases |current|
    {
      ghost var rest := Levels(hashing, current);
      current := PairUp(hashing, current);
      assert rest[1..] == [current] + Levels(hashing, current)[1..];
      levels := levels + [current];
    }
    assert levels + [] == levels;
  }

  /** Levels from `k` on are the levels of level `k`. */
  lemma {:induction false} LevelsFrom<H>(hashing: Hashing<H>, hashes: seq<H>, k: nat)
    requires |hashes| > 0 && k < |Levels(hashing, hashes)|
    ensures var levels := Levels(hashing, hashes);
            |levels[k]| > 0 && levels[k..] == Levels(hashing, levels[k]) && (|levels[k]| == 1 <==> k == |levels| - 1)
    decreases |hashes|
  {
    if k > 0 {
      LevelsFrom(hashing, NextLevel(hashing, hashes), k - 1);
    }
  }

  lemma {:induction false} LevelStep<H>(hashing: Hashing<H>, hashes: seq<H>, k: nat)
    requires |hashes| > 0 && k < |Levels(hashing, hashes)|
    ensures var levels := Levels(hashing, hashes);
            && |levels[k]| > 0
            && (k == |levels| - 1 ==> |levels[k]| == 1)
            && (k < |levels| - 1 ==> |levels[k]| > 1 && levels[k + 1] == NextLevel(hashing, levels[k]))
  {
    var levels := Levels(hashing, hashes);
    LevelsFrom(hashing, hashes, k);
    if k < |levels| - 1 {
      assert levels[k + 1] == levels[k..][1];
    }
  }

  method BuildProof<H>(hashing: Hashing<H>, hashes: seq<H>, levels: seq<seq<H>>, index: nat) returns (proof: seq<H>)
    requires index < |hashes| && levels == Levels(hashing, hashes)
    ensures proof == ProofOf(hashing, hashes, index)
  {
    hide Levels, NextLevel;
    proof := [];
    var currentIndex := index;
    var level := 0;
    LevelStep(hashing, hashes, 0);
    while level < |levels| - 1
      invariant 0 <= level < |levels|
      invariant 0 <= currentIndex < |levels[level]|
      invariant proof + ProofOf(hashing, levels[level], currentIndex) == ProofOf(hashing, hashes, index)
    {
      LevelStep(hashing, hashes, level);
      var nodes := levels[level];
      var siblingIndex := SiblingOf(currentIndex);
      if siblingIndex < |nodes| {
        proof := proof + [nodes[siblingIndex]];
      }
      currentIndex := currentIndex / 2;
      level := level + 1;
    }
    LevelStep(hashing, hashes, level);
    assert proof + [] == proof;
  }

  /** Later leaves overwrite earlier ones with the same key. */
  function Proofs<H>(hashing: Hashing<H>, leaves: seq<Leaf<H>>, n: nat): map<int, seq<H>>
    requires n <= |leaves|
  {
    if n == 0 then map[]
    else Proofs(hashing, leaves, n - 1)[leaves[n - 1].key := ProofOf(hashing, Hashes(leaves), n - 1)]
  }

  method BuildMerkleTree<H>(hashing: Hashing<H>, leaves: seq<Leaf<H>>) returns (r: Result<Tree<H>, string>)
    ensures r.Err? <==> |leaves| == 0
    ensures r.Ok? ==> r.value == Tree(Root(hashing, Hashes(leaves)), Proofs(hashing, leaves, |leaves|))
  {
    if |leaves| == 0 {
      return Err("Cannot build tree with zero leaves");
    }
    var levels, top := BuildLevels(hashing, Hashes(leaves));
    var proofs: map<int, seq<H>> := map[];
    for index := 0 to |leaves|
      invariant proofs == Proofs(hashing, leaves, index)
    {
      var proof := BuildProof(hashing, Hashes(leaves), levels, index);
      proofs := proofs[leaves[index].key := proof];
    }
    return Ok(Tree(top[0], proofs));
  }

  method VerifyProof<H(==)>(hashing: Hashing<H>, proof: seq<H>, root: H, leaf: H) returns (ok: bool)
    ensures ok <==> Fold(hashing, proof, leaf) == root
  {
    var computed := leaf;
    for i := 0 to |proof|
      invariant Fold(hashing, proof[i..], computed) == Fold(hashing, proof, leaf)
    {
      computed := PairHash(hashing, computed, proof[i]);
    }
    return computed == root;
  }

  // ---------- completeness ----------

  lemma {:induction false} PairCommutes<H(!new)>(hashing: Hashing<H>, a: H, b: H)
    requires Lawful(hashing)
    ensures PairHash(hashing, a, b) == PairHash(hashing, b, a)
  {
    if a != b { assert hashing.above(a, b) || hashing.above(b, a); }
  }

  /** A pair is hashed with the smaller digest first, from either side. */
  lemma {:induction false} SmallerFirst<H(!new)>(hashing: Hashing<H>, a: H, b: H)
    requires Lawful(hashing) && hashing.above(b, a)
    ensures PairHash(hashing, a, b) == hashing.hash2(a, b) && PairHash(hashing, b, a) == hashing.hash2(a, b)
  {
  }

  /** A node's parent: the pair with its sibling, or the node itself, promoted. */
  lemma {:induction false} NextLevelAt<H>(hashing: Hashing<H>, level: seq<H>, k: nat)
    requires 2 * k < |level|
    ensures NextLevel(hashing, level)[k] ==
            if 2 * k + 1 < |level| then PairHash(hashing, level[2 * k], level[2 * k + 1]) else level[2 * k]
    decreases k
  {
    if k > 0 {
      NextLevelAt(hashing, level[2..], k - 1);
      assert level[2..][2 * (k - 1)] == level[2 * k];
    }
  }

  lemma {:induction false} ParentOf<H(!new)>(hashing: Hashing<H>, level: seq<H>, index: nat)
    requires Lawful(hashing) && index < |level|
    ensures NextLevel(hashing, level)[index / 2] ==
            if SiblingOf(index) < |level| then PairHash(hashing, level[index], level[SiblingOf(index)]) else level[index]
  {
    NextLevelAt(hashing, level, index / 2);
    if index % 2 == 1 {
      PairCommutes(hashing, level[index - 1], level[index]);
    }
  }

  /** The generated proof of every leaf folds to the root, whatever the number of leaves. */
  lemma {:induction false} ProofComplete<H(!new)>(hashing: Hashing<H>, level: seq<H>, index: nat)
    requires Lawful(hashing) && index < |level|
    ensures Fold(hashing, ProofOf(hashing, level, index), level[index]) == Root(hashing, level)
    decreases |level|
  {
    if |level| > 1 {
      var next := NextLevel(hashing, level);
      ProofComplete(hashing, next, index / 2);
      ParentOf(hashing, level, index);
      var rest := ProofOf(hashing, next, index / 2);
      if SiblingOf(index) < |level| {
        assert ([level[SiblingOf(index)]] + rest)[1..] == rest;
      } else {
        assert [] + rest == rest;
      }
    }
  }

  function Pow2(n: nat): nat {
    if n == 0 then 1 else 2 * Pow2(n - 1)
  }

  /** At most ceil(log2 n) siblings: one fewer doubling does not reach the number of leaves. */
  lemma {:induction false} ProofShort<H>(hashing: Hashing<H>, level: seq<H>, index: nat)
    requires index < |level|
    ensures var proof := ProofOf(hashing, level, index);
            |proof| == 0 || Pow2(|proof| - 1) < |level|
    decreases |level|
  {
    if |level| > 1 {
      ProofShort(hashing, NextLevel(hashing, level), index / 2);
    }
  }

  // ---------- soundness, hashes taken as free constructors ----------

  /** A leaf hash, a pair hash, or any other 32-byte value. */
  datatype Digest = LeafDigest(tokenId: int, amount: int) | PairDigest(first: Digest, second: Digest) | OtherDigest(value: int)

  function FreeHashing(above: (Digest, Digest) -> bool): Hashing<Digest> {
    Hashing((a: Digest, b: Digest) => PairDigest(a, b), above)
  }

  /** The (token id, amount) leaves a digest was built from. */
  function Members(d: Digest): set<(int, int)> {
    match d
    case LeafDigest(tokenId, amount) => {(tokenId, amount)}
    case PairDigest(first, second) => Members(first) + Members(second)
    case OtherDigest(_) => {}
  }

  function AllMembers(level: seq<Digest>): set<(int, int)> {
    if |level| == 0 then {} else Members(level[0]) + AllMembers(level[1..])
  }

  lemma {:induction false} NextLevelMembers(above: (Digest, Digest) -> bool, level: seq<Digest>)
    ensures AllMembers(NextLevel(FreeHashing(above), level)) == AllMembers(level)
    decreases |level|
  {
    if |level| == 1 {
      assert level == [level[0]];
    } else if |level| > 1 {
      NextLevelMembers(above, level[2..]);
      assert level[1..][1..] == level[2..];
    }
  }

  lemma {:induction false} RootMembers(above: (Digest, Digest) -> bool, level: seq<Digest>)
    requires |level| > 0
    ensures Members(Root(FreeHashing(above), level)) == AllMembers(level)
    decreases |level|
  {
    if |level| > 1 {
      NextLevelMembers(above, level);
      RootMembers(above, NextLevel(FreeHashing(above), level));
    }
  }

  lemma {:induction false} FoldMembers(above: (Digest, Digest) -> bool, proof: seq<Digest>, leaf: Digest)
    ensures Members(leaf) <= Members(Fold(FreeHashing(above), proof, leaf))
    decreases |proof|
  {
    if |proof| > 0 {
      FoldMembers(above, proof[1..], PairHash(FreeHashing(above), leaf, proof[0]));
    }
  }

  /** A proof of any shape that folds to a root only proves what the root was built from. */
  lemma {:induction false} ProofSound(above: (Digest, Digest) -> bool, level: seq<Digest>, proof: seq<Digest>, tokenId: int, amount: int)
    requires |level| > 0
    requires Fold(FreeHashing(above), proof, LeafDigest(tokenId, amount)) == Root(FreeHashing(above), level)
    ensures (tokenId, amount) in AllMembers(level)
  {
    RootMembers(above, level);
    FoldMembers(above, proof, LeafDigest(tokenId, amount));
  }
}
