/** Picking Gateway balances to fund a transfer: Arc first, then the largest, drained one by one
    until the amount is covered. */
module Gateway {
  import opened Wrappers
  import opened Sorting

  const ARC_CHAIN_ID := 5042

  /** A balance as reported: the chain id may be missing, the amount may not parse. */
  datatype Balance = Balance(chainId: Option<int>, amount: Option<int>, details: string)

  datatype Source = Source(chainId: int, availableRaw: int, details: string)

  datatype Allocation = Allocation(source: Source, allocationRaw: int)

  predicate IsArc(s: Source) {
    s.chainId == ARC_CHAIN_ID
  }

  /** The balances that can pay, in the order given. */
  function Eligible(balances: seq<Balance>): seq<Source> {
    if |balances| == 0 then []
    else
      var b := balances[0];
      var availableRaw := if b.amount.Some? then b.amount.value else 0;
      (if b.chainId.Some? && availableRaw > 0 then [Source(b.chainId.value, availableRaw, b.details)] else [])
      + Eligible(balances[1..])
  }

  predicate Before(a: Source, b: Source) {
    if IsArc(a) != IsArc(b) then IsArc(a) else a.availableRaw > b.availableRaw
  }

  function Take<T>(xs: seq<T>, n: nat): seq<T> {
    if n >= |xs| then xs else xs[..n]
  }

  /** `slice(0, n)`: a negative `n` counts from the end. */
  function Sliced<T>(xs: seq<T>, n: int): seq<T> {
    Take(xs, if n >= 0 then n else if |xs| + n >= 0 then |xs| + n else 0)
  }

  function Candidates(balances: seq<Balance>, maxSources: int): seq<Source> {
    Sliced(Sort(Eligible(balances), Before), maxSources)
  }

  function Total(sources: seq<Source>): int {
    if |sources| == 0 then 0 else sources[0].availableRaw + Total(sources[1..])
  }

  function Allocated(allocations: seq<Allocation>): int {
    if |allocations| == 0 then 0 else Allocated(allocations[..|allocations| - 1]) + allocations[|allocations| - 1].allocationRaw
  }

  /** `r` pays `need` from the front of `from`: all but the last drained, the last as far as needed.
      Nothing if there is no need or `from` does not suffice. */
  ghost predicate Pays(from: seq<Source>, need: int, r: seq<Allocation>) {
    if need <= 0 || Total(from) < need then r == []
    else
      && 0 < |r| <= |from|
      && Allocated(r) == need
      && (forall i :: 0 <= i < |r| ==> r[i].source == from[i])
      && (forall i :: 0 <= i < |r| - 1 ==> r[i].allocationRaw == from[i].availableRaw)
      && 0 < r[|r| - 1].allocationRaw <= from[|r| - 1].availableRaw
  }

  lemma {:induction false} EligiblePositive(balances: seq<Balance>)
    ensures forall s :: s in Eligible(balances) ==> s.availableRaw > 0
  {
    if |balances| > 0 { EligiblePositive(balances[1..]); }
  }

  lemma {:induction false} EligibleSplit(a: seq<Balance>, b: seq<Balance>)
    ensures Eligible(a + b) == Eligible(a) + Eligible(b)
    decreases |a|
  {
    if |a| == 0 {
      assert a + b == b;
    } else {
      assert (a + b)[1..] == a[1..] + b;
      EligibleSplit(a[1..], b);
    }
  }

  /** Which balances can pay: one more balance adds itself at the end if its chain is known and its
      amount parses to more than nothing, and adds nothing otherwise. */
  lemma {:induction false} EligibleMore(balances: seq<Balance>, b: Balance)
    ensures Eligible([]) == []
    ensures b.chainId.Some? && b.amount.Some? && b.amount.value >= 1 ==>
              exists s :: Eligible(balances + [b]) == Eligible(balances) + [s]
                          && Some(s.chainId) == b.chainId && Some(s.availableRaw) == b.amount && s.details == b.details
    ensures b.chainId.None? || b.amount.None? || b.amount.value <= 0 ==> Eligible(balances + [b]) == Eligible(balances)
  {
    EligibleSplit(balances, [b]);
    assert [b][1..] == [];
    if b.chainId.Some? && b.amount.Some? && b.amount.value >= 1 {
      var s := Source(b.chainId.value, b.amount.value, b.details);
      assert Eligible(balances + [b]) == Eligible(balances) + [s];
    }
  }

  /** A slice takes from the front, so candidates are eligible. */
  lemma {:induction false} CandidatesPositive(balances: seq<Balance>, maxSources: int)
    ensures forall s :: s in Candidates(balances, maxSources) ==> s.availableRaw > 0
  {
    EligiblePositive(balances);
    SameElements(Sort(Eligible(balances), Before), Eligible(balances));
  }

  lemma {:induction false} TotalSplit(a: seq<Source>, b: seq<Source>)
    ensures Total(a + b) == Total(a) + Total(b)
    decreases |a|
  {
    if |a| == 0 {
      assert a + b == b;
    } else {
      assert (a + b)[1..] == a[1..] + b;
      TotalSplit(a[1..], b);
    }
  }

  lemma {:induction false} TotalPrefix(xs: seq<Source>, n: nat)
    requires n <= |xs| && forall s :: s in xs ==> s.availableRaw > 0
    ensures 0 <= Total(xs[..n]) <= Total(xs)
    ensures n < |xs| ==> Total(xs[..n + 1]) == Total(xs[..n]) + xs[n].availableRaw
  {
    assert xs == xs[..n] + xs[n..];
    TotalSplit(xs[..n], xs[n..]);
    TotalNonNegative(xs[..n]);
    TotalNonNegative(xs[n..]);
    if n < |xs| {
      assert xs[..n + 1] == xs[..n] + [xs[n]];
      TotalSplit(xs[..n], [xs[n]]);
    }
  }

  lemma {:induction false} TotalNonNegative(xs: seq<Source>)
    requires forall s :: s in xs ==> s.availableRaw > 0
    ensures Total(xs) >= 0
    decreases |xs|
  {
    if |xs| > 0 {
      assert xs[0] in xs;
      TotalNonNegative(xs[1..]);
    }
  }

  method PickGatewaySources(balances: seq<Balance>, amountRaw: int, maxSources: int := 16) returns (r: seq<Allocation>)
    ensures Pays(Candidates(balances, maxSources), amountRaw, r)
  {
    hide Candidates, Take;
    var sources := Candidates(balances, maxSources);
    CandidatesPositive(balances, maxSources);
    var allocations: seq<Allocation>, remaining := [], amountRaw;
    var i := 0;
    assert Total(sources[..0]) == 0 && Allocated(allocations) == 0;
    hide Total, Allocated;
    while i < |sources|
      invariant i <= |sources| && |allocations| == i
      invariant remaining == amountRaw - Allocated(allocations)
      invariant amountRaw <= 0 ==> i == 0
      invariant amountRaw > 0 ==> remaining >= 0
      invariant forall k :: 0 <= k < i ==> allocations[k].source == sources[k]
      invariant i > 0 ==> 0 < allocations[i - 1].allocationRaw <= sources[i - 1].availableRaw
      invariant forall k :: 0 <= k < i - 1 ==> allocations[k].allocationRaw == sources[k].availableRaw
      invariant i > 0 && remaining > 0 ==> allocations[i - 1].allocationRaw == sources[i - 1].availableRaw
      invariant remaining > 0 ==> Allocated(allocations) == Total(sources[..i])
      invariant remaining <= 0 && amountRaw > 0 ==> i > 0 && Total(sources[..i]) >= amountRaw
    {
      if remaining <= 0 { break; }
      var source := sources[i];
      TotalPrefix(sources, i);
      var allocationRaw := if source.availableRaw < remaining then source.availableRaw else remaining;
      allocations := allocations + [Allocation(source, allocationRaw)];
      remaining := remaining - allocationRaw;
      i := i + 1;
    }
    assert sources[..|sources|] == sources;
    TotalPrefix(sources, i);
    return if remaining > 0 then [] else allocations;
  }

  lemma {:induction false} OneCandidate(from: seq<Source>, need: int, r: seq<Allocation>)
    requires Pays(from, need, r) && |from| <= 1
    ensures r == if need > 0 && |from| == 1 && from[0].availableRaw >= need then [Allocation(from[0], need)] else []
  {
    if |from| == 1 {
      assert from[1..] == [] && Total(from) == from[0].availableRaw;
      if |r| == 1 { assert r[..0] == [] && Allocated(r) == r[0].allocationRaw; }
    }
  }

  /** One source or none: the preferred balance, if it covers the amount alone. */
  method PickGatewaySource(balances: seq<Balance>, amountRaw: int) returns (r: Option<Allocation>)
    ensures var sorted := Sort(Eligible(balances), Before);
            r == if amountRaw > 0 && |sorted| > 0 && sorted[0].availableRaw >= amountRaw
                 then Some(Allocation(sorted[0], amountRaw)) else None
  {
    hide Pays, Sort, Eligible;
    var sources := PickGatewaySources(balances, amountRaw, 1);
    OneCandidate(Candidates(balances, 1), amountRaw, sources);
    return if |sources| == 0 then None else Some(sources[0]);
  }

  // ---------- how few sources ----------

  /** A set of eligible balances that covers the need. */
  ghost predicate Covers(balances: seq<Balance>, choice: seq<Source>, need: int) {
    multiset(choice) <= multiset(Eligible(balances)) && Total(choice) >= need
  }

  predicate Larger(a: Source, b: Source) {
    a.availableRaw > b.availableRaw
  }

  /** The eligible balances, largest first. */
  function Largest(balances: seq<Balance>): seq<Source> {
    Sort(Eligible(balances), Larger)
  }

  function Arcs(sources: seq<Source>): nat {
    if |sources| == 0 then 0 else (if IsArc(sources[0]) then 1 else 0) + Arcs(sources[1..])
  }

  lemma {:induction false} RemoveOne(choice: seq<Source>, x: Source) returns (rest: seq<Source>)
    requires x in choice
    ensures multiset(choice) == multiset{x} + multiset(rest) && Total(choice) == x.availableRaw + Total(rest)
    ensures |choice| == |rest| + 1 && Arcs(choice) == (if IsArc(x) then 1 else 0) + Arcs(rest)
  {
    var i :| 0 <= i < |choice| && choice[i] == x;
    rest := choice[..i] + choice[i + 1..];
    assert choice == choice[..i] + ([x] + choice[i + 1..]);
    TotalSplit(choice[..i], [x] + choice[i + 1..]);
    TotalSplit(choice[..i], choice[i + 1..]);
    ArcsSplit(choice[..i], [x] + choice[i + 1..]);
    ArcsSplit(choice[..i], choice[i + 1..]);
    assert ([x] + choice[i + 1..])[1..] == choice[i + 1..];
  }

  ghost predicate Descending(xs: seq<Source>, from: nat) {
    forall i, j :: from <= i < j < |xs| ==> xs[i].availableRaw >= xs[j].availableRaw
  }

  /** Take the first `a` and the largest `|choice|` after them: no choice is worth more. */
  lemma {:induction false} TopIsWorthMost(xs: seq<Source>, a: nat, choice: seq<Source>)
    requires Descending(xs, a) && a <= |xs| && forall s :: s in xs ==> s.availableRaw > 0
    requires multiset(choice) <= multiset(xs)
    ensures Total(choice) <= Total(Take(xs, a + |choice|))
    decreases |xs|
  {
    hide Descending, Take, Total;
    PartIsSmaller(choice, xs);
    if |choice| == 0 {
      NothingChosen(xs, a);
      assert choice == [];
    } else {
      assert forall s :: s in xs[1..] ==> s in xs;
      var rest, a' := SpendHead(xs, a, choice);
      TopIsWorthMost(xs[1..], a', rest);
      TakeGrows(xs[1..], a' + |rest|, a + |choice| - 1);
      TakeOne(xs, a + |choice|);
    }
  }

  lemma {:induction false} NothingChosen(xs: seq<Source>, a: nat)
    requires forall s :: s in xs ==> s.availableRaw > 0
    ensures Total([]) == 0 <= Total(Take(xs, a))
  {
    TotalNonNegative(Take(xs, a));
  }

  /** A choice is worth at most the head and what remains of the choice within the tail. */
  lemma {:induction false} SpendHead(xs: seq<Source>, a: nat, choice: seq<Source>) returns (rest: seq<Source>, a': nat)
    requires 0 < |choice| <= |xs| && Descending(xs, a) && a <= |xs| && xs[0].availableRaw > 0
    requires multiset(choice) <= multiset(xs)
    ensures multiset(rest) <= multiset(xs[1..]) && a' < |xs| && Descending(xs[1..], a')
    ensures a' + |rest| <= a + |choice| - 1
    ensures Total(choice) <= xs[0].availableRaw + Total(rest)
  {
    hide Descending, Total;
    a' := if a > 0 then a - 1 else 0;
    DescendingTail(xs, a);
    if xs[0] in choice {
      rest := RemoveOne(choice, xs[0]);
      RestInTail(xs, choice, rest);
    } else {
      WithoutHead(choice, xs);
      if a > 0 {
        rest := choice;
      } else {
        DescendingHead(xs, choice[0]);
        rest := RemoveOne(choice, choice[0]);
      }
    }
  }

  lemma {:induction false} PartIsSmaller(choice: seq<Source>, xs: seq<Source>)
    requires multiset(choice) <= multiset(xs)
    ensures |choice| <= |xs|
  {
    assert multiset(xs) == multiset(choice) + (multiset(xs) - multiset(choice));
    assert |multiset(choice)| == |choice| && |multiset(xs)| == |xs|;
  }

  lemma {:induction false} DescendingTail(xs: seq<Source>, a: nat)
    requires |xs| > 0 && Descending(xs, a)
    ensures Descending(xs[1..], if a > 0 then a - 1 else 0)
  {
    forall i, j | 0 <= i < j < |xs[1..]| && a <= i + 1 ensures xs[1..][i].availableRaw >= xs[1..][j].availableRaw {
      assert xs[i + 1].availableRaw >= xs[j + 1].availableRaw;
    }
  }

  lemma {:induction false} DescendingHead(xs: seq<Source>, c: Source)
    requires |xs| > 0 && Descending(xs, 0) && c in xs[1..]
    ensures c.availableRaw <= xs[0].availableRaw
  {
    var i :| 0 <= i < |xs| - 1 && xs[1..][i] == c;
    assert xs[i + 1] == c;
  }

  lemma {:induction false} TakeOne(xs: seq<Source>, n: nat)
    requires |xs| > 0 && n > 0
    ensures Total(Take(xs, n)) == xs[0].availableRaw + Total(Take(xs[1..], n - 1))
  {
    var taken := Take(xs, n);
    assert |taken| > 0 && Total(taken) == taken[0].availableRaw + Total(taken[1..]);
    assert taken[0] == xs[0];
    assert taken[1..] == Take(xs[1..], n - 1);
  }

  lemma {:induction false} RestInTail(xs: seq<Source>, choice: seq<Source>, rest: seq<Source>)
    requires |xs| > 0 && multiset(choice) <= multiset(xs) && multiset(choice) == multiset{xs[0]} + multiset(rest)
    ensures multiset(rest) <= multiset(xs[1..])
  {
    assert xs == [xs[0]] + xs[1..];
    forall s ensures multiset(rest)[s] <= multiset(xs[1..])[s] {
      assert multiset(choice)[s] <= multiset(xs)[s];
    }
  }

  lemma {:induction false} WithoutHead(choice: seq<Source>, xs: seq<Source>)
    requires |xs| > 0 && xs[0] !in choice && multiset(choice) <= multiset(xs)
    ensures multiset(choice) <= multiset(xs[1..])
    ensures forall c :: c in choice ==> c in xs[1..]
  {
    assert xs == [xs[0]] + xs[1..];
    forall s ensures multiset(choice)[s] <= multiset(xs[1..])[s] {
      if s == xs[0] { assert s !in multiset(choice); }
    }
    forall c | c in choice ensures c in xs[1..] { assert c in multiset(choice); }
  }

  lemma {:induction false} TakeGrows(xs: seq<Source>, m: nat, n: nat)
    requires m <= n && forall s :: s in xs ==> s.availableRaw > 0
    ensures Total(Take(xs, m)) <= Total(Take(xs, n))
  {
    var ys := Take(xs, n);
    var k := if m < |ys| then m else |ys|;
    assert Take(xs, m) == ys[..k];
    assert forall s :: s in ys ==> s in xs;
    TotalPrefix(ys, k);
  }

  lemma {:induction false} TopCovers(xs: seq<Source>, a: nat, choice: seq<Source>, n: nat)
    requires Descending(xs, a) && a <= |xs| && forall s :: s in xs ==> s.availableRaw > 0
    requires multiset(choice) <= multiset(xs) && a + |choice| <= n
    ensures Total(choice) <= Total(Take(xs, n))
  {
    TopIsWorthMost(xs, a, choice);
    TakeGrows(xs, a + |choice|, n);
  }

  /** What was sorted is eligible and Arc comes first. */
  lemma {:induction false} SortedShape(balances: seq<Balance>)
    ensures var sorted, a := Sort(Eligible(balances), Before), Arcs(Eligible(balances));
            && multiset(sorted) == multiset(Eligible(balances))
            && (forall s :: s in sorted ==> s.availableRaw > 0)
            && a <= |sorted| && Descending(sorted, a)
  {
    var sorted := Sort(Eligible(balances), Before);
    SortOrdered(Eligible(balances), Before);
    EligiblePositive(balances);
    SameElements(sorted, Eligible(balances));
    ArcsPermute(sorted, Eligible(balances));
    ArcsFirst(sorted);
  }

  lemma {:induction false} ArcsSplit(a: seq<Source>, b: seq<Source>)
    ensures Arcs(a + b) == Arcs(a) + Arcs(b)
    decreases |a|
  {
    if |a| == 0 {
      assert a + b == b;
    } else {
      assert (a + b)[1..] == a[1..] + b;
      ArcsSplit(a[1..], b);
    }
  }

  lemma {:induction false} ArcsPermute(a: seq<Source>, b: seq<Source>)
    requires multiset(a) == multiset(b)
    ensures Arcs(a) == Arcs(b)
    decreases |a|
  {
    SameElements(a, b);
    if |a| > 0 {
      var rest := RemoveOne(b, a[0]);
      TailElements(a);
      assert multiset(rest) == multiset(b) - multiset{a[0]};
      ArcsPermute(a[1..], rest);
    }
  }

  lemma {:induction false} NoArcs(xs: seq<Source>)
    requires forall s :: s in xs ==> !IsArc(s)
    ensures Arcs(xs) == 0
    decreases |xs|
  {
    if |xs| > 0 {
      assert xs[0] in xs;
      NoArcs(xs[1..]);
    }
  }

  lemma {:induction false} ArcsFirst(sorted: seq<Source>)
    requires Ordered(sorted, Before)
    ensures Arcs(sorted) <= |sorted| && Descending(sorted, Arcs(sorted))
    decreases |sorted|
  {
    if |sorted| > 0 {
      var tail := sorted[1..];
      if IsArc(sorted[0]) {
        ArcsFirst(tail);
        forall i, j | Arcs(sorted) <= i < j < |sorted| ensures sorted[i].availableRaw >= sorted[j].availableRaw {
          assert sorted[i] == tail[i - 1] && sorted[j] == tail[j - 1];
        }
      } else {
        forall s | s in sorted ensures !IsArc(s) {
          var i :| 0 <= i < |sorted| && sorted[i] == s;
          assert i > 0 ==> !Before(sorted[i], sorted[0]);
        }
        NoArcs(sorted);
      }
    }
  }

  /** A payment stops as soon as it can: without its last source it falls short. */
  lemma {:induction false} LastSourceNeeded(from: seq<Source>, need: int, r: seq<Allocation>)
    requires Pays(from, need, r) && |r| > 0
    ensures |r| <= |from| && Total(from[..|r| - 1]) < need
  {
    AllocatedIsTotal(from, r, |r| - 1);
  }

  lemma {:induction false} AllocatedIsTotal(from: seq<Source>, r: seq<Allocation>, n: nat)
    requires n <= |r| && n <= |from|
    requires forall i :: 0 <= i < n ==> r[i].allocationRaw == from[i].availableRaw
    ensures Allocated(r[..n]) == Total(from[..n])
  {
    if n > 0 {
      AllocatedIsTotal(from, r, n - 1);
      assert r[..n][..n - 1] == r[..n - 1];
      assert from[..n] == from[..n - 1] + [from[n - 1]];
      TotalSplit(from[..n - 1], [from[n - 1]]);
    }
  }

  lemma {:induction false} CandidatesAreAPrefix(balances: seq<Balance>, maxSources: int, m: nat)
    requires m <= |Candidates(balances, maxSources)|
    ensures Candidates(balances, maxSources)[..m] == Take(Sort(Eligible(balances), Before), m)
  {
  }

  /** No covering choice is smaller by more than the number of Arc balances; with no Arc balance a
      payment uses the fewest sources possible. */
  lemma {:induction false} FewSources(balances: seq<Balance>, maxSources: int, need: int, r: seq<Allocation>, choice: seq<Source>)
    requires Pays(Candidates(balances, maxSources), need, r) && |r| > 0
    requires Covers(balances, choice, need)
    ensures |r| <= |choice| + Arcs(Eligible(balances))
  {
    hide Pays, Sort, Eligible, Total, Arcs, Candidates, Take, Descending;
    LastSourceNeeded(Candidates(balances, maxSources), need, r);
    CandidatesAreAPrefix(balances, maxSources, |r| - 1);
    SortedShape(balances);
    if |r| > |choice| + Arcs(Eligible(balances)) {
      TopCovers(Sort(Eligible(balances), Before), Arcs(Eligible(balances)), choice, |r| - 1);
    }
  }

  lemma {:induction false} LargestShape(balances: seq<Balance>)
    ensures var largest := Largest(balances);
            && multiset(largest) == multiset(Eligible(balances))
            && (forall s :: s in largest ==> s.availableRaw > 0)
            && Descending(largest, 0) && |largest| == |Sort(Eligible(balances), Before)|
  {
    LargerWeakOrder();
    SortOrdered(Eligible(balances), Larger);
    EligiblePositive(balances);
    SameElements(Largest(balances), Eligible(balances));
  }

  lemma {:induction false} LargerWeakOrder()
    ensures WeakOrder(Larger)
  {
  }

  lemma {:induction false} TakeIsPart<T>(xs: seq<T>, n: nat)
    ensures multiset(Take(xs, n)) <= multiset(xs)
    ensures |Take(xs, n)| == if n < |xs| then n else |xs|
  {
    if n < |xs| { assert xs == xs[..n] + xs[n..]; }
  }

  /** What is needed of a payment below: it takes as many candidates as it must, and no more. */
  lemma {:induction false} LengthIsLeast(balances: seq<Balance>, maxSources: int, need: int, r: seq<Allocation>, m: nat)
    requires Pays(Candidates(balances, maxSources), need, r) && |r| > 0
    ensures Total(Take(Candidates(balances, maxSources), m)) >= need <==> |r| <= m
  {
    hide Candidates, Total;
    var from := Candidates(balances, maxSources);
    CandidatesPositive(balances, maxSources);
    LastSourceNeeded(from, need, r);
    WholeCovers(from, need, r);
    if |r| <= m {
      TakeGrows(from, |r|, m);
    } else {
      TakeGrows(from, m, |r| - 1);
    }
  }

  lemma {:induction false} WholeCovers(from: seq<Source>, need: int, r: seq<Allocation>)
    requires Pays(from, need, r) && |r| > 0
    ensures |r| <= |from| && Total(Take(from, |r|)) >= need
  {
    var n := |r| - 1;
    AllocatedIsTotal(from, r, n);
    assert from[..n + 1] == from[..n] + [from[n]];
    TotalSplit(from[..n], [from[n]]);
  }

  /** A payment uses the fewest sources of all covering choices exactly if, whenever the `m` largest
      balances cover the need, so do the first `m` candidates. */
  lemma {:induction false} FewestIff(balances: seq<Balance>, maxSources: int, need: int, r: seq<Allocation>)
    requires Pays(Candidates(balances, maxSources), need, r) && |r| > 0
    ensures (forall choice :: Covers(balances, choice, need) ==> |r| <= |choice|) <==>
            (forall m: nat :: Total(Take(Largest(balances), m)) >= need ==> Total(Take(Candidates(balances, maxSources), m)) >= need)
  {
    hide Pays, Sort, Eligible, Total, Candidates, Take, Descending, Largest;
    LargestShape(balances);
    if forall choice :: Covers(balances, choice, need) ==> |r| <= |choice| {
      forall m: nat | Total(Take(Largest(balances), m)) >= need ensures Total(Take(Candidates(balances, maxSources), m)) >= need {
        TakeIsPart(Largest(balances), m);
        assert Covers(balances, Take(Largest(balances), m), need);
        LengthIsLeast(balances, maxSources, need, r, m);
      }
    }
    if forall m: nat :: Total(Take(Largest(balances), m)) >= need ==> Total(Take(Candidates(balances, maxSources), m)) >= need {
      forall choice | Covers(balances, choice, need) ensures |r| <= |choice| {
        TopCovers(Largest(balances), 0, choice, |choice|);
        LengthIsLeast(balances, maxSources, need, r, |choice|);
      }
    }
  }

  /** Within the limit some choice covers the need exactly if the largest balances do. */
  lemma {:induction false} SomeChoiceIff(balances: seq<Balance>, maxSources: nat, need: int)
    ensures (exists choice :: Covers(balances, choice, need) && |choice| <= maxSources) <==> Total(Take(Largest(balances), maxSources)) >= need
  {
    hide Sort, Eligible, Total, Take, Descending, Largest;
    LargestShape(balances);
    TakeIsPart(Largest(balances), maxSources);
    if choice :| Covers(balances, choice, need) && |choice| <= maxSources {
      TopCovers(Largest(balances), 0, choice, maxSources);
    }
    if Total(Take(Largest(balances), maxSources)) >= need {
      assert Covers(balances, Take(Largest(balances), maxSources), need);
    }
  }

  /** An empty result means that no choice within the limit covers the need, exactly if the preferred
      balances cover it or the largest do not. */
  lemma {:induction false} NothingReturnedIff(balances: seq<Balance>, maxSources: nat, need: int, r: seq<Allocation>)
    requires Pays(Candidates(balances, maxSources), need, r) && need > 0
    ensures (r == [] <==> (forall choice :: Covers(balances, choice, need) ==> |choice| > maxSources)) <==>
            Total(Candidates(balances, maxSources)) >= need || Total(Take(Largest(balances), maxSources)) < need
  {
    hide Sort, Eligible, Total, Candidates, Take, Largest;
    assert r == [] <==> Total(Candidates(balances, maxSources)) < need;
    SomeChoiceIff(balances, maxSources, need);
    CandidatesAreAChoice(balances, maxSources);
    if r != [] {
      assert Covers(balances, Candidates(balances, maxSources), need);
    }
  }

  lemma {:induction false} CandidatesAreAChoice(balances: seq<Balance>, maxSources: nat)
    ensures var from := Candidates(balances, maxSources);
            multiset(from) <= multiset(Eligible(balances)) && |from| <= maxSources
  {
    SortedShape(balances);
    TakeIsPart(Sort(Eligible(balances), Before), maxSources);
  }

  /** With no Arc balance it always does. */
  lemma {:induction false} NothingReturnedWithoutArc(balances: seq<Balance>, maxSources: nat, need: int, r: seq<Allocation>)
    requires Pays(Candidates(balances, maxSources), need, r) && need > 0 && Arcs(Eligible(balances)) == 0
    ensures r == [] <==> (forall choice :: Covers(balances, choice, need) ==> |choice| > maxSources)
  {
    hide Sort, Eligible, Total, Arcs, Take, Descending;
    var from := Candidates(balances, maxSources);
    assert r == [] <==> Total(from) < need;
    SortedShape(balances);
    if r == [] {
      forall choice | Covers(balances, choice, need) ensures |choice| > maxSources {
        if |choice| <= maxSources { TopCovers(Sort(Eligible(balances), Before), 0, choice, maxSources); }
      }
    } else {
      CandidatesAreAChoice(balances, maxSources);
      assert Covers(balances, from, need);
    }
  }

  /** With an Arc balance both can fail: Arc holds 1, another chain 10, and 10 are needed. One source
      would do, but two are used, and none is returned when only one is allowed. */
  lemma {:induction false} ArcCostsASource() returns (balances: seq<Balance>, choice: seq<Source>)
    ensures Covers(balances, choice, 10) && |choice| == 1
    ensures forall r :: Pays(Candidates(balances, 16), 10, r) ==> |r| == 2
    ensures forall r :: Pays(Candidates(balances, 1), 10, r) ==> r == []
  {
    var arc, other := Source(ARC_CHAIN_ID, 1, ""), Source(1, 10, "");
    balances := [Balance(Some(1), Some(10), ""), Balance(Some(ARC_CHAIN_ID), Some(1), "")];
    choice := [other];
    assert balances[1..][1..] == [];
    assert Eligible(balances[1..]) == [arc];
    assert Eligible(balances) == [other, arc];
    assert [other, arc][1..] == [arc] && [arc][1..] == [];
    assert Sort([arc], Before) == [arc];
    assert Sort([other, arc], Before) == [arc, other];
    assert [arc, other][1..] == [other] && [other][1..] == [];
    assert Total([other]) == 10 && Total([arc, other]) == 11;
    assert [arc, other][..1] == [arc] && Total([arc]) == 1;
    forall r | Pays([arc, other], 10, r) ensures |r| == 2 { OneAllocated(r); }
  }

  lemma {:induction false} OneAllocated(r: seq<Allocation>)
    ensures |r| == 1 ==> Allocated(r) == r[0].allocationRaw
  {
  }
}
