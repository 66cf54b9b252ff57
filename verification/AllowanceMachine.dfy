/** An abstract machine of token allowances, and the compiled batch replayed on it. */
module AllowanceMachine {
  import opened Wrappers
  import opened CallCompiler

  /** The current allowance of every pair and what has been pulled through it so far. */
  datatype Machine = Machine(allowance: Pair -> int, pulled: Pair -> int)

  function Start(env: Env): Machine {
    Machine((p: Pair) => env.onChain(p), (p: Pair) => 0)
  }

  /** The pair a call pulls tokens through, and at most how much. */
  function PullOf(c: Call): Option<(Pair, int)> {
    match c
    case PoolCall(op, asset, amount) => if op == Supply || op == Repay then Some((Pair(asset, LendingPool), amount)) else None
    case SwapCall(input, _, _, amountIn, _) => Some((Pair(input, Router), amountIn))
    case _ => None
  }

  /** Approvals overwrite; a pull is refused if the stated amount exceeds the allowance, and
      otherwise takes `pull`, at most the stated amount. */
  function Step(m: Machine, c: Call, pull: int): Option<Machine> {
    if c.ApproveCall? then
      Some(m.(allowance := (p: Pair) => if p == c.pair then c.amount else m.allowance(p)))
    else
      var taken := PullOf(c);
      if taken.None? then Some(m)
      else if m.allowance(taken.value.0) < taken.value.1 then None
      else
        Some(Machine((p: Pair) => if p == taken.value.0 then m.allowance(p) - pull else m.allowance(p),
                     (p: Pair) => if p == taken.value.0 then m.pulled(p) + pull else m.pulled(p)))
  }

  function Replay(m: Machine, calls: seq<Call>, pulls: seq<int>): Option<Machine>
    requires |calls| == |pulls|
    decreases |calls|
  {
    if |calls| == 0 then
      Some(m)
    else
      var next := Step(m, calls[0], pulls[0]);
      if next.None? then None else Replay(next.value, calls[1..], pulls[1..])
  }

  /** Every call takes between nothing and its stated amount. */
  ghost predicate Permitted(calls: seq<Call>, pulls: seq<int>) {
    && |calls| == |pulls|
    && forall k :: 0 <= k < |calls| && PullOf(calls[k]).Some? ==> 0 <= pulls[k] <= PullOf(calls[k]).value.1
  }

  lemma {:induction false} ReplayAppend(m: Machine, a: seq<Call>, pa: seq<int>, c: seq<Call>, pc: seq<int>)
    requires |a| == |pa| && |c| == |pc|
    ensures Replay(m, a + c, pa + pc) ==
            (var mid := Replay(m, a, pa); if mid.None? then None else Replay(mid.value, c, pc))
    decreases |a|
  {
    if |a| == 0 {
      assert a + c == c && pa + pc == pc;
    } else {
      assert (a + c)[1..] == a[1..] + c && (pa + pc)[1..] == pa[1..] + pc;
      var next := Step(m, a[0], pa[0]);
      if next.Some? {
        ReplayAppend(next.value, a[1..], pa[1..], c, pc);
      }
    }
  }

  // ---------- the invariant of the compiler against the machine ----------

  ghost predicate Approves(calls: seq<Call>, p: Pair) {
    exists k :: 0 <= k < |calls| && calls[k].ApproveCall? && calls[k].pair == p
  }

  /** The tracked allowance never exceeds the real one; pairs the batch never approved keep
      their starting value less what was pulled. */
  ghost predicate Tracks(env: Env, b: Batch, m: Machine) {
    forall p: Pair ::
      && (p in b.allowances ==> 0 <= b.allowances[p] <= m.allowance(p))
      && (p !in b.allowances ==> m.allowance(p) == env.onChain(p))
      && (p !in b.cleanup ==> m.allowance(p) == env.onChain(p) - m.pulled(p))
  }

  ghost predicate CleanupIsApproved(b: Batch) {
    && (forall p: Pair :: p in b.cleanup <==> Approves(b.calls, p))
    && (forall i, j :: 0 <= i < j < |b.cleanup| ==> b.cleanup[i] != b.cleanup[j])
  }

  /** One more call, one more step. */
  lemma {:induction false} ReplaySnoc(m: Machine, calls: seq<Call>, pulls: seq<int>, c: Call, pull: int)
    requires |calls| == |pulls|
    ensures Replay(m, calls + [c], pulls + [pull]) ==
            (var mid := Replay(m, calls, pulls); if mid.None? then None else Step(mid.value, c, pull))
  {
    ReplayAppend(m, calls, pulls, [c], [pull]);
    var mid := Replay(m, calls, pulls);
    if mid.Some? {
      var next := Step(mid.value, c, pull);
      if next.Some? { assert Replay(next.value, [c][1..], [pull][1..]) == next; }
    }
  }

  /** `calls` so far, replayed with any permitted pulls, reach a machine the batch tracks. */
  ghost predicate Sound(env: Env, b: Batch) {
    && CleanupIsApproved(b)
    && forall pulls: seq<int> :: Permitted(b.calls, pulls) ==>
         Replay(Start(env), b.calls, pulls).Some? && Tracks(env, b, Replay(Start(env), b.calls, pulls).value)
  }

  lemma {:induction false} SplitPulls(calls: seq<Call>, c: Call, pulls: seq<int>)
    requires Permitted(calls + [c], pulls)
    ensures |pulls| == |calls| + 1 && pulls == pulls[..|calls|] + [pulls[|calls|]]
    ensures Permitted(calls, pulls[..|calls|])
    ensures PullOf(c).Some? ==> 0 <= pulls[|calls|] <= PullOf(c).value.1
  {
    var n := |calls|;
    assert (calls + [c])[n] == c;
    forall k | 0 <= k < n && PullOf(calls[k]).Some? ensures 0 <= pulls[..n][k] <= PullOf(calls[k]).value.1 {
      assert (calls + [c])[k] == calls[k];
    }
  }

  lemma {:induction false} ApprovesSnoc(calls: seq<Call>, c: Call, p: Pair)
    ensures Approves(calls + [c], p) <==> Approves(calls, p) || (c.ApproveCall? && c.pair == p)
  {
    if Approves(calls, p) {
      var k :| 0 <= k < |calls| && calls[k].ApproveCall? && calls[k].pair == p;
      assert (calls + [c])[k] == calls[k];
    }
    if c.ApproveCall? && c.pair == p { assert (calls + [c])[|calls|] == c; }
  }

  /** An approval for a tracked amount keeps the batch sound. */
  lemma {:induction false} ApproveKeepsSound(env: Env, b: Batch, p: Pair, amount: int, left: int)
    requires Sound(env, b) && 0 <= left <= amount
    ensures Sound(env, Batch(b.calls + [ApproveCall(p, amount)], b.allowances[p := left], Track(b.cleanup, p)))
  {
    var c := ApproveCall(p, amount);
    var b' := Batch(b.calls + [c], b.allowances[p := left], Track(b.cleanup, p));
    forall q: Pair ensures q in b'.cleanup <==> Approves(b'.calls, q) { ApprovesSnoc(b.calls, c, q); }
    forall pulls: seq<int> | Permitted(b'.calls, pulls)
      ensures Replay(Start(env), b'.calls, pulls).Some? && Tracks(env, b', Replay(Start(env), b'.calls, pulls).value)
    {
      SplitPulls(b.calls, c, pulls);
      ReplaySnoc(Start(env), b.calls, pulls[..|b.calls|], c, pulls[|b.calls|]);
    }
  }

  /** A call that neither approves nor pulls keeps the batch sound. */
  lemma {:induction false} OtherKeepsSound(env: Env, b: Batch, c: Call)
    requires Sound(env, b) && !c.ApproveCall? && PullOf(c).None?
    ensures Sound(env, Emit(b, c))
  {
    var b' := Emit(b, c);
    forall q: Pair ensures q in b'.cleanup <==> Approves(b'.calls, q) { ApprovesSnoc(b.calls, c, q); }
    forall pulls: seq<int> | Permitted(b'.calls, pulls)
      ensures Replay(Start(env), b'.calls, pulls).Some? && Tracks(env, b', Replay(Start(env), b'.calls, pulls).value)
    {
      SplitPulls(b.calls, c, pulls);
      ReplaySnoc(Start(env), b.calls, pulls[..|b.calls|], c, pulls[|b.calls|]);
    }
  }

  /** A pull of a tracked amount succeeds, and using the tracked amount up keeps the batch sound. */
  lemma {:induction false} PullKeepsSound(env: Env, b: Batch, c: Call, allowances: map<Pair, int>)
    requires Sound(env, b) && PullOf(c).Some?
    requires var (p, amount) := PullOf(c).value;
             var remaining := if p in b.allowances then b.allowances[p] else env.onChain(p);
             0 <= amount <= remaining && allowances == b.allowances[p := remaining - amount]
    ensures Sound(env, Emit(b.(allowances := allowances), c))
  {
    var b' := Emit(b.(allowances := allowances), c);
    forall q: Pair ensures q in b'.cleanup <==> Approves(b'.calls, q) { ApprovesSnoc(b.calls, c, q); }
    forall pulls: seq<int> | Permitted(b'.calls, pulls)
      ensures Replay(Start(env), b'.calls, pulls).Some? && Tracks(env, b', Replay(Start(env), b'.calls, pulls).value)
    {
      SplitPulls(b.calls, c, pulls);
      ReplaySnoc(Start(env), b.calls, pulls[..|b.calls|], c, pulls[|b.calls|]);
    }
  }

  /** `ensureBatchAllowance` followed by the pull it was for. */
  lemma {:induction false} EnsureThenPull(env: Env, b: Batch, c: Call)
    requires Sound(env, b) && PullOf(c).Some? && PullOf(c).value.1 > 0
    ensures Sound(env, Emit(EnsureAllowance(env, b, PullOf(c).value.0, PullOf(c).value.1), c))
  {
    hide Sound;
    var (p, amount) := PullOf(c).value;
    var remaining := if p in b.allowances then b.allowances[p] else env.onChain(p);
    if remaining < amount {
      ApproveKeepsSound(env, b, p, amount, amount);
      var approved := Batch(b.calls + [ApproveCall(p, amount)], b.allowances[p := amount], Track(b.cleanup, p));
      PullKeepsSound(env, approved, c, approved.allowances[p := 0]);
      assert approved.allowances[p := 0] == b.allowances[p := 0];
    } else {
      PullKeepsSound(env, b, c, b.allowances[p := remaining - amount]);
    }
  }

  lemma {:induction false} ActionKeepsSound(env: Env, b: Batch, a: Action)
    requires Sound(env, b) && CompileAction(env, b, a).Ok?
    ensures Sound(env, CompileAction(env, b, a).value)
  {
    hide Sound, EnsureAllowance;
    match a
    case ApproveAction(asset, amount, to) =>
      ApproveKeepsSound(env, b, Pair(asset.value, if to.Named? then to.spender else LendingPool), amount, amount);
    case PoolOperation(op, asset, amount) =>
      if PullsTokens(op) { EnsureThenPull(env, b, PoolCall(op, asset.value, amount)); }
      else { OtherKeepsSound(env, b, PoolCall(op, asset.value, amount)); }
    case SwapAction(input, output, amountIn, fixedFee, floor) =>
      var quoted := env.quote(input.value, output.value, amountIn).value;
      EnsureThenPull(env, b, SwapCall(input.value, output.value, if fixedFee.Some? then fixedFee.value else quoted.fee, amountIn,
                                      if floor.Some? then floor.value else quoted.minOut));
    case TransferAction(target, asset, amount) =>
      OtherKeepsSound(env, b, TransferCall(env.accountOf(target).value, asset.value, amount));
    case VoteAction(proposalId, support) =>
      OtherKeepsSound(env, b, VoteCall(proposalId, support));
    case UnknownAction(_) =>
  }

  lemma {:induction false} CompileKeepsSound(env: Env, b: Batch, actions: seq<Action>)
    requires Sound(env, b) && CompileFrom(env, b, actions).Ok?
    ensures Sound(env, CompileFrom(env, b, actions).value)
    decreases |actions|
  {
    hide Sound, CompileAction;
    if |actions| > 0 {
      ActionKeepsSound(env, b, actions[0]);
      CompileKeepsSound(env, CompileAction(env, b, actions[0]).value, actions[1..]);
    }
  }

  // ---------- the whole batch ----------

  /** Resetting distinct pairs zeroes exactly those allowances. */
  lemma {:induction false} ResetsReplay(m: Machine, cleanup: seq<Pair>, pulls: seq<int>)
    requires |pulls| == |cleanup|
    ensures Replay(m, Resets(cleanup), pulls).Some?
    ensures var end := Replay(m, Resets(cleanup), pulls).value;
            && end.pulled == m.pulled
            && forall p: Pair :: end.allowance(p) == if p in cleanup then 0 else m.allowance(p)
    decreases |cleanup|
  {
    if |cleanup| > 0 {
      var next := Step(m, Resets(cleanup)[0], pulls[0]).value;
      assert Resets(cleanup)[1..] == Resets(cleanup[1..]);
      ResetsReplay(next, cleanup[1..], pulls[1..]);
    }
  }

  lemma {:induction false} CompiledFrom(env: Env, actions: seq<Action>, maxActions: Option<int>) returns (b: Batch)
    requires Compile(env, actions, maxActions).Ok? && |actions| > 0
    ensures CompileFrom(env, Empty(), actions) == Ok(b)
    ensures Compile(env, actions, maxActions).value == b.calls + Resets(b.cleanup)
    ensures Sound(env, b)
  {
    b := CompileFrom(env, Empty(), actions).value;
    CompileKeepsSound(env, Empty(), actions);
  }

  lemma {:induction false} ResetsApprove(b: Batch, p: Pair)
    requires CleanupIsApproved(b)
    ensures Approves(b.calls + Resets(b.cleanup), p) <==> p in b.cleanup
  {
    var calls := b.calls + Resets(b.cleanup);
    if Approves(b.calls, p) {
      var k :| 0 <= k < |b.calls| && b.calls[k].ApproveCall? && b.calls[k].pair == p;
      assert calls[k] == b.calls[k];
    }
    forall k | 0 <= k < |calls| && calls[k].ApproveCall? && calls[k].pair == p ensures p in b.cleanup {
      if k < |b.calls| { assert calls[k] == b.calls[k]; } else { assert b.cleanup[k - |b.calls|] == p; }
    }
  }

  /** No supply, repay or swap ever asks for more than its allowance, whatever the earlier ones
      took; at the end every pair the batch approved is at zero and every other pair is at its
      starting value less what was pulled through it. */
  lemma {:induction false} BatchSafe(env: Env, actions: seq<Action>, maxActions: Option<int>, pulls: seq<int>)
    requires Compile(env, actions, maxActions).Ok?
    requires Permitted(Compile(env, actions, maxActions).value, pulls)
    ensures var calls := Compile(env, actions, maxActions).value;
            && Replay(Start(env), calls, pulls).Some?
            && var end := Replay(Start(env), calls, pulls).value;
               forall p: Pair :: end.allowance(p) == if Approves(calls, p) then 0 else env.onChain(p) - end.pulled(p)
  {
    hide Compile;
    var calls := Compile(env, actions, maxActions).value;
    if |actions| == 0 {
      assert calls == [] by { NothingToDo(env, maxActions); assert actions == []; }
    } else {
      var b := CompiledFrom(env, actions, maxActions);
      var n := |b.calls|;
      assert pulls == pulls[..n] + pulls[n..];
      forall k | 0 <= k < n && PullOf(b.calls[k]).Some? ensures 0 <= pulls[..n][k] <= PullOf(b.calls[k]).value.1 {
        assert calls[k] == b.calls[k];
      }
      ReplayAppend(Start(env), b.calls, pulls[..n], Resets(b.cleanup), pulls[n..]);
      ResetsReplay(Replay(Start(env), b.calls, pulls[..n]).value, b.cleanup, pulls[n..]);
      forall p: Pair ensures Approves(calls, p) <==> p in b.cleanup { ResetsApprove(b, p); }
    }
  }

  lemma {:induction false} NothingToDo(env: Env, maxActions: Option<int>)
    ensures Compile(env, [], maxActions) == Ok([])
  {
  }

  // ---------- the size of the batch ----------

  lemma {:induction false} BatchSize(env: Env, b: Batch, actions: seq<Action>)
    requires CompileFrom(env, b, actions).Ok?
    ensures var b' := CompileFrom(env, b, actions).value;
            && |b.calls| + |actions| <= |b'.calls| <= |b.calls| + 2 * |actions|
            && |b'.cleanup| <= |b.cleanup| + |actions|
    decreases |actions|
  {
    if |actions| > 0 {
      BatchSize(env, CompileAction(env, b, actions[0]).value, actions[1..]);
    }
  }

  /** Between one and three calls an action, so the size check at the end never fires. */
  lemma {:induction false} SizeGuardNeverFires(env: Env, actions: seq<Action>, maxActions: Option<int>)
    ensures Compile(env, actions, maxActions) != Err(InvalidBatch)
    ensures Compile(env, actions, maxActions).Ok? ==>
              |actions| <= |Compile(env, actions, maxActions).value| <= 3 * |actions|
  {
    if |actions| > 0 {
      var r := CompileFrom(env, Empty(), actions);
      if r.Ok? {
        BatchSize(env, Empty(), actions);
      } else {
        NoInvalidBatch(env, Empty(), actions);
      }
    }
  }

  lemma {:induction false} NoInvalidBatch(env: Env, b: Batch, actions: seq<Action>)
    ensures CompileFrom(env, b, actions) != Err(InvalidBatch)
    decreases |actions|
  {
    if |actions| > 0 && CompileAction(env, b, actions[0]).Ok? {
      NoInvalidBatch(env, CompileAction(env, b, actions[0]).value, actions[1..]);
    }
  }

  // ---------- approvals only when needed ----------

  /** What an action pulls, and through which pair. */
  function ActionPull(a: Action): Option<(Pair, int)> {
    match a
    case PoolOperation(op, asset, amount) =>
      if PullsTokens(op) && asset.Some? && amount > 0 then Some((Pair(asset.value, LendingPool), amount)) else None
    case SwapAction(input, _, amountIn, _, _) =>
      if input.Some? && amountIn > 0 then Some((Pair(input.value, Router), amountIn)) else None
    case _ => None
  }

  /** The total a plan pulls through a pair. */
  function Demand(actions: seq<Action>, p: Pair): (d: int)
    ensures d >= 0
  {
    if |actions| == 0 then
      0
    else
      var pull := ActionPull(actions[0]);
      (if pull.Some? && pull.value.0 == p then pull.value.1 else 0) + Demand(actions[1..], p)
  }

  function Remaining(env: Env, b: Batch, p: Pair): int {
    if p in b.allowances then b.allowances[p] else env.onChain(p)
  }

  ghost predicate NoApproval(calls: seq<Call>) {
    forall k :: 0 <= k < |calls| ==> !calls[k].ApproveCall?
  }

  /** One action without an explicit approval: an approval is emitted exactly when its pull
      exceeds what remains, and otherwise only that pull is used up. */
  lemma {:induction false} ActionApproval(env: Env, b: Batch, a: Action)
    requires CompileAction(env, b, a).Ok? && !a.ApproveAction? && NoApproval(b.calls)
    ensures var b', pull := CompileAction(env, b, a).value, ActionPull(a);
            && b.calls <= b'.calls
            && (NoApproval(b'.calls) <==> pull.None? || pull.value.1 <= Remaining(env, b, pull.value.0))
            && (NoApproval(b'.calls) ==>
                  forall p: Pair :: Remaining(env, b', p) ==
                    Remaining(env, b, p) - (if pull.Some? && pull.value.0 == p then pull.value.1 else 0))
  {
    var b', pull := CompileAction(env, b, a).value, ActionPull(a);
    if pull.Some? && pull.value.1 > Remaining(env, b, pull.value.0) {
      assert b'.calls[|b.calls|].ApproveCall?;
    }
  }

  lemma {:induction false} CallsGrow(env: Env, b: Batch, actions: seq<Action>)
    requires CompileFrom(env, b, actions).Ok?
    ensures b.calls <= CompileFrom(env, b, actions).value.calls
    decreases |actions|
  {
    if |actions| > 0 {
      CallsGrow(env, CompileAction(env, b, actions[0]).value, actions[1..]);
    }
  }

  lemma {:induction false} ApprovalsNeeded(env: Env, b: Batch, actions: seq<Action>)
    requires CompileFrom(env, b, actions).Ok? && NoApproval(b.calls)
    requires forall a :: a in actions ==> !a.ApproveAction?
    requires forall p: Pair :: Remaining(env, b, p) >= 0
    ensures NoApproval(CompileFrom(env, b, actions).value.calls) <==>
            forall p: Pair :: Demand(actions, p) <= Remaining(env, b, p)
    decreases |actions|
  {
    hide CompileAction;
    if |actions| > 0 {
      var b', pull := CompileAction(env, b, actions[0]).value, ActionPull(actions[0]);
      assert actions[0] in actions;
      ActionApproval(env, b, actions[0]);
      CallsGrow(env, b', actions[1..]);
      assert forall p: Pair :: Demand(actions, p) == (if pull.Some? && pull.value.0 == p then pull.value.1 else 0) + Demand(actions[1..], p);
      if NoApproval(b'.calls) {
        ApprovalsNeeded(env, b', actions[1..]);
      } else {
        var k :| 0 <= k < |b'.calls| && b'.calls[k].ApproveCall?;
        assert CompileFrom(env, b, actions).value.calls[k] == b'.calls[k];
        assert Demand(actions, pull.value.0) > Remaining(env, b, pull.value.0);
      }
    }
  }

  /** A plan without explicit approvals compiles to a batch without any approval, the resets
      included, exactly when the on-chain allowances already cover everything it pulls. */
  lemma {:induction false} ApprovalFreeIff(env: Env, actions: seq<Action>, maxActions: Option<int>)
    requires Compile(env, actions, maxActions).Ok?
    requires forall a :: a in actions ==> !a.ApproveAction?
    ensures NoApproval(Compile(env, actions, maxActions).value) <==>
            forall p: Pair :: Demand(actions, p) <= env.onChain(p)
  {
    if |actions| > 0 {
      var b := CompiledFrom(env, actions, maxActions);
      ApprovalsNeeded(env, Empty(), actions);
      assert forall p: Pair :: Remaining(env, Empty(), p) == env.onChain(p);
      var calls := b.calls + Resets(b.cleanup);
      assert forall i :: 0 <= i < |b.cleanup| ==> b.cleanup[i] in b.cleanup;
      if NoApproval(b.calls) {
        forall p: Pair ensures p !in b.cleanup { assert !Approves(b.calls, p); }
      } else {
        var k :| 0 <= k < |b.calls| && b.calls[k].ApproveCall?;
        assert calls[k].ApproveCall?;
      }
    }
  }
}
