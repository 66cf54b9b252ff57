/** What the compiled calls do: one call an action, the one it asks for, behind an approval of exactly
    its amount where one is needed, and the resets at the end. */
module CallMeaning {
  import opened Wrappers
  import opened CallCompiler
  import opened AllowanceMachine

  /** Call `c` does what action `a` asks for. */
  ghost predicate Performs(env: Env, a: Action, c: Call) {
    match a
    case ApproveAction(asset, amount, to) =>
      && c.ApproveCall? && Some(c.pair.token) == asset && c.amount == amount
      && (if to.Named? then c.pair.spender == to.spender else c.pair.spender == LendingPool)
    case PoolOperation(op, asset, amount) =>
      c.PoolCall? && c.op == op && Some(c.asset) == asset && c.amount == amount
    case SwapAction(input, output, amountIn, fee, minOut) =>
      && c.SwapCall? && Some(c.input) == input && Some(c.output) == output && c.amountIn == amountIn
      && env.quote(c.input, c.output, amountIn).Some?
      && var quoted := env.quote(c.input, c.output, amountIn).value;
         && c.fee == (if fee.Some? then fee.value else quoted.fee)
         && c.minOut == (if minOut.Some? then minOut.value else quoted.minOut)
    case TransferAction(target, asset, amount) =>
      c.TransferCall? && Some(c.account) == env.accountOf(target) && Some(c.asset) == asset && c.amount == amount
    case VoteAction(proposalId, support) =>
      c == VoteCall(proposalId, support)
    case UnknownAction(_) => false
  }

  /** What a plan may contain: each action is allowed by the policy and can be carried out as stated. */
  ghost predicate Acceptable(env: Env, a: Action) {
    && env.allows(a)
    && match a
       case ApproveAction(asset, amount, to) => asset.Some? && amount >= 1 && !to.OtherAddress?
       case PoolOperation(_, asset, amount) => asset.Some? && amount >= 1
       case SwapAction(input, output, amountIn, fee, minOut) =>
         && input.Some? && output.Some? && input.value != output.value && amountIn >= 1
         && (minOut.Some? ==> minOut.value >= 1)
         && env.quote(input.value, output.value, amountIn).Some?
         && var paid := if fee.Some? then fee.value else env.quote(input.value, output.value, amountIn).value.fee;
            paid == 100 || paid == 500 || paid == 3000 || paid == 10000
       case TransferAction(target, asset, amount) => target != "" && env.accountOf(target).Some? && asset.Some? && amount >= 1
       case VoteAction(proposalId, support) => proposalId >= 1 && 0 <= support <= 2
       case UnknownAction(_) => false
  }

  /** The call before `own` approves exactly what `own` pulls. */
  ghost predicate ApprovesFor(approval: Call, own: Call) {
    || (own.SwapCall? && approval == ApproveCall(Pair(own.input, Router), own.amountIn))
    || (own.PoolCall? && (own.op == Supply || own.op == Repay) && approval == ApproveCall(Pair(own.asset, LendingPool), own.amount))
  }

  ghost predicate Emits(env: Env, a: Action, emitted: seq<Call>) {
    && 1 <= |emitted| <= 2
    && Performs(env, a, emitted[|emitted| - 1])
    && (|emitted| == 2 ==> ApprovesFor(emitted[0], emitted[1]))
  }

  lemma {:induction false} AcceptableIff(env: Env, b: Batch, a: Action)
    ensures CompileAction(env, b, a).Ok? <==> Acceptable(env, a)
    ensures CompileAction(env, b, a) == Err(PolicyDenied) <==> !env.allows(a)
  {
    hide EnsureAllowance, Emit;
  }

  /** What is wrong with an action has nothing to do with the batch so far. */
  lemma {:induction false} SameRefusal(env: Env, b: Batch, a: Action)
    ensures CompileAction(env, b, a).Err? ==> CompileAction(env, b, a) == CompileAction(env, Empty(), a)
  {
    hide EnsureAllowance, Emit;
  }

  lemma {:induction false} ActionEmits(env: Env, b: Batch, a: Action)
    requires CompileAction(env, b, a).Ok?
    ensures var b' := CompileAction(env, b, a).value; b.calls <= b'.calls && Emits(env, a, b'.calls[|b.calls|..])
  {
  }

  /** The call at `at` is that of action `a`, right after `before` or with one approval for it between. */
  ghost predicate OwnAt(env: Env, a: Action, calls: seq<Call>, before: int, at: int) {
    && 0 <= before + 1 <= at < |calls| && Performs(env, a, calls[at])
    && (at == before + 1 || (at == before + 2 && ApprovesFor(calls[at - 1], calls[at])))
  }

  function Before(own: seq<int>, i: nat, from: int): int
    requires i < |own|
  {
    if i == 0 then from - 1 else own[i - 1]
  }

  /** `own[i]` is the index of the call of action `i`, for all actions in order, starting at `from`. */
  ghost predicate OwnCalls(env: Env, actions: seq<Action>, calls: seq<Call>, own: seq<int>, from: int) {
    && |own| == |actions|
    && forall i :: 0 <= i < |own| ==> OwnAt(env, actions[i], calls, Before(own, i, from), own[i])
  }

  lemma {:induction false} FromMeans(env: Env, b: Batch, actions: seq<Action>) returns (own: seq<int>)
    requires CompileFrom(env, b, actions).Ok?
    ensures var calls := CompileFrom(env, b, actions).value.calls;
            && b.calls <= calls && OwnCalls(env, actions, calls, own, |b.calls|)
            && |calls| == if |own| == 0 then |b.calls| else own[|own| - 1] + 1
    decreases |actions|
  {
    hide CompileAction, OwnAt, Acceptable;
    own := [];
    if |actions| > 0 {
      ActionEmits(env, b, actions[0]);
      var next := CompileAction(env, b, actions[0]).value;
      var rest := FromMeans(env, next, actions[1..]);
      own := [|next.calls| - 1] + rest;
      Prepend(env, b, next, actions, CompileFrom(env, b, actions).value.calls, rest);
    }
  }

  lemma {:induction false} HeadOwn(env: Env, b: Batch, next: Batch, a: Action, calls: seq<Call>)
    requires b.calls <= next.calls <= calls && Emits(env, a, next.calls[|b.calls|..])
    ensures OwnAt(env, a, calls, |b.calls| - 1, |next.calls| - 1)
  {
    hide Performs, ApprovesFor;
    var emitted := next.calls[|b.calls|..];
    assert emitted[|emitted| - 1] == calls[|next.calls| - 1];
    if |emitted| == 2 { assert emitted[0] == calls[|next.calls| - 2]; }
  }

  lemma {:induction false} Prepend(env: Env, b: Batch, next: Batch, actions: seq<Action>, calls: seq<Call>, rest: seq<int>)
    requires |actions| > 0 && b.calls <= next.calls <= calls && Emits(env, actions[0], next.calls[|b.calls|..])
    requires OwnCalls(env, actions[1..], calls, rest, |next.calls|)
    ensures OwnCalls(env, actions, calls, [|next.calls| - 1] + rest, |b.calls|)
  {
    hide OwnAt, Emits;
    var own := [|next.calls| - 1] + rest;
    HeadOwn(env, b, next, actions[0], calls);
    forall i | 1 <= i < |own| ensures OwnAt(env, actions[i], calls, Before(own, i, |b.calls|), own[i]) {
      assert OwnAt(env, actions[1..][i - 1], calls, Before(rest, i - 1, |next.calls|), rest[i - 1]);
      assert Before(own, i, |b.calls|) == Before(rest, i - 1, |next.calls|);
    }
  }

  /** The pairs approved by `calls`, in the order of their first approval. */
  function Approved(calls: seq<Call>): seq<Pair>
    decreases |calls|
  {
    if |calls| == 0 then []
    else
      var before, last := Approved(calls[..|calls| - 1]), calls[|calls| - 1];
      if last.ApproveCall? && last.pair !in before then before + [last.pair] else before
  }

  lemma {:induction false} ApprovedSnoc(calls: seq<Call>, c: Call)
    ensures Approved(calls + [c]) == if c.ApproveCall? then Track(Approved(calls), c.pair) else Approved(calls)
  {
    assert (calls + [c])[..|calls|] == calls;
  }

  lemma {:induction false} ActionTracks(env: Env, b: Batch, a: Action)
    requires CompileAction(env, b, a).Ok? && b.cleanup == Approved(b.calls)
    ensures CompileAction(env, b, a).value.cleanup == Approved(CompileAction(env, b, a).value.calls)
  {
    hide Approved;
    var b' := CompileAction(env, b, a).value;
    ActionEmits(env, b, a);
    var n := |b.calls|;
    ApprovedSnoc(b.calls, b'.calls[n]);
    assert b'.calls[..n + 1] == b.calls + [b'.calls[n]];
    if |b'.calls| == n + 2 {
      ApprovedSnoc(b.calls + [b'.calls[n]], b'.calls[n + 1]);
      assert b'.calls == b.calls + [b'.calls[n]] + [b'.calls[n + 1]];
    } else {
      assert b'.calls == b.calls + [b'.calls[n]];
    }
  }

  lemma {:induction false} FromTracks(env: Env, b: Batch, actions: seq<Action>)
    requires CompileFrom(env, b, actions).Ok? && b.cleanup == Approved(b.calls)
    ensures CompileFrom(env, b, actions).value.cleanup == Approved(CompileFrom(env, b, actions).value.calls)
    decreases |actions|
  {
    hide CompileAction, Approved;
    if |actions| > 0 {
      ActionTracks(env, b, actions[0]);
      FromTracks(env, CompileAction(env, b, actions[0]).value, actions[1..]);
    }
  }

  /** A compiled batch: the calls of the actions, in order, one each and the right one, with at most an
      approval of exactly its amount before it; then a reset to zero for every pair approved, in the
      order of the first approvals. */
  lemma {:induction false} BatchPerforms(env: Env, actions: seq<Action>, maxActions: Option<int>) returns (own: seq<int>)
    requires Compile(env, actions, maxActions).Ok? && |actions| > 0
    ensures var calls := Compile(env, actions, maxActions).value;
            && OwnCalls(env, actions, calls, own, 0)
            && var end := own[|own| - 1] + 1;
               var approved := Approved(calls[..end]);
               && |calls| == end + |approved|
               && forall k :: 0 <= k < |approved| ==> calls[end + k] == ApproveCall(approved[k], 0)
  {
    hide CompileFrom, Performs, ApprovesFor, Approved;
    var r := CompileFrom(env, Empty(), actions);
    assert Approved([]) == [] by { NothingApproved(); }
    own := FromMeans(env, Empty(), actions);
    FromTracks(env, Empty(), actions);
    var calls := Compile(env, actions, maxActions).value;
    assert calls[..|r.value.calls|] == r.value.calls;
    forall i | 0 <= i < |own| ensures OwnAt(env, actions[i], calls, Before(own, i, 0), own[i]) {
      assert OwnAt(env, actions[i], r.value.calls, Before(own, i, 0), own[i]);
    }
  }

  lemma {:induction false} NothingApproved()
    ensures Approved([]) == []
  {
  }

  /** A plan compiles exactly if it is short enough and every action is acceptable by itself. Otherwise
      it is refused for its length, or for the first action that is not, whatever came before it. */
  lemma {:induction false} CompilesIff(env: Env, actions: seq<Action>, maxActions: Option<int>)
    ensures Compile(env, actions, maxActions).Ok? <==>
            |actions| <= ActionLimit(maxActions) && forall i :: 0 <= i < |actions| ==> Acceptable(env, actions[i])
    ensures |actions| > ActionLimit(maxActions) ==> Compile(env, actions, maxActions) == Err(ActionLimitExceeded)
    ensures Compile(env, actions, maxActions).Err? && |actions| <= ActionLimit(maxActions) ==>
              exists k :: 0 <= k < |actions| && FirstRefused(env, actions, k, Compile(env, actions, maxActions).error)
  {
    hide Acceptable, CompileFrom, FirstRefused;
    FromIff(env, Empty(), actions);
    SizeGuardNeverFires(env, actions, maxActions);
  }

  /** Action `k` is the first that is not acceptable, and `e` is what is wrong with it alone. */
  ghost predicate FirstRefused(env: Env, actions: seq<Action>, k: int, e: Error)
    requires 0 <= k < |actions|
  {
    && (forall i :: 0 <= i < k ==> Acceptable(env, actions[i]))
    && !Acceptable(env, actions[k]) && CompileAction(env, Empty(), actions[k]) == Err(e)
    && (e == PolicyDenied <==> !env.allows(actions[k])) && Complains(env, actions[k], e)
  }

  /** `e` names something that is wrong with the action. */
  ghost predicate Complains(env: Env, a: Action, e: Error) {
    match e
    case PolicyDenied => !env.allows(a)
    case UnsupportedAsset =>
      || ((a.ApproveAction? || a.PoolOperation? || a.TransferAction?) && a.asset.None?)
      || (a.SwapAction? && (a.input.None? || a.output.None?))
    case AmountNotPositive =>
      || ((a.ApproveAction? || a.PoolOperation? || a.TransferAction?) && a.amount <= 0)
      || (a.SwapAction? && (a.amountIn <= 0 || (a.minOut.Some? && a.minOut.value <= 0)))
      || (a.VoteAction? && a.proposalId <= 0)
    case SpenderNotAllowed => a.ApproveAction? && a.to.OtherAddress?
    case SwapDirection => a.SwapAction? && a.input == a.output
    case NoQuote => a.SwapAction? && a.input.Some? && a.output.Some? && env.quote(a.input.value, a.output.value, a.amountIn).None?
    case UnsupportedFee => a.SwapAction? && !Acceptable(env, a)
    case TransferRefused => a.TransferAction? && (a.target == "" || env.accountOf(a.target).None?)
    case BadSupport => a.VoteAction? && (a.support < 0 || a.support > 2)
    case UnsupportedAction => a.UnknownAction?
    case _ => false
  }

  lemma {:induction false} RefusalComplains(env: Env, b: Batch, a: Action)
    requires CompileAction(env, b, a).Err?
    ensures Complains(env, a, CompileAction(env, b, a).error)
  {
    hide EnsureAllowance, Emit;
  }

  lemma {:induction false} FromIff(env: Env, b: Batch, actions: seq<Action>)
    ensures CompileFrom(env, b, actions).Ok? <==> forall i :: 0 <= i < |actions| ==> Acceptable(env, actions[i])
    ensures CompileFrom(env, b, actions).Err? ==>
              exists k :: 0 <= k < |actions| && FirstRefused(env, actions, k, CompileFrom(env, b, actions).error)
    decreases |actions|
  {
    hide CompileAction, Acceptable, Complains;
    if |actions| > 0 {
      AcceptableIff(env, b, actions[0]);
      var first := CompileAction(env, b, actions[0]);
      if first.Err? {
        SameRefusal(env, b, actions[0]);
        RefusalComplains(env, b, actions[0]);
        assert FirstRefused(env, actions, 0, first.error);
      } else {
        FromIff(env, first.value, actions[1..]);
        assert forall i :: 1 <= i < |actions| ==> actions[i] == actions[1..][i - 1];
        if k :| 0 <= k < |actions| - 1 && CompileFrom(env, b, actions).Err?
                && FirstRefused(env, actions[1..], k, CompileFrom(env, b, actions).error) {
          assert FirstRefused(env, actions, k + 1, CompileFrom(env, b, actions).error);
        }
      }
    }
  }
}
