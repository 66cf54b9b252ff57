/** The action compiler: a plan of at most four actions becomes a batch of calls, with token
    approvals inserted only where the tracked allowance falls short and reset at the end. */
module CallCompiler {
  import opened Wrappers

  datatype Token = CENT | USDC | EURC | CIRBTC

  datatype Spender = LendingPool | Router

  datatype Pair = Pair(token: Token, spender: Spender)

  datatype PoolAction = Supply | Withdraw | Borrow | Repay

  /** Which spender an approve action names: none, one of the two allowed, or some other address. */
  datatype SpenderArg = DefaultSpender | Named(spender: Spender) | OtherAddress

  /** A planned action. `None` assets are symbols outside the token table; amounts are in base
      units, zero or below standing for text that is not a positive amount. */
  datatype Action =
    | ApproveAction(asset: Option<Token>, amount: int, to: SpenderArg)
    | PoolOperation(op: PoolAction, asset: Option<Token>, amount: int)
    | SwapAction(input: Option<Token>, output: Option<Token>, amountIn: int, fee: Option<int>, minOut: Option<int>)
    | TransferAction(target: string, asset: Option<Token>, amount: int)
    | VoteAction(proposalId: int, support: int)
    | UnknownAction(kind: string)

  datatype Call =
    | ApproveCall(pair: Pair, amount: int)
    | PoolCall(op: PoolAction, asset: Token, amount: int)
    | SwapCall(input: Token, output: Token, fee: int, amountIn: int, minOut: int)
    | TransferCall(account: string, asset: Token, amount: int)
    | VoteCall(proposalId: int, support: int)

  datatype Quote = Quote(fee: int, minOut: int)

  datatype Error =
    | ActionLimitExceeded
    | PolicyDenied
    | UnsupportedAsset
    | AmountNotPositive
    | SpenderNotAllowed
    | SwapDirection
    | NoQuote
    | UnsupportedFee
    | TransferRefused
    | BadSupport
    | UnsupportedAction
    | InvalidBatch

  /** Everything the compiler reads from outside: policy, chain, quoter and agent registry. */
  datatype Env = Env(
    allows: Action -> bool,
    onChain: Pair -> nat,
    quote: (Token, Token, int) -> Option<Quote>,
    accountOf: string -> Option<string>)

  /** The batch under construction. */
  datatype Batch = Batch(calls: seq<Call>, allowances: map<Pair, int>, cleanup: seq<Pair>)

  const MAX_CALLS := 32

  const FEES := {100, 500, 3000, 10000}

  function Track(cleanup: seq<Pair>, p: Pair): seq<Pair> {
    if p in cleanup then cleanup else cleanup + [p]
  }

  /** `ensureBatchAllowance`: approve exactly `amount` if what is left falls short, then use it up. */
  function EnsureAllowance(env: Env, b: Batch, p: Pair, amount: int): Batch {
    var remaining := if p in b.allowances then b.allowances[p] else env.onChain(p);
    if remaining < amount then
      Batch(b.calls + [ApproveCall(p, amount)], b.allowances[p := 0], Track(b.cleanup, p))
    else
      b.(allowances := b.allowances[p := remaining - amount])
  }

  function Emit(b: Batch, c: Call): Batch {
    b.(calls := b.calls + [c])
  }

  function SwapInto(env: Env, b: Batch, input: Token, output: Token, amountIn: int, fee: int, minOut: int): Batch {
    Emit(EnsureAllowance(env, b, Pair(input, Router), amountIn), SwapCall(input, output, fee, amountIn, minOut))
  }

  function CompileSwap(env: Env, b: Batch, a: Action): Result<Batch, Error>
    requires a.SwapAction?
  {
    if a.input.None? || a.output.None? then Err(UnsupportedAsset)
    else if a.input == a.output then Err(SwapDirection)
    else if a.amountIn <= 0 then Err(AmountNotPositive)
    else
      var quoted := env.quote(a.input.value, a.output.value, a.amountIn);
      if quoted.None? then Err(NoQuote)
      else
        var fee := if a.fee.Some? then a.fee.value else quoted.value.fee;
        if fee !in FEES then Err(UnsupportedFee)
        else if a.minOut.Some? && a.minOut.value <= 0 then Err(AmountNotPositive)
        else
          var minOut := if a.minOut.Some? then a.minOut.value else quoted.value.minOut;
          Ok(SwapInto(env, b, a.input.value, a.output.value, a.amountIn, fee, minOut))
  }

  function PullsTokens(op: PoolAction): bool {
    op == Supply || op == Repay
  }

  function CompileAction(env: Env, b: Batch, a: Action): Result<Batch, Error> {
    if !env.allows(a) then Err(PolicyDenied) else
    match a
    case ApproveAction(asset, amount, to) =>
      if asset.None? then Err(UnsupportedAsset)
      else if amount <= 0 then Err(AmountNotPositive)
      else if to.OtherAddress? then Err(SpenderNotAllowed)
      else
        var p := Pair(asset.value, if to.Named? then to.spender else LendingPool);
        Ok(Batch(b.calls + [ApproveCall(p, amount)], b.allowances[p := amount], Track(b.cleanup, p)))
    case PoolOperation(op, asset, amount) =>
      if asset.None? then Err(UnsupportedAsset)
      else if amount <= 0 then Err(AmountNotPositive)
      else
        var ready := if PullsTokens(op) then EnsureAllowance(env, b, Pair(asset.value, LendingPool), amount) else b;
        Ok(Emit(ready, PoolCall(op, asset.value, amount)))
    case SwapAction(_, _, _, _, _) =>
      CompileSwap(env, b, a)
    case TransferAction(target, asset, amount) =>
      var account := env.accountOf(target);
      if target == "" || account.None? then Err(TransferRefused)
      else if asset.None? then Err(UnsupportedAsset)
      else if amount <= 0 then Err(AmountNotPositive)
      else Ok(Emit(b, TransferCall(account.value, asset.value, amount)))
    case VoteAction(proposalId, support) =>
      if proposalId <= 0 then Err(AmountNotPositive)
      else if support !in {0, 1, 2} then Err(BadSupport)
      else Ok(Emit(b, VoteCall(proposalId, support)))
    case UnknownAction(_) =>
      Err(UnsupportedAction)
  }

  function CompileFrom(env: Env, b: Batch, actions: seq<Action>): Result<Batch, Error>
    decreases |actions|
  {
    if |actions| == 0 then
      Ok(b)
    else
      var next := CompileAction(env, b, actions[0]);
      if next.Err? then next else CompileFrom(env, next.value, actions[1..])
  }

  function Resets(cleanup: seq<Pair>): (r: seq<Call>)
    ensures |r| == |cleanup|
  {
    seq(|cleanup|, k requires 0 <= k < |cleanup| => ApproveCall(cleanup[k], 0))
  }

  function Empty(): Batch {
    Batch([], map[], [])
  }

  /** The configured action limit, between 1 and 4, 4 when unset. */
  function ActionLimit(configured: Option<int>): (r: int)
    ensures 1 <= r <= 4
    ensures configured.None? ==> r == 4
    ensures configured.Some? ==> r == configured.value || (configured.value < 1 && r == 1) || (configured.value > 4 && r == 4)
  {
    if configured.None? then 4
    else if configured.value < 1 then 1
    else if configured.value > 4 then 4
    else configured.value
  }

  function Compile(env: Env, actions: seq<Action>, maxActions: Option<int>): Result<seq<Call>, Error> {
    if |actions| == 0 then Ok([])
    else if |actions| > ActionLimit(maxActions) then Err(ActionLimitExceeded)
    else
      var r := CompileFrom(env, Empty(), actions);
      if r.Err? then Err(r.error)
      else
        var calls := r.value.calls + Resets(r.value.cleanup);
        if |calls| == 0 || |calls| > MAX_CALLS then Err(InvalidBatch) else Ok(calls)
  }

  // ---------- as it runs ----------

  class Builder {
    var calls: seq<Call>
    var allowanceState: map<Pair, int>
    var cleanupApprovals: seq<Pair>

    ghost function State(): Batch
      reads this
    {
      Batch(calls, allowanceState, cleanupApprovals)
    }

    constructor ()
      ensures State() == Empty()
    {
      calls, allowanceState, cleanupApprovals := [], map[], [];
    }

    method TrackCleanup(p: Pair)
      modifies this
      ensures State() == old(State()).(cleanup := Track(old(cleanupApprovals), p))
    {
      if p !in cleanupApprovals {
        cleanupApprovals := cleanupApprovals + [p];
      }
    }

    method EnsureBatchAllowance(env: Env, p: Pair, amount: int)
      modifies this
      ensures State() == EnsureAllowance(env, old(State()), p, amount)
    {
      var remaining: int;
      if p in allowanceState {
        remaining := allowanceState[p];
      } else {
        remaining := env.onChain(p);
      }
      if remaining < amount {
        calls := calls + [ApproveCall(p, amount)];
        TrackCleanup(p);
        remaining := amount;
      }
      remaining := remaining - amount;
      allowanceState := allowanceState[p := remaining];
    }

    /** One turn of the loop over the actions. On failure nothing built so far is returned. */
    method AddAction(env: Env, a: Action) returns (failure: Option<Error>)
      modifies this
      ensures failure.Some? ==> CompileAction(env, old(State()), a) == Err(failure.value)
      ensures failure.None? ==> CompileAction(env, old(State()), a) == Ok(State())
    {
      if !env.allows(a) {
        return Some(PolicyDenied);
      }
      match a {
        case ApproveAction(asset, amount, to) =>
          if asset.None? { return Some(UnsupportedAsset); }
          if amount <= 0 { return Some(AmountNotPositive); }
          if to.OtherAddress? { return Some(SpenderNotAllowed); }
          var p := Pair(asset.value, if to.Named? then to.spender else LendingPool);
          calls := calls + [ApproveCall(p, amount)];
          TrackCleanup(p);
          allowanceState := allowanceState[p := amount];
        case PoolOperation(op, asset, amount) =>
          if asset.None? { return Some(UnsupportedAsset); }
          if amount <= 0 { return Some(AmountNotPositive); }
          if PullsTokens(op) {
            EnsureBatchAllowance(env, Pair(asset.value, LendingPool), amount);
          }
          calls := calls + [PoolCall(op, asset.value, amount)];
        case SwapAction(input, output, amountIn, fixedFee, floor) =>
          if input.None? || output.None? { return Some(UnsupportedAsset); }
          if input == output { return Some(SwapDirection); }
          if amountIn <= 0 { return Some(AmountNotPositive); }
          var quoted := env.quote(input.value, output.value, amountIn);
          if quoted.None? { return Some(NoQuote); }
          var fee := if fixedFee.Some? then fixedFee.value else quoted.value.fee;
          if fee !in FEES { return Some(UnsupportedFee); }
          if floor.Some? && floor.value <= 0 { return Some(AmountNotPositive); }
          var minOut := if floor.Some? then floor.value else quoted.value.minOut;
          EnsureBatchAllowance(env, Pair(input.value, Router), amountIn);
          calls := calls + [SwapCall(input.value, output.value, fee, amountIn, minOut)];
        case TransferAction(target, asset, amount) =>
          var account := env.accountOf(target);
          if target == "" || account.None? { return Some(TransferRefused); }
          if asset.None? { return Some(UnsupportedAsset); }
          if amount <= 0 { return Some(AmountNotPositive); }
          calls := calls + [TransferCall(account.value, asset.value, amount)];
        case VoteAction(proposalId, support) =>
          if proposalId <= 0 { return Some(AmountNotPositive); }
          if support !in {0, 1, 2} { return Some(BadSupport); }
          calls := calls + [VoteCall(proposalId, support)];
        case UnknownAction(_) =>
          return Some(UnsupportedAction);
      }
      return None;
    }
  }

  method BuildCalls(env: Env, actions: seq<Action>, maxActions: Option<int>) returns (r: Result<seq<Call>, Error>)
    ensures r == Compile(env, actions, maxActions)
  {
    if |actions| == 0 {
      return Ok([]);
    }
    if |actions| > ActionLimit(maxActions) {
      return Err(ActionLimitExceeded);
    }
    var builder := new Builder();
    for i := 0 to |actions|
      invariant CompileFrom(env, builder.State(), actions[i..]) == CompileFrom(env, Empty(), actions)
    {
      assert actions[i..][0] == actions[i] && actions[i..][1..] == actions[i + 1..];
      var failure := builder.AddAction(env, actions[i]);
      if failure.Some? {
        return Err(failure.value);
      }
    }
    var calls := builder.calls + Resets(builder.cleanupApprovals);
    if |calls| == 0 || |calls| > MAX_CALLS {
      return Err(InvalidBatch);
    }
    return Ok(calls);
  }
}
