/**
 The AMM client helpers with the contract calls abstracted away. Every call a
 helper makes is a `Call`; the chain's answer to it is given by a `Node`
 function; a write helper returns the calls it issued together with its
 outcome, so the approve-then-call order is visible in its result.
 */
module Amm {
  import opened Wrappers
  import AmmEvents
  import ArrayFind

  /** A value in a decoded contract return: an address or bytes32 as text, or an unsigned integer. */
  datatype AbiValue = Text(text: string) | Word(word: int)

  datatype Call =
    | Approve(token: string, spender: string, amount: int)
    | CreatePoolTx(tokenA: string, tokenB: string, amountA: int, amountB: int)
    | AddLiquidityTx(poolId: string, amount0: int, amount1: int)
    | RemoveLiquidityTx(poolId: string, liquidity: int)
    | SwapTx(poolId: string, tokenIn: string, amountIn: int, minAmountOut: int, recipient: string)
    | GetPoolRead(poolId: string)
    | LpBalanceRead(poolId: string, user: string)
    | PoolIdRead(tokenA: string, tokenB: string, feeBps: int)
    | PoolCreatedQuery(fromBlock: int)

  datatype Reply =
    | Reverted                                  // the call threw
    | Sent                                      // a transaction was submitted
    | Mined(receipt: AmmEvents.Receipt)         // submitted, and `tx.wait()` gave this receipt
    | Values(values: seq<AbiValue>)             // a read returned these values
    | Events(events: seq<AmmEvents.AmmEvent>)   // an event query returned these events

  /** The chain as the helpers observe it: the reply to each call. */
  type Node = Call -> Reply

  datatype Outcome<T> = Returned(value: T) | Threw

  /** The calls a helper issued, in order, and how it ended. */
  datatype Run<T> = Run(calls: seq<Call>, outcome: Outcome<T>)

  /** The two tokens at positions 0 and 1 of a `getPool` reply, as `addLiquidity` reads them. */
  function PoolTokens(reply: Reply): (r: Option<(string, string)>)
    ensures r.Some? <==> reply.Values? && |reply.values| >= 2 && reply.values[0].Text? && reply.values[1].Text?
    ensures r.Some? ==> r.value.0 == reply.values[0].text && r.value.1 == reply.values[1].text
  {
    if reply.Values? && |reply.values| >= 2 && reply.values[0].Text? && reply.values[1].Text?
    then Some((reply.values[0].text, reply.values[1].text))
    else None
  }

  /**
   True iff `call` stops the helper that issues it: an approval whose
   submission throws, a pool read with no token pair, or a transaction that
   does not come back mined.
   */
  predicate Rejected(node: Node, call: Call) {
    match call
    case Approve(_, _, _) => node(call).Reverted?
    case GetPoolRead(_) => PoolTokens(node(call)).None?
    case _ => !node(call).Mined?
  }

  /** True iff no call of `plan` is rejected. */
  predicate AllAccepted(node: Node, plan: seq<Call>) {
    forall j :: 0 <= j < |plan| ==> !Rejected(node, plan[j])
  }

  /** The helper issued a non-empty prefix of `plan`, stopping at the first rejected call. */
  predicate StoppedAtRejection(node: Node, calls: seq<Call>, plan: seq<Call>) {
    && 1 <= |calls| <= |plan|
    && calls == plan[..|calls|]
    && AllAccepted(node, calls[..|calls| - 1])
    && Rejected(node, calls[|calls| - 1])
  }

  /** A call that submits a transaction whose receipt the helper waits for. */
  predicate IsTransaction(call: Call) {
    call.CreatePoolTx? || call.AddLiquidityTx? || call.RemoveLiquidityTx? || call.SwapTx?
  }

  /**
   Issues `plan` in order until a call is rejected. The plan ends with the
   helper's transaction, whose receipt is the result.
   */
  function Submit(plan: seq<Call>, node: Node): (r: Run<AmmEvents.Receipt>)
    requires |plan| >= 1 && IsTransaction(plan[|plan| - 1])
    ensures r.outcome.Returned? <==> AllAccepted(node, plan)
    ensures r.outcome.Returned? ==> r.calls == plan && node(plan[|plan| - 1]) == Mined(r.outcome.value)
    ensures r.outcome.Threw? ==> StoppedAtRejection(node, r.calls, plan)
  {
    match ArrayFind.FindIndex(plan, (c: Call) => Rejected(node, c))
    case Some(k) => Run(plan[..k + 1], Threw)
    case None =>
      var last := plan[|plan| - 1];
      assert !Rejected(node, last);
      Run(plan, Returned(node(last).receipt))
  }

  // ---------------------------------------------------------------- createPool

  datatype CreatedPool = CreatedPool(poolId: string, liquidity: int, txHash: string)

  /** Reads the pool id and initial liquidity from the first PoolCreated log, or "" and 0. */
  function CreatedPoolOf(receipt: AmmEvents.Receipt): (r: CreatedPool)
    ensures r.txHash == receipt.hash
    ensures AmmEvents.NoneNamed(receipt.logs, "PoolCreated") ==> r.poolId == "" && r.liquidity == 0
    ensures forall i :: AmmEvents.IsSelected(receipt.logs, "PoolCreated", i) ==>
              r.poolId == receipt.logs[i].value.poolId && r.liquidity == receipt.logs[i].value.initialLiquidity
  {
    var found := AmmEvents.SelectEvent(receipt.logs, "PoolCreated");
    if found.Some? && found.value.PoolCreated? then
      CreatedPool(found.value.poolId, found.value.initialLiquidity, receipt.hash)
    else CreatedPool("", 0, receipt.hash)
  }

  /** `createPool`: approve token A, approve token B, then create the pool, in that order. */
  function CreatePool(tokenA: string, tokenB: string, amountA: int, amountB: int, contract: string, node: Node)
    : (r: Run<CreatedPool>)
    ensures var plan := [Approve(tokenA, contract, amountA), Approve(tokenB, contract, amountB),
                         CreatePoolTx(tokenA, tokenB, amountA, amountB)];
            && (r.outcome.Returned? <==> AllAccepted(node, plan))
            && (r.outcome.Returned? ==> r.calls == plan)
            && (r.outcome.Threw? ==> StoppedAtRejection(node, r.calls, plan))
    ensures r.outcome.Returned? ==>
              && node(CreatePoolTx(tokenA, tokenB, amountA, amountB)).Mined?
              && r.outcome.value == CreatedPoolOf(node(CreatePoolTx(tokenA, tokenB, amountA, amountB)).receipt)
  {
    var run := Submit([Approve(tokenA, contract, amountA), Approve(tokenB, contract, amountB),
                       CreatePoolTx(tokenA, tokenB, amountA, amountB)], node);
    match run.outcome
    case Threw => Run(run.calls, Threw)
    case Returned(receipt) => Run(run.calls, Returned(CreatedPoolOf(receipt)))
  }

  // ---------------------------------------------------------------- addLiquidity

  datatype AddedLiquidity = AddedLiquidity(liquidity: int, amount0: int, amount1: int, txHash: string)

  /** Reads minted liquidity and both amounts from the first LiquidityAdded log, or zeros. */
  function AddedLiquidityOf(receipt: AmmEvents.Receipt): (r: AddedLiquidity)
    ensures r.txHash == receipt.hash
    ensures AmmEvents.NoneNamed(receipt.logs, "LiquidityAdded") ==> r.liquidity == 0 && r.amount0 == 0 && r.amount1 == 0
    ensures forall i :: AmmEvents.IsSelected(receipt.logs, "LiquidityAdded", i) ==>
              var e := receipt.logs[i].value;
              r.liquidity == e.liquidityMinted && r.amount0 == e.amount0 && r.amount1 == e.amount1
  {
    var found := AmmEvents.SelectEvent(receipt.logs, "LiquidityAdded");
    if found.Some? && found.value.LiquidityAdded? then
      AddedLiquidity(found.value.liquidityMinted, found.value.amount0, found.value.amount1, receipt.hash)
    else AddedLiquidity(0, 0, 0, receipt.hash)
  }

  /**
   `addLiquidity`: read the pool's two tokens, approve each for its desired
   amount, then add liquidity.
   */
  function AddLiquidity(poolId: string, amount0Desired: int, amount1Desired: int, contract: string, node: Node)
    : (r: Run<AddedLiquidity>)
    ensures |r.calls| >= 1 && r.calls[0] == GetPoolRead(poolId)
    ensures PoolTokens(node(GetPoolRead(poolId))).None? ==> r == Run([GetPoolRead(poolId)], Threw)
    ensures var tokens := PoolTokens(node(GetPoolRead(poolId)));
            tokens.Some? ==>
              var plan := [GetPoolRead(poolId), Approve(tokens.value.0, contract, amount0Desired),
                           Approve(tokens.value.1, contract, amount1Desired),
                           AddLiquidityTx(poolId, amount0Desired, amount1Desired)];
              && (r.outcome.Returned? <==> AllAccepted(node, plan))
              && (r.outcome.Returned? ==> r.calls == plan)
              && (r.outcome.Threw? ==> StoppedAtRejection(node, r.calls, plan))
    ensures r.outcome.Returned? ==>
              && node(AddLiquidityTx(poolId, amount0Desired, amount1Desired)).Mined?
              && r.outcome.value == AddedLiquidityOf(node(AddLiquidityTx(poolId, amount0Desired, amount1Desired)).receipt)
  {
    match PoolTokens(node(GetPoolRead(poolId)))
    case None => Run([GetPoolRead(poolId)], Threw)
    case Some((token0, token1)) =>
      var run := Submit([GetPoolRead(poolId), Approve(token0, contract, amount0Desired),
                         Approve(token1, contract, amount1Desired),
                         AddLiquidityTx(poolId, amount0Desired, amount1Desired)], node);
      match run.outcome
      case Threw => Run(run.calls, Threw)
      case Returned(receipt) => Run(run.calls, Returned(AddedLiquidityOf(receipt)))
  }

  // ---------------------------------------------------------------- removeLiquidity

  datatype RemovedLiquidity = RemovedLiquidity(amount0: int, amount1: int, txHash: string)

  /** Reads both withdrawn amounts from the first LiquidityRemoved log, or zeros. */
  function RemovedLiquidityOf(receipt: AmmEvents.Receipt): (r: RemovedLiquidity)
    ensures r.txHash == receipt.hash
    ensures AmmEvents.NoneNamed(receipt.logs, "LiquidityRemoved") ==> r.amount0 == 0 && r.amount1 == 0
    ensures forall i :: AmmEvents.IsSelected(receipt.logs, "LiquidityRemoved", i) ==>
              r.amount0 == receipt.logs[i].value.amount0 && r.amount1 == receipt.logs[i].value.amount1
  {
    var found := AmmEvents.SelectEvent(receipt.logs, "LiquidityRemoved");
    if found.Some? && found.value.LiquidityRemoved? then
      RemovedLiquidity(found.value.amount0, found.value.amount1, receipt.hash)
    else RemovedLiquidity(0, 0, receipt.hash)
  }

  /** `removeLiquidity`: a single transaction, with no approval before it. */
  function RemoveLiquidity(poolId: string, liquidity: int, contract: string, node: Node): (r: Run<RemovedLiquidity>)
    ensures r.calls == [RemoveLiquidityTx(poolId, liquidity)]
    ensures r.outcome.Returned? <==> node(RemoveLiquidityTx(poolId, liquidity)).Mined?
    ensures r.outcome.Returned? ==>
              && node(RemoveLiquidityTx(poolId, liquidity)).Mined?
              && r.outcome.value == RemovedLiquidityOf(node(RemoveLiquidityTx(poolId, liquidity)).receipt)
  {
    var run := Submit([RemoveLiquidityTx(poolId, liquidity)], node);
    match run.outcome
    case Threw => Run(run.calls, Threw)
    case Returned(receipt) => Run(run.calls, Returned(RemovedLiquidityOf(receipt)))
  }

  // ---------------------------------------------------------------- swap

  datatype Swapped = Swapped(amountOut: int, txHash: string)

  /** Reads the output amount from the first Swap log, or 0. */
  function SwappedOf(receipt: AmmEvents.Receipt): (r: Swapped)
    ensures r.txHash == receipt.hash
    ensures AmmEvents.NoneNamed(receipt.logs, "Swap") ==> r.amountOut == 0
    ensures forall i :: AmmEvents.IsSelected(receipt.logs, "Swap", i) ==> r.amountOut == receipt.logs[i].value.amountOut
  {
    var found := AmmEvents.SelectEvent(receipt.logs, "Swap");
    if found.Some? && found.value.Swap? then Swapped(found.value.amountOut, receipt.hash)
    else Swapped(0, receipt.hash)
  }

  /**
   `swap`: approve exactly `amountIn` of `tokenIn`, then swap with
   `minAmountOut` passed through. Whether it returns depends only on the
   chain accepting the two calls, never on the output amount.
   */
  function Swap(poolId: string, tokenIn: string, amountIn: int, minAmountOut: int, recipient: string,
                contract: string, node: Node): (r: Run<Swapped>)
    ensures var plan := [Approve(tokenIn, contract, amountIn),
                         SwapTx(poolId, tokenIn, amountIn, minAmountOut, recipient)];
            && (r.outcome.Returned? <==> AllAccepted(node, plan))
            && (r.outcome.Returned? ==> r.calls == plan)
            && (r.outcome.Threw? ==> StoppedAtRejection(node, r.calls, plan))
    ensures r.outcome.Returned? ==>
              && node(SwapTx(poolId, tokenIn, amountIn, minAmountOut, recipient)).Mined?
              && r.outcome.value == SwappedOf(node(SwapTx(poolId, tokenIn, amountIn, minAmountOut, recipient)).receipt)
  {
    var run := Submit([Approve(tokenIn, contract, amountIn),
                       SwapTx(poolId, tokenIn, amountIn, minAmountOut, recipient)], node);
    match run.outcome
    case Threw => Run(run.calls, Threw)
    case Returned(receipt) => Run(run.calls, Returned(SwappedOf(receipt)))
  }

  /**
   No local slippage check: a mined swap is returned even when the amount
   it reports is below `minAmountOut`.
   */
  lemma SwapHasNoLocalSlippageCheck(poolId: string, tokenIn: string, amountIn: int, minAmountOut: int,
                                    recipient: string, contract: string, node: Node, amountOut: int, hash: string)
    requires !node(Approve(tokenIn, contract, amountIn)).Reverted?
    requires node(SwapTx(poolId, tokenIn, amountIn, minAmountOut, recipient))
             == Mined(AmmEvents.Receipt(hash, [Some(AmmEvents.Swap(amountOut))]))
    requires amountOut < minAmountOut
    ensures Swap(poolId, tokenIn, amountIn, minAmountOut, recipient, contract, node).outcome
            == Returned(Swapped(amountOut, hash))
  {
    var plan := [Approve(tokenIn, contract, amountIn), SwapTx(poolId, tokenIn, amountIn, minAmountOut, recipient)];
    assert AllAccepted(node, plan);
    assert AmmEvents.IsSelected([Some(AmmEvents.Swap(amountOut))], "Swap", 0);
  }

  // ---------------------------------------------------------------- reads

  datatype PoolInfo = PoolInfo(token0: string, token1: string, reserve0: int, reserve1: int,
                               feeBps: int, totalSupply: int)

  /** The tuple the contract's `getPool` returns for a pool. */
  function PoolTuple(info: PoolInfo): (r: seq<AbiValue>)
    ensures |r| == 6
  {
    [Text(info.token0), Text(info.token1), Word(info.reserve0), Word(info.reserve1),
     Word(info.feeBps), Word(info.totalSupply)]
  }

  /** Decodes a `getPool` tuple positionally: `token0 = r[0]` through `totalSupply = r[5]`. */
  function DecodePoolInfo(values: seq<AbiValue>): (r: Option<PoolInfo>)
    ensures r.Some? <==> |values| >= 6 && exists info :: PoolTuple(info) == values[..6]
    ensures r.Some? ==> PoolTuple(r.value) == values[..6]
  {
    if |values| >= 6 && values[0].Text? && values[1].Text? && values[2].Word? && values[3].Word?
       && values[4].Word? && values[5].Word?
    then
      var info := PoolInfo(values[0].text, values[1].text, values[2].word, values[3].word,
                           values[4].word, values[5].word);
      assert PoolTuple(info) == values[..6];
      Some(info)
    else None
  }

  /** Decoding the tuple of a pool gives that pool back. */
  lemma DecodePoolTuple(info: PoolInfo)
    ensures DecodePoolInfo(PoolTuple(info)) == Some(info)
  {
  }

  /** `getPool`: the decoded pool, or null when the read fails. */
  function GetPool(poolId: string, node: Node): (r: Option<PoolInfo>)
    ensures r.Some? ==> var reply := node(GetPoolRead(poolId));
                        reply.Values? && |reply.values| >= 6 && PoolTuple(r.value) == reply.values[..6]
    ensures node(GetPoolRead(poolId)).Values? ==> r == DecodePoolInfo(node(GetPoolRead(poolId)).values)
    ensures !node(GetPoolRead(poolId)).Values? ==> r.None?
  {
    match node(GetPoolRead(poolId))
    case Values(values) => DecodePoolInfo(values)
    case _ => None
  }

  /** `getUserLiquidity`: the LP balance, or 0 when the read fails. */
  function GetUserLiquidity(poolId: string, user: string, node: Node): (r: int)
    ensures node(LpBalanceRead(poolId, user)).Reverted? ==> r == 0
    ensures var reply := node(LpBalanceRead(poolId, user));
            reply.Values? && |reply.values| >= 1 && reply.values[0].Word? ==> r == reply.values[0].word
    ensures r != 0 ==> var reply := node(LpBalanceRead(poolId, user));
                       reply.Values? && |reply.values| >= 1 && reply.values[0] == Word(r)
  {
    match node(LpBalanceRead(poolId, user))
    case Values(values) => if |values| >= 1 && values[0].Word? then values[0].word else 0
    case _ => 0
  }

  /** `getPoolId`: the id the contract computes; unlike the other reads, a failure is rethrown. */
  function GetPoolId(tokenA: string, tokenB: string, feeBps: int, node: Node): (r: Outcome<string>)
    ensures node(PoolIdRead(tokenA, tokenB, feeBps)).Reverted? ==> r.Threw?
    ensures var reply := node(PoolIdRead(tokenA, tokenB, feeBps));
            r.Returned? <==> reply.Values? && |reply.values| >= 1 && reply.values[0].Text?
    ensures r.Returned? ==> node(PoolIdRead(tokenA, tokenB, feeBps)).values[0] == Text(r.value)
  {
    match node(PoolIdRead(tokenA, tokenB, feeBps))
    case Values(values) => if |values| >= 1 && values[0].Text? then Returned(values[0].text) else Threw
    case _ => Threw
  }

  /** The record `getAllPools` builds from one PoolCreated event. */
  datatype PoolRecord = PoolRecord(poolId: string, token0: string, token1: string, feeBps: int,
                                   initialLiquidity: int, amount0: int, amount1: int, provider: string)

  function RecordOf(e: AmmEvents.AmmEvent): (r: PoolRecord)
    requires e.PoolCreated?
    ensures r.poolId == e.poolId && r.token0 == e.token0 && r.token1 == e.token1 && r.feeBps == e.feeBps
    ensures r.initialLiquidity == e.initialLiquidity && r.amount0 == e.amount0 && r.amount1 == e.amount1
    ensures r.provider == e.provider
  {
    PoolRecord(e.poolId, e.token0, e.token1, e.feeBps, e.initialLiquidity, e.amount0, e.amount1, e.provider)
  }

  /** Turns a record back into its event; it inverts RecordOf. */
  function EventOf(p: PoolRecord): (e: AmmEvents.AmmEvent)
    ensures e.PoolCreated? && RecordOf(e) == p
  {
    AmmEvents.PoolCreated(p.poolId, p.token0, p.token1, p.feeBps, p.initialLiquidity, p.amount0, p.amount1, p.provider)
  }

  /**
   `fromBlock || 0`: an omitted start block queries from block 0. A given
   integral block is used as is; when it is 0, `||` falls back to 0, which
   is the same value.
   */
  function StartBlock(fromBlock: Option<int>): (b: int)
    ensures fromBlock.None? ==> b == 0
    ensures fromBlock.Some? ==> b == fromBlock.value
  {
    match fromBlock
    case None => 0
    case Some(n) => n
  }

  predicate AllPoolCreated(events: seq<AmmEvents.AmmEvent>) {
    forall i :: 0 <= i < |events| ==> events[i].PoolCreated?
  }

  /**
   `getAllPools`: one record per PoolCreated event, in event order, or []
   when the query fails.
   */
  function GetAllPools(fromBlock: Option<int>, node: Node): (r: seq<PoolRecord>)
    ensures var reply := node(PoolCreatedQuery(StartBlock(fromBlock)));
            reply.Events? && AllPoolCreated(reply.events) ==>
              |r| == |reply.events| && forall i :: 0 <= i < |r| ==> EventOf(r[i]) == reply.events[i]
    ensures var reply := node(PoolCreatedQuery(StartBlock(fromBlock)));
            !(reply.Events? && AllPoolCreated(reply.events)) ==> r == []
  {
    match node(PoolCreatedQuery(StartBlock(fromBlock)))
    case Events(events) =>
      if AllPoolCreated(events) then seq(|events|, i requires 0 <= i < |events| => RecordOf(events[i]))
      else []
    case _ => []
  }

  /** An omitted start block and a start block of 0 give the same pool list. */
  lemma GetAllPoolsDefaultStart(node: Node)
    ensures GetAllPools(None, node) == GetAllPools(Some(0), node)
  {
  }

  /** The read helpers' fixed defaults when the chain rejects the read; getPoolId alone rethrows. */
  lemma ReadFailureDefaults(poolId: string, user: string, tokenA: string, tokenB: string, feeBps: int,
                            fromBlock: Option<int>, node: Node)
    requires node(GetPoolRead(poolId)).Reverted?
    requires node(LpBalanceRead(poolId, user)).Reverted?
    requires node(PoolIdRead(tokenA, tokenB, feeBps)).Reverted?
    requires node(PoolCreatedQuery(StartBlock(fromBlock))).Reverted?
    ensures GetPool(poolId, node) == None
    ensures GetUserLiquidity(poolId, user, node) == 0
    ensures GetPoolId(tokenA, tokenB, feeBps, node) == Threw
    ensures GetAllPools(fromBlock, node) == []
  {
  }
}
