/**
 The AMM contract's events as `parseLog` decodes them, and the selection of
 the first receipt log that decodes to an event of a given name.
 */
module AmmEvents {
  import opened Wrappers
  import ArrayFind

  /** Names of events of the AMM interface that no helper reads. */
  type OtherName = n: string
    | n != "PoolCreated" && n != "LiquidityAdded" && n != "LiquidityRemoved" && n != "Swap"
    witness "Transfer"

  /** A decoded event with the arguments the helpers read. */
  datatype AmmEvent =
    | PoolCreated(poolId: string, token0: string, token1: string, feeBps: int,
                  initialLiquidity: int, amount0: int, amount1: int, provider: string)
    | LiquidityAdded(liquidityMinted: int, amount0: int, amount1: int)
    | LiquidityRemoved(amount0: int, amount1: int)
    | Swap(amountOut: int)
    | OtherEvent(eventName: OtherName)

  function Name(e: AmmEvent): (n: string)
    ensures n == "PoolCreated" <==> e.PoolCreated?
    ensures n == "LiquidityAdded" <==> e.LiquidityAdded?
    ensures n == "LiquidityRemoved" <==> e.LiquidityRemoved?
    ensures n == "Swap" <==> e.Swap?
  {
    match e
    case PoolCreated(_, _, _, _, _, _, _, _) => "PoolCreated"
    case LiquidityAdded(_, _, _) => "LiquidityAdded"
    case LiquidityRemoved(_, _) => "LiquidityRemoved"
    case Swap(_) => "Swap"
    case OtherEvent(n) => n
  }

  /** One receipt log after `parseLog`: None when parsing threw or gave null. */
  type Log = Option<AmmEvent>

  datatype Receipt = Receipt(hash: string, logs: seq<Log>)

  /** The `find` callback: the log parses and its event has the given name. */
  predicate Named(log: Log, name: string) {
    log.Some? && Name(log.value) == name
  }

  /** True iff log `i` is the first one that parses to an event called `name`. */
  ghost predicate IsSelected(logs: seq<Log>, name: string, i: int) {
    ArrayFind.IsFirst(logs, (log: Log) => Named(log, name), i)
  }

  predicate NoneNamed(logs: seq<Log>, name: string) {
    forall j :: 0 <= j < |logs| ==> !Named(logs[j], name)
  }

  /** `receipt.logs.find(...)`, as a position. */
  function SelectLog(logs: seq<Log>, name: string): (r: Option<nat>)
    ensures r.Some? ==> IsSelected(logs, name, r.value)
    ensures r.None? <==> NoneNamed(logs, name)
  {
    ArrayFind.FindIndex(logs, (log: Log) => Named(log, name))
  }

  /** The event of the selected log, or None when no log qualifies. */
  function SelectEvent(logs: seq<Log>, name: string): (r: Option<AmmEvent>)
    ensures r.None? <==> NoneNamed(logs, name)
    ensures forall i :: IsSelected(logs, name, i) ==> r == logs[i]
  {
    match SelectLog(logs, name)
    case None => None
    case Some(i) =>
      assert forall k :: IsSelected(logs, name, k) ==> k == i;
      logs[i]
  }

  /** Logs in front that do not parse, or parse to another event, do not change the selection. */
  lemma SelectEventSkipsOthers(pre: seq<Log>, logs: seq<Log>, name: string)
    requires NoneNamed(pre, name)
    ensures SelectEvent(pre + logs, name) == SelectEvent(logs, name)
  {
    ArrayFind.FindIndexSkipsPrefix(pre, logs, (log: Log) => Named(log, name));
    match SelectLog(logs, name)
    case None =>
    case Some(i) =>
      assert (pre + logs)[|pre| + i] == logs[i];
  }

  /** In particular, a log whose parse throws is skipped. */
  lemma SelectEventSkipsUnparsed(logs: seq<Log>, name: string)
    ensures SelectEvent([None] + logs, name) == SelectEvent(logs, name)
  {
    SelectEventSkipsOthers([None], logs, name);
  }
}
