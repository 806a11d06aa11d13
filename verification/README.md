# QuantumDEX front end: a Dafny model of its deterministic core

QuantumDEX is a browser front end for an automated-market-maker exchange. Most of it is React
markup over mock data and wallet wiring. This project models the parts whose behaviour can be
stated exactly, and proves properties about them:

- **Address shortening** (`shortenAddress`). `JsString` models the ECMAScript `String.prototype.slice`
  it relies on, including negative indices and clamping. So the `chars = 0` quirk (`slice(-0)` is the
  whole string) falls out of the model instead of being special-cased.
- **The pool marketplace** (`PoolsPage`). This covers the two-way `"all"`-or-value filter, the initial
  network filter `chainId ?? "all"`, the per-row network name, and the page's built-in pool list.
- **The navbar** (`Navbar`). This covers the shortened address, the network label with its
  `"Unknown"` / name / `"Chain <id>"` fallback, the exact-match active link, and when the address
  badge is shown.
- **The AMM client** (`AmmEvents`, `Amm`). Each receipt log is modelled as `Option<AmmEvent>`: `None`
  means `parseLog` threw or returned null, which skips the log. Every contract call is a `Call`, and
  the chain is a function `Node` from a call to its `Reply`. Each write helper returns the calls it
  issued, in order, with its outcome. This makes the approve-then-call order, the event-field
  extraction with its `0`/`""` defaults, and the read helpers' fixed failure defaults provable.
- **First-match search** (`ArrayFind`). This is the `Array.prototype.find` behaviour that the log
  selection and both network lookups share.

`src/lib/amm.ts` talks to a single AMM contract through `getPool`, `getUserLiquidity`, `getPoolId`,
`getAllPools`, `createPool`, `addLiquidity`, `removeLiquidity` and `swap`. `createPool`,
`addLiquidity` and `swap` send their token approvals themselves, before the main call;
`removeLiquidity` sends no approval.

`displayAddress` tests `!address` (`src/components/navbar.tsx:30`), so an empty-string address is
displayed as null, just like an absent one.

## Model

| member | source | states |
|---|---|---|
| Utils.ShortenAddress | src/lib/utils.ts:1-6 | the result is "" exactly when the value is undefined, null or ""; otherwise it is a prefix of the input (of the clamped length chars+2), then "...", then a suffix of the input |
| Utils.ShortenShape | src/lib/utils.ts:3-5 | for a non-empty input and chars >= 1 the result is exactly the first min(chars+2, len) characters, "...", and the last min(chars, len) characters |
| Utils.ShortenZeroChars | src/lib/utils.ts:4 | with chars = 0 the suffix is the whole input, because slice(-0) equals slice(0) |
| Utils.ShortenLength | src/lib/utils.ts:3-5 | when chars >= 1 and chars+2 <= len, the result has exactly 2*chars+5 characters |
| Utils.ShortenAddressDefault | src/lib/utils.ts:1-5 | with chars left at its default of 4, the result is "" exactly for a falsy value, and an input of at least six characters keeps its first six and last four around "..." |
| Utils.ShortenDefaultExample | src/lib/utils.ts:1-5 | with the default chars of 4, "0x1234567890abcdef1234567890abcdef12345678" becomes "0x1234...5678" |
| JsString.Slice | src/lib/utils.ts:3 | slice(start, end) is the contiguous run of characters starting at the clamped start, of length to - from when the clamped indices do not cross and 0 otherwise |
| JsString.SliceFrom | src/lib/utils.ts:4 | slice(start) with the end omitted always yields a suffix of the string |
| JsString.SlicePrefix | src/lib/utils.ts:3 | slice(0, k) with k >= 0 is the first min(k, len) characters |
| JsString.SliceFromNegative | src/lib/utils.ts:4 | slice(-k) with k >= 1 is the last min(k, len) characters |
| JsString.SliceFromZero | src/lib/utils.ts:4 | slice(0) is the whole string |
| JsString.IntToString | src/components/navbar.tsx:37 | an integer renders as a canonical decimal numeral, with a leading "-" exactly when it is negative |
| JsString.ParseNatToString | src/components/navbar.tsx:37 | reading the decimal text of a natural number gives that number back |
| JsString.IntToStringRoundTrip | src/components/navbar.tsx:37 | reading the text of any integer gives that integer back |
| JsString.IntToStringInjective | src/components/navbar.tsx:37 | different chain ids render as different text |
| ArrayFind.FindIndex | src/app/pools/page.tsx:206 | returns the index of the first element satisfying the predicate, or None exactly when no element satisfies it |
| ArrayFind.FindIndexSkipsPrefix | src/lib/amm.ts:173-180 | elements in front that fail the predicate only shift the index of the match |
| ArrayFind.FindScan | src/app/pools/page.tsx:206 | the element-by-element search loop returns the first match, and agrees with FindIndex |
| Networks.FindNetwork | src/components/navbar.tsx:36 | returns the first network with the given id, and None exactly when no network has it |
| PoolsPage.FilterPools | src/app/pools/page.tsx:91-99 | every kept pool satisfies `Matches` (the filter callback: each filter is "all" or equals the pool's network / fee tier); every matching pool is kept; the result is an order-preserving subsequence of the input |
| PoolsPage.SubsequenceLength | src/app/pools/page.tsx:92 | a subsequence is no longer than the sequence it comes from |
| PoolsPage.FilterPoolsLength | src/app/pools/page.tsx:92 | the filtered list has at most as many pools as the full list |
| PoolsPage.FilterPoolsAppend | src/app/pools/page.tsx:92-98 | filtering a concatenation is the concatenation of the filtered parts, which fixes order and multiplicity |
| PoolsPage.FilterPoolsStep | src/app/pools/page.tsx:92-98 | one more scanned pool adds that pool to the result exactly when it matches |
| PoolsPage.FilterPoolsKeepsAll | src/app/pools/page.tsx:92-98 | when every pool matches, the filter returns the list unchanged |
| PoolsPage.FilterPoolsAllAll | src/app/pools/page.tsx:93-96 | with both filters set to "all", the result is the full pool list |
| PoolsPage.FilterPoolsIdempotent | src/app/pools/page.tsx:92-98 | filtering the filtered list again with the same filters leaves it unchanged |
| PoolsPage.FilterPoolsScan | src/app/pools/page.tsx:92-98 | the element-by-element filter loop produces exactly FilterPools' result |
| PoolsPage.InitialNetworkFilter | src/app/pools/page.tsx:86-88 | the initial network filter is "all" exactly when the chain id is undefined or null; otherwise it is that chain id, including 0 |
| PoolsPage.RowNetworkName | src/app/pools/page.tsx:206 | a row shows the name of the first network with the pool's id, or "Unknown" when no network has it |
| PoolsPage.MarketplaceMainnetExample | src/app/pools/page.tsx:20-98 | on the built-in list, network 1 with fee tier 0.01% keeps only the eth-usdc-10 pool |
| Navbar.DisplayAddress | src/components/navbar.tsx:29-32 | null exactly for an undefined, null or empty address; otherwise the address shortened with the default four characters |
| Navbar.DisplayAddressOfFullAddress | src/components/navbar.tsx:29-32 | a 42-character address displays as its first six characters, "...", and its last four |
| Navbar.ChainLabel | src/components/navbar.tsx:37 | the fallback label starts with "Chain " followed by the id's text |
| Navbar.ChainLabelRoundTrip | src/components/navbar.tsx:37 | the chain id can be read back from its fallback label |
| Navbar.DisplayNetwork | src/components/navbar.tsx:34-38 | "Unknown" for chain id 0; else the name of the first network with that id; else "Chain <id>" |
| Navbar.AtMostOneActive | src/components/navbar.tsx:51-52 | with `IsActive` the exact comparison pathname == href: when hrefs are distinct, at most one link is active, and exactly one is active iff the path equals some href |
| Navbar.NavLinksAtMostOneActive | src/components/navbar.tsx:16-21 | the four nav links have distinct hrefs, so at most one of them is highlighted for any path |
| Navbar.AddressBadgeShown | src/components/navbar.tsx:71 | the badge renders exactly when the wallet is connected and its address is non-empty |
| AmmEvents.Name | src/lib/amm.ts:173-180 | an event is called "PoolCreated", "LiquidityAdded", "LiquidityRemoved" or "Swap" exactly when it has that event's shape |
| AmmEvents.SelectLog | src/lib/amm.ts:173-180 | selects the first log that parses to an event of the given name; None exactly when no log does |
| AmmEvents.SelectEvent | src/lib/amm.ts:234-241 | the event of the first log that parses and has the target name; None exactly when there is none |
| AmmEvents.SelectEventSkipsOthers | src/lib/amm.ts:284-291 | logs in front that do not parse, or that parse to another event, do not change the selection |
| AmmEvents.SelectEventSkipsUnparsed | src/lib/amm.ts:339-346 | a log whose parse throws is skipped |
| Amm.PoolTokens | src/lib/amm.ts:218-220 | the tokens are positions 0 and 1 of the getPool reply |
| Amm.Submit | src/lib/amm.ts:165-170 | calls are issued in plan order; the run returns exactly when no call is rejected, and then its trace is the whole plan and its value is the final transaction's receipt; otherwise the trace stops at the first rejected call |
| Amm.CreatedPoolOf | src/lib/amm.ts:182-197 | poolId and liquidity come from the first PoolCreated log, or are "" and 0 when there is none; txHash is always the receipt hash |
| Amm.CreatePool | src/lib/amm.ts:150-202 | issues approve(tokenA, amountA), approve(tokenB, amountB), then createPool(tokenA, tokenB, amountA, amountB), in that order; it fails exactly when one of these is rejected |
| Amm.AddedLiquidityOf | src/lib/amm.ts:243-261 | liquidity, amount0 and amount1 come from the first LiquidityAdded log, or are all 0; txHash is the receipt hash |
| Amm.AddLiquidity | src/lib/amm.ts:207-266 | reads the pool, approves token0 and token1 for the desired amounts, then adds liquidity; a failed pool read stops it before any approval |
| Amm.RemovedLiquidityOf | src/lib/amm.ts:293-308 | amount0 and amount1 come from the first LiquidityRemoved log, or are 0; txHash is the receipt hash |
| Amm.RemoveLiquidity | src/lib/amm.ts:271-313 | issues only removeLiquidity(poolId, liquidity), with no approval, and returns exactly when it is mined |
| Amm.SwappedOf | src/lib/amm.ts:348-360 | amountOut comes from the first Swap log, or is 0; txHash is the receipt hash |
| Amm.Swap | src/lib/amm.ts:318-365 | approves exactly amountIn of tokenIn, then swaps with minAmountOut passed through unchanged; success depends only on the chain accepting both calls |
| Amm.SwapHasNoLocalSlippageCheck | src/lib/amm.ts:331-335 | a mined swap whose reported output is below minAmountOut is still returned as a success |
| Amm.DecodePoolInfo | src/lib/amm.ts:62-69 | a getPool tuple decodes exactly when its first six values are the tuple of some pool, and then token0 = r[0] through totalSupply = r[5] |
| Amm.DecodePoolTuple | src/lib/amm.ts:62-69 | decoding the tuple of a pool gives that pool back |
| Amm.GetPool | src/lib/amm.ts:53-74 | returns the decoded pool, or null when the read fails |
| Amm.GetUserLiquidity | src/lib/amm.ts:79-93 | returns the LP balance read, or 0 when the read fails |
| Amm.GetPoolId | src/lib/amm.ts:98-113 | returns the id read, and rethrows when the read fails |
| Amm.RecordOf | src/lib/amm.ts:130-139 | the record built for a PoolCreated event carries that event's poolId, tokens, feeBps, initialLiquidity, amounts and provider field by field |
| Amm.EventOf | src/lib/amm.ts:130-139 | each pool record is converted back to the PoolCreated event it was built from |
| Amm.StartBlock | src/lib/amm.ts:126 | an omitted fromBlock queries from block 0; a given one is used as is |
| Amm.GetAllPools | src/lib/amm.ts:118-145 | exactly one record per PoolCreated event, in event order; [] when the query fails |
| Amm.GetAllPoolsDefaultStart | src/lib/amm.ts:126 | an omitted fromBlock and a fromBlock of 0 give the same pool list |
| Amm.ReadFailureDefaults | src/lib/amm.ts:70-144 | when the reads fail: getPool is null, getUserLiquidity is 0, getAllPools is [], and getPoolId rethrows |

## Left out

- Contract construction (`getAMMContract`, `getTokenContract`), RPC transport, `parseLog` internals and `tx.wait()` belong to the ethers library. Each contract call is a `Call`. The chain's answer is the `Node` parameter. A decoded log is an `Option<AmmEvent>`.
- The second `parseLog` of the selected log is not modelled separately. It parses the same log with the same interface, so it gives the event already found. Its `parsed?.args` guard is therefore always true.
- `AmmEvent` carries only the event arguments the helpers read. The AMM ABI file `src/lib/abi/AMM.json` is not part of this model. Every other event of that ABI is one `OtherEvent` case, whose name differs from the four event names the helpers use.
- Approvals: the source waits for an approval to be sent, not mined. The model therefore treats an approval as accepted unless its submission throws. Whether the approval later succeeds on chain is outside the model.
- A reply whose shape does not match the contract's ABI is treated as a failed call. The source behaves differently for such replies, as the next two lines say. The ABI rules all of them out.
- Amm.DecodePoolInfo and Amm.GetPool: a tuple with a text value where an integer is expected gives `None`. The source (`src/lib/amm.ts:62-68`) converts with `BigInt(x.toString())`, so numeric text such as "123" becomes 123, and with `Number(x)`, so non-numeric text becomes `NaN` for `feeBps` without throwing. A tuple with fewer than six values also gives `None`. In the source, a missing value is `undefined`: `Number` turns it into `NaN`, and `.toString()` throws, which gives `null`.
- Amm.GetPoolId: a successful reply that is not text gives `Threw`. The source (`src/lib/amm.ts:107-108`) returns whatever value the call gave, unchanged.
- Amm.GetUserLiquidity: a successful reply that is not an integer gives 0. The source computes `BigInt(balance.toString())` (`src/lib/amm.ts:88`), so a numeric text reply such as "123" would give 123 and a non-numeric one would throw and give 0. Under the contract's ABI the balance is always an integer.
- The `BigInt(...)`/`Number(...)` conversions are modelled as exact integers. Floating-point precision loss in `Number(feeBps)` above 2^53 is not modelled.
- `${chainId}` is modelled for integral ids only. The exponent notation JavaScript uses from 10^21 upwards is not modelled, and neither is `NaN`, the other falsy number.
- The supported-network list (`src/config/wagmi.ts:17`) is a parameter of the lookups. Its ids and names come from a third-party network library that is not part of this model.
- `console.error` logging, the `AMM_CONTRACT_ADDRESS` environment lookup (`src/lib/amm.ts:8`) and the `Number(event.target.value)` coercion of the filter dropdown are left out. The filter value is already a `Choice<int>`.
- The React markup and the other pages and components are left out: swap, portfolio, pool creation, hero, footer, feature tabs, logo and providers. They are UI over hardcoded mock data or wallet-adapter wiring. Of the pools page, only its list data and derivations are modelled.
- Utils.ShortenAddress: characters are Unicode scalar values, while JavaScript's `slice` and `length` count UTF-16 code units. For input outside the Basic Multilingual Plane, JavaScript counts such a character twice and may split its surrogate pair, so the lengths in ShortenShape and ShortenLength hold only for inputs whose characters each take one UTF-16 code unit. Account addresses are ASCII hex, so they are unaffected. `chars` is a JavaScript number but is modelled as an integer. A fractional `chars` is truncated by `slice` (with -1.5, `slice(0, 0.5)` is "" and `slice(1.5)` is `v[1..]`), and `NaN` gives "..." followed by the whole address. Neither is modelled. Every caller passes 4 or 5.
- Amm.CreatePool and Amm.AddLiquidity: the chain's reply depends on the call alone, so two identical calls in one run get the same reply. When tokenA equals tokenB and amountA equals amountB, or token0 equals token1 with equal amounts, the model cannot express the first approval succeeding and the second failing. An example is a wallet user rejecting the second prompt. The source sends the two approvals independently.
