/** The pool marketplace: its network and fee-tier filter and the per-row network name. */
module PoolsPage {
  import opened Wrappers
  import opened Networks

  datatype Pool = Pool(
    id: string,
    pair: string,
    network: int,
    tvl: string,
    apr: string,
    volume24h: string,
    feeTier: string,
    utilization: string)

  /** A filter setting: the sentinel "all", or one concrete value. */
  datatype Choice<T> = All | Only(value: T)

  predicate Admits<T(==)>(c: Choice<T>, x: T) {
    c.All? || c.value == x
  }

  /** The predicate the marketplace passes to `pools.filter`. */
  predicate Matches(pool: Pool, networkFilter: Choice<int>, feeFilter: Choice<string>) {
    Admits(networkFilter, pool.network) && Admits(feeFilter, pool.feeTier)
  }

  /** True iff `a` is `b` with some elements deleted and the rest kept in their order. */
  predicate IsSubsequence<T(==)>(a: seq<T>, b: seq<T>)
    decreases |b|
  {
    if |a| == 0 then true
    else if |b| == 0 then false
    else (a[0] == b[0] && IsSubsequence(a[1..], b[1..])) || IsSubsequence(a, b[1..])
  }

  lemma {:induction false} SubsequenceLength<T>(a: seq<T>, b: seq<T>)
    requires IsSubsequence(a, b)
    ensures |a| <= |b|
    decreases |b|
  {
    if |a| > 0 {
      if a[0] == b[0] && IsSubsequence(a[1..], b[1..]) {
        SubsequenceLength(a[1..], b[1..]);
      } else {
        SubsequenceLength(a, b[1..]);
      }
    }
  }

  /**
   `filteredPools`: the pools admitted by both filters. Every kept pool
   matches (soundness), every matching pool is kept (completeness), and
   the kept pools appear in their original order.
   */
  function FilterPools(pools: seq<Pool>, networkFilter: Choice<int>, feeFilter: Choice<string>): (r: seq<Pool>)
    ensures forall i :: 0 <= i < |r| ==> Matches(r[i], networkFilter, feeFilter)
    ensures forall i :: 0 <= i < |pools| && Matches(pools[i], networkFilter, feeFilter) ==> pools[i] in r
    ensures IsSubsequence(r, pools)
    decreases |pools|
  {
    if |pools| == 0 then []
    else
      var rest := FilterPools(pools[1..], networkFilter, feeFilter);
      if Matches(pools[0], networkFilter, feeFilter) then [pools[0]] + rest else rest
  }

  /** The filter never returns more pools than it was given. */
  lemma FilterPoolsLength(pools: seq<Pool>, networkFilter: Choice<int>, feeFilter: Choice<string>)
    ensures |FilterPools(pools, networkFilter, feeFilter)| <= |pools|
  {
    SubsequenceLength(FilterPools(pools, networkFilter, feeFilter), pools);
  }

  /** Filtering a concatenation filters each part: this pins down multiplicities as well as order. */
  lemma {:induction false} FilterPoolsAppend(a: seq<Pool>, b: seq<Pool>, networkFilter: Choice<int>, feeFilter: Choice<string>)
    ensures FilterPools(a + b, networkFilter, feeFilter)
         == FilterPools(a, networkFilter, feeFilter) + FilterPools(b, networkFilter, feeFilter)
    decreases |a|
  {
    if |a| > 0 {
      assert (a + b)[1..] == a[1..] + b;
      FilterPoolsAppend(a[1..], b, networkFilter, feeFilter);
    } else {
      assert a + b == b;
    }
  }

  /** Extending the scanned prefix by one pool extends the filtered prefix by that pool exactly when it matches. */
  lemma FilterPoolsStep(pools: seq<Pool>, i: nat, networkFilter: Choice<int>, feeFilter: Choice<string>)
    requires i < |pools|
    ensures FilterPools(pools[..i + 1], networkFilter, feeFilter)
         == FilterPools(pools[..i], networkFilter, feeFilter)
            + (if Matches(pools[i], networkFilter, feeFilter) then [pools[i]] else [])
  {
    assert pools[..i + 1] == pools[..i] + [pools[i]];
    FilterPoolsAppend(pools[..i], [pools[i]], networkFilter, feeFilter);
    assert [pools[i]][1..] == [];
  }

  /** When every pool matches, the filter returns its input unchanged. */
  lemma {:induction false} FilterPoolsKeepsAll(pools: seq<Pool>, networkFilter: Choice<int>, feeFilter: Choice<string>)
    requires forall i :: 0 <= i < |pools| ==> Matches(pools[i], networkFilter, feeFilter)
    ensures FilterPools(pools, networkFilter, feeFilter) == pools
    decreases |pools|
  {
    if |pools| > 0 {
      FilterPoolsKeepsAll(pools[1..], networkFilter, feeFilter);
    }
  }

  /** With both filters set to "all", the marketplace shows every pool. */
  lemma FilterPoolsAllAll(pools: seq<Pool>)
    ensures FilterPools(pools, All, All) == pools
  {
    FilterPoolsKeepsAll(pools, All, All);
  }

  /** Re-filtering the filtered list with the same settings changes nothing. */
  lemma FilterPoolsIdempotent(pools: seq<Pool>, networkFilter: Choice<int>, feeFilter: Choice<string>)
    ensures var once := FilterPools(pools, networkFilter, feeFilter);
            FilterPools(once, networkFilter, feeFilter) == once
  {
    FilterPoolsKeepsAll(FilterPools(pools, networkFilter, feeFilter), networkFilter, feeFilter);
  }

  /** The filter as the element-by-element loop `Array.prototype.filter` runs; it agrees with FilterPools. */
  method FilterPoolsScan(pools: seq<Pool>, networkFilter: Choice<int>, feeFilter: Choice<string>) returns (r: seq<Pool>)
    ensures r == FilterPools(pools, networkFilter, feeFilter)
  {
    r := [];
    var i := 0;
    while i < |pools|
      invariant 0 <= i <= |pools|
      invariant r == FilterPools(pools[..i], networkFilter, feeFilter)
    {
      FilterPoolsStep(pools, i, networkFilter, feeFilter);
      if Matches(pools[i], networkFilter, feeFilter) {
        r := r + [pools[i]];
      }
      i := i + 1;
    }
    assert pools[..i] == pools;
  }

  /** `useState(() => chainId ?? "all")`: only an undefined or null chain id selects "all"; 0 does not. */
  function InitialNetworkFilter(chainId: Option<int>): (r: Choice<int>)
    ensures r.All? <==> chainId.None?
    ensures chainId.Some? ==> r.Only? && r.value == chainId.value
  {
    match chainId
    case None => All
    case Some(id) => Only(id)
  }

  /** The network column of a row: the first network with the pool's id, or "Unknown". */
  function RowNetworkName(networks: seq<Network>, pool: Pool): (r: string)
    ensures !HasId(networks, pool.network) ==> r == "Unknown"
    ensures forall i :: IsFirstWithId(networks, pool.network, i) ==> r == networks[i].name
  {
    match FindNetwork(networks, pool.network)
    case None => "Unknown"
    case Some(n) => n.name
  }

  /** The marketplace's built-in pool list. */
  const MarketplacePools: seq<Pool> := [
    Pool("eth-usdc-10", "ETH / USDC", 1, "$46.1M", "17.4%", "$8.3M", "0.01%", "63%"),
    Pool("eth-usdc-30", "ETH / USDC", 1, "$82.4M", "12.2%", "$12.5M", "0.03%", "55%"),
    Pool("wbtc-eth-05", "WBTC / ETH", 1, "$28.8M", "12.1%", "$4.5M", "0.05%", "41%"),
    Pool("arb-usdc-10", "ARB / USDC", 42161, "$12.6M", "23.8%", "$2.1M", "0.01%", "68%"),
    Pool("op-usdc-30", "OP / USDC", 10, "$9.2M", "19.3%", "$1.8M", "0.03%", "57%"),
    Pool("matic-usdc-10", "MATIC / USDC", 137, "$7.4M", "15.7%", "$1.3M", "0.01%", "52%")
  ]

  /** On mainnet (id 1) with the 0.01% tier selected, only the first ETH / USDC pool is listed. */
  lemma MarketplaceMainnetExample()
    ensures FilterPools(MarketplacePools, Only(1), Only("0.01%")) == [MarketplacePools[0]]
  {
    var ps := MarketplacePools;
    assert ps[1].feeTier != "0.01%" by { assert ps[1].feeTier[3] != "0.01%"[3]; }
    assert ps[2].feeTier != "0.01%" by { assert ps[2].feeTier[3] != "0.01%"[3]; }
    assert ps[5..][1..] == [];
    assert FilterPools(ps[5..], Only(1), Only("0.01%")) == [];
    assert ps[4..][1..] == ps[5..];
    assert FilterPools(ps[4..], Only(1), Only("0.01%")) == [];
    assert ps[3..][1..] == ps[4..];
    assert FilterPools(ps[3..], Only(1), Only("0.01%")) == [];
    assert ps[2..][1..] == ps[3..];
    assert FilterPools(ps[2..], Only(1), Only("0.01%")) == [];
    assert ps[1..][1..] == ps[2..];
    assert FilterPools(ps[1..], Only(1), Only("0.01%")) == [];
  }
}
