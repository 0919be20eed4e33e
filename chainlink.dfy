/** src/chainlinkHelper.js: latest prices from ChainLink price-feed contracts. The
    contract call (src/ethHelper.js) is a parameter `getPrice` that yields `None`
    where the call throws. */
module Chainlink {
  import opened Wrappers
  import JsMap
  import UsdToRoeDefault

  /** An entry of the `currencies_abi` store. `abi` is `None` when the stored ABI is not an array. */
  datatype AbiRecord = AbiRecord(
    abi: Option<seq<string>>,
    active: Option<bool>,
    contractAddress: Option<string>,
    source: Option<string>,
    decimals: Option<int>)

  /** What the price-feed call returns: the USD price and the ISO time of the round. */
  datatype EthPrice = EthPrice(priceUSD: real, updatedAt: string)

  /** `{ ratioOfExchange, priceUpdatedAt }` of a ChainLink price. */
  datatype ClEntry = ClEntry(ratioOfExchange: int, priceUpdatedAt: string)

  type PriceOracle = (Option<seq<string>>, Option<string>) -> Option<EthPrice>

  const DefaultChain: string := "ethereum"

  /** `getLatestPrice`: an unsupported chain or a failed call gives no entry instead of an exception. */
  function GetLatestPrice(ticker: string, abi: Option<seq<string>>, contractAddress: Option<string>,
                          chain: Option<string>, getPrice: PriceOracle): (r: Option<(string, ClEntry)>)
    ensures r.Some? <==> chain.GetOr(DefaultChain) == DefaultChain && getPrice(abi, contractAddress).Some?
    ensures r.Some? ==>
              && r.value.0 == ticker
              && r.value.1.ratioOfExchange == UsdToRoeDefault.UsdToRoe(getPrice(abi, contractAddress).value.priceUSD)
              && r.value.1.priceUpdatedAt == getPrice(abi, contractAddress).value.updatedAt
  {
    match chain.GetOr(DefaultChain)
    case "ethereum" =>
      (match getPrice(abi, contractAddress)
       case None => None
       case Some(p) => Some((ticker, ClEntry(UsdToRoeDefault.UsdToRoe(p.priceUSD), p.updatedAt))))
    case _ => None
  }

  /** `active = true` is the default; only an explicit `false` switches an entry off. */
  predicate IsActive(e: AbiRecord)
  {
    e.active.GetOr(true)
  }

  /** The outcome of one ABI entry inside the `map` callback. */
  function Attempt(entry: (string, AbiRecord), known: set<string>, getPrice: PriceOracle): (r: Option<(string, ClEntry)>)
    ensures r.Some? <==>
              && IsActive(entry.1) && entry.0 in known
              && entry.1.source.GetOr(DefaultChain) == DefaultChain
              && getPrice(entry.1.abi, entry.1.contractAddress).Some?
    ensures r.Some? ==> r.value.0 == entry.0
  {
    var (ticker, e) := entry;
    if !IsActive(e) || ticker !in known then None
    else GetLatestPrice(ticker, e.abi, e.contractAddress, e.source, getPrice)
  }

  /** `results.filter(Boolean)`: the entries that produced a price, in order. */
  function Successes(entries: seq<(string, AbiRecord)>, known: set<string>, getPrice: PriceOracle): (r: seq<(string, ClEntry)>)
    ensures forall p :: p in r <==> exists i :: 0 <= i < |entries| && Attempt(entries[i], known, getPrice) == Some(p)
  {
    if entries == [] then []
    else
      var init := entries[..|entries| - 1];
      assert forall i :: 0 <= i < |init| ==> init[i] == entries[i];
      Successes(init, known, getPrice)
        + match Attempt(entries[|entries| - 1], known, getPrice)
          case None => []
          case Some(p) => [p]
  }

  /** The tickers recorded in `currencies404`: active entries with no currency in the store. */
  function NotFound(entries: seq<(string, AbiRecord)>, known: set<string>): (r: set<string>)
    ensures forall t :: t in r <==>
              exists i :: 0 <= i < |entries| && entries[i].0 == t && IsActive(entries[i].1) && t !in known
  {
    if entries == [] then {}
    else
      var init := entries[..|entries| - 1];
      var last := entries[|entries| - 1];
      assert forall i :: 0 <= i < |init| ==> init[i] == entries[i];
      NotFound(init, known) + if IsActive(last.1) && last.0 !in known then {last.0} else {}
  }

  /** `getChainLinkPrices`: returns the price map and the not-found map it writes to `currencies404`. */
  method GetChainLinkPrices(abiEntries: seq<(string, AbiRecord)>, known: set<string>, getPrice: PriceOracle)
    returns (prices: map<string, ClEntry>, c404: map<string, bool>)
    ensures prices == JsMap.FromPairs(Successes(abiEntries, known, getPrice))
    ensures c404.Keys == NotFound(abiEntries, known)
    ensures forall t :: t in c404 ==> !c404[t]
  {
    c404 := map[];
    var results: seq<(string, ClEntry)> := [];
    for i := 0 to |abiEntries|
      invariant results == Successes(abiEntries[..i], known, getPrice)
      invariant c404.Keys == NotFound(abiEntries[..i], known)
      invariant forall t :: t in c404 ==> !c404[t]
    {
      assert abiEntries[..i + 1][..i] == abiEntries[..i];
      var (ticker, e) := abiEntries[i];
      if !IsActive(e) {
        continue;
      }
      if ticker !in known {
        c404 := c404[ticker := false];
        continue;
      }
      var r := GetLatestPrice(ticker, e.abi, e.contractAddress, e.source, getPrice);
      if r.Some? {
        results := results + [r.value];
      }
    }
    assert abiEntries[..|abiEntries|] == abiEntries;
    prices := JsMap.FromPairs(results);
  }

  /** A ticker has a price exactly when one of its entries is active, has a currency in the
      store, is on a supported chain and its contract call succeeds; a failure elsewhere does
      not matter. */
  lemma PricedIffSucceeded(abiEntries: seq<(string, AbiRecord)>, known: set<string>, getPrice: PriceOracle, t: string)
    ensures t in JsMap.FromPairs(Successes(abiEntries, known, getPrice)) <==>
      exists i :: 0 <= i < |abiEntries| && abiEntries[i].0 == t && IsActive(abiEntries[i].1) && t in known
        && abiEntries[i].1.source.GetOr(DefaultChain) == DefaultChain
        && getPrice(abiEntries[i].1.abi, abiEntries[i].1.contractAddress).Some?
  {
    var succ := Successes(abiEntries, known, getPrice);
    if t in JsMap.FromPairs(succ) {
      var j :| 0 <= j < |succ| && succ[j].0 == t;
      assert succ[j] in succ;
      var i :| 0 <= i < |abiEntries| && Attempt(abiEntries[i], known, getPrice) == Some(succ[j]);
    }
    if exists i :: 0 <= i < |abiEntries| && abiEntries[i].0 == t && IsActive(abiEntries[i].1) && t in known
        && abiEntries[i].1.source.GetOr(DefaultChain) == DefaultChain
        && getPrice(abiEntries[i].1.abi, abiEntries[i].1.contractAddress).Some? {
      var i :| 0 <= i < |abiEntries| && abiEntries[i].0 == t && IsActive(abiEntries[i].1) && t in known
        && abiEntries[i].1.source.GetOr(DefaultChain) == DefaultChain
        && getPrice(abiEntries[i].1.abi, abiEntries[i].1.contractAddress).Some?;
      var p := Attempt(abiEntries[i], known, getPrice).value;
      assert p in succ;
      var j :| 0 <= j < |succ| && succ[j] == p;
    }
  }

  lemma SuccessesAppend(entries: seq<(string, AbiRecord)>, known: set<string>, getPrice: PriceOracle)
    requires entries != []
    ensures var a := Attempt(entries[|entries| - 1], known, getPrice);
      && (a.None? ==> Successes(entries, known, getPrice) == Successes(entries[..|entries| - 1], known, getPrice))
      && (a.Some? ==> Successes(entries, known, getPrice) == Successes(entries[..|entries| - 1], known, getPrice) + [a.value])
  {
  }

  /** Entry `i` is the last entry for `t` that produced a price. */
  ghost predicate LastSuccessFor(entries: seq<(string, AbiRecord)>, known: set<string>, getPrice: PriceOracle, t: string, i: int)
  {
    && 0 <= i < |entries| && entries[i].0 == t
    && Attempt(entries[i], known, getPrice).Some?
    && forall j :: i < j < |entries| && entries[j].0 == t ==> Attempt(entries[j], known, getPrice).None?
  }

  /** An entry that produces no price for `t` does not change which entry is the last success. */
  lemma LastSuccessExtends(entries: seq<(string, AbiRecord)>, known: set<string>, getPrice: PriceOracle, t: string, i: int)
    requires entries != []
    requires LastSuccessFor(entries[..|entries| - 1], known, getPrice, t, i)
    requires entries[|entries| - 1].0 != t || Attempt(entries[|entries| - 1], known, getPrice).None?
    ensures LastSuccessFor(entries, known, getPrice, t, i)
  {
    var init := entries[..|entries| - 1];
    forall j | i < j < |entries| && entries[j].0 == t
      ensures Attempt(entries[j], known, getPrice).None?
    {
      if j < |init| {
        assert init[j] == entries[j];
      }
    }
  }

  /** The price kept for a ticker is the one of its last entry that produced a price. */
  lemma {:induction false} LastSuccessWins(entries: seq<(string, AbiRecord)>, known: set<string>, getPrice: PriceOracle, t: string)
    requires t in JsMap.FromPairs(Successes(entries, known, getPrice))
    ensures exists i :: LastSuccessFor(entries, known, getPrice, t, i)
                        && JsMap.FromPairs(Successes(entries, known, getPrice))[t] == Attempt(entries[i], known, getPrice).value.1
  {
    var n := |entries| - 1;
    var init := entries[..n];
    var succInit := Successes(init, known, getPrice);
    var a := Attempt(entries[n], known, getPrice);
    SuccessesAppend(entries, known, getPrice);
    if a.Some? {
      JsMap.AppendPair(succInit, a.value);
    }
    if a.Some? && entries[n].0 == t {
      assert LastSuccessFor(entries, known, getPrice, t, n);
    } else {
      LastSuccessWins(init, known, getPrice, t);
      var i :| LastSuccessFor(init, known, getPrice, t, i)
               && JsMap.FromPairs(succInit)[t] == Attempt(init[i], known, getPrice).value.1;
      LastSuccessExtends(entries, known, getPrice, t, i);
    }
  }

  /** Each price is `[ticker, { ratioOfExchange: usdToROE(priceUSD), priceUpdatedAt: updatedAt }]`
      of the last entry for that ticker that produced a price. */
  lemma PriceShape(abiEntries: seq<(string, AbiRecord)>, known: set<string>, getPrice: PriceOracle, t: string)
    requires t in JsMap.FromPairs(Successes(abiEntries, known, getPrice))
    ensures exists i ::
              && LastSuccessFor(abiEntries, known, getPrice, t, i)
              && getPrice(abiEntries[i].1.abi, abiEntries[i].1.contractAddress).Some?
              && var p := getPrice(abiEntries[i].1.abi, abiEntries[i].1.contractAddress).value;
                 JsMap.FromPairs(Successes(abiEntries, known, getPrice))[t]
                   == ClEntry(UsdToRoeDefault.UsdToRoe(p.priceUSD), p.updatedAt)
  {
    LastSuccessWins(abiEntries, known, getPrice, t);
    var i :| LastSuccessFor(abiEntries, known, getPrice, t, i)
             && JsMap.FromPairs(Successes(abiEntries, known, getPrice))[t] == Attempt(abiEntries[i], known, getPrice).value.1;
  }
}
