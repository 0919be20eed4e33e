/** src/index.js: one pass of `updateLatestPrices` — refresh missing Chainlink ABIs, then merge
    the Chainlink, CoinGecko and CoinMarketCap quotes into the stored currencies — and the
    rescheduling rule. The adapters are modelled in their own modules; here their results are
    inputs. */
module Index {
  import opened Wrappers
  import Text
  import JsMap
  import Chainlink
  import Cmc
  import CoinGecko

  const TypeCrypto: string := "cryptocurrency"
  const TypeFiat: string := "fiat"
  /** The label of a price that no adapter supplied. */
  const LabelTotem: string := "totem.live"
  const LabelChainlink: string := "chain.link"
  const LabelCoinGecko: string := "coingecko.com"
  const LabelCmc: string := "coinmarketcap.com"

  /** A stored currency record: the fields the merge reads or writes, and the others. */
  datatype Currency = Currency(
    ticker: string,
    currencyType: string,
    ratioOfExchange: Option<int>,
    priceUpdatedAt: Option<string>,
    source: Option<string>,
    marketCapUSD: Option<real>,
    rank: Option<int>,
    other: map<string, string>)

  predicate IsTracked(c: Currency)
  {
    c.currencyType == TypeCrypto || c.currencyType == TypeFiat
  }

  /** `currenciesArr`: the stored `[id, currency]` pairs whose type takes part in the merge, in order. */
  function Tracked(dbPairs: seq<(string, Currency)>): (r: seq<(string, Currency)>)
    ensures |r| <= |dbPairs|
    ensures forall p :: p in r <==> p in dbPairs && IsTracked(p.1)
  {
    if dbPairs == [] then []
    else
      var rest := Tracked(dbPairs[1..]);
      assert forall p :: p in dbPairs <==> p == dbPairs[0] || p in dbPairs[1..];
      if IsTracked(dbPairs[0].1) then [dbPairs[0]] + rest else rest
  }

  /** The filter keeps the order of the stored pairs. */
  lemma {:induction false} TrackedAppend(a: seq<(string, Currency)>, b: seq<(string, Currency)>)
    ensures Tracked(a + b) == Tracked(a) + Tracked(b)
  {
    if a == [] {
      assert a + b == b;
    } else {
      assert (a + b)[1..] == a[1..] + b;
      TrackedAppend(a[1..], b);
    }
  }

  /** `currenciesMap`: tracked currencies by ticker; the last one with a ticker wins. */
  function CurrenciesByTicker(tracked: seq<(string, Currency)>): (m: map<string, Currency>)
    ensures forall t :: t in m <==> exists i :: 0 <= i < |tracked| && tracked[i].1.ticker == t
  {
    var pairs := seq(|tracked|, i requires 0 <= i < |tracked| => (tracked[i].1.ticker, tracked[i].1));
    assert forall i :: 0 <= i < |tracked| ==> pairs[i].0 == tracked[i].1.ticker;
    JsMap.FromPairs(pairs)
  }

  /** `cgSymbols`: the non-empty tickers of the tracked cryptocurrencies. */
  function CgSymbols(tracked: seq<(string, Currency)>): (syms: seq<string>)
    ensures forall s :: s in syms <==>
              s != "" && exists p :: p in tracked && p.1.currencyType == TypeCrypto && p.1.ticker == s
  {
    if tracked == [] then []
    else
      var rest := CgSymbols(tracked[1..]);
      assert forall p :: p in tracked <==> p == tracked[0] || p in tracked[1..];
      var c := tracked[0].1;
      if c.currencyType == TypeCrypto && c.ticker != "" then [c.ticker] + rest else rest
  }

  /** A quote taken from an adapter entry. */
  datatype Quote = Quote(ratio: int, updatedAt: Option<string>)

  /** `(clEntry || !fiat ? (cgEntry || cmcEntry) : {}) || {}`: `||` binds tighter than `?:`, so
      the CoinGecko entry, else the CoinMarketCap entry, is used whenever there is a Chainlink
      entry or the currency is not fiat. The Chainlink price itself is never the quote. */
  function TargetQuote(c: Currency, inChainlink: bool, cg: map<string, CoinGecko.CgEntry>, cmc: map<string, Cmc.CmcEntry>)
    : (q: Option<Quote>)
    ensures q.Some? <==> (inChainlink || c.currencyType != TypeFiat) && (c.ticker in cg || c.ticker in cmc)
    ensures q.Some? && c.ticker in cg ==> q.value.ratio == cg[c.ticker].ratioOfExchange
    ensures q.Some? && c.ticker !in cg ==> q.value.ratio == cmc[c.ticker].ratioOfExchange
  {
    if !inChainlink && c.currencyType == TypeFiat then None
    else if c.ticker in cg then Some(Quote(cg[c.ticker].ratioOfExchange, cg[c.ticker].priceUpdatedAt))
    else if c.ticker in cmc then Some(Quote(cmc[c.ticker].ratioOfExchange, cmc[c.ticker].priceUpdatedAt))
    else None
  }

  /** The `source` label, by precedence Chainlink, CoinGecko (not fiat), CoinMarketCap (not fiat), Totem. */
  function SourceLabel(inChainlink: bool, fiat: bool, inCg: bool, inCmc: bool): (name: string)
    ensures name == LabelChainlink <==> inChainlink
    ensures name == LabelCoinGecko <==> !inChainlink && !fiat && inCg
    ensures name == LabelCmc <==> !inChainlink && !fiat && !inCg && inCmc
    ensures name == LabelTotem <==> !inChainlink && (fiat || (!inCg && !inCmc))
  {
    if inChainlink then LabelChainlink
    else if !fiat && inCg then LabelCoinGecko
    else if !fiat && inCmc then LabelCmc
    else LabelTotem
  }

  /** The ratio after the merge: the quote's, else (destructuring default) the stored one. */
  function NewRatio(c: Currency, q: Option<Quote>): Option<int>
  {
    if q.Some? then Some(q.value.ratio) else c.ratioOfExchange
  }

  /** The timestamp after the merge: the quote's when defined, else the stored one. */
  function NewUpdatedAt(c: Currency, q: Option<Quote>): Option<string>
  {
    if q.Some? && q.value.updatedAt.Some? then q.value.updatedAt else c.priceUpdatedAt
  }

  /** The callback of `currenciesArr.map(...)` followed by `filter(Boolean)`: the `[id, record]`
      to write back, or `None` for `USD` and for a currency whose ratio text is unchanged. */
  function ReconcileOne(id: string, c: Currency, cl: map<string, Chainlink.ClEntry>,
                        cg: map<string, CoinGecko.CgEntry>, cmc: map<string, Cmc.CmcEntry>)
    : Option<(string, Currency)>
  {
    var fiat := c.currencyType == TypeFiat;
    var q := TargetQuote(c, c.ticker in cl, cg, cmc);
    var roe := NewRatio(c, q);
    if c.ticker == "USD" then None
    else if Text.ValueText(roe) == Text.ValueText(c.ratioOfExchange) then None
    else
      var cgEntry := if c.ticker in cg then Some(cg[c.ticker]) else None;
      Some((id, c.(marketCapUSD := if cgEntry.Some? then Some(cgEntry.value.marketCapUSD) else None,
                   rank := if cgEntry.Some? then Some(cgEntry.value.rank) else None,
                   ratioOfExchange := roe,
                   source := Some(SourceLabel(c.ticker in cl, fiat, c.ticker in cg, c.ticker in cmc)),
                   priceUpdatedAt := NewUpdatedAt(c, q))))
  }

  /** The quoted ratio a currency would get: CoinGecko's, else CoinMarketCap's. */
  function QuotedRatio(t: string, cg: map<string, CoinGecko.CgEntry>, cmc: map<string, Cmc.CmcEntry>): int
    requires t in cg || t in cmc
  {
    if t in cg then cg[t].ratioOfExchange else cmc[t].ratioOfExchange
  }

  /** When a currency is written back: it is not `USD`, it may take a quote (a Chainlink entry
      or not fiat), some quote exists, and the quoted ratio differs from the stored one. Comparing
      the `${}` texts is comparing the values. */
  lemma UpdatedIffRatioChanged(id: string, c: Currency, cl: map<string, Chainlink.ClEntry>,
                               cg: map<string, CoinGecko.CgEntry>, cmc: map<string, Cmc.CmcEntry>)
    ensures ReconcileOne(id, c, cl, cg, cmc).Some? <==>
              && c.ticker != "USD"
              && (c.ticker in cl || c.currencyType != TypeFiat)
              && (c.ticker in cg || c.ticker in cmc)
              && c.ratioOfExchange != Some(QuotedRatio(c.ticker, cg, cmc))
  {
    var q := TargetQuote(c, c.ticker in cl, cg, cmc);
    Text.ValueTextInjective(NewRatio(c, q), c.ratioOfExchange);
  }

  /** `USD` is never written back, and neither is a fiat currency without a Chainlink entry. */
  lemma NeverUpdated(id: string, c: Currency, cl: map<string, Chainlink.ClEntry>,
                     cg: map<string, CoinGecko.CgEntry>, cmc: map<string, Cmc.CmcEntry>)
    requires c.ticker == "USD" || (c.currencyType == TypeFiat && c.ticker !in cl)
    ensures ReconcileOne(id, c, cl, cg, cmc).None?
  {
    UpdatedIffRatioChanged(id, c, cl, cg, cmc);
  }

  /** A written record keeps its id and every field the merge does not own; it takes the quoted
      ratio, the quote's timestamp when it has one (the stored timestamp otherwise), the source
      label, and market cap and rank from the CoinGecko entry (undefined without one). */
  lemma UpdatedRecord(id: string, c: Currency, cl: map<string, Chainlink.ClEntry>,
                      cg: map<string, CoinGecko.CgEntry>, cmc: map<string, Cmc.CmcEntry>)
    requires ReconcileOne(id, c, cl, cg, cmc).Some?
    ensures var (id', u) := ReconcileOne(id, c, cl, cg, cmc).value;
      && id' == id
      && u.ticker == c.ticker && u.currencyType == c.currencyType && u.other == c.other
      && (c.ticker in cg || c.ticker in cmc)
      && u.ratioOfExchange == Some(QuotedRatio(c.ticker, cg, cmc))
      && u.ratioOfExchange != c.ratioOfExchange
      && u.source == Some(SourceLabel(c.ticker in cl, c.currencyType == TypeFiat, c.ticker in cg, c.ticker in cmc))
      && (c.ticker in cg ==> u.marketCapUSD == Some(cg[c.ticker].marketCapUSD) && u.rank == Some(cg[c.ticker].rank))
      && (c.ticker !in cg ==> u.marketCapUSD.None? && u.rank.None?)
      && u.priceUpdatedAt == NewUpdatedAt(c, TargetQuote(c, c.ticker in cl, cg, cmc))
      && (c.ticker in cg && cg[c.ticker].priceUpdatedAt.Some? ==> u.priceUpdatedAt == cg[c.ticker].priceUpdatedAt)
      && (c.ticker in cg && cg[c.ticker].priceUpdatedAt.None? ==> u.priceUpdatedAt == c.priceUpdatedAt)
      && (c.ticker !in cg && cmc[c.ticker].priceUpdatedAt.Some? ==> u.priceUpdatedAt == cmc[c.ticker].priceUpdatedAt)
      && (c.ticker !in cg && cmc[c.ticker].priceUpdatedAt.None? ==> u.priceUpdatedAt == c.priceUpdatedAt)
  {
    UpdatedIffRatioChanged(id, c, cl, cg, cmc);
  }

  /** `updatedCurrencies`: the write-back pairs, in the order of the tracked currencies. */
  function Reconcile(tracked: seq<(string, Currency)>, cl: map<string, Chainlink.ClEntry>,
                     cg: map<string, CoinGecko.CgEntry>, cmc: map<string, Cmc.CmcEntry>)
    : (r: seq<(string, Currency)>)
    ensures |r| <= |tracked|
    ensures forall p :: p in r <==>
              exists i :: 0 <= i < |tracked| && ReconcileOne(tracked[i].0, tracked[i].1, cl, cg, cmc) == Some(p)
  {
    if tracked == [] then []
    else
      var rest := Reconcile(tracked[1..], cl, cg, cmc);
      assert forall i :: 0 < i < |tracked| ==> tracked[i] == tracked[1..][i - 1];
      assert forall i :: 0 <= i < |tracked| - 1 ==> tracked[1..][i] == tracked[i + 1];
      match ReconcileOne(tracked[0].0, tracked[0].1, cl, cg, cmc)
      case None => rest
      case Some(p) => [p] + rest
  }

  /** The write-back pairs keep the order of the tracked currencies. */
  lemma {:induction false} ReconcileAppend(a: seq<(string, Currency)>, b: seq<(string, Currency)>,
                                           cl: map<string, Chainlink.ClEntry>,
                                           cg: map<string, CoinGecko.CgEntry>, cmc: map<string, Cmc.CmcEntry>)
    ensures Reconcile(a + b, cl, cg, cmc) == Reconcile(a, cl, cg, cmc) + Reconcile(b, cl, cg, cmc)
  {
    if a == [] {
      assert a + b == b;
    } else {
      assert (a + b)[1..] == a[1..] + b;
      ReconcileAppend(a[1..], b, cl, cg, cmc);
    }
  }

  /** Every write-back record is a tracked currency other than `USD` whose ratio changed. */
  lemma WrittenRecordsAreTrackedChanges(dbPairs: seq<(string, Currency)>, cl: map<string, Chainlink.ClEntry>,
                                        cg: map<string, CoinGecko.CgEntry>, cmc: map<string, Cmc.CmcEntry>,
                                        p: (string, Currency))
    requires p in Reconcile(Tracked(dbPairs), cl, cg, cmc)
    ensures exists c :: (p.0, c) in dbPairs && IsTracked(c) && c.ticker != "USD"
                        && p.1.ratioOfExchange != c.ratioOfExchange && p.1.other == c.other
    ensures IsTracked(p.1) && p.1.ticker != "USD"
  {
    var tracked := Tracked(dbPairs);
    var i :| 0 <= i < |tracked| && ReconcileOne(tracked[i].0, tracked[i].1, cl, cg, cmc) == Some(p);
    UpdatedRecord(tracked[i].0, tracked[i].1, cl, cg, cmc);
    UpdatedIffRatioChanged(tracked[i].0, tracked[i].1, cl, cg, cmc);
    assert tracked[i] in tracked;
  }

  /** An ABI entry of the contract list or the store. */
  type AbiRecord = Chainlink.AbiRecord

  /** `!isArr(ABI) || contractAddress !== ca`: the stored ABI is missing or not an array, or it
      was saved for another contract address. */
  predicate NeedsAbi(value: AbiRecord, stored: Option<AbiRecord>)
  {
    stored.None? || stored.value.abi.None? || value.contractAddress != stored.value.contractAddress
  }

  /** `{ active: true, ...value, decimals, ABI }`. */
  function NewAbiEntry(value: AbiRecord, abi: seq<string>): (e: AbiRecord)
    ensures e.abi == Some(abi) && e.contractAddress == value.contractAddress && e.source == value.source
    ensures e.active == Some(value.active.GetOr(true)) && e.decimals == Some(value.decimals.GetOr(8))
    ensures !NeedsAbi(value, Some(e))
  {
    value.(active := Some(value.active.GetOr(true)), decimals := Some(value.decimals.GetOr(8)), abi := Some(abi))
  }

  /** `getAbi(contractAddress)` followed by `JSON.parse`: `None` when the call fails or the
      result is not an array. */
  type AbiFetch = Option<string> -> Option<seq<string>>

  /** The stored ABIs and the local contract list, and whether the pass is still running. */
  datatype AbiState = AbiState(abis: map<string, AbiRecord>, contracts: map<string, AbiRecord>, ok: bool)

  function Stored(abis: map<string, AbiRecord>, ticker: string): Option<AbiRecord>
  {
    if ticker in abis then Some(abis[ticker]) else None
  }

  /** One iteration of the ABI loop. An invalid ABI stops the pass (`throw`); what was saved
      before stays saved. */
  function RefreshOne(st: AbiState, entry: (string, AbiRecord), getAbi: AbiFetch): AbiState
  {
    var (ticker, value) := entry;
    if !st.ok || ticker == "" || !NeedsAbi(value, Stored(st.abis, ticker)) then st
    else match getAbi(value.contractAddress)
      case None => st.(ok := false)
      case Some(abi) => AbiState(st.abis[ticker := NewAbiEntry(value, abi)], st.contracts - {ticker}, true)
  }

  /** The whole ABI loop over `contracts.toArray()`. */
  function RefreshAbis(st: AbiState, entries: seq<(string, AbiRecord)>, getAbi: AbiFetch): AbiState
  {
    if entries == [] then st
    else RefreshOne(RefreshAbis(st, entries[..|entries| - 1], getAbi), entries[|entries| - 1], getAbi)
  }

  /** Distinct tickers, as the keys of the contract list are. */
  ghost predicate DistinctTickers(entries: seq<(string, AbiRecord)>)
  {
    forall i, j :: 0 <= i < j < |entries| ==> entries[i].0 != entries[j].0
  }

  /** The loop only adds or replaces ABIs of the tickers it visits, and only removes those
      tickers from the contract list. */
  lemma {:induction false} RefreshTouchesOnlyListedTickers(st: AbiState, entries: seq<(string, AbiRecord)>,
                                                          getAbi: AbiFetch, t: string)
    requires forall i :: 0 <= i < |entries| ==> entries[i].0 != t
    ensures Stored(RefreshAbis(st, entries, getAbi).abis, t) == Stored(st.abis, t)
    ensures t in st.contracts ==> t in RefreshAbis(st, entries, getAbi).contracts
  {
    if entries != [] {
      RefreshTouchesOnlyListedTickers(st, entries[..|entries| - 1], getAbi, t);
    }
  }

  /** After a completed loop no listed ticker needs an ABI any more: running the loop again over
      the same entries fetches nothing and changes nothing. */
  lemma {:induction false} RefreshSettles(st: AbiState, entries: seq<(string, AbiRecord)>, getAbi: AbiFetch)
    requires DistinctTickers(entries)
    requires RefreshAbis(st, entries, getAbi).ok
    ensures forall i :: 0 <= i < |entries| && entries[i].0 != "" ==>
              !NeedsAbi(entries[i].1, Stored(RefreshAbis(st, entries, getAbi).abis, entries[i].0))
  {
    if entries != [] {
      var init := entries[..|entries| - 1];
      var last := entries[|entries| - 1];
      var mid := RefreshAbis(st, init, getAbi);
      assert DistinctTickers(init) by {
        forall i, j | 0 <= i < j < |init| ensures init[i].0 != init[j].0 { assert init[i] == entries[i] && init[j] == entries[j]; }
      }
      RefreshSettles(st, init, getAbi);
      forall i | 0 <= i < |entries| && entries[i].0 != ""
        ensures !NeedsAbi(entries[i].1, Stored(RefreshAbis(st, entries, getAbi).abis, entries[i].0))
      {
        if i < |entries| - 1 {
          assert entries[i] == init[i];
          assert entries[i].0 != last.0;
        }
      }
    }
  }

  /** Running the loop a second time over the same entries changes nothing. */
  lemma {:induction false} RefreshIdempotent(st: AbiState, entries: seq<(string, AbiRecord)>, getAbi: AbiFetch)
    requires DistinctTickers(entries)
    requires RefreshAbis(st, entries, getAbi).ok
    ensures RefreshAbis(RefreshAbis(st, entries, getAbi), entries, getAbi) == RefreshAbis(st, entries, getAbi)
  {
    RefreshSettles(st, entries, getAbi);
    RefreshUnchangedWhenSettled(RefreshAbis(st, entries, getAbi), entries, getAbi);
  }

  lemma {:induction false} RefreshUnchangedWhenSettled(st: AbiState, entries: seq<(string, AbiRecord)>, getAbi: AbiFetch)
    requires forall i :: 0 <= i < |entries| && entries[i].0 != "" ==> !NeedsAbi(entries[i].1, Stored(st.abis, entries[i].0))
    ensures RefreshAbis(st, entries, getAbi) == st
  {
    if entries != [] {
      RefreshUnchangedWhenSettled(st, entries[..|entries| - 1], getAbi);
    }
  }

  /** `contracts.toArray()` yields exactly the entries of the contract list, each ticker once. */
  ghost predicate ListsContracts(entries: seq<(string, AbiRecord)>, contracts: map<string, AbiRecord>)
  {
    && DistinctTickers(entries)
    && (forall i :: 0 <= i < |entries| ==> entries[i].0 in contracts && contracts[entries[i].0] == entries[i].1)
    && (forall t :: t in contracts ==> exists i :: 0 <= i < |entries| && entries[i].0 == t)
  }

  /** The loop only removes entries from the contract list. */
  lemma {:induction false} RefreshShrinksContracts(st: AbiState, entries: seq<(string, AbiRecord)>, getAbi: AbiFetch)
    ensures forall t :: t in RefreshAbis(st, entries, getAbi).contracts ==>
              t in st.contracts && RefreshAbis(st, entries, getAbi).contracts[t] == st.contracts[t]
  {
    if entries != [] {
      RefreshShrinksContracts(st, entries[..|entries| - 1], getAbi);
    }
  }

  /** After a completed pass, the next pass, over what is left of the contract list, fetches no
      ABI and changes nothing: every remaining contract has its ABI saved for its address. */
  lemma NextPassFetchesNothing(st: AbiState, entries: seq<(string, AbiRecord)>, getAbi: AbiFetch,
                               next: seq<(string, AbiRecord)>)
    requires ListsContracts(entries, st.contracts)
    requires RefreshAbis(st, entries, getAbi).ok
    requires ListsContracts(next, RefreshAbis(st, entries, getAbi).contracts)
    ensures RefreshAbis(RefreshAbis(st, entries, getAbi), next, getAbi) == RefreshAbis(st, entries, getAbi)
  {
    var after := RefreshAbis(st, entries, getAbi);
    RefreshShrinksContracts(st, entries, getAbi);
    RefreshSettles(st, entries, getAbi);
    forall k | 0 <= k < |next| && next[k].0 != ""
      ensures !NeedsAbi(next[k].1, Stored(after.abis, next[k].0))
    {
      var t := next[k].0;
      var i :| 0 <= i < |entries| && entries[i].0 == t;
    }
    RefreshUnchangedWhenSettled(after, next, getAbi);
  }

  /** Whether a pass is followed by another: `cycleDurationMin` (`parseInt`, `None` for NaN) must
      be non-zero; the delay is that many minutes in milliseconds. */
  function NextRun(cycleDurationMin: Option<int>): (delay: Option<int>)
    ensures delay.Some? <==> cycleDurationMin.Some? && cycleDurationMin.value != 0
    ensures delay.Some? ==> delay.value % 60000 == 0 && delay.value / 60000 == cycleDurationMin.value
  {
    if cycleDurationMin.None? || cycleDurationMin.value == 0 then None
    else Some(cycleDurationMin.value * 60 * 1000)
  }

  /** `getAll` of the currency store yields exactly its entries. */
  ghost predicate Lists(dbPairs: seq<(string, Currency)>, store: map<string, Currency>)
  {
    && (forall i :: 0 <= i < |dbPairs| ==> dbPairs[i].0 in store && store[dbPairs[i].0] == dbPairs[i].1)
    && (forall id :: id in store ==> exists i :: 0 <= i < |dbPairs| && dbPairs[i].0 == id)
  }

  /** `dbCurrencies`, `dbABIs` (and its in-memory copy `ABIs`) and the local `contracts` list. */
  class Aggregator {
    var currencies: map<string, Currency>
    var abis: map<string, AbiRecord>
    var contracts: map<string, AbiRecord>

    constructor (currencies0: map<string, Currency>, abis0: map<string, AbiRecord>, contracts0: map<string, AbiRecord>)
      ensures currencies == currencies0 && abis == abis0 && contracts == contracts0
    {
      currencies := currencies0;
      abis := abis0;
      contracts := contracts0;
    }

    /** One iteration of the ABI loop: skip an empty ticker or one whose ABI is saved for its
        address; otherwise fetch the ABI and save it, or stop the pass when it is invalid. */
    method RefreshEntry(ticker: string, value: AbiRecord, getAbi: AbiFetch, ok0: bool) returns (ok: bool)
      modifies this
      ensures AbiState(abis, contracts, ok) == RefreshOne(AbiState(old(abis), old(contracts), ok0), (ticker, value), getAbi)
      ensures currencies == old(currencies)
    {
      ok := ok0;
      if !ok || ticker == "" {
        return;
      }
      var stored := Stored(abis, ticker);
      if NeedsAbi(value, stored) {
        var abi := getAbi(value.contractAddress);
        if abi.None? {
          ok := false;
        } else {
          var entry := NewAbiEntry(value, abi.value);
          abis := abis[ticker := entry];
          contracts := contracts - {ticker};
        }
      }
    }

    /** The ABI loop over the contract list: fetch and save an ABI for every listed ticker that
        needs one, dropping it from the local list; stop at the first invalid ABI. Returns whether
        the loop completed. */
    method RefreshMissingAbis(entries: seq<(string, AbiRecord)>, getAbi: AbiFetch) returns (ok: bool)
      requires ListsContracts(entries, contracts)
      modifies this
      ensures AbiState(abis, contracts, ok) == RefreshAbis(AbiState(old(abis), old(contracts), true), entries, getAbi)
      ensures currencies == old(currencies)
    {
      ghost var st0 := AbiState(abis, contracts, true);
      ok := true;
      for i := 0 to |entries|
        invariant AbiState(abis, contracts, ok) == RefreshAbis(st0, entries[..i], getAbi)
        invariant currencies == old(currencies)
      {
        assert entries[..i + 1][..i] == entries[..i];
        ok := RefreshEntry(entries[i].0, entries[i].1, getAbi, ok);
      }
      assert entries[..|entries|] == entries;
    }

    /** One pass of `updateLatestPrices`, given the contract list, the stored currencies as
        listed, and the adapters' results (`cg` is `None` when `getLatestPrices` returned
        nothing; `cmc` is a failure when `getCMCPrices` threw and `Success(None)` when it returned
        nothing). An error anywhere ends the pass without writing currencies; otherwise the
        changed records are upserted, and only when there are some. */
    method UpdateLatestPrices(entries: seq<(string, AbiRecord)>, getAbi: AbiFetch,
                              dbPairs: seq<(string, Currency)>,
                              cl: map<string, Chainlink.ClEntry>, cg: Option<map<string, CoinGecko.CgEntry>>,
                              cmc: Result<Option<map<string, Cmc.CmcEntry>>, string>)
      returns (updated: seq<(string, Currency)>)
      requires ListsContracts(entries, contracts)
      requires Lists(dbPairs, currencies)
      modifies this
      ensures var st := RefreshAbis(AbiState(old(abis), old(contracts), true), entries, getAbi);
        && abis == st.abis && contracts == st.contracts
        && updated == if st.ok && cmc.Success? && cg.Some?
                      then Reconcile(Tracked(dbPairs), cl, cg.value, cmc.value.GetOr(map[]))
                      else []
      ensures currencies == old(currencies) + JsMap.FromPairs(updated)
    {
      updated := [];
      var ok := RefreshMissingAbis(entries, getAbi);
      if !ok || cmc.Failure? {
        return;
      }
      var tracked := Tracked(dbPairs);
      if cg.None? {
        // `cgPrices.get` throws on the first tracked currency; with none, nothing is written either.
        return;
      }
      updated := Reconcile(tracked, cl, cg.value, cmc.value.GetOr(map[]));
      if |updated| > 0 {
        currencies := currencies + JsMap.FromPairs(updated);
      }
    }
  }
}
