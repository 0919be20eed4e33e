# totem-price-aggregator-ms — a Dafny model of the price merge and normalisation

This project models the core of the Totem price aggregator. The aggregator collects USD prices
of crypto and fiat currencies and writes them back into the shared currency store as a fixed-point
"ratio of exchange" (USD × 10^8, truncated). The model covers:

- the live reconciliation in `src/index.js`. It keeps the `cryptocurrency` and `fiat`
  currencies, picks a ratio, a timestamp and a source label for each from the Chainlink,
  CoinGecko and CoinMarketCap quote maps, and writes back only the records whose ratio text
  changed. It also covers the ABI refresh loop that runs before the merge, and the rescheduling rule;
- the adapters' result shaping:
  - Chainlink, `src/chainlinkHelper.js`: inactive and unknown tickers, and failures isolated per ticker;
  - CoinMarketCap, `src/cmcHelper.js`: the configuration gate, the URL join and the listing map;
  - Alpha Vantage, `src/alphaVantageHelper.js`: payload validation, the compact/full output-size rule and the rate-limit defaults;
- CoinGecko, `src/coinGeckoHelper.js`:
  - the coin-list cache;
  - symbol-to-id resolution, id groups, and quote filtering and ranking;
  - the history window, day bucketing and the start-date cut-off;
  - the selection of currencies for the daily sync, and the sync loop with its watermark;
- the conversions `usdToROE` (`src/utils.js`, `src/usdToROE.js`) and the history-item id key
  (`src/utils.js`).

Conventions:

- **Values and time.** Times are integer milliseconds since the epoch and calendar dates are day
  numbers. Comparing the `YYYY-MM-DD` texts the code compares is the same as comparing day
  numbers. `toISOString` is modelled with the civil-from-days calendar conversion.
- **Quotes and numbers.** Prices are `real`. `parseInt(x * 1e8)` is truncation toward zero. An
  undefined value is `None`, and `${v}` of an optional integer is its decimal text or
  `undefined`.
- **JavaScript maps.** `new Map(pairs)` is `JsMap.FromPairs`; its last pair for a key wins.
- **Everything outside the core** becomes a parameter: network clients, database reads,
  `generateHash`, the clock. Each is a function or a value, and a failure shows up as `None`
  or `Failure`.
- **Imperative parts.** The parts that update state in place are classes whose methods are proved
  equal to a specification function of the old state:
  - the coin-list cache (`CoinGecko.CoinsListCache`);
  - the daily sync loop (`CoinGeckoHistory.DailySync`);
  - the ABI loop and one pass of `updateLatestPrices` (`Index.Aggregator`).

Behaviour of the code worth knowing:

- **Reconciliation quote.** At `src/index.js:89`, `||` binds tighter than `?:`. The ratio is
  taken from the CoinGecko entry, else the CoinMarketCap entry, whenever a Chainlink entry
  exists or the currency is not fiat. The Chainlink price itself is never used. A Chainlink
  entry only makes a fiat currency eligible and sets the label `chain.link`, for crypto
  currencies too. A fiat currency without one is never written.
- **Daily history writes.** History is written with `setAll(map, false)`, which the model treats
  as an upsert. Samples dated on the watermark day itself are kept; the filter is
  `date >= dateFrom`.
- **Watermark.** The code takes `sort()[0]` of the returned dates as the new watermark, which is
  the earliest one. `CoinGeckoHistory.WatermarkAsWritten` models that expression; the sync
  (`CoinGeckoHistory.SyncOne`) uses the corrected candidate, the latest date. See Findings.
- **CoinMarketCap listings.** A listing without `quote.USD` makes `getCMCPrices` throw, which
  ends the whole pass of `updateLatestPrices` before anything is written.

## Model

| member | source | states |
|---|---|---|
| Utils.UsdToRoe | src/utils.js:13 | the ratio is `usd × 10^8` truncated toward zero: less than 1 away from it, on the side of zero |
| Utils.Trunc | src/utils.js:13 | `parseInt` of a number: the integer toward zero, less than 1 away from it |
| Utils.TruncMonotone | src/utils.js:13 | truncation toward zero is non-decreasing |
| Utils.UsdToRoeMonotone | src/utils.js:13 | `usdToROE` is non-decreasing in the USD price |
| Utils.UsdToRoeOfWhole | src/utils.js:13 | a whole amount n maps to n × 10^8 |
| Utils.OmittedTypeIsUndefinedText | src/utils.js:3 | a call without a type hashes the text `undefined` in its place |
| Utils.HistoryKeyInjective | src/utils.js:3 | different (date, ticker, type) give different keys when dates have no `_` and tickers no `.` |
| Utils.HistoryIdDistinct | src/utils.js:3 | under an injective hash, different (date, ticker, type) give different ids |
| UsdToRoeDefault.UsdToRoe | src/usdToROE.js:9 | the default export truncates `usd × 10^8` toward zero |
| UsdToRoeDefault.AgreesWithUtils | src/usdToROE.js:9 | the default export equals `usdToROE` of `src/utils.js` on every input |
| UsdToRoeDefault.Monotone | src/usdToROE.js:9 | the default export is non-decreasing |
| UsdToRoeDefault.OfWhole | src/usdToROE.js:9 | a whole amount n maps to n × 10^8 (12 maps to 1,200,000,000) |
| Chainlink.GetLatestPrice | src/chainlinkHelper.js:19-43 | there is a price iff the chain (default `ethereum`) is `ethereum` and the call succeeds; it is `[ticker, {usdToROE(priceUSD), updatedAt}]` |
| Chainlink.NotFound | src/chainlinkHelper.js:61-64 | a ticker is recorded as not found iff one of its entries is active and it has no currency in the store |
| Chainlink.Attempt | src/chainlinkHelper.js:59-67 | an ABI entry yields a price, for its own ticker, iff it is active (default true), its ticker is a known currency, its chain is `ethereum` (the default) and the price call succeeds |
| Chainlink.Successes | src/chainlinkHelper.js:57-72 | the priced pairs are exactly those of the entries whose attempt succeeded |
| Chainlink.GetChainLinkPrices | src/chainlinkHelper.js:54-73 | the loop returns the Map of the successful pairs, and the not-found map holds exactly the active unknown tickers, each mapped to `false` |
| Chainlink.PricedIffSucceeded | src/chainlinkHelper.js:59-72 | a ticker has a price iff some entry for it is active, known and its price fetch succeeds; a failure elsewhere does not matter |
| Chainlink.LastSuccessWins | src/chainlinkHelper.js:57-73 | the price kept for a ticker is the result of its last entry that produced a price (`new Map` keeps the last pair) |
| Chainlink.PriceShape | src/chainlinkHelper.js:34-42 | each price is `{usdToROE(priceUSD), updatedAt}` of the last entry of that ticker that produced a price; no later entry of the ticker produced one |
| Cmc.JoinUrl | src/cmcHelper.js:21 | the URL starts with the base, ends with the suffix, has exactly one `/` between them, and adds one only when the base lacks it |
| Cmc.JoinUrlIgnoresTrailingSlash | src/cmcHelper.js:21 | a base with or without its trailing `/` gives the same URL |
| Cmc.GetCmcPrices | src/cmcHelper.js:16-53 | no map iff the URL or key is empty, the fetch fails, or the listing is empty; a failure (the pass ends) iff some listing lacks `quote.USD`; otherwise the keys are exactly the listed symbols |
| Cmc.LastListingWins | src/cmcHelper.js:36-52 | with duplicate symbols the last listing is kept, as `{cmc_rank, usdToROE(price), last_updated}` |
| AlphaVantage.LimitOr | src/alphaVantageHelper.js:8-9 | a limit is the parsed value unless it is missing, unparsable or 0, then the default |
| AlphaVantage.LimitsNeverZero | src/alphaVantageHelper.js:8-9 | the per-day and per-minute limits are never 0 |
| AlphaVantage.GetDailyPrice | src/alphaVantageHelper.js:56-75 | an empty ticker fails with `Ticker required`; CSV returns the raw response; JSON returns the `Time Series (Daily)` value only when it is an object, else fails with `Invalid data received` |
| AlphaVantage.OutputSize | src/alphaVantageHelper.js:111-113 | the size is `compact` iff there is a last date and now is at most 100 days after it, otherwise `full` |
| AlphaVantage.FullStaysFull | src/alphaVantageHelper.js:111-113 | once a ticker needs `full`, it still does at any later time |
| AlphaVantage.StockRequests | src/alphaVantageHelper.js:87-115 | there are exactly as many requests as `stock` currencies, and each is the request (ticker, output size of its last date) of one of them |
| AlphaVantage.StockRequestsPrefix | src/alphaVantageHelper.js:87-115 | the requests for the first n currencies are the first requests, in the same order |
| AlphaVantage.StockRequestPositions | src/alphaVantageHelper.js:87-115 | the stock at position j gets its own request, at position "number of stocks before it"; so no stock is skipped or repeated |
| CoinGecko.CoinsBySymbol | src/coinGeckoHelper.js:33-38 | the fresh list is keyed by exactly the listed symbols |
| CoinGecko.LaterDuplicateSymbolWins | src/coinGeckoHelper.js:33-38 | a later coin with the same symbol overwrites an earlier one |
| CoinGecko.CoinsListCache.GetCoinsList | src/coinGeckoHelper.js:25-41 | a non-empty cache is returned unchanged unless forced; otherwise a fetched list replaces the cache keyed by symbol, and an invalid list fails and leaves the cache alone |
| CoinGecko.Resolve | src/coinGeckoHelper.js:63-68 | the `[id, symbol]` pairs are exactly the requested symbols whose lower-cased form has a non-empty CoinGecko id |
| CoinGecko.SortedCoins | src/coinGeckoHelper.js:63-69 | the same pairs, sorted by their `id,symbol` text as the default sort does |
| CoinGecko.GroupCount | src/coinGeckoHelper.js:76 | there are `ceil(n / 400)` groups |
| CoinGecko.Group | src/coinGeckoHelper.js:78-84 | group i holds `ids[i × 450 + n]` for every n < 450 where that id exists, in order, and nothing past the end (resolved ids are never empty, so `filter(Boolean)` drops only the missing ones) |
| CoinGecko.IdGroupsConcat | src/coinGeckoHelper.js:75-84 | the groups put together are the ids, in order (trailing groups may be empty) |
| CoinGecko.RequestedIdsResolve | src/coinGeckoHelper.js:62-96 | every id sent in a request is the non-empty id of a requested, supported symbol |
| CoinGecko.ShapeQuote | src/coinGeckoHelper.js:108-118 | the ratio is `usdToROE(usd)`; a missing or zero market cap becomes 0; a missing or zero timestamp gives no update time, any other gives its ISO text |
| CoinGecko.ShapeQuotes | src/coinGeckoHelper.js:97-118 | the quotes are exactly the shaped results whose `usd` is defined |
| CoinGecko.FetchAll | src/coinGeckoHelper.js:86-103 | the batch succeeds iff every group request succeeds, and then yields every group's results, group after group |
| CoinGecko.Ranked | src/coinGeckoHelper.js:119-124 | the same quotes, by descending market cap, ranked exactly 1..k in that order |
| CoinGecko.RankedQuotes | src/coinGeckoHelper.js:119-124 | every ranked entry is one of the quotes and every quote is ranked |
| CoinGecko.LatestPriceEntries | src/coinGeckoHelper.js:51-130 | each returned price is keyed by the upper-cased form of a requested symbol that CoinGecko resolves to the entry's id, is the shaped quote of a returned id with a defined `usd`, and has a rank between 1 and the number of such quotes |
| CoinGecko.SymbolOfId | src/coinGeckoHelper.js:63-71 | `coins.get(id)` of a requested id is a requested symbol that resolves to that id |
| CoinGecko.LatestPricesComplete | src/coinGeckoHelper.js:62-125 | when prices come back, every requested symbol whose id returned a defined `usd` is priced, under its own upper-cased symbol or that of another requested symbol with the same id |
| Sorting.SortByText | src/coinGeckoHelper.js:69 | the result is ordered by text and is a permutation of the input |
| Sorting.SortDesc | src/coinGeckoHelper.js:120 | the result is ordered by descending key and is a permutation of the input |
| IsoTime.DayOf | src/coinGeckoHelper.js:177 | the UTC day whose span contains the time |
| IsoTime.HourOf | src/coinGeckoHelper.js:178 | the UTC hour, between 0 and 23 |
| IsoTime.IsoDate | src/coinGeckoHelper.js:185 | the `YYYY-MM-DD` text of a day uses only digits and signs |
| IsoTime.DefaultStartDate | src/coinGeckoHelper.js:153 | day 14245 is `2009-01-01`, the default range start |
| CoinGeckoHistory.RequestFrom | src/coinGeckoHelper.js:155-159 | the window always spans at least 91 days, and starts at `dateFrom` whenever the requested range already exceeds 91 days |
| CoinGeckoHistory.Seconds | src/coinGeckoHelper.js:162-163 | `parseInt(ms / 1000)`: whole seconds, truncated toward zero |
| CoinGeckoHistory.SampleDayIsDayOneHourLater | src/coinGeckoHelper.js:177-185 | a sample taken in hour 23 goes to the next day and every other to its own day: the day of the time one hour later |
| CoinGeckoHistory.FindMarketCap | src/coinGeckoHelper.js:189 | the market cap of the first sample with exactly the same timestamp, undefined when there is none |
| CoinGeckoHistory.HistoryItems | src/coinGeckoHelper.js:174-201 | the entries are exactly those of the samples attributed to the start day or later |
| CoinGeckoHistory.GetPriceHistory | src/coinGeckoHelper.js:146-203 | no result iff the request fails, reports an error, or lacks either array; otherwise the entries of the requested window from the start day (default 2009-01-01) |
| CoinGeckoHistory.HistoryEntriesFromStart | src/coinGeckoHelper.js:186-198 | every entry is dated on or after the requested `dateFrom`, not the widened start, and carries the currency, the CoinGecko label and the id of its date |
| CoinGeckoHistory.CoinsToFetch | src/coinGeckoHelper.js:233-246 | a currency is queued, with its coin id and watermark, iff it has a CoinGecko id and its watermark is not today |
| CoinGeckoHistory.WatermarkAsWritten | src/coinGeckoHelper.js:281-283 | as written, the candidate is the earliest returned date, and none for an empty result |
| CoinGeckoHistory.WatermarkAsWrittenDoesNotAdvance | src/coinGeckoHelper.js:281-283 | syncing days w, w+1, w+2 leaves the written candidate at w although the latest date is w+2 |
| CoinGeckoHistory.Watermark | src/coinGeckoHelper.js:281-284 | the corrected candidate is the latest returned date, and none for an empty result |
| CoinGeckoHistory.SyncOneKeepsWatermark | src/coinGeckoHelper.js:277-287 | one iteration never moves a watermark back |
| CoinGeckoHistory.SyncAllKeepsWatermarks | src/coinGeckoHelper.js:251-296 | after a pass every currency that had a watermark has one at least as late |
| CoinGeckoHistory.SyncOneAdvancesToLatest | src/coinGeckoHelper.js:277-287 | after a non-empty history is stored, all its entries are in the history store and the watermark is exactly the corrected candidate: the date of one stored entry, with no stored entry later |
| CoinGeckoHistory.WatermarkIsLatestEntry | src/coinGeckoHelper.js:281-283 | the corrected candidate is the date of one of the returned entries, and no entry is dated later |
| CoinGeckoHistory.DailySync.UpdateCryptoDailyPrices | src/coinGeckoHelper.js:214-301 | without a coin list nothing is written; otherwise the stores are those of syncing, in order, the currencies selected from the configuration read at the start |
| Text.ValueTextInjective | src/index.js:110 | two optional ratios have the same `${}` text iff they are equal |
| Index.Tracked | src/index.js:58-62 | the currencies kept are exactly those of type `cryptocurrency` or `fiat` |
| Index.TrackedAppend | src/index.js:58-62 | the filter keeps the stored order: filtering a concatenation concatenates the filtered parts |
| Index.CurrenciesByTicker | src/index.js:64-68 | the ticker map is keyed by exactly the tracked tickers |
| Index.CgSymbols | src/index.js:74-76 | the CoinGecko symbols are exactly the non-empty tickers of tracked cryptocurrencies |
| Index.TargetQuote | src/index.js:89-93 | a quote exists iff there is a Chainlink entry or the currency is not fiat, and there is a CoinGecko or CoinMarketCap entry; CoinGecko's ratio comes first |
| Index.SourceLabel | src/index.js:94-100 | `chain.link` iff a Chainlink entry exists; else `coingecko.com` for non-fiat with a CoinGecko entry; else `coinmarketcap.com` for non-fiat with a CoinMarketCap entry; else `totem.live` |
| Index.UpdatedIffRatioChanged | src/index.js:82-110 | a currency is written back iff it is not `USD`, may take a quote, has one, and the quoted ratio differs from the stored one |
| Index.NeverUpdated | src/index.js:87-108 | `USD` and fiat currencies without a Chainlink entry are never written back |
| Index.UpdatedRecord | src/index.js:89-122 | a written record keeps its id and all other fields; it takes the quoted ratio, the label, market cap and rank from CoinGecko (undefined without it), and the quote's timestamp when defined, else the stored timestamp |
| Index.Reconcile | src/index.js:82-123 | the write-back list holds exactly the records of the currencies the merge changes |
| Index.ReconcileAppend | src/index.js:82-123 | the write-back list keeps the order of the tracked currencies |
| Index.WrittenRecordsAreTrackedChanges | src/index.js:58-123 | every written record is a listed, tracked, non-`USD` currency whose ratio changed and whose other fields are kept |
| Index.NewAbiEntry | src/index.js:36-49 | a saved ABI entry is the contract entry with `active` defaulting to true, `decimals` to 8 and the fetched ABI, and it needs no refresh for that entry |
| Index.RefreshTouchesOnlyListedTickers | src/index.js:35-55 | the ABI loop leaves the ABIs and the contract entries of unlisted tickers alone |
| Index.RefreshSettles | src/index.js:41 | after a completed loop no listed ticker needs an ABI: each has an array ABI for its current contract address |
| Index.RefreshUnchangedWhenSettled | src/index.js:41 | when no listed ticker needs an ABI the loop changes nothing |
| Index.RefreshIdempotent | src/index.js:35-55 | running the ABI loop a second time over the same contract list, with the stored ABIs it left, changes nothing |
| Index.RefreshShrinksContracts | src/index.js:35-55 | the loop only removes entries from the contract list, never adds or changes one |
| Index.NextPassFetchesNothing | src/index.js:35-55 | after a completed loop, the next pass over what is left of the contract list fetches no ABI and changes nothing |
| Index.Aggregator.RefreshMissingAbis | src/index.js:35-55 | given `contracts.toArray()` of the contract list, the loop fetches and saves an ABI for each listed ticker that needs one, removes it from the list, and stops at the first invalid ABI |
| Index.Aggregator.RefreshEntry | src/index.js:36-54 | one iteration: skip an empty ticker or a saved ABI for the same address; else save the fetched ABI and drop the ticker, or stop on an invalid ABI |
| Index.Aggregator.UpdateLatestPrices | src/index.js:25-128 | the ABI loop runs; then, when it completed, CoinMarketCap did not throw and CoinGecko prices exist, exactly the merge's changed records are upserted; in every other case nothing is written |
| Index.NextRun | src/index.js:135-137 | another pass is scheduled iff `cycleDurationMin` parses to a non-zero number, after that many minutes |

## Left out

- Network, database and file I/O are not modelled. This covers the CoinGecko, CoinMarketCap,
  Alpha Vantage, Etherscan and Web3 calls, `CouchDBStorage` and `DataStorage`. Their results
  are function parameters or inputs.
- `src/etherscanHelper.js`, `src/ethHelper.js` and `src/log.js` are not part of this model.
  `getAbi` and Chainlink `getPrice` are oracles. Logging and incident reports are dropped.
- Timers and concurrency are left out: `setTimeout` rescheduling, `PromisE.delay` between sync
  items, `Promise.all` fan-out. Requests are taken in order. Only the rule for scheduling the
  next pass is kept.
- Utils.UsdToRoe: computed over exact reals. Binary floating-point rounding of `usd * 1e8` is
  not modelled, nor `parseInt` of exponent-notation text.
- IsoTime.IsoDate: the day-to-calendar conversion is proved to give `2009-01-01` for the default
  start day only. It is not proved against JavaScript `Date` for every day.
- Text.ToLower: ASCII-only case mapping. `toLowerCase`/`toUpperCase` on non-ASCII symbols are
  not modelled.
- The crash paths are not modelled. The intended rule is modelled in their place:
  - at `src/index.js:45`, the reassignment of `const ABI` would throw; the model saves the fetched ABI;
  - at `src/coinGeckoHelper.js:285`, `confsUpdated` is undefined, so every iteration that stored
    a non-empty history throws right after the history write; the model merges the watermark
    into the stored configuration;
  - at `src/coinGeckoHelper.js:291`, `coinTag` is out of scope in the `catch`, because it is
    declared inside the `try` at :254. The `log` there throws, so any error in an iteration
    escapes the loop to the outer `catch` at :299 and ends the pass, and later currencies are
    not synced. Such errors include `result.length` at :279 of an undefined history
    (:168-170). `CoinGeckoHistory.SyncOne` and `CoinGeckoHistory.SyncAll` keep the evidently
    intended "log and continue": a failed fetch changes nothing and the next currency is synced;
  - at `src/alphaVantageHelper.js:110`, `lastEntries` is undefined; the last dates are an input of `AlphaVantage.StockRequests`;
  - at `src/index.js:130`, `incidentID` is read inside its own `const` initializer, so a pass of
    `updateLatestPrices` that throws rejects before :135-139. It is not rescheduled. On the
    first run, :145 awaits that rejection, so the daily syncs at :146-147 never start.
    `Index.NextRun` models the rescheduling of a pass that completes, and nothing models the
    rejection.
- The unfinished result formatting of `updateStockDailyPrices` is not modelled
  (`src/alphaVantageHelper.js:117-127`), nor its unused `slice(0, 1)` ticker list.
- `arrSort` and `generateHash` are not part of this model. `arrSort` is modelled as a stable
  descending sort by market cap (`Sorting.SortDesc`); the hash is a parameter.
- Index.Aggregator.UpdateLatestPrices: takes the three adapters' results and the listed
  currencies as inputs instead of calling the adapters.
- Missing and explicitly `undefined` fields are both `None`. An entry spreading
  `active: undefined` is modelled like one without `active`.
- Non-string or missing tickers are assumed away; in the source,
  `ticker.toLowerCase()` would throw on them.
- CoinGecko.ShapeQuote: assumes every returned id is a string. The `isDefined(id)` filter only
  matters for ids that the response's own keys cannot produce.
- Cmc.GetCmcPrices: a listing that has `quote.USD` but no numeric `price` gives a `NaN` ratio in
  the source; the model has no `NaN` and takes every present price as a number.
- Chainlink's `currencies404.setAll` write is the returned not-found map.
- `setAll(map, false)` of the history store is modelled as an upsert. Its storage semantics are
  not part of this model.

## Findings

| source | as written | input that shows it | evidently intended | confidence | as-written member | corrected member |
|---|---|---|---|---|---|---|
| src/coinGeckoHelper.js:281-283 | `result.map(date).sort()[0]` stores the EARLIEST synced date as `historyLastDay` | a sync from watermark w that returns days w, w+1, w+2 stores w, so the next pass re-fetches from w and the watermark never advances past the start of the fetched range | store the latest synced date (w+2) | not executed | CoinGeckoHistory.WatermarkAsWritten (shown by CoinGeckoHistory.WatermarkAsWrittenDoesNotAdvance) | CoinGeckoHistory.Watermark (used by CoinGeckoHistory.SyncOne; proved by CoinGeckoHistory.SyncOneAdvancesToLatest) |
