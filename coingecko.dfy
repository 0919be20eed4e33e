/** src/coinGeckoHelper.js, first half: the cached list of supported coins and the
    latest prices of a list of symbols. The CoinGecko client is a parameter: the
    coin list response, and `fetch(ids)` for one `simple/price` request, which gives
    `None` where the request throws. */
module CoinGecko {
  import opened Wrappers
  import JsMap
  import Text
  import Sorting
  import IsoTime
  import Utils

  const SourceText: string := "coingecko.com"
  /** Ids per group used to count the groups (`Math.ceil(ids.length / 400)`). */
  const MaxPerGroup: int := 400
  /** Ids per group used to fill them. */
  const GroupSize: int := 450

  datatype CoinInfo = CoinInfo(id: string, name: string)

  /** One element of the `coins/list` response. */
  datatype ListedCoin = ListedCoin(id: string, name: string, symbol: string)

  function CoinPairs(data: seq<ListedCoin>): (r: seq<(string, CoinInfo)>)
    ensures |r| == |data| && forall i :: 0 <= i < |r| ==> r[i] == (data[i].symbol, CoinInfo(data[i].id, data[i].name))
  {
    seq(|data|, i requires 0 <= i < |data| => (data[i].symbol, CoinInfo(data[i].id, data[i].name)))
  }

  /** The coin list keyed by symbol. */
  function CoinsBySymbol(data: seq<ListedCoin>): (m: map<string, CoinInfo>)
    ensures forall k :: k in m <==> exists i :: 0 <= i < |data| && data[i].symbol == k
  {
    var pairs := CoinPairs(data);
    JsMap.FromPairs(pairs)
  }

  /** A later coin with the same symbol overwrites an earlier one. */
  lemma LaterDuplicateSymbolWins(data: seq<ListedCoin>, i: int)
    requires 0 <= i < |data| && forall j :: i < j < |data| ==> data[j].symbol != data[i].symbol
    ensures CoinsBySymbol(data)[data[i].symbol] == CoinInfo(data[i].id, data[i].name)
  {
    JsMap.LastPairWins(CoinPairs(data), i);
  }

  /** The local cache file `coingecko-coins-list.json`. */
  class CoinsListCache {
    var list: map<string, CoinInfo>

    constructor (stored: map<string, CoinInfo>)
      ensures list == stored
    {
      list := stored;
    }

    /** `getCoinsList`: a non-empty cache is returned as it is unless `forceUpdate`; otherwise the
        list is fetched (`None` where the call throws or `data` is not an array, which throws
        here too), keyed by symbol and replaces the cache. */
    method GetCoinsList(forceUpdate: bool, fetched: Option<seq<ListedCoin>>)
      returns (r: Result<map<string, CoinInfo>, string>)
      modifies this
      ensures |old(list)| > 0 && !forceUpdate ==> r == Success(old(list)) && list == old(list)
      ensures (|old(list)| == 0 || forceUpdate) && fetched.None? ==> r.Failure? && list == old(list)
      ensures (|old(list)| == 0 || forceUpdate) && fetched.Some? ==>
                r == Success(CoinsBySymbol(fetched.value)) && list == CoinsBySymbol(fetched.value)
    {
      if |list| > 0 && !forceUpdate {
        return Success(list);
      }
      if fetched.None? {
        return Failure("Invalid data received from CoinGecko");
      }
      var data := CoinsBySymbol(fetched.value);
      list := data;
      r := Success(data);
    }
  }

  /** The `[id, symbol]` pairs of the requested symbols whose lower-cased form has a
      (non-empty) CoinGecko id, in request order. */
  function Resolve(symbols: seq<string>, supported: map<string, CoinInfo>): (coins: seq<(string, string)>)
    ensures forall p :: p in coins <==>
              p.1 in symbols && Text.ToLower(p.1) in supported
              && supported[Text.ToLower(p.1)].id == p.0 && p.0 != ""
  {
    if symbols == [] then []
    else
      var s := symbols[0];
      var rest := Resolve(symbols[1..], supported);
      assert forall x :: x in symbols <==> x == s || x in symbols[1..];
      var lower := Text.ToLower(s);
      if lower in supported && supported[lower].id != "" then [(supported[lower].id, s)] + rest else rest
  }

  /** The text JavaScript's default sort compares for an `[id, symbol]` array. */
  function PairText(p: (string, string)): string
  {
    p.0 + "," + p.1
  }

  /** `coins` after `.sort()`. */
  function SortedCoins(symbols: seq<string>, supported: map<string, CoinInfo>): (coins: seq<(string, string)>)
    ensures Sorting.SortedByText(coins, PairText)
    ensures multiset(coins) == multiset(Resolve(symbols, supported))
  {
    Sorting.SortByText(Resolve(symbols, supported), PairText)
  }

  function Ids(coins: seq<(string, string)>): (ids: seq<string>)
    ensures |ids| == |coins| && forall i :: 0 <= i < |ids| ==> ids[i] == coins[i].0
  {
    seq(|coins|, i requires 0 <= i < |coins| => coins[i].0)
  }

  /** `Math.ceil(n / 400)`. */
  function GroupCount(n: nat): (k: nat)
    ensures MaxPerGroup * k >= n && (k > 0 ==> MaxPerGroup * (k - 1) < n)
  {
    (n + MaxPerGroup - 1) / MaxPerGroup
  }

  function Min(a: int, b: int): int
  {
    if a <= b then a else b
  }

  /** Group `i`: `ids[i * 450 + n]` for the `n < 450` where that id exists. (The source also
      drops falsy ids; resolved ids are never empty.) */
  function Group(ids: seq<string>, i: nat): (g: seq<string>)
    ensures |g| == if i * GroupSize >= |ids| then 0 else Min(GroupSize, |ids| - i * GroupSize)
    ensures forall n :: 0 <= n < |g| ==> i * GroupSize + n < |ids| && g[n] == ids[i * GroupSize + n]
  {
    ids[Min(i * GroupSize, |ids|)..Min(i * GroupSize + GroupSize, |ids|)]
  }

  /** The request groups. */
  function IdGroups(ids: seq<string>): (groups: seq<seq<string>>)
    ensures |groups| == GroupCount(|ids|)
    ensures forall i :: 0 <= i < |groups| ==> groups[i] == Group(ids, i)
  {
    seq(GroupCount(|ids|), i requires 0 <= i => Group(ids, i))
  }

  function Concat<T>(groups: seq<seq<T>>): seq<T>
  {
    if groups == [] then [] else Concat(groups[..|groups| - 1]) + groups[|groups| - 1]
  }

  lemma {:induction false} ConcatFirstGroups(ids: seq<string>, k: nat)
    ensures Concat(seq(k, i requires 0 <= i => Group(ids, i))) == ids[..Min(k * GroupSize, |ids|)]
  {
    if k > 0 {
      var gs := seq(k, i requires 0 <= i => Group(ids, i));
      assert gs[..k - 1] == seq(k - 1, i requires 0 <= i => Group(ids, i));
      ConcatFirstGroups(ids, k - 1);
      var a, b := Min((k - 1) * GroupSize, |ids|), Min(k * GroupSize, |ids|);
      assert ids[..a] + ids[a..b] == ids[..b];
    }
  }

  /** The groups, concatenated, are exactly the ids in order: none is lost or repeated,
      although trailing groups may be empty. */
  lemma IdGroupsConcat(ids: seq<string>)
    ensures Concat(IdGroups(ids)) == ids
  {
    var k := GroupCount(|ids|);
    assert IdGroups(ids) == seq(k, i requires 0 <= i => Group(ids, i));
    ConcatFirstGroups(ids, k);
    assert k * GroupSize >= |ids|;
  }

  /** The fields of one `simple/price` result that are read: `usd`, `last_updated_at`
      (seconds) and `usd_market_cap`; `None` is `undefined`. */
  datatype RawQuote = RawQuote(usd: Option<real>, lastUpdatedAt: Option<int>, usdMarketCap: Option<real>)

  datatype Quote = Quote(id: string, marketCapUSD: real, ratioOfExchange: int, priceUpdatedAt: Option<string>)

  /** One CoinGecko price: `{ id, marketCapUSD, ratioOfExchange, priceUpdatedAt, rank }`. */
  datatype CgEntry = CgEntry(id: string, marketCapUSD: real, ratioOfExchange: int, priceUpdatedAt: Option<string>, rank: int)

  type GroupFetch = seq<string> -> Option<seq<(string, RawQuote)>>

  /** One quote with a defined `usd`: a missing or zero market cap becomes 0, a missing or
      zero timestamp gives no update time. */
  function ShapeQuote(id: string, q: RawQuote): (r: Quote)
    requires q.usd.Some?
    ensures r.id == id && r.ratioOfExchange == Utils.UsdToRoe(q.usd.value)
    ensures q.usdMarketCap.None? || q.usdMarketCap == Some(0.0) ==> r.marketCapUSD == 0.0
    ensures q.usdMarketCap.Some? ==> r.marketCapUSD == q.usdMarketCap.value
    ensures r.priceUpdatedAt.None? <==> q.lastUpdatedAt.None? || q.lastUpdatedAt == Some(0)
    ensures r.priceUpdatedAt.Some? ==> r.priceUpdatedAt.value == IsoTime.IsoString(q.lastUpdatedAt.value * 1000)
  {
    Quote(
      id,
      if q.usdMarketCap.Some? && q.usdMarketCap.value != 0.0 then q.usdMarketCap.value else 0.0,
      Utils.UsdToRoe(q.usd.value),
      if q.lastUpdatedAt.None? || q.lastUpdatedAt.value == 0 then None
      else Some(IsoTime.IsoString(q.lastUpdatedAt.value * 1000)))
  }

  /** Drops the quotes without a `usd` price and shapes the rest, in order. */
  function ShapeQuotes(raw: seq<(string, RawQuote)>): (r: seq<Quote>)
    ensures |r| <= |raw|
    ensures forall q :: q in r <==>
              exists i :: 0 <= i < |raw| && raw[i].1.usd.Some? && q == ShapeQuote(raw[i].0, raw[i].1)
  {
    if raw == [] then []
    else
      var rest := ShapeQuotes(raw[1..]);
      assert forall i :: 0 < i < |raw| ==> raw[i] == raw[1..][i - 1];
      assert forall i :: 0 <= i < |raw| - 1 ==> raw[1..][i] == raw[i + 1];
      if raw[0].1.usd.Some? then [ShapeQuote(raw[0].0, raw[0].1)] + rest else rest
  }

  /** The responses of all group requests, when every one succeeded. */
  function Responses(groups: seq<seq<string>>, fetch: GroupFetch): seq<seq<(string, RawQuote)>>
    requires forall i :: 0 <= i < |groups| ==> fetch(groups[i]).Some?
  {
    seq(|groups|, i requires 0 <= i < |groups| && fetch(groups[i]).Some? => fetch(groups[i]).value)
  }

  /** `PromisE.all` over the groups, flattened: `None` when any request fails, otherwise every
      group's results, group after group. */
  function FetchAll(groups: seq<seq<string>>, fetch: GroupFetch): (r: Option<seq<(string, RawQuote)>>)
    ensures r.Some? <==> forall i :: 0 <= i < |groups| ==> fetch(groups[i]).Some?
    ensures r.Some? ==> r.value == Concat(Responses(groups, fetch))
  {
    if groups == [] then Some([])
    else
      var init := groups[..|groups| - 1];
      assert forall i :: 0 <= i < |init| ==> init[i] == groups[i];
      match FetchAll(init, fetch)
      case None => None
      case Some(first) =>
        match fetch(groups[|groups| - 1])
        case None => None
        case Some(last) =>
          assert Responses(groups, fetch)[..|groups| - 1] == Responses(init, fetch);
          Some(first + last)
  }

  function MarketCapOf(q: Quote): real
  {
    q.marketCapUSD
  }

  function QuoteOf(e: CgEntry): Quote
  {
    Quote(e.id, e.marketCapUSD, e.ratioOfExchange, e.priceUpdatedAt)
  }

  function Strip(r: seq<CgEntry>): seq<Quote>
  {
    seq(|r|, i requires 0 <= i < |r| => QuoteOf(r[i]))
  }

  /** Ranking by market cap (`arrSort(results, 'marketCapUSD', true)`, then `rank: i + 1`):
      the same quotes, largest market cap first, ranked 1 to k in that order. */
  function Ranked(qs: seq<Quote>): (r: seq<CgEntry>)
    ensures |r| == |qs|
    ensures forall i :: 0 <= i < |r| ==> r[i].rank == i + 1
    ensures forall i, j :: 0 <= i <= j < |r| ==> r[i].marketCapUSD >= r[j].marketCapUSD
    ensures multiset(Strip(r)) == multiset(qs)
  {
    var sorted := Sorting.SortDesc(qs, MarketCapOf);
    var r := seq(|sorted|, i requires 0 <= i < |sorted| =>
      CgEntry(sorted[i].id, sorted[i].marketCapUSD, sorted[i].ratioOfExchange, sorted[i].priceUpdatedAt, i + 1));
    assert Strip(r) == sorted;
    assert forall i, j :: 0 <= i <= j < |r| ==> r[i].marketCapUSD >= r[j].marketCapUSD by {
      forall i, j | 0 <= i <= j < |r| ensures r[i].marketCapUSD >= r[j].marketCapUSD {
        Sorting.SortedDescPairs(sorted, MarketCapOf, i, j);
      }
    }
    r
  }

  /** Every ranked entry is one of the quotes, and every quote is ranked. */
  lemma RankedQuotes(qs: seq<Quote>)
    ensures forall j :: 0 <= j < |Ranked(qs)| ==> QuoteOf(Ranked(qs)[j]) in qs
    ensures forall q :: q in qs ==> exists j :: 0 <= j < |Ranked(qs)| && QuoteOf(Ranked(qs)[j]) == q
  {
    var r := Ranked(qs);
    var st := Strip(r);
    forall j | 0 <= j < |r| ensures QuoteOf(r[j]) in qs {
      assert st[j] in multiset(st);
    }
    forall q | q in qs ensures exists j :: 0 <= j < |r| && QuoteOf(r[j]) == q {
      assert q in multiset(st);
      var j :| 0 <= j < |st| && st[j] == q;
      assert QuoteOf(r[j]) == q;
    }
  }

  /** `[symbol.toUpperCase(), entry]` pairs, or `None` when a returned id was never requested
      (`coins.get(entry.id)` is `undefined` and the call throws). */
  function KeyedEntries(ranked: seq<CgEntry>, byId: map<string, string>): (r: Option<seq<(string, CgEntry)>>)
    ensures r.Some? <==> forall i :: 0 <= i < |ranked| ==> ranked[i].id in byId
    ensures r.Some? ==>
              && |r.value| == |ranked|
              && forall i :: 0 <= i < |ranked| ==> r.value[i] == (Text.ToUpper(byId[ranked[i].id]), ranked[i])
  {
    if forall i :: 0 <= i < |ranked| ==> ranked[i].id in byId
    then Some(seq(|ranked|, i requires 0 <= i < |ranked| => (Text.ToUpper(byId[ranked[i].id]), ranked[i])))
    else None
  }

  /** The responses of the price requests for the requested symbols. */
  function RawQuotes(symbols: seq<string>, list: map<string, CoinInfo>, fetch: GroupFetch): Option<seq<(string, RawQuote)>>
  {
    FetchAll(IdGroups(Ids(SortedCoins(symbols, list))), fetch)
  }

  /** `getLatestPrices`. */
  function GetLatestPrices(symbols: seq<string>, supported: Result<map<string, CoinInfo>, string>, fetch: GroupFetch)
    : (r: Option<map<string, CgEntry>>)
  {
    match supported
    case Failure(_) => None
    case Success(list) =>
      match RawQuotes(symbols, list, fetch)
      case None => None
      case Some(raw) =>
        match KeyedEntries(Ranked(ShapeQuotes(raw)), JsMap.FromPairs(SortedCoins(symbols, list)))
        case None => None
        case Some(pairs) => Some(JsMap.FromPairs(pairs))
  }

  /** Every id sent in a request belongs to a requested symbol that CoinGecko knows: symbols
      without an id are dropped before any request. */
  lemma RequestedIdsResolve(symbols: seq<string>, list: map<string, CoinInfo>, g: int, id: string)
    requires 0 <= g < |IdGroups(Ids(SortedCoins(symbols, list)))|
    requires id in IdGroups(Ids(SortedCoins(symbols, list)))[g]
    ensures exists s :: s in symbols && Text.ToLower(s) in list && list[Text.ToLower(s)].id == id && id != ""
  {
    var coins := SortedCoins(symbols, list);
    var ids := Ids(coins);
    var k :| 0 <= k < |Group(ids, g)| && Group(ids, g)[k] == id;
    var p := coins[g * GroupSize + k];
    assert p in multiset(coins);
    assert p in Resolve(symbols, list);
  }

  /** The symbol `coins.get(id)` gives back for a requested id is a requested symbol that
      resolves to that id. */
  lemma SymbolOfId(symbols: seq<string>, list: map<string, CoinInfo>, id: string)
    requires id in JsMap.FromPairs(SortedCoins(symbols, list))
    ensures var s := JsMap.FromPairs(SortedCoins(symbols, list))[id];
      s in symbols && Text.ToLower(s) in list && list[Text.ToLower(s)].id == id
  {
    var coins := SortedCoins(symbols, list);
    JsMap.ValueFromLastPair(coins, id);
    var c :| JsMap.IsLastFor(coins, c) && coins[c].0 == id && JsMap.FromPairs(coins)[id] == coins[c].1;
    assert coins[c] in multiset(coins);
    assert coins[c] in Resolve(symbols, list);
  }

  /** A returned price is keyed by the upper-cased form of a requested symbol that resolves to
      the entry's id; it is the shaped quote of a returned id with a defined `usd`, and its rank
      is between 1 and the number of such quotes. */
  lemma LatestPriceEntries(symbols: seq<string>, supported: Result<map<string, CoinInfo>, string>, fetch: GroupFetch, k: string)
    requires GetLatestPrices(symbols, supported, fetch).Some?
    requires k in GetLatestPrices(symbols, supported, fetch).value
    ensures supported.Success? && RawQuotes(symbols, supported.value, fetch).Some?
    ensures var e := GetLatestPrices(symbols, supported, fetch).value[k];
      var raw := RawQuotes(symbols, supported.value, fetch).value;
      && (exists s :: s in symbols && Text.ToUpper(s) == k && Text.ToLower(s) in supported.value
                      && supported.value[Text.ToLower(s)].id == e.id)
      && 1 <= e.rank <= |ShapeQuotes(raw)|
      && exists i :: 0 <= i < |raw| && raw[i].1.usd.Some? && QuoteOf(e) == ShapeQuote(raw[i].0, raw[i].1)
  {
    var list := supported.value;
    var raw := RawQuotes(symbols, list, fetch).value;
    var qs := ShapeQuotes(raw);
    var ranked := Ranked(qs);
    var byId := JsMap.FromPairs(SortedCoins(symbols, list));
    var pairs := KeyedEntries(ranked, byId).value;
    JsMap.ValueFromLastPair(pairs, k);
    var j :| JsMap.IsLastFor(pairs, j) && pairs[j].0 == k && JsMap.FromPairs(pairs)[k] == pairs[j].1;
    var e := ranked[j];
    assert pairs[j] == (Text.ToUpper(byId[e.id]), e);
    SymbolOfId(symbols, list, e.id);
    RankedQuotes(qs);
    assert QuoteOf(e) in qs;
  }

  /** Completeness: when the prices came back, every requested symbol with a CoinGecko id whose
      quote has a defined `usd` is priced, under its own upper-cased symbol or that of another
      requested symbol with the same id. */
  lemma LatestPricesComplete(symbols: seq<string>, supported: Result<map<string, CoinInfo>, string>, fetch: GroupFetch,
                             s: string, i: int)
    requires supported.Success? && GetLatestPrices(symbols, supported, fetch).Some?
    requires s in symbols && Text.ToLower(s) in supported.value
    requires RawQuotes(symbols, supported.value, fetch).Some?
    requires var raw := RawQuotes(symbols, supported.value, fetch).value;
      0 <= i < |raw| && raw[i].0 == supported.value[Text.ToLower(s)].id && raw[i].1.usd.Some?
    ensures exists s' :: s' in symbols && Text.ToLower(s') in supported.value
                         && supported.value[Text.ToLower(s')].id == supported.value[Text.ToLower(s)].id
                         && Text.ToUpper(s') in GetLatestPrices(symbols, supported, fetch).value
  {
    var list := supported.value;
    var id := list[Text.ToLower(s)].id;
    var raw := RawQuotes(symbols, list, fetch).value;
    var qs := ShapeQuotes(raw);
    var ranked := Ranked(qs);
    var byId := JsMap.FromPairs(SortedCoins(symbols, list));
    var pairs := KeyedEntries(ranked, byId).value;
    var q := ShapeQuote(raw[i].0, raw[i].1);
    assert q in qs;
    RankedQuotes(qs);
    var j :| 0 <= j < |ranked| && QuoteOf(ranked[j]) == q;
    assert ranked[j].id == id;
    SymbolOfId(symbols, list, id);
    var s' := byId[id];
    assert pairs[j] == (Text.ToUpper(s'), ranked[j]);
    assert pairs[j].0 in JsMap.FromPairs(pairs);
  }
}
