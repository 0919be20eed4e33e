/** src/cmcHelper.js: the CoinMarketCap listings snapshot. The HTTP call is a
    parameter `fetch(url, apiKey)` giving the response's `data` when it is an array
    and `None` when the call throws or `data` is not an array. */
module Cmc {
  import opened Wrappers
  import JsMap
  import Text
  import UsdToRoeDefault

  const UrlSuffix: string := "cryptocurrency/listings/latest?start=1&limit=5000&convert=USD"

  /** One element of the listings array: `symbol`, `cmc_rank`, `quote.USD.price` (`None` when
      the element has no `quote.USD`, which makes the destructuring throw), `last_updated`. */
  datatype Listing = Listing(symbol: string, cmcRank: int, price: Option<real>, lastUpdated: Option<string>)

  /** `{ rank, ratioOfExchange, priceUpdatedAt }` of a CoinMarketCap price. */
  datatype CmcEntry = CmcEntry(rank: int, ratioOfExchange: int, priceUpdatedAt: Option<string>)

  /** The error thrown when a listing has no `quote.USD`. */
  const MissingUsdQuote: string := "quote.USD is undefined"

  type CmcFetch = (string, string) -> Option<seq<Listing>>

  /** The request URL: base, a `/` unless the base already ends with one, then the suffix. */
  function JoinUrl(base: string, suffix: string): (url: string)
    ensures |url| >= |base| + |suffix| && |url| > |suffix| && url[..|base|] == base && url[|url| - |suffix|..] == suffix
    ensures url[|url| - |suffix| - 1] == '/'
    ensures |url| == |base| + |suffix| + (if Text.EndsWith(base, "/") then 0 else 1)
  {
    base + (if Text.EndsWith(base, "/") then "" else "/") + suffix
  }

  /** A trailing slash on the configured base makes no difference to the URL. */
  lemma JoinUrlIgnoresTrailingSlash(base: string, suffix: string)
    requires !Text.EndsWith(base, "/")
    ensures JoinUrl(base + "/", suffix) == JoinUrl(base, suffix)
  {
    assert Text.EndsWith(base + "/", "/");
  }

  predicate AllPriced(listings: seq<Listing>)
  {
    forall i :: 0 <= i < |listings| ==> listings[i].price.Some?
  }

  function ToEntry(l: Listing): (string, CmcEntry)
    requires l.price.Some?
  {
    (l.symbol, CmcEntry(l.cmcRank, UsdToRoeDefault.UsdToRoe(l.price.value), l.lastUpdated))
  }

  function Entries(listings: seq<Listing>): (r: seq<(string, CmcEntry)>)
    requires AllPriced(listings)
    ensures |r| == |listings| && forall i :: 0 <= i < |r| ==> r[i] == ToEntry(listings[i])
  {
    seq(|listings|, i requires 0 <= i < |listings| && listings[i].price.Some? => ToEntry(listings[i]))
  }

  /** `getCMCPrices`: `Success(None)` without configuration or without a non-empty listing; a
      failure (the pass ends) when a listing has no USD quote; otherwise one entry per listed
      symbol. `cmcUrl` and `apiKey` are `""` when unset. */
  function GetCmcPrices(cmcUrl: string, apiKey: string, fetch: CmcFetch)
    : (r: Result<Option<map<string, CmcEntry>>, string>)
    ensures r == Success(None) <==>
              || cmcUrl == "" || apiKey == ""
              || fetch(JoinUrl(cmcUrl, UrlSuffix), apiKey) == None
              || fetch(JoinUrl(cmcUrl, UrlSuffix), apiKey) == Some([])
    ensures r.Failure? <==>
              && cmcUrl != "" && apiKey != ""
              && fetch(JoinUrl(cmcUrl, UrlSuffix), apiKey).Some?
              && exists l :: l in fetch(JoinUrl(cmcUrl, UrlSuffix), apiKey).value && l.price.None?
    ensures r.Failure? ==> r.error == MissingUsdQuote
    ensures r.Success? && r.value.Some? ==> forall k :: k in r.value.value <==>
              exists l :: l in fetch(JoinUrl(cmcUrl, UrlSuffix), apiKey).value && l.symbol == k
  {
    if cmcUrl == "" || apiKey == "" then Success(None)
    else
      match fetch(JoinUrl(cmcUrl, UrlSuffix), apiKey)
      case None => Success(None)
      case Some(data) =>
        if |data| == 0 then Success(None)
        else if !AllPriced(data) then
          assert exists l :: l in data && l.price.None? by {
            var i :| 0 <= i < |data| && data[i].price.None?;
            assert data[i] in data;
          }
          Failure(MissingUsdQuote)
        else
          var m := JsMap.FromPairs(Entries(data));
          assert forall k :: k in m <==> exists l :: l in data && l.symbol == k by {
            forall k ensures k in m <==> exists l :: l in data && l.symbol == k {
              if exists l :: l in data && l.symbol == k {
                var l :| l in data && l.symbol == k;
                var i :| 0 <= i < |data| && data[i] == l;
                assert Entries(data)[i].0 == k;
              }
            }
          }
          Success(Some(m))
  }

  /** With duplicate symbols the last listing wins; its rank, converted price and timestamp are
      what is kept. */
  lemma LastListingWins(cmcUrl: string, apiKey: string, fetch: CmcFetch, i: int)
    requires cmcUrl != "" && apiKey != ""
    requires fetch(JoinUrl(cmcUrl, UrlSuffix), apiKey).Some?
    requires AllPriced(fetch(JoinUrl(cmcUrl, UrlSuffix), apiKey).value)
    requires var data := fetch(JoinUrl(cmcUrl, UrlSuffix), apiKey).value;
      0 <= i < |data| && forall j :: i < j < |data| ==> data[j].symbol != data[i].symbol
    ensures var data := fetch(JoinUrl(cmcUrl, UrlSuffix), apiKey).value;
      var r := GetCmcPrices(cmcUrl, apiKey, fetch);
      && r.Success? && r.value.Some?
      && r.value.value[data[i].symbol] ==
           CmcEntry(data[i].cmcRank, UsdToRoeDefault.UsdToRoe(data[i].price.value), data[i].lastUpdated)
  {
    var data := fetch(JoinUrl(cmcUrl, UrlSuffix), apiKey).value;
    var entries := Entries(data);
    assert JsMap.IsLastFor(entries, i);
    JsMap.LastPairWins(entries, i);
  }
}
