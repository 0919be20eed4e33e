/** src/alphaVantageHelper.js: daily price series of stocks from Alpha Vantage. The
    HTTP call is a parameter `fetch(query)` that gives the response, or an error
    message where the call throws. */
module AlphaVantage {
  import opened Wrappers

  /** A JSON value as JavaScript holds it, including `undefined`. */
  datatype Json =
    | Undefined
    | Null
    | Bool(b: bool)
    | Num(n: real)
    | Str(s: string)
    | Arr(items: seq<Json>)
    | Obj(fields: map<string, Json>)

  /** The query parameters of one request. */
  datatype Query = Query(apikey: string, dataType: string, apiFunction: string, outputsize: string, symbol: string)

  type AvFetch = Query -> Result<Json, string>

  const DataKey: string := "Time Series (Daily)"
  const Compact: string := "compact"
  const Full: string := "full"
  const Csv: string := "csv"
  const DefaultLimitPerDay: int := 500
  const DefaultLimitPerMinute: int := 5
  /** 100 days in milliseconds. */
  const Ms100Days: int := 1000 * 60 * 60 * 24 * 100

  /** `parseInt(env) || fallback`: a missing or unparsable value (`None`) or 0 gives the fallback. */
  function LimitOr(parsed: Option<int>, fallback: int): (limit: int)
    ensures parsed.Some? && parsed.value != 0 ==> limit == parsed.value
    ensures parsed.None? || parsed == Some(0) ==> limit == fallback
  {
    match parsed
    case Some(n) => if n != 0 then n else fallback
    case None => fallback
  }

  /** Neither limit can be 0, whatever the environment says. */
  lemma LimitsNeverZero(perDay: Option<int>, perMinute: Option<int>)
    ensures LimitOr(perDay, DefaultLimitPerDay) != 0 && LimitOr(perMinute, DefaultLimitPerMinute) != 0
  {
  }

  /** `(result || {})[key]`: a field of an object; anything else has none. */
  function Field(v: Json, key: string): Json
  {
    match v
    case Obj(fields) => if key in fields then fields[key] else Undefined
    case _ => Undefined
  }

  /** `getDailyPrice`: an empty ticker throws; CSV returns the raw response; JSON returns the
      daily series object and throws when it is not an object. */
  function GetDailyPrice(ticker: string, outputsize: string, dataType: string, apiKey: string, fetch: AvFetch)
    : (r: Result<Json, string>)
    ensures ticker == "" ==> r == Failure("Ticker required")
    ensures ticker != "" && dataType == Csv ==>
              r == fetch(Query(apiKey, dataType, "TIME_SERIES_DAILY_ADJUSTED", outputsize, ticker))
    ensures ticker != "" && dataType != Csv ==>
              var response := fetch(Query(apiKey, dataType, "TIME_SERIES_DAILY_ADJUSTED", outputsize, ticker));
              && (response.Failure? ==> r == response)
              && (response.Success? ==>
                    (r.Success? <==> Field(response.value, DataKey).Obj?)
                    && (r.Success? ==> r.value == Field(response.value, DataKey))
                    && (r.Failure? ==> r.error == "Invalid data received"))
  {
    if ticker == "" then Failure("Ticker required")
    else
      var response := fetch(Query(apiKey, dataType, "TIME_SERIES_DAILY_ADJUSTED", outputsize, ticker));
      if dataType == Csv then response
      else
        match response
        case Failure(e) => Failure(e)
        case Success(result) =>
          var data := Field(result, DataKey);
          if data.Obj? then Success(data) else Failure("Invalid data received")
  }

  /** The output size of a request: the full history unless there is a last date no more than
      100 days before `now`. Times are milliseconds; `None` is a missing or invalid date. */
  function OutputSize(lastDate: Option<int>, now: int): (size: string)
    ensures size == Full || size == Compact
    ensures size == Compact <==> lastDate.Some? && now - lastDate.value <= Ms100Days
  {
    if lastDate.None? || now - lastDate.value > Ms100Days then Full else Compact
  }

  /** Once the full history is needed it stays needed as time passes without a newer date. */
  lemma FullStaysFull(lastDate: Option<int>, now: int, later: int)
    requires now <= later && OutputSize(lastDate, now) == Full
    ensures OutputSize(lastDate, later) == Full
  {
  }

  /** A stock currency as read from the currency store. */
  datatype StockCurrency = StockCurrency(id: string, ticker: string, currencyType: string)

  predicate IsStock(c: StockCurrency)
  {
    c.currencyType == "stock"
  }

  function LastDateOf(ticker: string, lastDates: map<string, int>): Option<int>
  {
    if ticker in lastDates then Some(lastDates[ticker]) else None
  }

  /** The request for one stock: its ticker and the output size its last stored date calls for. */
  function Request(c: StockCurrency, lastDates: map<string, int>, now: int): (string, string)
  {
    (c.ticker, OutputSize(LastDateOf(c.ticker, lastDates), now))
  }

  function NumStocks(cs: seq<StockCurrency>): nat
  {
    if cs == [] then 0 else NumStocks(cs[..|cs| - 1]) + (if IsStock(cs[|cs| - 1]) then 1 else 0)
  }

  /** The requests `updateStockDailyPrices` issues, in currency order: one per `stock` currency,
      each with the output size chosen from the last stored date of its ticker. */
  function StockRequests(cs: seq<StockCurrency>, lastDates: map<string, int>, now: int): (r: seq<(string, string)>)
    ensures |r| == NumStocks(cs)
    ensures forall q :: q in r ==> exists c :: c in cs && IsStock(c) && q == Request(c, lastDates, now)
  {
    if cs == [] then []
    else
      var init := cs[..|cs| - 1];
      var last := cs[|cs| - 1];
      assert forall x :: x in init ==> x in cs;
      StockRequests(init, lastDates, now) + (if IsStock(last) then [Request(last, lastDates, now)] else [])
  }

  /** The requests for the first `n` currencies come first, in the same order. */
  lemma {:induction false} StockRequestsPrefix(cs: seq<StockCurrency>, lastDates: map<string, int>, now: int, n: nat)
    requires n <= |cs|
    ensures NumStocks(cs[..n]) <= NumStocks(cs)
    ensures StockRequests(cs[..n], lastDates, now) == StockRequests(cs, lastDates, now)[..NumStocks(cs[..n])]
  {
    if n == |cs| {
      assert cs[..n] == cs;
    } else {
      var init := cs[..|cs| - 1];
      assert init[..n] == cs[..n];
      StockRequestsPrefix(init, lastDates, now, n);
    }
  }

  /** Exactness: the stock at position `j` is requested at position "number of stocks before it",
      so every stock currency gets its own request and no request is repeated or invented. */
  lemma StockRequestPositions(cs: seq<StockCurrency>, lastDates: map<string, int>, now: int, j: int)
    requires 0 <= j < |cs| && IsStock(cs[j])
    ensures NumStocks(cs[..j]) < NumStocks(cs)
    ensures StockRequests(cs, lastDates, now)[NumStocks(cs[..j])] == Request(cs[j], lastDates, now)
  {
    var upTo := cs[..j + 1];
    assert upTo[..|upTo| - 1] == cs[..j];
    StockRequestsPrefix(cs, lastDates, now, j + 1);
  }
}
