/** src/coinGeckoHelper.js, second half: the daily price history of one coin and the
    daily synchronisation of all cryptocurrencies. Timestamps are milliseconds and
    dates are day numbers (see IsoTime); comparing `YYYY-MM-DD` strings is comparing
    day numbers. The chart request is a parameter `fetch(coinId, fromSeconds, toSeconds)`
    giving `None` where it throws or returns nothing; `generateHash` is a parameter too. */
module CoinGeckoHistory {
  import opened Wrappers
  import IsoTime
  import Utils
  import JsMap
  import Text
  import CoinGecko

  /** 91 days in milliseconds: shorter ranges would be answered with hourly prices. */
  const Days91: int := 1000 * 60 * 60 * 24 * 91
  /** 2009-01-01, the range start when none is given. */
  const DefaultStartDay: int := 14245

  /** The start of the requested range: `dateFrom`, moved back just enough that the range
      spans at least 91 days. */
  function RequestFrom(dateFrom: int, to: int): (from: int)
    ensures from <= dateFrom && to - from >= Days91
    ensures from == dateFrom || to - from == Days91
    ensures to - dateFrom > Days91 ==> from == dateFrom
  {
    if to - dateFrom > Days91 then dateFrom else to - Days91
  }

  /** `parseInt(ms / 1000)`: whole seconds, truncated toward zero. */
  function Seconds(ms: int): (s: int)
    ensures ms >= 0 ==> 0 <= s && s * 1000 <= ms < s * 1000 + 1000
    ensures ms < 0 ==> s <= 0 && s * 1000 - 1000 < ms <= s * 1000
  {
    if ms >= 0 then ms / 1000 else -((-ms) / 1000)
  }

  /** The fields of the `market_chart/range` response: `error` (truthy), `prices` and
      `market_caps` as `[timestamp, value]` arrays (`None` when not an array). */
  datatype ChartData = ChartData(error: bool, prices: Option<seq<(int, real)>>, marketCaps: Option<seq<(int, real)>>)

  type ChartFetch = (string, int, int) -> Option<ChartData>

  /** A daily history entry; `date` is the day number whose `YYYY-MM-DD` text is stored. */
  datatype HistoryEntry = HistoryEntry(currencyId: string, date: int, marketCapUSD: Option<real>, ratioOfExchange: int, source: string)

  /** The day a sample is attributed to: its UTC day, or the next day when taken in the 23rd hour. */
  function SampleDay(ts: int): int
  {
    if IsoTime.HourOf(ts) > 22 then IsoTime.DayOf(ts) + 1 else IsoTime.DayOf(ts)
  }

  /** Rolling the 23rd hour over is the same as reading the day one hour later. */
  lemma SampleDayIsDayOneHourLater(ts: int)
    ensures SampleDay(ts) == IsoTime.DayOf(ts + IsoTime.MsPerHour)
  {
    var d, h := IsoTime.DayOf(ts), IsoTime.HourOf(ts);
    var later := ts + IsoTime.MsPerHour;
    if h > 22 {
      assert (d + 1) * IsoTime.MsPerDay <= later < (d + 2) * IsoTime.MsPerDay;
    } else {
      assert d * IsoTime.MsPerDay <= later < (d + 1) * IsoTime.MsPerDay;
    }
    var d' := IsoTime.DayOf(later);
    assert d' * IsoTime.MsPerDay <= later < (d' + 1) * IsoTime.MsPerDay;
  }

  /** `market_caps.find(([mts]) => mts === ts)`: the value of the first sample with the same timestamp. */
  function FindMarketCap(mcs: seq<(int, real)>, ts: int): (r: Option<real>)
    ensures r.Some? <==> exists i :: 0 <= i < |mcs| && mcs[i].0 == ts
    ensures r.Some? ==> exists i :: 0 <= i < |mcs| && mcs[i] == (ts, r.value) && forall j :: 0 <= j < i ==> mcs[j].0 != ts
  {
    if mcs == [] then None
    else if mcs[0].0 == ts then Some(mcs[0].1)
    else
      var r := FindMarketCap(mcs[1..], ts);
      FirstMatchInTail(mcs, ts, r);
      r
  }

  lemma FirstMatchInTail(mcs: seq<(int, real)>, ts: int, r: Option<real>)
    requires mcs != [] && mcs[0].0 != ts
    requires r.Some? <==> exists i :: 0 <= i < |mcs[1..]| && mcs[1..][i].0 == ts
    requires r.Some? ==> exists i :: 0 <= i < |mcs[1..]| && mcs[1..][i] == (ts, r.value) && forall j :: 0 <= j < i ==> mcs[1..][j].0 != ts
    ensures r.Some? <==> exists i :: 0 <= i < |mcs| && mcs[i].0 == ts
    ensures r.Some? ==> exists i :: 0 <= i < |mcs| && mcs[i] == (ts, r.value) && forall j :: 0 <= j < i ==> mcs[j].0 != ts
  {
    assert forall i :: 0 < i < |mcs| ==> mcs[i] == mcs[1..][i - 1];
    if r.Some? {
      var i :| 0 <= i < |mcs[1..]| && mcs[1..][i] == (ts, r.value) && forall j :: 0 <= j < i ==> mcs[1..][j].0 != ts;
      assert mcs[i + 1] == (ts, r.value);
      forall j | 0 < j < i + 1 ensures mcs[j].0 != ts { assert mcs[j] == mcs[1..][j - 1]; }
    }
  }

  /** The `[id, entry]` pair of one price sample. */
  function Item(currencyId: string, sample: (int, real), mcs: seq<(int, real)>, hash: string -> string): (string, HistoryEntry)
  {
    var day := SampleDay(sample.0);
    (Utils.GetHistoryItemId(hash, IsoTime.IsoDate(day), currencyId, None),
     HistoryEntry(currencyId, day, FindMarketCap(mcs, sample.0), Utils.UsdToRoe(sample.1), CoinGecko.SourceText))
  }

  /** `xs.map(x => keep(x) ? f(x) : undefined).filter(Boolean)`. */
  function KeepMap<T, U(!new)>(xs: seq<T>, keep: T -> bool, f: T -> U): (r: seq<U>)
    ensures forall y :: y in r <==> exists i :: 0 <= i < |xs| && keep(xs[i]) && y == f(xs[i])
  {
    if xs == [] then []
    else
      var init := xs[..|xs| - 1];
      assert forall i :: 0 <= i < |init| ==> init[i] == xs[i];
      var rest := KeepMap(init, keep, f);
      if keep(xs[|xs| - 1]) then rest + [f(xs[|xs| - 1])] else rest
  }

  /** The entries of the samples attributed to `startDay` or later, in sample order. */
  function HistoryItems(currencyId: string, startDay: int, prices: seq<(int, real)>, mcs: seq<(int, real)>, hash: string -> string)
    : (r: seq<(string, HistoryEntry)>)
    ensures forall p :: p in r <==>
              exists i :: 0 <= i < |prices| && SampleDay(prices[i].0) >= startDay && p == Item(currencyId, prices[i], mcs, hash)
  {
    KeepMap(prices, (sample: (int, real)) => SampleDay(sample.0) >= startDay,
            (sample: (int, real)) => Item(currencyId, sample, mcs, hash))
  }

  /** `getPriceHistory(currencyId, coinId, dateFrom, dateTo)`; `dateFrom` is a day,
      `dateTo` a time, `now` the current time. */
  function GetPriceHistory(currencyId: string, coinId: string, dateFrom: Option<int>, dateTo: Option<int>,
                           now: int, fetch: ChartFetch, hash: string -> string)
    : (r: Option<seq<(string, HistoryEntry)>>)
    ensures
      var startDay := dateFrom.GetOr(DefaultStartDay);
      var to := dateTo.GetOr(now);
      var data := fetch(coinId, Seconds(RequestFrom(startDay * IsoTime.MsPerDay, to)), Seconds(to));
      && (r.Some? <==> data.Some? && !data.value.error && data.value.prices.Some? && data.value.marketCaps.Some?)
      && (r.Some? ==> r.value == HistoryItems(currencyId, startDay, data.value.prices.value, data.value.marketCaps.value, hash))
  {
    var startDay := dateFrom.GetOr(DefaultStartDay);
    var to := dateTo.GetOr(now);
    var from := RequestFrom(startDay * IsoTime.MsPerDay, to);
    match fetch(coinId, Seconds(from), Seconds(to))
    case None => None
    case Some(data) =>
      if data.error || data.prices.None? || data.marketCaps.None? then None
      else Some(HistoryItems(currencyId, startDay, data.prices.value, data.marketCaps.value, hash))
  }

  /** Every entry of a history is dated on or after the requested `dateFrom` (not the widened
      range start), belongs to the currency and carries the CoinGecko source label. */
  lemma HistoryEntriesFromStart(currencyId: string, coinId: string, dateFrom: Option<int>, dateTo: Option<int>,
                                now: int, fetch: ChartFetch, hash: string -> string, p: (string, HistoryEntry))
    requires GetPriceHistory(currencyId, coinId, dateFrom, dateTo, now, fetch, hash).Some?
    requires p in GetPriceHistory(currencyId, coinId, dateFrom, dateTo, now, fetch, hash).value
    ensures p.1.date >= dateFrom.GetOr(DefaultStartDay)
    ensures p.1.currencyId == currencyId && p.1.source == CoinGecko.SourceText
    ensures p.0 == Utils.GetHistoryItemId(hash, IsoTime.IsoDate(p.1.date), currencyId, None)
  {
  }

  /** Stored aggregator configuration of one currency: the watermark and the other fields. */
  datatype Conf = Conf(historyLastDay: Option<int>, other: map<string, string>)

  /** A crypto currency as read from the currency store. */
  datatype CryptoCurrency = CryptoCurrency(id: string, ticker: string)

  /** `[currencyId, coinId, historyLastDay]`. */
  datatype Job = Job(currencyId: string, coinId: string, historyLastDay: Option<int>)

  function LastDay(conf: map<string, Conf>, currencyId: string): Option<int>
  {
    if currencyId in conf then conf[currencyId].historyLastDay else None
  }

  function CoinIdOf(cgCoins: map<string, CoinGecko.CoinInfo>, ticker: string): string
  {
    var lower := Text.ToLower(ticker);
    if lower in cgCoins then cgCoins[lower].id else ""
  }

  /** `coinsToFetch`: the currencies with a CoinGecko id whose watermark is not today. */
  function CoinsToFetch(cryptoCoins: seq<CryptoCurrency>, cgCoins: map<string, CoinGecko.CoinInfo>,
                        conf: map<string, Conf>, today: int): (jobs: seq<Job>)
    ensures |jobs| <= |cryptoCoins|
    ensures forall j :: j in jobs <==>
              exists c :: c in cryptoCoins && j == Job(c.id, CoinIdOf(cgCoins, c.ticker), LastDay(conf, c.id))
                && CoinIdOf(cgCoins, c.ticker) != "" && LastDay(conf, c.id) != Some(today)
  {
    if cryptoCoins == [] then []
    else
      var c := cryptoCoins[0];
      var rest := CoinsToFetch(cryptoCoins[1..], cgCoins, conf, today);
      assert forall x :: x in cryptoCoins <==> x == c || x in cryptoCoins[1..];
      if CoinIdOf(cgCoins, c.ticker) == "" || LastDay(conf, c.id) == Some(today) then rest
      else [Job(c.id, CoinIdOf(cgCoins, c.ticker), LastDay(conf, c.id))] + rest
  }

  function Dates(result: seq<(string, HistoryEntry)>): (ds: seq<int>)
    ensures |ds| == |result| && forall i :: 0 <= i < |ds| ==> ds[i] == result[i].1.date
  {
    seq(|result|, i requires 0 <= i < |result| => result[i].1.date)
  }

  function MinOf(ds: seq<int>): (m: int)
    requires ds != []
    ensures m in ds && forall d :: d in ds ==> m <= d
  {
    if |ds| == 1 then ds[0]
    else
      var rest := MinOf(ds[1..]);
      assert forall d :: d in ds ==> d == ds[0] || d in ds[1..];
      if ds[0] <= rest then ds[0] else rest
  }

  function MaxOf(ds: seq<int>): (m: int)
    requires ds != []
    ensures m in ds && forall d :: d in ds ==> d <= m
  {
    if |ds| == 1 then ds[0]
    else
      var rest := MaxOf(ds[1..]);
      assert forall d :: d in ds ==> d == ds[0] || d in ds[1..];
      if ds[0] >= rest then ds[0] else rest
  }

  /** The watermark candidate as written: `result.map(date).sort()[0]`, the EARLIEST date. */
  function WatermarkAsWritten(result: seq<(string, HistoryEntry)>): (w: Option<int>)
    ensures w.None? <==> result == []
    ensures w.Some? ==> w.value in Dates(result) && forall d :: d in Dates(result) ==> w.value <= d
  {
    if result == [] then None else Some(MinOf(Dates(result)))
  }

  /** The watermark candidate as intended: the LATEST date of the history just stored. */
  function Watermark(result: seq<(string, HistoryEntry)>): (w: Option<int>)
    ensures w.None? <==> result == []
    ensures w.Some? ==> w.value in Dates(result) && forall d :: d in Dates(result) ==> d <= w.value
  {
    if result == [] then None else Some(MaxOf(Dates(result)))
  }

  /** As written, syncing three new days from watermark `w` leaves the watermark at `w`:
      it never moves past the first day of the range it just fetched. */
  lemma WatermarkAsWrittenDoesNotAdvance(w: int, id1: string, id2: string, id3: string, e: HistoryEntry)
    ensures var result := [(id1, e.(date := w)), (id2, e.(date := w + 1)), (id3, e.(date := w + 2))];
      WatermarkAsWritten(result) == Some(w) && Watermark(result) == Some(w + 2)
  {
    var result := [(id1, e.(date := w)), (id2, e.(date := w + 1)), (id3, e.(date := w + 2))];
    assert Dates(result) == [w, w + 1, w + 2];
    assert w in Dates(result) && w + 2 in Dates(result);
  }

  /** The two stores one synchronisation pass writes: daily history and configuration. */
  datatype Stores = Stores(history: map<string, HistoryEntry>, conf: map<string, Conf>)

  /** `{ ...conf, historyLastDay: day }`: the watermark replaced, every other field kept. */
  function WithLastDay(conf: map<string, Conf>, currencyId: string, day: int): Conf
  {
    if currencyId in conf then conf[currencyId].(historyLastDay := Some(day)) else Conf(Some(day), map[])
  }

  /** One iteration of the loop: fetch the history from the watermark, upsert it, advance the
      watermark when anything came back. A failed fetch changes nothing. */
  function SyncOne(s: Stores, job: Job, now: int, fetch: ChartFetch, hash: string -> string): Stores
  {
    match GetPriceHistory(job.currencyId, job.coinId, job.historyLastDay, None, now, fetch, hash)
    case None => s
    case Some(result) =>
      var history := s.history + JsMap.FromPairs(result);
      match Watermark(result)
      case None => Stores(history, s.conf)
      case Some(day) => Stores(history, s.conf[job.currencyId := WithLastDay(s.conf, job.currencyId, day)])
  }

  function SyncAll(s: Stores, jobs: seq<Job>, now: int, fetch: ChartFetch, hash: string -> string): Stores
  {
    if jobs == [] then s
    else SyncOne(SyncAll(s, jobs[..|jobs| - 1], now, fetch, hash), jobs[|jobs| - 1], now, fetch, hash)
  }

  /** The job's watermark is the one in the configuration read at the start of the pass. */
  ghost predicate JobsFromSnapshot(jobs: seq<Job>, conf0: map<string, Conf>)
  {
    forall i :: 0 <= i < |jobs| ==> jobs[i].historyLastDay == LastDay(conf0, jobs[i].currencyId)
  }

  /** One iteration never moves a watermark back: a job fetches from its own watermark, so
      every date it stores, and hence the new watermark, is at least that late. */
  lemma SyncOneKeepsWatermark(s: Stores, job: Job, now: int, fetch: ChartFetch, hash: string -> string,
                              c: string, w: int)
    requires c == job.currencyId ==> job.historyLastDay == Some(w)
    requires LastDay(s.conf, c).Some? && LastDay(s.conf, c).value >= w
    ensures LastDay(SyncOne(s, job, now, fetch, hash).conf, c).Some?
    ensures LastDay(SyncOne(s, job, now, fetch, hash).conf, c).value >= w
  {
    var r := GetPriceHistory(job.currencyId, job.coinId, job.historyLastDay, None, now, fetch, hash);
    if r.Some? && r.value != [] && c == job.currencyId {
      var day := Watermark(r.value).value;
      var k :| 0 <= k < |Dates(r.value)| && Dates(r.value)[k] == day;
      HistoryEntriesFromStart(job.currencyId, job.coinId, job.historyLastDay, None, now, fetch, hash, r.value[k]);
      assert SyncOne(s, job, now, fetch, hash).conf[c] == WithLastDay(s.conf, c, day);
    }
  }

  /** Watermark monotonicity: after a pass, every currency that had a watermark has one at
      least as late. */
  lemma {:induction false} SyncAllKeepsWatermarks(conf0: map<string, Conf>, s: Stores, jobs: seq<Job>, now: int,
                                                   fetch: ChartFetch, hash: string -> string, c: string)
    requires s.conf == conf0 && JobsFromSnapshot(jobs, conf0) && LastDay(conf0, c).Some?
    ensures LastDay(SyncAll(s, jobs, now, fetch, hash).conf, c).Some?
    ensures LastDay(SyncAll(s, jobs, now, fetch, hash).conf, c).value >= LastDay(conf0, c).value
  {
    if jobs != [] {
      var init := jobs[..|jobs| - 1];
      assert JobsFromSnapshot(init, conf0) by {
        forall i | 0 <= i < |init| ensures init[i].historyLastDay == LastDay(conf0, init[i].currencyId) {
          assert init[i] == jobs[i];
        }
      }
      SyncAllKeepsWatermarks(conf0, s, init, now, fetch, hash, c);
      var job := jobs[|jobs| - 1];
      assert job.historyLastDay == LastDay(conf0, job.currencyId);
      assert c == job.currencyId ==> job.historyLastDay == Some(LastDay(conf0, c).value);
      SyncOneKeepsWatermark(SyncAll(s, init, now, fetch, hash), job, now, fetch, hash, c, LastDay(conf0, c).value);
    }
  }

  /** A successful iteration leaves the watermark on the latest day it stored: one of the
      stored dates, and none of them later. */
  lemma SyncOneAdvancesToLatest(s: Stores, job: Job, now: int, fetch: ChartFetch, hash: string -> string)
    requires GetPriceHistory(job.currencyId, job.coinId, job.historyLastDay, None, now, fetch, hash).Some?
    requires GetPriceHistory(job.currencyId, job.coinId, job.historyLastDay, None, now, fetch, hash).value != []
    ensures var result := GetPriceHistory(job.currencyId, job.coinId, job.historyLastDay, None, now, fetch, hash).value;
      var s' := SyncOne(s, job, now, fetch, hash);
      && LastDay(s'.conf, job.currencyId) == Watermark(result)
      && LastDay(s'.conf, job.currencyId).Some?
      && (exists p :: p in result && p.1.date == LastDay(s'.conf, job.currencyId).value)
      && (forall p :: p in result ==> p.1.date <= LastDay(s'.conf, job.currencyId).value)
      && (forall p :: p in result ==> p.0 in s'.history)
  {
    var result := GetPriceHistory(job.currencyId, job.coinId, job.historyLastDay, None, now, fetch, hash).value;
    WatermarkIsLatestEntry(result);
    forall p | p in result ensures p.0 in JsMap.FromPairs(result) {
      var i :| 0 <= i < |result| && result[i] == p;
    }
  }

  /** The corrected candidate is the date of one of the entries, and no entry is later. */
  lemma WatermarkIsLatestEntry(result: seq<(string, HistoryEntry)>)
    requires result != []
    ensures exists p :: p in result && p.1.date == Watermark(result).value
    ensures forall p :: p in result ==> p.1.date <= Watermark(result).value
  {
    var ds := Dates(result);
    var w := Watermark(result).value;
    var k :| 0 <= k < |ds| && ds[k] == w;
    assert result[k] in result;
    forall p | p in result ensures p.1.date <= w {
      var i :| 0 <= i < |result| && result[i] == p;
      assert ds[i] in ds;
    }
  }

  /** `dbDailyHistory` and `dbConf`. */
  class DailySync {
    var history: map<string, HistoryEntry>
    var conf: map<string, Conf>

    constructor (history0: map<string, HistoryEntry>, conf0: map<string, Conf>)
      ensures history == history0 && conf == conf0
    {
      history := history0;
      conf := conf0;
    }

    /** `updateCryptoDailyPrices` (one pass): select the currencies to sync from the coin list
        and the configuration read at the start, then sync them one by one. A failure to get
        the coin list ends the pass before anything is written. */
    method UpdateCryptoDailyPrices(cryptoCoins: seq<CryptoCurrency>,
                                   cgCoins: Result<map<string, CoinGecko.CoinInfo>, string>,
                                   now: int, fetch: ChartFetch, hash: string -> string)
      modifies this
      ensures cgCoins.Failure? ==> history == old(history) && conf == old(conf)
      ensures cgCoins.Success? ==>
                Stores(history, conf)
                  == SyncAll(Stores(old(history), old(conf)),
                             CoinsToFetch(cryptoCoins, cgCoins.value, old(conf), IsoTime.DayOf(now)), now, fetch, hash)
    {
      if cgCoins.Failure? {
        return;
      }
      var jobs := CoinsToFetch(cryptoCoins, cgCoins.value, conf, IsoTime.DayOf(now));
      ghost var s0 := Stores(history, conf);
      for i := 0 to |jobs|
        invariant Stores(history, conf) == SyncAll(s0, jobs[..i], now, fetch, hash)
      {
        assert jobs[..i + 1][..i] == jobs[..i];
        var job := jobs[i];
        var result := GetPriceHistory(job.currencyId, job.coinId, job.historyLastDay, None, now, fetch, hash);
        if result.None? {
          continue;
        }
        history := history + JsMap.FromPairs(result.value);
        var newDate := Watermark(result.value);
        if newDate.Some? {
          conf := conf[job.currencyId := WithLastDay(conf, job.currencyId, newDate.value)];
        }
      }
      assert jobs[..|jobs|] == jobs;
    }
  }
}
