/** src/utils.js: the deterministic key of a daily history entry and the
    conversion of a USD price to a ratio of exchange (USD x 10^8 as an integer). */
module Utils {
  import opened Wrappers

  /** Eight decimal places: one USD is 10^8 units of ratio of exchange. */
  const RoeScale: int := 100000000

  /** `parseInt` of a number: truncation toward zero. */
  function Trunc(x: real): (n: int)
    ensures x >= 0.0 ==> 0 <= n && n as real <= x < n as real + 1.0
    ensures x < 0.0 ==> n <= 0 && x <= n as real < x + 1.0
  {
    if x >= 0.0 then x.Floor else -((-x).Floor)
  }

  /** `usdToROE(usd) = parseInt(usd * 100000000)`. */
  function UsdToRoe(usd: real): (roe: int)
    ensures usd >= 0.0 ==> 0 <= roe && roe as real <= usd * RoeScale as real < roe as real + 1.0
    ensures usd < 0.0 ==> roe <= 0 && usd * RoeScale as real <= roe as real < usd * RoeScale as real + 1.0
  {
    Trunc(usd * RoeScale as real)
  }

  /** Truncation toward zero never reverses the order of two prices. */
  lemma TruncMonotone(a: real, b: real)
    requires a <= b
    ensures Trunc(a) <= Trunc(b)
  {
    if a < 0.0 && b >= 0.0 {
    } else if a < 0.0 {
      assert (-b).Floor <= (-a).Floor;
    } else {
      assert a.Floor <= b.Floor;
    }
  }

  lemma UsdToRoeMonotone(a: real, b: real)
    requires a <= b
    ensures UsdToRoe(a) <= UsdToRoe(b)
  {
    TruncMonotone(a * RoeScale as real, b * RoeScale as real);
  }

  /** A whole number of dollars converts exactly: 12 USD is 1 200 000 000. */
  lemma UsdToRoeOfWhole(n: int)
    ensures UsdToRoe(n as real) == n * RoeScale
  {
    assert n as real * RoeScale as real == (n * RoeScale) as real;
  }

  /** `${tickerType}`: an omitted argument prints as `undefined`. */
  function TypeText(tickerType: Option<string>): string
  {
    tickerType.GetOr("undefined")
  }

  /** The text hashed by `getHistoryItemId`: `${date}_${ticker}.${tickerType}`. */
  function HistoryKey(date: string, ticker: string, tickerType: Option<string>): string
  {
    date + "_" + ticker + "." + TypeText(tickerType)
  }

  /** `getHistoryItemId`; `generateHash` is not part of this model and is a parameter. */
  function GetHistoryItemId(hash: string -> string, date: string, ticker: string, tickerType: Option<string>): (id: string)
    ensures id == hash(HistoryKey(date, ticker, tickerType))
  {
    hash(date + "_" + ticker + "." + TypeText(tickerType))
  }

  /** Calling with two arguments hashes the same text as passing the type `"undefined"`. */
  lemma OmittedTypeIsUndefinedText(hash: string -> string, date: string, ticker: string)
    ensures GetHistoryItemId(hash, date, ticker, None) == GetHistoryItemId(hash, date, ticker, Some("undefined"))
  {
  }

  /** Position of the first `sep` in `s` (or `|s|` when there is none). */
  function FirstIndex(sep: char, s: string): (k: nat)
    ensures k <= |s|
  {
    if s == [] || s[0] == sep then 0 else 1 + FirstIndex(sep, s[1..])
  }

  lemma {:induction false} FirstIndexAfterPrefix(sep: char, a: string, b: string)
    requires sep !in a
    ensures FirstIndex(sep, a + [sep] + b) == |a|
  {
    if a != [] {
      assert (a + [sep] + b)[1..] == a[1..] + [sep] + b;
      FirstIndexAfterPrefix(sep, a[1..], b);
    }
  }

  /** Splitting at the first occurrence of a separator that neither prefix contains. */
  lemma SplitAtSeparator(sep: char, a: string, b: string, c: string, d: string)
    requires sep !in a && sep !in c
    requires a + [sep] + b == c + [sep] + d
    ensures a == c && b == d
  {
    var s := a + [sep] + b;
    FirstIndexAfterPrefix(sep, a, b);
    FirstIndexAfterPrefix(sep, c, d);
    assert a == s[..|a|] == c;
    assert b == s[|a| + 1..] == d;
  }

  /** The key determines date, ticker and type text when the date has no `_` and
      the ticker no `.` (true of ISO dates and of currency ids and tickers). */
  lemma HistoryKeyInjective(d1: string, t1: string, y1: Option<string>, d2: string, t2: string, y2: Option<string>)
    requires '_' !in d1 && '_' !in d2 && '.' !in t1 && '.' !in t2
    requires HistoryKey(d1, t1, y1) == HistoryKey(d2, t2, y2)
    ensures d1 == d2 && t1 == t2 && TypeText(y1) == TypeText(y2)
  {
    assert HistoryKey(d1, t1, y1) == d1 + ['_'] + (t1 + "." + TypeText(y1));
    assert HistoryKey(d2, t2, y2) == d2 + ['_'] + (t2 + "." + TypeText(y2));
    SplitAtSeparator('_', d1, t1 + "." + TypeText(y1), d2, t2 + "." + TypeText(y2));
    assert t1 + "." + TypeText(y1) == t1 + ['.'] + TypeText(y1);
    assert t2 + "." + TypeText(y2) == t2 + ['.'] + TypeText(y2);
    SplitAtSeparator('.', t1, TypeText(y1), t2, TypeText(y2));
  }

  /** With an injective hash, two entries share an id only if they share date, ticker and type text. */
  lemma HistoryIdDistinct(hash: string -> string, d1: string, t1: string, y1: Option<string>,
                          d2: string, t2: string, y2: Option<string>)
    requires forall x, y :: hash(x) == hash(y) ==> x == y
    requires '_' !in d1 && '_' !in d2 && '.' !in t1 && '.' !in t2
    requires GetHistoryItemId(hash, d1, t1, y1) == GetHistoryItemId(hash, d2, t2, y2)
    ensures d1 == d2 && t1 == t2 && TypeText(y1) == TypeText(y2)
  {
    HistoryKeyInjective(d1, t1, y1, d2, t2, y2);
  }
}
