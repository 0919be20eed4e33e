/** src/usdToROE.js: the default export, a second definition of the conversion in src/utils.js. */
module UsdToRoeDefault {
  import Utils

  /** `usd => parseInt(usd * 100000000)`. */
  function UsdToRoe(usd: real): (roe: int)
    ensures usd >= 0.0 ==> 0 <= roe && roe as real <= usd * 100000000.0 < roe as real + 1.0
    ensures usd < 0.0 ==> roe <= 0 && usd * 100000000.0 <= roe as real < usd * 100000000.0 + 1.0
  {
    var x := usd * 100000000.0;
    if x >= 0.0 then x.Floor else -((-x).Floor)
  }

  /** Both definitions agree on every input. */
  lemma AgreesWithUtils(usd: real)
    ensures UsdToRoe(usd) == Utils.UsdToRoe(usd)
  {
  }

  lemma Monotone(a: real, b: real)
    requires a <= b
    ensures UsdToRoe(a) <= UsdToRoe(b)
  {
    AgreesWithUtils(a);
    AgreesWithUtils(b);
    Utils.UsdToRoeMonotone(a, b);
  }

  /** 12 USD converts to 1 200 000 000. */
  lemma OfWhole(n: int)
    ensures UsdToRoe(n as real) == n * 100000000
  {
    AgreesWithUtils(n as real);
    Utils.UsdToRoeOfWhole(n);
  }
}
