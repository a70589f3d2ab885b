/** Display currencies (scripts/currency.js). Amounts are stored in the base
    currency (USD) and multiplied by the selected currency's rate for
    display; amounts typed in the selected currency are divided by it. */
module Currency {

  /** `state.currency`: the selected code and the rate table. */
  datatype CurrencyState = CurrencyState(current: string, rates: map<string, real>)

  /** `rates[current] || 1`: a missing or zero rate reads as 1. */
  function Rate(c: CurrencyState): (r: real)
    ensures r != 0.0
    ensures c.current in c.rates && c.rates[c.current] != 0.0 ==> r == c.rates[c.current]
    ensures c.current !in c.rates || c.rates[c.current] == 0.0 ==> r == 1.0
  {
    if c.current in c.rates && c.rates[c.current] != 0.0 then c.rates[c.current] else 1.0
  }

  /** `convert`: a base amount in the selected currency. */
  function Convert(amountUSD: real, c: CurrencyState): real {
    amountUSD * Rate(c)
  }

  /** `toBase`: an amount in the selected currency back in the base currency;
      the divisor is never zero. */
  function ToBase(amountInCurrent: real, c: CurrencyState): real {
    amountInCurrent / Rate(c)
  }

  /** Converting and converting back give the amount back, in either order. */
  lemma ConvertRoundTrip(x: real, c: CurrencyState)
    ensures ToBase(Convert(x, c), c) == x
    ensures Convert(ToBase(x, c), c) == x
  {
  }

  /** At rate 1 (the base currency, or an unknown or zero rate) both
      directions are the identity. */
  lemma IdentityAtRateOne(x: real, c: CurrencyState)
    requires c.current !in c.rates || c.rates[c.current] in {0.0, 1.0}
    ensures Convert(x, c) == x && ToBase(x, c) == x
  {
  }

  /** Conversion is linear, so sums may be converted term by term. */
  lemma ConvertLinear(x: real, y: real, c: CurrencyState)
    ensures Convert(x + y, c) == Convert(x, c) + Convert(y, c)
    ensures ToBase(x + y, c) == ToBase(x, c) + ToBase(y, c)
  {
  }

  /** With a positive rate, conversion keeps signs and order. */
  lemma ConvertMonotone(x: real, y: real, c: CurrencyState)
    requires Rate(c) > 0.0 && x <= y
    ensures Convert(x, c) <= Convert(y, c) && ToBase(x, c) <= ToBase(y, c)
    ensures 0.0 <= x ==> 0.0 <= Convert(x, c) && 0.0 <= ToBase(x, c)
  {
    assert ToBase(y, c) - ToBase(x, c) == (y - x) / Rate(c);
  }

  // ----- symbols -----------------------------------------------------------

  datatype CurrencyMeta = CurrencyMeta(symbol: string, name: string)

  /** `CURRENCY_META`. */
  const Meta: map<string, CurrencyMeta> := map[
    "USD" := CurrencyMeta("$", "US Dollar"),
    "KES" := CurrencyMeta("KSh", "Kenyan Shilling"),
    "EUR" := CurrencyMeta("€", "Euro"),
    "GBP" := CurrencyMeta("£", "British Pound")]

  /** `(CURRENCY_META[code] || { symbol: code }).symbol`. */
  function Symbol(code: string): (s: string)
    ensures code in Meta ==> s == Meta[code].symbol
    ensures code !in Meta ==> s == code
  {
    if code in Meta then Meta[code].symbol else code
  }

  /** `formatAmount`, with `toLocaleString` (two fraction digits) passed in
      as `localeFormat`. */
  function FormatAmount(amountUSD: real, c: CurrencyState, localeFormat: real -> string): string {
    Symbol(c.current) + " " + localeFormat(Convert(amountUSD, c))
  }

  /** The text is the symbol, one space, and the converted amount as the
      locale formats it. */
  lemma FormatAmountShape(amountUSD: real, c: CurrencyState, localeFormat: real -> string)
    ensures var r := FormatAmount(amountUSD, c, localeFormat); var n := |Symbol(c.current)|;
      && r[..n] == Symbol(c.current) && r[n] == ' '
      && r[n + 1..] == localeFormat(Convert(amountUSD, c))
  {
    var sym, num := Symbol(c.current), localeFormat(Convert(amountUSD, c));
    var r := sym + " " + num;
    assert r[..|sym|] == sym && r[|sym|] == ' ' && r[|sym| + 1..] == num;
  }

  /** The four known currencies have different symbols. */
  lemma KnownSymbolsDistinct(a: string, b: string)
    requires a in Meta && b in Meta && Symbol(a) == Symbol(b)
    ensures a == b
  {
  }
}
