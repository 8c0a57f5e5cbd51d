/** Rate resolution of `performConversion` (script.js:95-174) as a pure function
    of the selected pair, the amount and the two rate tables. */
module Resolver {
  import opened Wrappers
  import opened Currencies

  const CryptoUnavailable: string := "Crypto rate not available"
  // Written as two literals so that the verifier sees its characters.
  const ExchangeRateUnavailable: string := "Exchange rate not available " + "for selected currency"

  function ConversionToUnavailable(to: string): string {
    "Conversion to " + to + " not available"
  }

  function ConversionFromUnavailable(from: string): string {
    "Conversion from " + from + " not available"
  }

  /** The key the crypto provider uses for its US-dollar price. */
  const UsdKey: string := "usd"

  /** The rate text the converter displays: the literal `1.0000` for a pair of
      equal codes, otherwise `1 {from} = {rate} {to}` with the rate shown to
      `places` decimals. */
  datatype RateText = UnitRate | PerUnit(places: nat)

  /** Either the scalar rate (target units per source unit), the converted amount
      with the number of decimals it is shown with, and the rate text; or the
      message shown when the rate cannot be determined. */
  datatype Conversion =
    | Converted(rate: real, converted: real, amountPlaces: nat, rateText: RateText)
    | Unavailable(message: string)

  /** The outcome of looking up one pair's rate. */
  datatype Lookup = Found(rate: real) | Missing(message: string)

  /** Crypto to crypto through the two US-dollar prices. A symbol missing from
      the table, or a missing or zero `usd` price on either side, is "not
      available" (see CryptoToCryptoAsWritten for the code as written). */
  function CryptoToCryptoRate(crypto: CryptoTable, from: string, to: string): (l: Lookup)
    ensures l.Found? <==> from in crypto && to in crypto
                          && HasRate(crypto[from], UsdKey) && HasRate(crypto[to], UsdKey)
    ensures l.Found? ==> l.rate * crypto[to][UsdKey] == crypto[from][UsdKey]
    ensures l.Missing? ==> l.message == CryptoUnavailable
  {
    if from in crypto && to in crypto then
      if HasRate(crypto[from], UsdKey) && HasRate(crypto[to], UsdKey) then
        Found(crypto[from][UsdKey] / crypto[to][UsdKey])
      else Missing(CryptoUnavailable)
    else Missing(CryptoUnavailable)
  }

  /** Crypto to fiat: the source symbol's price in the lower-cased target code. */
  function CryptoToFiatRate(crypto: CryptoTable, from: string, to: string): (l: Lookup)
    ensures l.Found? <==> from in crypto && HasRate(crypto[from], ToLower(to))
    ensures l.Found? ==> l.rate == crypto[from][ToLower(to)] && l.rate != 0.0
    ensures l.Missing? ==>
              l.message == if from in crypto then ConversionToUnavailable(to) else CryptoUnavailable
  {
    if from in crypto then
      var fiatKey := ToLower(to);
      if HasRate(crypto[from], fiatKey) then Found(crypto[from][fiatKey])
      else Missing(ConversionToUnavailable(to))
    else Missing(CryptoUnavailable)
  }

  /** Fiat to crypto: the reciprocal of the target symbol's price in the
      lower-cased source code. */
  function FiatToCryptoRate(crypto: CryptoTable, from: string, to: string): (l: Lookup)
    ensures l.Found? <==> to in crypto && HasRate(crypto[to], ToLower(from))
    ensures l.Found? ==> l.rate * crypto[to][ToLower(from)] == 1.0
    ensures l.Missing? ==>
              l.message == if to in crypto then ConversionFromUnavailable(from) else CryptoUnavailable
  {
    if to in crypto then
      var fiatKey := ToLower(from);
      if HasRate(crypto[to], fiatKey) then Found(1.0 / crypto[to][fiatKey])
      else Missing(ConversionFromUnavailable(from))
    else Missing(CryptoUnavailable)
  }

  /** Fiat to fiat: the target's entry in the fiat table, whatever the source. */
  function FiatToFiatRate(fiat: FiatTable, to: string): (l: Lookup)
    ensures l.Found? <==> HasRate(fiat, to)
    ensures l.Found? ==> l.rate == fiat[to]
    ensures l.Missing? ==> l.message == ExchangeRateUnavailable
  {
    if HasRate(fiat, to) then Found(fiat[to]) else Missing(ExchangeRateUnavailable)
  }

  /** The rate of a pair of distinct codes, from the table its case reads. */
  function PairRate(from: string, to: string, fiat: FiatTable, crypto: CryptoTable): (l: Lookup)
    requires from != to
    ensures l.Found? ==> l.rate != 0.0
    ensures l.Missing? ==>
              || l.message == CryptoUnavailable
              || l.message == ExchangeRateUnavailable
              || l.message == ConversionToUnavailable(to)
              || l.message == ConversionFromUnavailable(from)
  {
    match Classify(from, to)
    case SameCode => assert false; Missing(CryptoUnavailable)
    case CryptoToCrypto => CryptoToCryptoRate(crypto, from, to)
    case CryptoToFiat => CryptoToFiatRate(crypto, from, to)
    case FiatToCrypto => FiatToCryptoRate(crypto, from, to)
    case FiatToFiat => FiatToFiatRate(fiat, to)
  }

  /** `performConversion`: equal codes convert at rate 1 without a lookup;
      otherwise the pair's rate is looked up and the amount multiplied by it. */
  function Resolve(from: string, to: string, amount: real, fiat: FiatTable, crypto: CryptoTable)
    : (c: Conversion)
    ensures from == to ==> c == Converted(1.0, amount, 2, UnitRate)
    ensures c.Converted? ==> c.converted == amount * c.rate
    ensures c.Converted? && from != to ==>
      c.amountPlaces == (if IsCrypto(to) then 8 else 2) && c.rateText == PerUnit(8)
  {
    if from == to then Converted(1.0, amount, 2, UnitRate)
    else
      match PairRate(from, to, fiat, crypto)
      case Missing(message) => Unavailable(message)
      case Found(rate) =>
        Converted(rate, amount * rate, if IsCrypto(to) then 8 else 2, PerUnit(8))
  }

  // ---------------------------------------------------------------------------
  // One lemma per case: which table the case reads, the rate it yields and the
  // message it fails with.

  lemma ResolveSameCode(code: string, amount: real, fiat: FiatTable, crypto: CryptoTable,
                        fiat': FiatTable, crypto': CryptoTable)
    ensures Resolve(code, code, amount, fiat, crypto) == Converted(1.0, amount, 2, UnitRate)
    ensures Resolve(code, code, amount, fiat, crypto) == Resolve(code, code, amount, fiat', crypto')
  {
  }

  lemma ResolveCryptoToCrypto(from: string, to: string, amount: real,
                              fiat: FiatTable, crypto: CryptoTable)
    requires Classify(from, to) == CryptoToCrypto
    ensures var c := Resolve(from, to, amount, fiat, crypto);
      && (c.Converted? <==> from in crypto && to in crypto
                            && HasRate(crypto[from], UsdKey) && HasRate(crypto[to], UsdKey))
      && (c.Converted? ==> c.rate == crypto[from][UsdKey] / crypto[to][UsdKey]
                           && c.converted == amount * c.rate && c.amountPlaces == 8)
      && (c.Unavailable? ==> c.message == CryptoUnavailable)
  {
  }

  lemma ResolveCryptoToFiat(from: string, to: string, amount: real,
                            fiat: FiatTable, crypto: CryptoTable)
    requires Classify(from, to) == CryptoToFiat
    ensures var c := Resolve(from, to, amount, fiat, crypto);
      && (c.Converted? <==> from in crypto && HasRate(crypto[from], ToLower(to)))
      && (c.Converted? ==> c.rate == crypto[from][ToLower(to)]
                           && c.converted == amount * c.rate && c.amountPlaces == 2)
      && (c.Unavailable? && from !in crypto ==> c.message == CryptoUnavailable)
      && (c.Unavailable? && from in crypto ==> c.message == ConversionToUnavailable(to))
  {
  }

  lemma ResolveFiatToCrypto(from: string, to: string, amount: real,
                            fiat: FiatTable, crypto: CryptoTable)
    requires Classify(from, to) == FiatToCrypto
    ensures var c := Resolve(from, to, amount, fiat, crypto);
      && (c.Converted? <==> to in crypto && HasRate(crypto[to], ToLower(from)))
      && (c.Converted? ==> c.rate == 1.0 / crypto[to][ToLower(from)]
                           && c.converted == amount * c.rate && c.amountPlaces == 8)
      && (c.Unavailable? && to !in crypto ==> c.message == CryptoUnavailable)
      && (c.Unavailable? && to in crypto ==> c.message == ConversionFromUnavailable(from))
  {
  }

  lemma ResolveFiatToFiat(from: string, to: string, amount: real,
                          fiat: FiatTable, crypto: CryptoTable)
    requires Classify(from, to) == FiatToFiat
    ensures var c := Resolve(from, to, amount, fiat, crypto);
      && (c.Converted? <==> HasRate(fiat, to))
      && (c.Converted? ==> c.rate == fiat[to] && c.converted == amount * fiat[to]
                           && c.amountPlaces == 2)
      && (c.Unavailable? ==> c.message == ExchangeRateUnavailable)
  {
  }

  // ---------------------------------------------------------------------------
  // Which table each case reads.

  /** A pair of two fiat codes never consults the crypto table. */
  lemma FiatPairIgnoresCryptoTable(from: string, to: string, amount: real, fiat: FiatTable,
                                   crypto: CryptoTable, crypto': CryptoTable)
    requires !IsCrypto(from) && !IsCrypto(to)
    ensures Resolve(from, to, amount, fiat, crypto) == Resolve(from, to, amount, fiat, crypto')
  {
  }

  /** A pair with a crypto side never consults the fiat table. */
  lemma CryptoPairIgnoresFiatTable(from: string, to: string, amount: real, fiat: FiatTable,
                                   fiat': FiatTable, crypto: CryptoTable)
    requires IsCrypto(from) || IsCrypto(to)
    ensures Resolve(from, to, amount, fiat, crypto) == Resolve(from, to, amount, fiat', crypto)
  {
  }

  /** The fiat table is read without regard to the source code: two fiat sources
      converting to the same fiat target get the same result from the same
      table, even though the table only holds rates for the base it was fetched
      for. The refresh guard does not check the base either (see
      Refresh.FiatGuardIgnoresSource), so nothing keeps the two in step. */
  lemma FiatRateIgnoresSource(from: string, from': string, to: string, amount: real,
                              fiat: FiatTable, crypto: CryptoTable)
    requires !IsCrypto(from) && !IsCrypto(from') && !IsCrypto(to)
    requires from != to && from' != to
    ensures Resolve(from, to, amount, fiat, crypto) == Resolve(from', to, amount, fiat, crypto)
  {
  }

  // ---------------------------------------------------------------------------
  // Round trips through the crypto table.

  /** Fiat to crypto and back through the same crypto table: one direction is
      available exactly when the other is, and converting the result back gives
      the original amount. */
  lemma FiatCryptoRoundTrip(fiatCode: string, symbol: string, amount: real,
                                               fiat: FiatTable, crypto: CryptoTable)
    requires !IsCrypto(fiatCode) && IsCrypto(symbol)
    ensures Resolve(fiatCode, symbol, amount, fiat, crypto).Converted?
        <==> Resolve(symbol, fiatCode, amount, fiat, crypto).Converted?
    ensures var there := Resolve(fiatCode, symbol, amount, fiat, crypto);
      there.Converted? ==>
        Resolve(symbol, fiatCode, there.converted, fiat, crypto).converted == amount
  {
    var there := Resolve(fiatCode, symbol, amount, fiat, crypto);
    if there.Converted? {
      var price := crypto[symbol][ToLower(fiatCode)];
      var back := Resolve(symbol, fiatCode, there.converted, fiat, crypto);
      assert there.rate * price == 1.0;
      assert back.rate == price;
      assert back.converted == amount * (there.rate * price);
    }
  }

  /** Crypto to crypto and back: availability is symmetric and the back
      conversion returns the original amount. */
  lemma CryptoCryptoRoundTrip(from: string, to: string, amount: real,
                                                 fiat: FiatTable, crypto: CryptoTable)
    requires IsCrypto(from) && IsCrypto(to) && from != to
    ensures Resolve(from, to, amount, fiat, crypto).Converted?
        <==> Resolve(to, from, amount, fiat, crypto).Converted?
    ensures var there := Resolve(from, to, amount, fiat, crypto);
      there.Converted? ==>
        Resolve(to, from, there.converted, fiat, crypto).converted == amount
  {
    var there := Resolve(from, to, amount, fiat, crypto);
    if there.Converted? {
      var x, y := crypto[from][UsdKey], crypto[to][UsdKey];
      var back := Resolve(to, from, there.converted, fiat, crypto);
      assert there.rate * y == x;
      assert back.rate * x == y;
      assert back.converted * x == amount * x by {
        calc {
          back.converted * x;
          amount * there.rate * (back.rate * x);
          amount * (there.rate * y);
        }
      }
    }
  }

  /** Crypto cross rates compose: going through a third symbol gives the direct rate. */
  lemma CryptoCrossRatesCompose(a: string, b: string, c: string,
                                                   fiat: FiatTable, crypto: CryptoTable)
    requires IsCrypto(a) && IsCrypto(b) && IsCrypto(c)
    requires a != b && b != c && a != c
    requires Resolve(a, b, 1.0, fiat, crypto).Converted?
    requires Resolve(b, c, 1.0, fiat, crypto).Converted?
    ensures Resolve(a, c, 1.0, fiat, crypto).Converted?
    ensures Resolve(a, b, 1.0, fiat, crypto).rate * Resolve(b, c, 1.0, fiat, crypto).rate
         == Resolve(a, c, 1.0, fiat, crypto).rate
  {
    var ab, bc, ac := Resolve(a, b, 1.0, fiat, crypto), Resolve(b, c, 1.0, fiat, crypto),
                      Resolve(a, c, 1.0, fiat, crypto);
    var pa, pb, pc := crypto[a][UsdKey], crypto[b][UsdKey], crypto[c][UsdKey];
    assert ab.rate * pb == pa && bc.rate * pc == pb && ac.rate * pc == pa;
    assert ab.rate * bc.rate * pc == ac.rate * pc;
  }

  // ---------------------------------------------------------------------------
  // The rate preview of the target-selection handler.

  /** With no amount entered, changing the target shows `1 {from} = {rate} {to}`
      to 4 decimals when the fiat table holds a non-zero rate for the target and
      the codes differ; otherwise the rate text is left as it was. The fiat table
      is read even when a side is a crypto symbol. */
  function RatePreview(from: string, to: string, fiat: FiatTable): (r: Option<(real, nat)>)
    ensures r.Some? <==> HasRate(fiat, to) && from != to
    ensures r.Some? ==> r.value == (fiat[to], 4)
  {
    if HasRate(fiat, to) && from != to then Some((fiat[to], 4)) else None
  }

  /** For a fiat pair the preview shows exactly when a conversion would succeed,
      and at the same rate. */
  lemma RatePreviewMatchesFiatConversion(from: string, to: string, amount: real,
                                         fiat: FiatTable, crypto: CryptoTable)
    requires !IsCrypto(from) && !IsCrypto(to) && from != to
    ensures RatePreview(from, to, fiat).Some? <==> Resolve(from, to, amount, fiat, crypto).Converted?
    ensures RatePreview(from, to, fiat).Some? ==>
      RatePreview(from, to, fiat).value.0 == Resolve(from, to, amount, fiat, crypto).rate
  {
  }

  // ---------------------------------------------------------------------------
  // The crypto-to-crypto branch as written: it checks that both symbols are in
  // the table but not that their `usd` prices are, and divides unguarded.

  /** The JavaScript numbers the unguarded division can produce. */
  datatype JsNumber = Finite(value: real) | NaN | Infinity

  /** `a / b` on numbers that may be `undefined` (None): an undefined operand or
      0/0 gives NaN, a non-zero number over 0 an infinity (its sign is not kept). */
  function JsDivide(a: Option<real>, b: Option<real>): (q: JsNumber)
    ensures q.Finite? <==> a.Some? && b.Some? && b.value != 0.0
    ensures q.Finite? ==> q.value * b.value == a.value
  {
    if a.None? || b.None? then NaN
    else if b.value == 0.0 then (if a.value == 0.0 then NaN else Infinity)
    else Finite(a.value / b.value)
  }

  /** The property access `entry.usd`: undefined when the key is missing. */
  function UsdPrice(entry: map<string, real>): (p: Option<real>)
    ensures p.Some? <==> UsdKey in entry
    ensures p.Some? ==> p.value == entry[UsdKey]
  {
    if UsdKey in entry then Some(entry[UsdKey]) else None
  }

  /** The crypto-to-crypto branch of script.js:111-119 as written: None is the
      'Crypto rate not available' error, otherwise the (possibly NaN or
      infinite) rate it goes on to display. */
  function CryptoToCryptoAsWritten(crypto: CryptoTable, from: string, to: string)
    : (r: Option<JsNumber>)
    ensures r.None? <==> from !in crypto || to !in crypto
  {
    if from in crypto && to in crypto then
      Some(JsDivide(UsdPrice(crypto[from]), UsdPrice(crypto[to])))
    else None
  }

  /** A source symbol whose entry lacks `usd` passes the guard and yields NaN;
      the corrected branch reports the rate as not available. */
  lemma AsWrittenMissingUsdGivesNaN()
    ensures var crypto := map["BTC" := map["eur" := 46000.0], "ETH" := map["usd" := 2500.0]];
      && CryptoToCryptoAsWritten(crypto, "BTC", "ETH") == Some(NaN)
      && CryptoToCryptoRate(crypto, "BTC", "ETH") == Missing(CryptoUnavailable)
  {
  }

  /** A target symbol priced at 0 passes the guard and yields an infinite rate. */
  lemma AsWrittenZeroUsdGivesInfinity()
    ensures var crypto := map["BTC" := map["usd" := 50000.0], "ETH" := map["usd" := 0.0]];
      && CryptoToCryptoAsWritten(crypto, "BTC", "ETH") == Some(Infinity)
      && CryptoToCryptoRate(crypto, "BTC", "ETH") == Missing(CryptoUnavailable)
  {
  }

  /** The corrected branch agrees with the code as written wherever the code
      yields a finite non-zero rate, and fails exactly where the code fails or
      yields NaN, an infinity or a zero rate. */
  lemma CorrectedCryptoRateAgrees(crypto: CryptoTable, from: string, to: string)
    ensures var l := CryptoToCryptoRate(crypto, from, to);
      l.Found? <==> (exists q :: CryptoToCryptoAsWritten(crypto, from, to) == Some(Finite(q)) && q != 0.0)
    ensures var l := CryptoToCryptoRate(crypto, from, to);
      l.Found? ==> CryptoToCryptoAsWritten(crypto, from, to) == Some(Finite(l.rate))
  {
  }

  /** Where the source symbol is priced at 0 usd the code as written converts at
      rate 0; the corrected branch treats that price as unavailable, as the
      other branches treat a zero price. */
  lemma AsWrittenZeroSourceGivesZeroRate()
    ensures var crypto := map["BTC" := map["usd" := 0.0], "ETH" := map["usd" := 2500.0]];
      && CryptoToCryptoAsWritten(crypto, "BTC", "ETH") == Some(Finite(0.0))
      && CryptoToCryptoRate(crypto, "BTC", "ETH") == Missing(CryptoUnavailable)
  {
  }

  // ---------------------------------------------------------------------------
  // Worked examples.

  lemma ExampleBitcoinToEther()
    ensures var crypto := map["BTC" := map["usd" := 50000.0], "ETH" := map["usd" := 2500.0]];
      Resolve("BTC", "ETH", 2.0, map[], crypto) == Converted(20.0, 40.0, 8, PerUnit(8))
  {
  }

  lemma ExampleBitcoinToYen()
    ensures var crypto := map["BTC" := map["usd" := 50000.0, "eur" := 46000.0]];
      Resolve("BTC", "JPY", 1.0, map[], crypto) == Unavailable(ConversionToUnavailable("JPY"))
  {
  }
}
