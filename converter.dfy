/** The widget's orchestration: the selected pair and amount fields, the
    sequencing of amount check, fetches and resolution in `convertCurrency`
    (script.js:240-280), and `swapCurrencies` (script.js:282-303). */
module Converter {
  import opened Wrappers
  import opened Currencies
  import opened Refresh
  import opened Resolver
  import opened Store

  // Long messages are written as two literals so that the verifier sees their characters.
  const FetchFailedMessage: string := "Failed to fetch exchange rates. " + "Please try again."

  /** How a conversion request ends: the amount is rejected, the fiat fetch
      throws, or the resolver runs on the (possibly refreshed) store. */
  datatype ConvertOutcome = InvalidAmount | FetchFailed | Resolved(conversion: Conversion)

  /** The message shown for an outcome, when there is one. */
  function OutcomeMessage(outcome: ConvertOutcome): (m: Option<string>)
    ensures m.None? <==> outcome.Resolved? && outcome.conversion.Converted?
  {
    match outcome
    case InvalidAmount => Some(InvalidAmountMessage)
    case FetchFailed => Some(FetchFailedMessage)
    case Resolved(Unavailable(message)) => Some(message)
    case Resolved(Converted(_, _, _, _)) => None
  }

  /** The amount message, the fetch-failure message and every message the
      resolver can produce are pairwise distinct, so the user can tell the
      outcomes apart. */
  lemma MessagesDistinct(code: string, code': string)
    ensures InvalidAmountMessage != FetchFailedMessage
    ensures InvalidAmountMessage != CryptoUnavailable
    ensures InvalidAmountMessage != ExchangeRateUnavailable
    ensures InvalidAmountMessage != ConversionToUnavailable(code)
    ensures InvalidAmountMessage != ConversionFromUnavailable(code')
    ensures FetchFailedMessage != CryptoUnavailable
    ensures FetchFailedMessage != ExchangeRateUnavailable
    ensures FetchFailedMessage != ConversionToUnavailable(code)
    ensures FetchFailedMessage != ConversionFromUnavailable(code')
    ensures CryptoUnavailable != ExchangeRateUnavailable
    ensures CryptoUnavailable != ConversionToUnavailable(code)
    ensures CryptoUnavailable != ConversionFromUnavailable(code')
    ensures ExchangeRateUnavailable != ConversionToUnavailable(code)
    ensures ExchangeRateUnavailable != ConversionFromUnavailable(code')
    ensures ConversionToUnavailable(code) != ConversionFromUnavailable(code')
  {
    // The first two characters tell all but the last two apart; those differ at index 11.
    var invalid, failed, crypto, exchange := InvalidAmountMessage, FetchFailedMessage,
                                             CryptoUnavailable, ExchangeRateUnavailable;
    var convTo, convFrom := ConversionToUnavailable(code), ConversionFromUnavailable(code');
    assert invalid[0] == 'P';
    assert failed[0] == 'F';
    assert exchange[0] == 'E';
    assert crypto[0] == 'C' && crypto[1] == 'r';
    assert convTo[0] == 'C' && convTo[1] == 'o' && convTo[11] == 't';
    assert convFrom[0] == 'C' && convFrom[1] == 'o' && convFrom[11] == 'f';
  }

  /** Every message the resolver can produce is one of its four kinds. */
  lemma ResolverMessages(from: string, to: string, amount: real,
                         fiat: FiatTable, crypto: CryptoTable)
    ensures var c := Resolve(from, to, amount, fiat, crypto);
      c.Unavailable? ==>
        || c.message == CryptoUnavailable
        || c.message == ExchangeRateUnavailable
        || c.message == ConversionToUnavailable(to)
        || c.message == ConversionFromUnavailable(from)
  {
  }

  /** A resolved conversion never shows the amount or fetch-failure message. */
  lemma ResolvedShowsOnlyResolverMessages(from: string, to: string, amount: real,
                                          fiat: FiatTable, crypto: CryptoTable)
    ensures var m := OutcomeMessage(Resolved(Resolve(from, to, amount, fiat, crypto)));
      m != Some(InvalidAmountMessage) && m != Some(FetchFailedMessage)
  {
    ResolverMessages(from, to, amount, fiat, crypto);
    MessagesDistinct(to, from);
  }

  class CurrencyConverter {
    /** The rate snapshot this converter owns. */
    const store: RateStore
    /** The values of the source and target selects. */
    var fromCurrency: string
    var toCurrency: string
    /** The texts of the amount input and the result field. */
    var fromAmount: string
    var toAmount: string

    /** A converter with an empty store and the page's initial selection. */
    constructor (from: string, to: string)
      ensures fresh(store)
      ensures store.exchangeRates == map[] && store.cryptoRates == map[]
      ensures store.lastUpdate == None
      ensures fromCurrency == from && toCurrency == to
      ensures fromAmount == "" && toAmount == ""
    {
      store := new RateStore();
      fromCurrency, toCurrency := from, to;
      fromAmount, toAmount := "", "";
    }

    /** `convertCurrency`. `amount` is what `parseFloat` reads from the amount
        field; `cryptoReply` and `fiatReply` are what the providers would answer,
        used only when the guard fetches; `now` is the clock before the fiat
        guard and `fetchedAt` the clock when the fiat response arrives. */
    method ConvertCurrency(amount: Option<real>, now: int, cryptoReply: CryptoResponse,
                           fiatReply: FiatResponse, fetchedAt: int)
        returns (outcome: ConvertOutcome)
      modifies store
      ensures !ValidAmount(amount) ==> outcome == InvalidAmount && unchanged(store)
      ensures ValidAmount(amount) ==>
        store.cryptoRates ==
          if !NeedsCryptoFetch(fromCurrency, toCurrency) then old(store.cryptoRates)
          else match cryptoReply
               case Prices(data) => CryptoTableFrom(data)
               case NullBody => map[]
               case NoPrices => old(store.cryptoRates)
      ensures ValidAmount(amount) ==>
        var fiatFetch :=
          NeedsFiatFetch(fromCurrency, toCurrency, old(store.exchangeRates), old(store.lastUpdate), now);
        && (store.exchangeRates, store.lastUpdate) ==
             (if fiatFetch && fiatReply.Rates? then (fiatReply.rates, Some(fetchedAt))
              else (old(store.exchangeRates), old(store.lastUpdate)))
        && outcome ==
             if fiatFetch && !fiatReply.Rates? then FetchFailed
             else Resolved(Resolve(fromCurrency, toCurrency, amount.value,
                                   store.exchangeRates, store.cryptoRates))
      ensures OutcomeMessage(outcome) == Some(InvalidAmountMessage) <==> !ValidAmount(amount)
      ensures OutcomeMessage(outcome) == Some(FetchFailedMessage) <==> outcome == FetchFailed
    {
      if !ValidAmount(amount) {
        return InvalidAmount;
      }
      if NeedsCryptoFetch(fromCurrency, toCurrency) {
        var _ := store.ApplyCryptoResponse(cryptoReply);
      }
      if NeedsFiatFetch(fromCurrency, toCurrency, store.exchangeRates, store.lastUpdate, now) {
        var fetched := store.ApplyFiatResponse(fiatReply, fetchedAt);
        if !fetched.Fetched? {
          return FetchFailed;
        }
      }
      outcome := Resolved(Resolve(fromCurrency, toCurrency, amount.value,
                                  store.exchangeRates, store.cryptoRates));
      ResolvedShowsOnlyResolverMessages(fromCurrency, toCurrency, amount.value,
                                        store.exchangeRates, store.cryptoRates);
    }

    /** `swapCurrencies`: swaps the two selections and the two amount texts, and
        asks for a new conversion exactly when the new amount text is non-empty.
        The rate store is not touched. */
    method SwapCurrencies() returns (reconvert: bool)
      modifies this
      ensures fromCurrency == old(toCurrency) && toCurrency == old(fromCurrency)
      ensures fromAmount == old(toAmount) && toAmount == old(fromAmount)
      ensures reconvert <==> fromAmount != ""
    {
      fromCurrency, toCurrency := toCurrency, fromCurrency;
      fromAmount, toAmount := toAmount, fromAmount;
      reconvert := fromAmount != "";
    }
  }

  /** Swapping twice restores the selection: the swap is its own inverse. */
  method SwapTwiceRestores(c: CurrencyConverter)
    modifies c
    ensures c.fromCurrency == old(c.fromCurrency) && c.toCurrency == old(c.toCurrency)
    ensures c.fromAmount == old(c.fromAmount) && c.toAmount == old(c.toAmount)
  {
    var _ := c.SwapCurrencies();
    var _ := c.SwapCurrencies();
  }

  /** The base of the cached fiat table is never checked: after a USD→JPY
      conversion fetched a USD-based table, switching the source to EUR within
      the 300000 ms window converts EUR at the USD-based rate, without a fetch
      (the EUR-based reply of 160 is never used). */
  method StaleBaseReused() returns (second: ConvertOutcome)
    ensures second == Resolved(Converted(150.0, 150.0, 2, PerUnit(8)))
  {
    var converter := new CurrencyConverter("USD", "JPY");
    assert !IsCrypto("USD") && !IsCrypto("JPY") && !IsCrypto("EUR");
    var first := converter.ConvertCurrency(Some(1.0), 0, NoPrices, Rates(map["JPY" := 150.0]), 0);
    converter.fromCurrency := "EUR";
    second := converter.ConvertCurrency(Some(1.0), 10000, NoPrices,
                                        Rates(map["JPY" := 160.0]), 10000);
  }
}
