# Currency converter: rate resolution and rate-cache policy

A Dafny model of the core of the `CurrencyConverter` widget in `script.js`.
The widget converts an amount between two currencies, each fiat (`USD`, `EUR`, ...)
or one of ten crypto symbols (`BTC`, `ETH`, ...). It keeps two in-memory rate tables:

- a fiat table, holding rates relative to the base the table was fetched for;
- a crypto table, holding each symbol's prices keyed by lower-case fiat code.

Before each conversion it decides whether to fetch either table again.

The model has five modules:

- `Currencies` (currencies.dfy): the fixed crypto symbol list and its membership test, the
  symbol-to-provider-id table, lower-casing of fiat codes, JavaScript truthiness of a table
  lookup (`HasRate`: present and not 0), and the five-way classification of a pair.
- `Resolver` (resolver.dfy): `performConversion` as the pure function `Resolve`. It returns
  either `Converted(rate, converted, amountPlaces, rateText)` or `Unavailable(message)`.
  It has one lookup function per pair case, lemmas stating which table each case reads,
  round trips through the crypto table, the rate preview of the target-select handler,
  and the crypto-to-crypto branch as written (see Findings).
- `Refresh` (refresh.dfy): the amount check and the refetch guard of `convertCurrency`.
  Clock readings are integer milliseconds.
- `Store` (store.dfy): the class `RateStore` with the fields `exchangeRates`, `cryptoRates`
  and `lastUpdate`. Its two methods apply an already-parsed provider response the way
  `fetchExchangeRates` and `fetchCryptoRates` do. The crypto table is rebuilt in a loop
  proved against the function `Rebuild`.
- `Converter` (converter.dfy): the class `CurrencyConverter`, which owns a `RateStore`
  and the selected pair and amount texts. `ConvertCurrency` sequences the amount check,
  the fetches and the resolution. `SwapCurrencies` swaps the selection.

Network replies, `Date.now()` and `new Date()` are parameters of the methods:
`now` is the clock reading for the staleness test, and `fetchedAt` is the one recorded as
`lastUpdate`. Rates and amounts are `real`. Only the number of decimals chosen for display
is modelled, not the rounding itself.

In three places the code behaves differently from what one might expect, and the model
follows the code:

- The rate text is always shown to 8 decimals (script.js:172), also for fiat pairs.
  Only the target-select preview (script.js:60) uses 4.
- A stored rate of 0 counts as unavailable in the crypto→fiat, fiat→crypto and fiat→fiat
  branches, and in the refresh guard. These lookups use JavaScript truthiness.
- A crypto fetch that fails before the reply is read leaves the previous crypto table in place;
  it does not empty it. An OK reply whose body is `null` is different: the table has already been
  reset to empty (script.js:222) when the loop throws, so the table stays empty.

Changing the fiat source inside the 300000 ms window reuses the table fetched for the previous
source. The refresh guard (script.js:260-263) looks at the target, the fetch time and the clock,
never at the table's base. The fiat lookup at script.js:152 does not look at the base either.
So after USD→JPY, an EUR→JPY conversion within the window converts EUR at the USD-based rate.
The model keeps this behaviour: see `Refresh.FiatGuardIgnoresSource`,
`Resolver.FiatRateIgnoresSource` and `Converter.StaleBaseReused`.

In one place the model departs from the code. The crypto→crypto branch as written does not check
the `usd` prices (see Findings); `CryptoToCryptoAsWritten` models that behaviour. `Resolve`, and
through it `ConvertCurrency`, use the corrected branch `CryptoToCryptoRate` instead. A missing or
zero `usd` price on either side makes that branch report 'Crypto rate not available'. As written,
the code shows a NaN or infinite rate in those cases, or a rate of 0 when only the source's price
is 0.

## Model

| member | source | states |
|---|---|---|
| Currencies.CryptoIdsMatchCurrencies | script.js:197-208 | the provider-id table lists the same ten symbols as the crypto list, in the same order, none twice |
| Currencies.IsCrypto | script.js:236-238 | a code is crypto iff it is one of the symbols of the provider-id table, i.e. of the fixed list at script.js:9 |
| Currencies.HasRate | script.js:126 | truthiness of a rate lookup (also the tests at lines 140, 152 and 261): a missing key is falsy, and a present key is truthy iff its rate is not 0 |
| Currencies.LowerChar | script.js:124 | capital ASCII letters map to their lower-case letter, every other character is kept |
| Currencies.ToLower | script.js:138 | same length, every character lower-cased, no capital letter left |
| Currencies.Classify | script.js:100-151 | equal codes are the same-code case; otherwise the source's and target's crypto membership decide among the four pair cases (each direction an iff) |
| Resolver.CryptoToCryptoRate | script.js:111-119 | found iff both symbols are present with non-zero usd prices; then rate times target price equals source price; otherwise 'Crypto rate not available' |
| Resolver.CryptoToFiatRate | script.js:122-134 | found iff the source symbol is present with a non-zero price under the lower-cased target; the rate is that price; otherwise the 'Crypto rate not available' or 'Conversion to {to} not available' message |
| Resolver.FiatToCryptoRate | script.js:136-149 | found iff the target symbol has a non-zero price under the lower-cased source; rate times that price is 1; otherwise the 'Crypto rate not available' or 'Conversion from {from} not available' message |
| Resolver.FiatToFiatRate | script.js:151-158 | found iff the fiat table holds a non-zero rate for the target, and the rate is that entry; otherwise 'Exchange rate not available for selected currency' |
| Resolver.PairRate | script.js:106-158 | dispatches on the pair's classification; every rate found is non-zero, and every failure carries one of the four resolver messages |
| Resolver.Resolve | script.js:95-174 | equal codes give the amount at rate 1, 2 decimals and the text 1.0000; every success has converted = amount × rate, 8 decimals for a crypto target and 2 otherwise, and an 8-decimal rate text; the crypto→crypto case uses the corrected branch (see Findings) |
| Resolver.ResolveSameCode | script.js:100-104 | equal codes convert at rate 1 to 2 decimals whatever the tables hold |
| Resolver.ResolveCryptoToCrypto | script.js:111-119 | crypto→crypto succeeds iff both usd prices are available; the rate is their quotient; otherwise 'Crypto rate not available' |
| Resolver.ResolveCryptoToFiat | script.js:122-134 | crypto→fiat: the rate is the source's price in the lower-cased target; the failure message is chosen by which lookup missed |
| Resolver.ResolveFiatToCrypto | script.js:136-149 | fiat→crypto: the rate is the reciprocal of the target's price in the lower-cased source; the failure message is chosen by which lookup missed |
| Resolver.ResolveFiatToFiat | script.js:151-170 | fiat→fiat: succeeds iff the target has a non-zero fiat rate; converted = amount × that rate, 2 decimals |
| Resolver.FiatPairIgnoresCryptoTable | script.js:151-158 | a fiat pair's result does not depend on the crypto table |
| Resolver.CryptoPairIgnoresFiatTable | script.js:110-149 | a pair with a crypto side gets a result that does not depend on the fiat table |
| Resolver.FiatRateIgnoresSource | script.js:152-153 | two fiat sources converting to the same fiat target get the same result from one table (the table's base is not checked) |
| Resolver.FiatCryptoRoundTrip | script.js:122-149 | fiat→crypto is available iff crypto→fiat is, and converting the result back gives the original amount |
| Resolver.CryptoCryptoRoundTrip | script.js:111-115 | crypto→crypto availability is symmetric, and the back conversion returns the original amount |
| Resolver.CryptoCrossRatesCompose | script.js:111-115 | the rate from a to b times the rate from b to c is the rate from a to c |
| Resolver.RatePreview | script.js:56-61 | the preview is shown iff the fiat table has a non-zero rate for the target and the codes differ, with that rate to 4 decimals |
| Resolver.RatePreviewMatchesFiatConversion | script.js:56-61 | for a fiat pair of distinct codes, the preview is shown iff the conversion succeeds, and at the conversion's rate |
| Resolver.JsDivide | script.js:115 | the quotient is finite iff both operands are defined and the divisor is non-zero, and then quotient × divisor = dividend |
| Resolver.UsdPrice | script.js:113-114 | the usd price is defined iff the entry has the usd key, and then it is that entry |
| Resolver.CryptoToCryptoAsWritten | script.js:111-119 | as written, the branch fails iff a symbol is missing from the table |
| Resolver.AsWrittenMissingUsdGivesNaN | script.js:112-115 | a source entry without usd passes the guard and yields NaN; the corrected branch reports the rate as unavailable |
| Resolver.AsWrittenZeroUsdGivesInfinity | script.js:112-115 | a target priced at 0 usd passes the guard and yields an infinite rate; the corrected branch reports the rate as unavailable |
| Resolver.AsWrittenZeroSourceGivesZeroRate | script.js:112-115 | a source priced at 0 usd converts at rate 0 as written; the corrected branch reports the rate as unavailable |
| Resolver.CorrectedCryptoRateAgrees | script.js:111-119 | the corrected branch succeeds iff the code as written yields a finite non-zero rate, and then with the same rate |
| Resolver.ExampleBitcoinToEther | script.js:111-115 | BTC at 50000 usd and ETH at 2500 usd: 2 BTC is 40 ETH at rate 20, shown to 8 decimals |
| Resolver.ExampleBitcoinToYen | script.js:122-129 | BTC priced in usd and eur only: BTC→JPY gives 'Conversion to JPY not available' |
| Refresh.ValidAmount | script.js:243 | NaN is rejected, and a number is accepted iff it is positive |
| Refresh.NeedsCryptoFetch | script.js:256 | for distinct codes, the crypto table is fetched iff the pair is not fiat→fiat; for equal codes, iff the code is crypto |
| Refresh.NeedsFiatFetch | script.js:260-263 | never for a crypto source; always for a fiat source when the target's rate is missing or 0 or nothing was fetched yet; otherwise iff now exceeds the fetch time by more than 300000 ms |
| Refresh.FiatGuardIgnoresSource | script.js:260-263 | any two fiat sources get the same fetch decision from the same table and clock: the table's base is not checked |
| Refresh.ValidAmountCases | script.js:241-246 | a NaN amount is rejected, and a number passes iff it is positive |
| Refresh.CryptoSourceNeverFetchesFiat | script.js:252-266 | a crypto source always fetches crypto rates and never fiat rates |
| Refresh.FiatPairNeverFetchesCrypto | script.js:256-258 | a fiat pair never fetches crypto rates |
| Refresh.StalenessPersists | script.js:260-263 | a fiat table that needs refetching at one moment still needs it at every later moment |
| Refresh.FreshWindow | script.js:260-265 | after a fetch that holds the target, a fiat source refetches iff more than 300000 ms have elapsed |
| Refresh.RefreshExamples | script.js:260-265 | refetch when never fetched; no refetch 100 s after a fetch holding the target; refetch after 300.001 s |
| Store.Rebuild | script.js:222-227 | every symbol in the rebuilt table is listed in the id table with an id that is in the body |
| Store.CryptoTableFrom | script.js:197-227 | the rebuilt crypto table holds only crypto symbols |
| Store.RebuildContents | script.js:222-227 | with distinct symbols, the rebuilt table's keys are exactly the symbols whose id is in the body, each mapped to the body's entry |
| Store.CryptoTableFromContents | script.js:197-227 | the rebuilt crypto table holds only crypto symbols, holds a symbol iff its provider id is in the body, and maps it to that entry |
| Store.RateStore.constructor | script.js:6-8 | both tables start empty, and there is no fetch time |
| Store.RateStore.ApplyFiatResponse | script.js:176-193 | a body replaces the fiat table wholesale and sets the fetch time; a non-OK status or network failure is reported and changes nothing; the crypto table is never touched |
| Store.RateStore.ApplyCryptoResponse | script.js:195-233 | a body rebuilds the crypto table by the loop (equal to CryptoTableFrom) and is returned; a null body leaves the table empty and returns null; any other failure returns null and changes nothing; the fiat table and fetch time are never touched |
| Converter.OutcomeMessage | script.js:243-272 | a message is shown for every outcome except a successful conversion |
| Converter.MessagesDistinct | script.js:117-272 | the amount message, the fetch-failure message and the four kinds of resolver message are pairwise distinct, for any currency codes |
| Converter.ResolverMessages | script.js:117-155 | every failed resolution carries one of the four resolver messages |
| Converter.ResolvedShowsOnlyResolverMessages | script.js:243-272 | a resolved conversion never shows the amount message or the fetch-failure message |
| Converter.StaleBaseReused | script.js:240-268 | USD→JPY at time 0 fetches a table with JPY at 150; EUR→JPY at 10000 ms then converts at 150 and does not fetch again |
| Converter.CurrencyConverter.constructor | script.js:3-18 | a fresh, empty rate store and the initial selection |
| Converter.CurrencyConverter.ConvertCurrency | script.js:240-280 | an invalid amount changes nothing; otherwise the crypto table is refetched iff a side is crypto (left empty by a null body), the fiat table iff the refresh guard holds, a fiat failure ends in the fetch-failed message, and otherwise the result is Resolve on the updated tables; the amount message is shown iff the amount is invalid, and the fetch-failure message iff the fiat fetch failed |
| Converter.CurrencyConverter.SwapCurrencies | script.js:282-296 | the selections and amount texts are swapped, and a reconversion is asked for iff the new amount text is non-empty |
| Converter.SwapTwiceRestores | script.js:282-291 | swapping twice restores the selection and the amount texts |

## Findings

| source | as written | input that shows it | evidently intended | confidence | as-written member | corrected member |
|---|---|---|---|---|---|---|
| script.js:111-119 | crypto→crypto checks only that both symbols are in the crypto table, then divides `.usd` by `.usd` | crypto table `{BTC: {eur: 46000}, ETH: {usd: 2500}}`, BTC→ETH gives rate NaN; `{BTC: {usd: 50000}, ETH: {usd: 0}}` gives an infinite rate | a missing or zero usd price on either side is 'Crypto rate not available', as the other branches treat a missing or zero price; this also turns the code's rate of 0 for a source priced at 0 into 'not available' (Resolver.AsWrittenZeroSourceGivesZeroRate) | not executed | Resolver.CryptoToCryptoAsWritten | Resolver.CryptoToCryptoRate |

The same unguarded division occurs in the chart's base-rate selection (script.js:448-451),
which is not part of this model.

## Left out

- DOM element lookup, event listeners, CSS classes, the loading indicator, and the 5-second error auto-hide (script.js:20-81, 305-327). These are presentation.
- The input and target-change handlers that call `performConversion` without fetching (script.js:39-63). Only their rate preview (`RatePreview`) is modelled.
- The network calls, `response.json()` and the `Promise.all` of `loadInitialData` (script.js:83-93, 178-184, 211-219). These are I/O. The methods take the parsed reply as a parameter.
- Out-of-order arrival of replies (last writer wins) and selection changes while a fetch is pending. `ConvertCurrency` runs its steps as one sequence.
- Chart.js, `updateChart` and its random synthetic history (script.js:351-498). These are a foreign library plus `Math.random` and `Date`.
- `formatCurrency`, `toLocaleTimeString`, `updateLastUpdatedTime`, and the rounding of `toFixed`. Only the number of decimals is modelled. The text written to the result field and the rate label is not produced.
- Converter.CurrencyConverter.ConvertCurrency: does not write `toAmount`, while script.js:101 and 165-169 do. A `SwapCurrencies` after a conversion therefore moves, and tests for emptiness, a text that the code would have overwritten with the result.
- Converter.CurrencyConverter.ConvertCurrency: its `amount` parameter is not tied to the `fromAmount` text, because `parseFloat` is not modelled.
- `parseFloat`: the parsed amount is a parameter, and None stands for NaN. `Infinity` and NaN amounts inside `performConversion` are not modelled.
- Currencies.ToLower: does not model Unicode case mapping beyond ASCII letters, because currency codes are ASCII.
- JavaScript numbers are modelled as reals, so IEEE-754 rounding, overflow and `-Infinity` are not modelled. Only `JsDivide` distinguishes NaN and infinity.
- `fetchExchangeRates` stores `data.rates` whatever it is. A body without a `rates` object is not modelled.
- The crypto body's entries are modelled as price maps, which are always truthy. A body entry that is a falsy JSON value is not modelled.
- Store.RateStore.ApplyCryptoResponse: an OK body that parses to a number, string or boolean is not modelled. The code leaves the table empty for such a body and returns it, instead of returning null.
