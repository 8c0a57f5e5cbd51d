/** The amount check and the refetch guard of `convertCurrency`
    (script.js:240-266). Clock readings are integer milliseconds. */
module Refresh {
  import opened Wrappers
  import opened Currencies

  /** A cached fiat table is reused for at most this many milliseconds. */
  const StaleAfterMs: int := 300000

  const InvalidAmountMessage: string := "Please enter a valid amount"

  /** `!amount || amount <= 0` rejects the amount; None stands for the NaN that
      `parseFloat` returns for text that is not a number. */
  predicate ValidAmount(amount: Option<real>): (r: bool)
    ensures amount.None? ==> !r
    ensures amount.Some? ==> (r <==> amount.value > 0.0)
  {
    amount.Some? && amount.value > 0.0
  }

  /** The crypto table is fetched again on every conversion that involves a
      crypto symbol on either side. */
  predicate NeedsCryptoFetch(from: string, to: string): (r: bool)
    ensures from != to ==> (r <==> Classify(from, to) != FiatToFiat)
    ensures from == to ==> (r <==> IsCrypto(from))
  {
    IsCrypto(from) || IsCrypto(to)
  }

  /** The fiat table is fetched again, for the source as base, when the source is
      fiat and the table has no non-zero rate for the target, has never been
      fetched, or was fetched more than StaleAfterMs milliseconds before `now`. */
  predicate NeedsFiatFetch(from: string, to: string, fiat: FiatTable,
                           lastUpdate: Option<int>, now: int): (r: bool)
    ensures IsCrypto(from) ==> !r
    ensures !IsCrypto(from) && (!HasRate(fiat, to) || lastUpdate.None?) ==> r
    ensures !IsCrypto(from) && HasRate(fiat, to) && lastUpdate.Some? ==>
              (r <==> now > lastUpdate.value + StaleAfterMs)
  {
    && !IsCrypto(from)
    && (|| !HasRate(fiat, to)
        || lastUpdate.None?
        || now - lastUpdate.value > StaleAfterMs)
  }

  /** Zero, negative and unparsable amounts are rejected; every positive amount passes. */
  lemma ValidAmountCases(x: real)
    ensures !ValidAmount(None)
    ensures ValidAmount(Some(x)) <==> x > 0.0
  {
  }

  /** The guard never looks at which base the cached fiat table was fetched
      for: two fiat sources get the same decision from the same table. After a
      change of fiat source inside the window, the table fetched for the old
      source is reused. */
  lemma FiatGuardIgnoresSource(from: string, from': string, to: string, fiat: FiatTable,
                               lastUpdate: Option<int>, now: int)
    requires !IsCrypto(from) && !IsCrypto(from')
    ensures NeedsFiatFetch(from, to, fiat, lastUpdate, now)
         == NeedsFiatFetch(from', to, fiat, lastUpdate, now)
  {
  }

  /** A crypto source never triggers a fiat fetch, whatever the state of the
      fiat table or the clock. */
  lemma CryptoSourceNeverFetchesFiat(from: string, to: string, fiat: FiatTable,
                                     lastUpdate: Option<int>, now: int)
    requires IsCrypto(from)
    ensures NeedsCryptoFetch(from, to)
    ensures !NeedsFiatFetch(from, to, fiat, lastUpdate, now)
  {
  }

  /** A fiat pair never triggers a crypto fetch. */
  lemma FiatPairNeverFetchesCrypto(from: string, to: string)
    requires !IsCrypto(from) && !IsCrypto(to)
    ensures !NeedsCryptoFetch(from, to)
  {
  }

  /** Staleness only grows with time: a table that needs refetching at `now`
      still needs it at any later moment. */
  lemma StalenessPersists(from: string, to: string, fiat: FiatTable,
                          lastUpdate: Option<int>, now: int, later: int)
    requires now <= later
    requires NeedsFiatFetch(from, to, fiat, lastUpdate, now)
    ensures NeedsFiatFetch(from, to, fiat, lastUpdate, later)
  {
  }

  /** After a fetch at `fetchedAt` that returned a non-zero rate for the target,
      a fiat source does not refetch up to and including StaleAfterMs
      milliseconds later, and does refetch from the next millisecond on. */
  lemma FreshWindow(from: string, to: string, rates: FiatTable, fetchedAt: int, now: int)
    requires !IsCrypto(from) && HasRate(rates, to)
    ensures NeedsFiatFetch(from, to, rates, Some(fetchedAt), now)
        <==> now > fetchedAt + StaleAfterMs
  {
  }

  /** The examples: never fetched means fetch; 100 s after a fetch that holds
      the target means no fetch; more than 300 s means fetch. */
  lemma RefreshExamples(from: string, to: string, rates: FiatTable, t: int)
    requires !IsCrypto(from) && HasRate(rates, to)
    ensures NeedsFiatFetch(from, to, rates, None, t)
    ensures !NeedsFiatFetch(from, to, rates, Some(t), t + 100000)
    ensures NeedsFiatFetch(from, to, rates, Some(t), t + 300001)
  {
  }
}
