/** The rate store: the fields `exchangeRates`, `cryptoRates` and `lastUpdate`
    and the updates `fetchExchangeRates` and `fetchCryptoRates` make to them
    once a response has arrived (script.js:176-233). */
module Store {
  import opened Wrappers
  import opened Currencies

  /** What the fiat provider answered: a parsed body's `rates`, a non-OK HTTP
      status, or no answer at all (the `fetch` promise rejected). */
  datatype FiatResponse = Rates(rates: FiatTable) | NotOk(status: int) | Unreachable

  /** What `fetchExchangeRates` ends with: it resolves with the new table, or
      throws the HTTP error or the network error upward. */
  datatype FiatFetch = Fetched(rates: FiatTable) | HttpError(status: int) | NetworkError

  /** What the crypto provider answered: a parsed body keyed by provider id; an
      OK response whose body parses to `null`, which makes the loop throw on its
      first lookup after the table has been reset; or a failure before the
      table is touched (network, non-OK status, unparsable body). */
  datatype CryptoResponse = Prices(data: map<string, map<string, real>>) | NullBody | NoPrices

  /** The crypto table the loop at script.js:222-227 builds from a response
      body after walking `ids` in order: each symbol whose provider id is in the
      body is mapped to that body entry. */
  function Rebuild(ids: seq<(string, string)>, data: map<string, map<string, real>>)
    : (table: CryptoTable)
    ensures forall symbol :: symbol in table ==>
              exists i :: 0 <= i < |ids| && ids[i].0 == symbol && ids[i].1 in data
  {
    if ids == [] then map[]
    else
      var table := Rebuild(ids[..|ids| - 1], data);
      var (symbol, id) := ids[|ids| - 1];
      if id in data then table[symbol := data[id]] else table
  }

  /** With no symbol listed twice, the rebuilt table holds exactly the symbols
      whose id the body has, each mapped to the body's entry for its id. */
  lemma {:induction false} RebuildContents(ids: seq<(string, string)>,
                                           data: map<string, map<string, real>>)
    requires forall i, j :: 0 <= i < j < |ids| ==> ids[i].0 != ids[j].0
    ensures forall symbol :: symbol in Rebuild(ids, data) <==>
              exists i :: 0 <= i < |ids| && ids[i].0 == symbol && ids[i].1 in data
    ensures forall i :: 0 <= i < |ids| && ids[i].1 in data ==>
              ids[i].0 in Rebuild(ids, data) && Rebuild(ids, data)[ids[i].0] == data[ids[i].1]
  {
    if ids != [] {
      var front := ids[..|ids| - 1];
      RebuildContents(front, data);
      forall symbol
        ensures symbol in Rebuild(ids, data) <==>
                exists i :: 0 <= i < |ids| && ids[i].0 == symbol && ids[i].1 in data
      {
        if symbol in Rebuild(ids, data) && symbol !in Rebuild(front, data) {
          assert ids[|ids| - 1].0 == symbol;
        }
        if exists i :: 0 <= i < |ids| && ids[i].0 == symbol && ids[i].1 in data {
          var i :| 0 <= i < |ids| && ids[i].0 == symbol && ids[i].1 in data;
          if i < |ids| - 1 { assert front[i] == ids[i]; }
        }
      }
      forall i | 0 <= i < |ids| && ids[i].1 in data
        ensures ids[i].0 in Rebuild(ids, data) && Rebuild(ids, data)[ids[i].0] == data[ids[i].1]
      {
        if i < |ids| - 1 { assert front[i] == ids[i]; }
      }
    }
  }

  /** The crypto table built from a response body, over the ten fixed ids. */
  function CryptoTableFrom(data: map<string, map<string, real>>): (table: CryptoTable)
    ensures forall symbol :: symbol in table ==> IsCrypto(symbol)
  {
    Rebuild(CryptoIds, data)
  }

  /** The rebuilt crypto table's keys are exactly the crypto symbols whose
      provider id the body has, and each maps to the body's entry. */
  lemma CryptoTableFromContents(data: map<string, map<string, real>>)
    ensures forall symbol :: symbol in CryptoTableFrom(data) ==> IsCrypto(symbol)
    ensures forall i :: 0 <= i < |CryptoIds| ==>
              (CryptoIds[i].0 in CryptoTableFrom(data) <==> CryptoIds[i].1 in data)
    ensures forall i :: 0 <= i < |CryptoIds| && CryptoIds[i].1 in data ==>
              CryptoTableFrom(data)[CryptoIds[i].0] == data[CryptoIds[i].1]
  {
    CryptoIdsMatchCurrencies();
    RebuildContents(CryptoIds, data);
    forall i | 0 <= i < |CryptoIds|
      ensures CryptoIds[i].0 in CryptoTableFrom(data) <==> CryptoIds[i].1 in data
    {
      if CryptoIds[i].0 in CryptoTableFrom(data) {
        var j :| 0 <= j < |CryptoIds| && CryptoIds[j].0 == CryptoIds[i].0 && CryptoIds[j].1 in data;
        assert i == j;
      }
    }
  }

  class RateStore {
    var exchangeRates: FiatTable
    var cryptoRates: CryptoTable
    var lastUpdate: Option<int>

    /** The store starts with two empty tables and no fetch time. */
    constructor ()
      ensures exchangeRates == map[] && cryptoRates == map[] && lastUpdate == None
    {
      exchangeRates := map[];
      cryptoRates := map[];
      lastUpdate := None;
    }

    /** `fetchExchangeRates` once the response is in: a body replaces the fiat
        table wholesale and records `fetchedAt` as the fetch time; a non-OK
        status or a network failure is thrown to the caller and nothing changes.
        The crypto table is never touched. */
    method ApplyFiatResponse(response: FiatResponse, fetchedAt: int) returns (outcome: FiatFetch)
      modifies this
      ensures cryptoRates == old(cryptoRates)
      ensures response.Rates? ==>
        && outcome == Fetched(response.rates)
        && exchangeRates == response.rates
        && lastUpdate == Some(fetchedAt)
      ensures response.NotOk? ==>
        outcome == HttpError(response.status) && unchanged(this)
      ensures response.Unreachable? ==>
        outcome == NetworkError && unchanged(this)
    {
      match response
      case NotOk(status) =>
        outcome := HttpError(status);
      case Unreachable =>
        outcome := NetworkError;
      case Rates(rates) =>
        exchangeRates := rates;
        lastUpdate := Some(fetchedAt);
        outcome := Fetched(rates);
    }

    /** `fetchCryptoRates` once the response is in: a body resets the crypto
        table and refills it symbol by symbol, then the body is returned. A
        `null` body resets the table and then throws, so the table is left empty.
        Any other failure happens before the reset and leaves the table as it
        was. Every failure is swallowed and null is returned. The fiat table and
        the fetch time are never touched. */
    method ApplyCryptoResponse(response: CryptoResponse)
        returns (body: Option<map<string, map<string, real>>>)
      modifies this
      ensures exchangeRates == old(exchangeRates) && lastUpdate == old(lastUpdate)
      ensures response.Prices? ==>
        body == Some(response.data) && cryptoRates == CryptoTableFrom(response.data)
      ensures response.NullBody? ==> body == None && cryptoRates == map[]
      ensures response.NoPrices? ==> body == None && unchanged(this)
    {
      match response
      case NoPrices =>
        body := None;
      case NullBody =>
        cryptoRates := map[];
        body := None;
      case Prices(data) =>
        cryptoRates := map[];
        var i := 0;
        while i < |CryptoIds|
          invariant 0 <= i <= |CryptoIds|
          invariant cryptoRates == Rebuild(CryptoIds[..i], data)
          invariant exchangeRates == old(exchangeRates) && lastUpdate == old(lastUpdate)
        {
          var (symbol, id) := CryptoIds[i];
          assert CryptoIds[..i + 1][..i] == CryptoIds[..i];
          if id in data {
            cryptoRates := cryptoRates[symbol := data[id]];
          }
          i := i + 1;
        }
        assert CryptoIds[..i] == CryptoIds;
        body := Some(data);
    }
  }
}
