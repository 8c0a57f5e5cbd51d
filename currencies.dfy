/** Currency codes, the fixed crypto symbol set, the provider ids and the shapes
    of the two rate tables of the converter (script.js). */
module Currencies {

  /** Fiat table: target code to units of that currency per one unit of the base
      currency the table was fetched for (`this.exchangeRates`). */
  type FiatTable = map<string, real>

  /** Crypto table: symbol to its prices keyed by lower-case fiat code
      (`this.cryptoRates`). */
  type CryptoTable = map<string, map<string, real>>

  /** The ten supported crypto symbols (`this.cryptoCurrencies`). */
  const CryptoCurrencies: seq<string> :=
    ["BTC", "ETH", "USDT", "BNB", "SOL", "XRP", "ADA", "DOGE", "TRX", "LTC"]

  /** Symbol to price-provider id, in the object literal's insertion order,
      which is the order `Object.entries` walks it in. */
  const CryptoIds: seq<(string, string)> :=
    [ ("BTC", "bitcoin"), ("ETH", "ethereum"), ("USDT", "tether"),
      ("BNB", "binancecoin"), ("SOL", "solana"), ("XRP", "ripple"),
      ("ADA", "cardano"), ("DOGE", "dogecoin"), ("TRX", "tron"),
      ("LTC", "litecoin") ]

  /** Classification is by membership in the fixed list, never by the rate data. */
  predicate IsCrypto(code: string): (r: bool)
    ensures r <==> exists i :: 0 <= i < |CryptoIds| && CryptoIds[i].0 == code
  {
    CryptoIdsMatchCurrencies();
    code in CryptoCurrencies
  }

  /** The two constant tables list the same symbols in the same order, and no
      symbol twice, so rebuilding the crypto table cannot overwrite an entry. */
  lemma CryptoIdsMatchCurrencies()
    ensures |CryptoIds| == |CryptoCurrencies|
    ensures forall i :: 0 <= i < |CryptoIds| ==> CryptoIds[i].0 == CryptoCurrencies[i]
    ensures forall i, j :: 0 <= i < j < |CryptoIds| ==> CryptoIds[i].0 != CryptoIds[j].0
  {
  }

  /** JavaScript truthiness of `table[key]`: the key is present and its rate is
      not 0 (a stored 0 reads as "not available"). */
  predicate HasRate(table: map<string, real>, key: string): (r: bool)
    ensures key !in table ==> !r
    ensures key in table ==> (r <==> table[key] != 0.0)
  {
    key in table && table[key] != 0.0
  }

  /** Lower-cases an ASCII capital letter and leaves every other character alone. */
  function LowerChar(c: char): (r: char)
    ensures 'A' <= c <= 'Z' ==> 'a' <= r <= 'z' && r as int - c as int == 32
    ensures !('A' <= c <= 'Z') ==> r == c
  {
    if 'A' <= c <= 'Z' then (c as int + 32) as char else c
  }

  /** `String.prototype.toLowerCase` restricted to ASCII letters: the provider
      keys its prices by lower-case fiat codes. */
  function ToLower(s: string): (r: string)
    ensures |r| == |s|
    ensures forall i :: 0 <= i < |s| ==> r[i] == LowerChar(s[i])
    ensures forall i :: 0 <= i < |r| ==> !('A' <= r[i] <= 'Z')
  {
    if s == [] then [] else [LowerChar(s[0])] + ToLower(s[1..])
  }

  /** The five cases `performConversion` distinguishes for a source/target pair. */
  datatype Pair = SameCode | CryptoToCrypto | CryptoToFiat | FiatToCrypto | FiatToFiat

  /** Sorts a pair: equal codes first, then by the crypto membership of each side. */
  function Classify(from: string, to: string): (p: Pair)
    ensures p == SameCode <==> from == to
    ensures (p == CryptoToCrypto || p == CryptoToFiat) <==> from != to && IsCrypto(from)
    ensures (p == CryptoToCrypto || p == FiatToCrypto) <==> from != to && IsCrypto(to)
  {
    if from == to then SameCode
    else if IsCrypto(from) && IsCrypto(to) then CryptoToCrypto
    else if IsCrypto(from) then CryptoToFiat
    else if IsCrypto(to) then FiatToCrypto
    else FiatToFiat
  }
}
