/** The market record the pipeline passes from stage to stage: one dictionary per coin, as the
    CoinGecko `/coins/markets` endpoint returns it and as `transform_crypto_data` rewrites it. */
module Records {
  import opened Common
  import opened Text

  /** The keys of a record that the core reads. `TS` is the type of `last_updated`: the API's text
      in a raw record, a parsed `datetime` after the transform. Any key may be missing or `None`. */
  datatype CryptoRecord<TS> = CryptoRecord(
    id: Field<string>,
    symbol: Field<string>,
    currentPrice: Field<real>,
    marketCap: Field<real>,
    totalVolume: Field<real>,
    priceChange24h: Field<real>,
    priceChangePercentage24h: Field<real>,
    lastUpdated: Field<TS>)

  /** `item['symbol'].upper()`: a missing key raises `KeyError`, a `None` symbol `AttributeError`.
      Otherwise every ASCII lower-case letter becomes its capital and every other character stays. */
  function UpperSymbol(f: Field<string>): (r: Result<string>)
    ensures r == Err(KeyError("symbol")) <==> f.Absent?
    ensures r == Err(AttributeError) <==> f == Present(Null)
    ensures r.Ok? <==> f.Present? && f.value.Val?
    ensures r.Ok? ==> var s := f.value.value;
              && |r.value| == |s|
              && (forall i :: 0 <= i < |s| ==> !('a' <= r.value[i] <= 'z'))
              && (forall i :: 0 <= i < |s| && 'a' <= s[i] <= 'z' ==> r.value[i] as int == s[i] as int - 32)
              && (forall i :: 0 <= i < |s| && !('a' <= s[i] <= 'z') ==> r.value[i] == s[i])
  {
    match f
    case Absent => Err(KeyError("symbol"))
    case Present(Null) => Err(AttributeError)
    case Present(Val(s)) => Ok(Upper(s))
  }
}
