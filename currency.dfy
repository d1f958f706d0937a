/**
 * `useCurrency`: the table of known currencies, which a successful fetch may
 * replace, the selected currency code, and the lookup of the selected
 * currency's details with a fallback for codes the table does not know.
 */
module Currencies {
  import opened Wrappers

  datatype Currency = Currency(code: string, name: string, symbol: string, decimalPlaces: int)

  /** The table in use until a fetch returns a non-empty list. */
  const DefaultCurrencies: seq<Currency> := [
    Currency("USD", "US Dollar", "$", 2),
    Currency("EUR", "Euro", "€", 2),
    Currency("GBP", "British Pound", "£", 2),
    Currency("JPY", "Japanese Yen", "¥", 0),
    Currency("CAD", "Canadian Dollar", "CA$", 2),
    Currency("AUD", "Australian Dollar", "A$", 2)
  ]

  /** `currencies.find(c => c.code === code)`, as a position. */
  function FindCode(currencies: seq<Currency>, code: string): (r: Option<nat>)
    ensures r.None? ==> forall j :: 0 <= j < |currencies| ==> currencies[j].code != code
    ensures r.Some? ==> r.value < |currencies| && currencies[r.value].code == code
    ensures r.Some? ==> forall j :: 0 <= j < r.value ==> currencies[j].code != code
  {
    if currencies == [] then None
    else if currencies[0].code == code then Some(0)
    else
      var rest := FindCode(currencies[1..], code);
      if rest.Some? then Some(rest.value + 1) else None
  }

  /** The details made up for a code the table does not list. */
  function Fallback(code: string): (c: Currency)
    ensures c.code == code && c.name == code && c.decimalPlaces == 2
    ensures code == "USD" ==> c.symbol == "$"
    ensures code != "USD" ==> c.symbol == code
  {
    Currency(code, code, if code == "USD" then "$" else code, 2)
  }

  /** `getCurrentCurrency`: the first listed currency with the selected code, else the fallback. */
  function CurrentCurrency(currencies: seq<Currency>, selected: string): (c: Currency)
    ensures c.code == selected
    ensures (exists j :: 0 <= j < |currencies| && currencies[j].code == selected) ==>
      exists j :: 0 <= j < |currencies| && currencies[j] == c
              && forall i :: 0 <= i < j ==> currencies[i].code != selected
    ensures (forall j :: 0 <= j < |currencies| ==> currencies[j].code != selected) ==> c == Fallback(selected)
  {
    var found := FindCode(currencies, selected);
    if found.Some? then currencies[found.value] else Fallback(selected)
  }

  predicate CodesDistinct(currencies: seq<Currency>)
  {
    forall p, q :: 0 <= p < q < |currencies| ==> currencies[p].code != currencies[q].code
  }

  /** The default table lists each code once; yen has no decimals, the others two. */
  lemma DefaultTableShape()
    ensures CodesDistinct(DefaultCurrencies)
    ensures forall c :: c in DefaultCurrencies ==> c.decimalPlaces == (if c.code == "JPY" then 0 else 2)
  {
  }

  /** With distinct codes, looking up a listed currency's code gives back that currency. */
  lemma LookupListed(currencies: seq<Currency>, k: nat)
    requires CodesDistinct(currencies) && k < |currencies|
    ensures CurrentCurrency(currencies, currencies[k].code) == currencies[k]
  {
    var found := FindCode(currencies, currencies[k].code);
    assert found.Some?;
  }

  /** What the currency fetch came back with. */
  datatype FetchResult = FetchFailed | Fetched(data: seq<Currency>)

  /** The state cells of the hook. */
  class CurrencyState {
    var currencies: seq<Currency>
    var selected: string

    /** The table is never empty. */
    ghost predicate Valid()
      reads this
    {
      |currencies| > 0
    }

    constructor (initial: string)
      ensures Valid()
      ensures currencies == DefaultCurrencies && selected == initial
    {
      currencies := DefaultCurrencies;
      selected := initial;
    }

    /** `fetchCurrencies`: a non-empty successful result replaces the table, anything else keeps it. */
    method ApplyFetch(result: FetchResult)
      requires Valid()
      modifies this
      ensures Valid()
      ensures result.Fetched? && |result.data| > 0 ==> currencies == result.data
      ensures result.FetchFailed? || |result.data| == 0 ==> currencies == old(currencies)
      ensures selected == old(selected)
    {
      if result.Fetched? && |result.data| > 0 {
        currencies := result.data;
      }
    }

    /** `setSelectedCurrency` */
    method Select(code: string)
      requires Valid()
      modifies this
      ensures Valid()
      ensures selected == code && currencies == old(currencies)
    {
      selected := code;
    }

    /** `getCurrentCurrency` on the current state. */
    function Current(): (c: Currency)
      reads this
      ensures c.code == selected
    {
      CurrentCurrency(currencies, selected)
    }
  }
}
