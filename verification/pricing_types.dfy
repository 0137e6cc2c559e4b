/** The canonical pricing record served to the pages (types/pricing.ts)
    and the provenance tag that travels with it. */
module PricingTypes {
  import opened Basics
  import opened Js

  /** Cost per 1,000 tokens on each side; `None` is JSON `null`. */
  datatype PricingCosts = PricingCosts(input: Option<real>, output: Option<real>)

  /** Every field is optional; `None` means the property is absent. */
  datatype PricingEntry = PricingEntry(
    pricing: Option<PricingCosts>,
    co2eFactor: Option<real>,
    avgOutputTokens: Option<real>,
    provider: Option<string>,
    description: Option<string>,
    metadata: Option<Dict<JsVal>>
  )

  /** Model name to entry, in insertion order. */
  type PricingMap = Dict<PricingEntry>

  /** Where a served pricing map came from. */
  datatype DataSource = Supabase | Fallback | Unavailable

  /** The `x-data-source` header value for each provenance. */
  function HeaderValue(s: DataSource): string
  {
    match s
    case Supabase => "supabase"
    case Fallback => "fallback"
    case Unavailable => "unavailable"
  }

  function NumberOrNull(x: Option<real>): JsVal
  {
    match x
    case Some(v) => Num(Finite(v))
    case None => Null
  }

  function CostsJson(p: PricingCosts): JsVal
  {
    Obj([("input", NumberOrNull(p.input)), ("output", NumberOrNull(p.output))])
  }

  function NumberJson(x: Option<real>): Option<JsVal>
  {
    match x
    case Some(v) => Some(Num(Finite(v)))
    case None => None
  }

  function StringJson(x: Option<string>): Option<JsVal>
  {
    match x
    case Some(v) => Some(Str(v))
    case None => None
  }

  /** The members of an entry's JSON object, in the order the route
      assigns them; absent fields are left out. */
  function EntryParts(e: PricingEntry): (parts: seq<(string, Option<JsVal>)>)
  {
    [("pricing", match e.pricing case Some(p) => Some(CostsJson(p)) case None => None),
     ("co2eFactor", NumberJson(e.co2eFactor)),
     ("avgOutputTokens", NumberJson(e.avgOutputTokens)),
     ("provider", StringJson(e.provider)),
     ("description", StringJson(e.description)),
     ("metadata", match e.metadata case Some(m) => Some(Obj(m)) case None => None)]
  }

  /** The JSON value `JSON.stringify` writes for an entry, as a page reads
      it back after `response.json()`. */
  function EntryJson(e: PricingEntry): JsVal
  {
    Obj(Present(EntryParts(e)))
  }

  /** Reading `co2eFactor` from the served JSON gives the entry's factor,
      and `undefined` when it has none. */
  lemma EntryJsonFactor(e: PricingEntry)
    ensures Prop(EntryJson(e), "co2eFactor") == (match e.co2eFactor case Some(v) => Num(Finite(v)) case None => Undef)
  {
    EntryJsonField(e, 1);
  }

  /** Reading `pricing` gives the entry's prices, or `undefined`. */
  lemma EntryJsonPricing(e: PricingEntry)
    ensures Prop(EntryJson(e), "pricing") == (match e.pricing case Some(p) => CostsJson(p) case None => Undef)
  {
    EntryJsonField(e, 0);
  }

  /** Reading `metadata` gives the entry's extra columns, or `undefined`. */
  lemma EntryJsonMetadata(e: PricingEntry)
    ensures Prop(EntryJson(e), "metadata") == (match e.metadata case Some(m) => Obj(m) case None => Undef)
  {
    EntryJsonField(e, 5);
  }

  /** Reading `provider` gives the entry's provider, or `undefined`. */
  lemma EntryJsonProvider(e: PricingEntry)
    ensures Prop(EntryJson(e), "provider") == (match e.provider case Some(v) => Str(v) case None => Undef)
  {
    EntryJsonField(e, 3);
  }

  /** The member names of an entry are distinct. */
  lemma EntryPartsDistinct(e: PricingEntry)
    ensures forall a, b :: 0 <= a < b < |EntryParts(e)| ==> EntryParts(e)[a].0 != EntryParts(e)[b].0
  {
    var ks := ["pricing", "co2eFactor", "avgOutputTokens", "provider", "description", "metadata"];
    assert forall i :: 0 <= i < 6 ==> EntryParts(e)[i].0 == ks[i];
    assert ks[0][0] == 'p' && ks[1][0] == 'c' && ks[2][0] == 'a' && ks[3][0] == 'p' && ks[4][0] == 'd' && ks[5][0] == 'm';
    assert ks[0][1] == 'r' && ks[3][1] == 'r' && ks[0][2] == 'i' && ks[3][2] == 'o';
  }

  /** Reading the member at position `i` of an entry gives its value. */
  lemma EntryJsonField(e: PricingEntry, i: nat)
    requires i < 6
    ensures var p := EntryParts(e)[i];
            Prop(EntryJson(e), p.0) == (match p.1 case Some(v) => v case None => Undef)
  {
    EntryPartsDistinct(e);
    PresentGet(EntryParts(e), i);
  }

  /** The served map as the client's JSON object. */
  function MapJson(m: PricingMap): (d: Dict<JsVal>)
    ensures Keys(d) == Keys(m)
  {
    seq(|m|, i requires 0 <= i < |m| => (m[i].0, EntryJson(m[i].1)))
  }

  /** Looking a model up in the served JSON finds its entry's JSON. */
  lemma MapJsonGet(m: PricingMap, k: string)
    ensures Get(MapJson(m), k) == (match Get(m, k) case Some(e) => Some(EntryJson(e)) case None => None)
  {
    var i := KeyIndex(m, k);
    var d := MapJson(m);
    assert forall j :: 0 <= j < |m| ==> d[j].0 == m[j].0 by {
      forall j | 0 <= j < |m| ensures d[j].0 == m[j].0 {
        assert Keys(d)[j] == Keys(m)[j];
      }
    }
    KeyIndexUnique(d, k, i);
    KeyIndexInKeySet(m, k);
    KeyIndexInKeySet(d, k);
  }
}
