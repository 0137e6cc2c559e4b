/** What the home page (app/page.tsx) and the carbon page
    (app/carbon/page.tsx) share, line for line: the choice of the active
    model, the entry it selects, the fields they read from it and the
    filter that turns its metadata into display rows. */
module PageCommon {
  import opened Basics
  import opened Text
  import opened Js

  /** Grams of CO2e per token assumed when a model has no factor. */
  const FallbackFactor: real := 0.0002

  /** `modelOptions.includes(model) ? model : modelOptions[0] ?? ''`. */
  function ActiveModel(options: seq<string>, model: string): (a: string)
    ensures |options| > 0 ==> a in options
    ensures |options| == 0 ==> a == ""
    ensures model in options ==> a == model
  {
    if model in options then model
    else if |options| > 0 then options[0]
    else ""
  }

  /** The model the selection effect leaves in state: cleared when there
      are no options, the first option when the current one is empty or
      not listed, unchanged otherwise. */
  function SelectEffect(options: seq<string>, model: string): (m: string)
    ensures |options| == 0 ==> m == ""
    ensures |options| > 0 ==> m in options
    ensures model != "" && model in options ==> m == model
  {
    if |options| == 0 then ""
    else if model == "" || model !in options then options[0]
    else model
  }

  /** The effect settles at once: running it on its own result changes
      nothing, so it never triggers itself again. */
  lemma SelectEffectSettles(options: seq<string>, model: string)
    ensures SelectEffect(options, SelectEffect(options, model)) == SelectEffect(options, model)
  {
  }

  /** The model the page displays before the effect has run agrees with
      the one the effect selects, except in one case: the empty model
      while "" is itself an option that is not the first. */
  lemma ActiveMatchesSelection(options: seq<string>, model: string)
    ensures ActiveModel(options, model) == SelectEffect(options, model)
            <==> !(model == "" && "" in options && options[0] != "")
  {
  }

  /** `activeModel && pricing ? pricing[activeModel] : undefined`. */
  function SelectedEntry(pricing: JsVal, active: string): (e: JsVal)
    ensures active == "" || !Truthy(pricing) ==> e == Undef
    ensures pricing.Obj? && active != "" && active !in KeySet(pricing.fields) ==> e == Undef
    ensures pricing.Obj? && active != "" && active in KeySet(pricing.fields) ==> e == Get(pricing.fields, active).value
  {
    if active != "" && Truthy(pricing) then Prop(pricing, active) else Undef
  }

  /** `typeof entry.co2eFactor === 'number' && !Number.isNaN(…)`: the
      entry's own factor, if usable. */
  function EntryFactor(entry: JsVal): (f: Option<JsNum>)
    ensures f.Some? ==> !f.value.NaN? && Prop(entry, "co2eFactor") == Num(f.value)
    ensures !entry.Obj? && !entry.Arr? && !entry.Str? ==> f.None?
    ensures var v := Prop(entry, "co2eFactor"); v.Num? && !v.n.NaN? ==> f == Some(v.n)
  {
    NonNaNNumber(Prop(entry, "co2eFactor"))
  }

  /** `entry.pricing?.input` when it is a number other than NaN. */
  function InputRate(entry: JsVal): (r: Option<JsNum>)
    ensures r.Some? ==> !r.value.NaN? && Prop(Prop(entry, "pricing"), "input") == Num(r.value)
    ensures !entry.Obj? && !entry.Arr? && !entry.Str? ==> r.None?
    ensures var v := Prop(Prop(entry, "pricing"), "input"); v.Num? && !v.n.NaN? ==> r == Some(v.n)
  {
    NonNaNNumber(Prop(Prop(entry, "pricing"), "input"))
  }

  /** The factor a page multiplies the token count by, and whether it is
      the fallback. */
  function ResolvedFactor(entry: JsVal): (r: (JsNum, bool))
    ensures r.1 <==> EntryFactor(entry).None?
    ensures !r.0.NaN?
    ensures r.1 ==> r.0 == Finite(FallbackFactor)
  {
    match EntryFactor(entry)
    case Some(f) => (f, false)
    case None => (Finite(FallbackFactor), true)
  }

  /** How one metadata value is shown: null and undefined are dropped,
      strings are trimmed and dropped when blank, numbers are written out
      (NaN included), booleans become "true" or "false", and everything
      else is dropped. Whatever is shown is non-empty. */
  function DisplayValue(v: JsVal, h: Host): (r: Option<string>)
    ensures r.Some? ==> |r.value| > 0
    ensures v.Str? ==> r == (if IsBlank(v.s) then None else Some(Trim(v.s)))
    ensures v.Num? ==> r == Some(h.numberToString(v.n))
    ensures v.Bool? ==> r == Some(if v.b then "true" else "false")
    ensures v.Null? || v.Undef? || v.Obj? || v.Arr? ==> r.None?
  {
    match v
    case Null => None
    case Undef => None
    case Str(s) => var t := Trim(s); if |t| > 0 then Some(t) else None
    case Num(n) => Some(h.numberToString(n))
    case Bool(b) => Some(if b then "true" else "false")
    case _ => None
  }

  /** The `reduce` over `Object.entries(metadata)`: the shown values with
      their keys, in the original order. */
  function DisplayEntries(d: Dict<JsVal>, h: Host): (r: seq<(string, string)>)
    ensures |r| <= |d|
    ensures forall j :: 0 <= j < |r| ==> |r[j].1| > 0
    ensures forall j :: 0 <= j < |r| ==>
              exists i :: 0 <= i < |d| && d[i].0 == r[j].0 && DisplayValue(d[i].1, h) == Some(r[j].1)
    ensures forall i :: 0 <= i < |d| && DisplayValue(d[i].1, h).Some? ==>
              (d[i].0, DisplayValue(d[i].1, h).value) in r
  {
    var r := KeepValues(d, v => DisplayValue(v, h));
    assert forall j :: 0 <= j < |r| ==> |r[j].1| > 0 by {
      forall j | 0 <= j < |r| ensures |r[j].1| > 0 {
        var i :| 0 <= i < |d| && d[i].0 == r[j].0 && DisplayValue(d[i].1, h) == Some(r[j].1);
      }
    }
    r
  }

  /** Order is kept: the rows for two consecutive runs of fields are the
      rows of the first followed by the rows of the second. */
  lemma DisplayEntriesAppend(a: Dict<JsVal>, b: Dict<JsVal>, h: Host)
    ensures DisplayEntries(a + b, h) == DisplayEntries(a, h) + DisplayEntries(b, h)
  {
    KeepValuesAppend(a, b, v => DisplayValue(v, h));
  }

  /** `Object.entries(v)`, read without its shape facts. */
  function ObjectEntries(v: JsVal): Dict<JsVal>
  {
    OwnEntries(v)
  }

  /** The rows shown for a metadata value: none when it is falsy, the
      shown values among its entries otherwise. */
  function MetadataValueRows(meta: JsVal, h: Host): (r: seq<(string, string)>)
    ensures !Truthy(meta) ==> r == []
    ensures meta.Obj? ==> r == DisplayEntries(meta.fields, h)
  {
    if Truthy(meta) then DisplayEntries(ObjectEntries(meta), h) else []
  }

  /** The metadata rows of the selected entry: none unless its `metadata`
      is truthy, otherwise the shown values among its entries. */
  function MetadataRows(entry: JsVal, h: Host): (r: seq<(string, string)>)
    ensures !Truthy(Prop(entry, "metadata")) ==> r == []
    ensures Prop(entry, "metadata").Obj? ==> r == DisplayEntries(Prop(entry, "metadata").fields, h)
  {
    MetadataValueRows(Prop(entry, "metadata"), h)
  }
}
