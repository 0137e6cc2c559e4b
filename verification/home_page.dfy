/** The tokenizer page (app/page.tsx): from the pricing served to the
    browser, the chosen model and the prompt's token count it derives an
    estimated input cost, an estimated CO2e figure and whether the
    fallback factor was used; the token list is cut into at most ten
    slices for display. */
module HomePage {
  import opened Basics
  import opened Js
  import opened PageCommon
  import opened PricingTypes

  /** The derived state the cost/CO2e effect writes. */
  datatype Metrics = Metrics(cost: Option<JsNum>, co2e: Option<JsNum>, fallback: bool)

  /** No pricing, no active model or no tokens: nothing to estimate. */
  predicate Idle(pricing: JsVal, active: string, tokens: nat)
  {
    !Truthy(pricing) || active == "" || tokens == 0
  }

  /** `(tokens.length / 1000) * inputRate` when the input price is a
      number other than NaN; the output price never contributes. */
  function EstimatedCost(entry: JsVal, tokens: nat): (c: Option<JsNum>)
    ensures c.Some? <==> InputRate(entry).Some?
  {
    match InputRate(entry)
    case Some(rate) => Some(Scale(tokens as real / 1000.0, rate))
    case None => None
  }

  /** The cost/CO2e effect. When idle both figures are cleared and the
      fallback flag keeps its previous value. Otherwise the figures are
      those of the selected entry. */
  function CostCo2eEffect(pricing: JsVal, active: string, tokens: nat, prev: Metrics): (m: Metrics)
    ensures Idle(pricing, active, tokens) ==> m == Metrics(None, None, prev.fallback)
    ensures !Idle(pricing, active, tokens) ==> m == EntryMetrics(SelectedEntry(pricing, active), tokens)
  {
    if Idle(pricing, active, tokens) then Metrics(None, None, prev.fallback)
    else EntryMetrics(SelectedEntry(pricing, active), tokens)
  }

  /** The figures for one entry: the CO2e figure always exists, uses the
      entry's factor when it has one and 0.0002 otherwise, and the flag
      says which; the cost is computed separately. A missing entry behaves
      as an entry without factor or input price. */
  function EntryMetrics(entry: JsVal, tokens: nat): (m: Metrics)
    ensures m.cost == EstimatedCost(entry, tokens)
    ensures m.co2e == Some(Scale(tokens as real, ResolvedFactor(entry).0))
    ensures m.fallback == EntryFactor(entry).None?
  {
    if !Truthy(entry) then
      FalsyProp(entry, "co2eFactor");
      FalsyProp(entry, "pricing");
      FalsyProp(Undef, "input");
      Metrics(None, Some(Finite(tokens as real * FallbackFactor)), true)
    else
      var resolved := ResolvedFactor(entry);
      Metrics(EstimatedCost(entry, tokens), Some(Scale(tokens as real, resolved.0)), resolved.1)
  }

  /** Whenever the page is not idle it shows a CO2e figure that is a
      number (never NaN), and it never shows a cost without one. */
  lemma Co2eAlwaysShownWhenActive(pricing: JsVal, active: string, tokens: nat, prev: Metrics)
    requires !Idle(pricing, active, tokens)
    ensures var m := CostCo2eEffect(pricing, active, tokens, prev);
            m.co2e.Some? && !m.co2e.value.NaN? && (m.cost.Some? ==> !m.cost.value.NaN?)
  {
  }

  /** The factor a page reads from a served entry is the entry's own. */
  lemma ServedEntryFactor(e: PricingEntry)
    ensures EntryFactor(EntryJson(e)) == (if e.co2eFactor.Some? then Some(Finite(e.co2eFactor.value)) else None)
  {
    EntryJsonFactor(e);
  }

  /** The input price a page reads from a served entry is the entry's own. */
  lemma ServedEntryInput(e: PricingEntry)
    ensures InputRate(EntryJson(e)) == (if e.pricing.Some? && e.pricing.value.input.Some?
                                        then Some(Finite(e.pricing.value.input.value)) else None)
  {
    EntryJsonPricing(e);
    if e.pricing.Some? {
      var p := e.pricing.value;
      GetCons(("input", NumberOrNull(p.input)), [("output", NumberOrNull(p.output))], "input");
      assert Prop(CostsJson(p), "input") == NumberOrNull(p.input);
    }
  }

  /** Served by the pricing route, an entry reaches the page intact: the
      page uses the entry's factor exactly when the entry has one, and
      prices the prompt from the entry's input price alone. */
  lemma ServedEntryMetrics(m: PricingMap, active: string, e: PricingEntry, tokens: nat, prev: Metrics)
    requires Get(m, active) == Some(e) && active != "" && tokens > 0
    ensures CostCo2eEffect(Obj(MapJson(m)), active, tokens, prev)
            == ExpectedMetrics(if e.pricing.Some? then e.pricing.value.input else None, e.co2eFactor, tokens)
  {
    MapJsonGet(m, active);
    assert SelectedEntry(Obj(MapJson(m)), active) == EntryJson(e);
    EntryJsonMetrics(e, tokens);
  }

  lemma EntryJsonMetrics(e: PricingEntry, tokens: nat)
    ensures EntryMetrics(EntryJson(e), tokens)
            == ExpectedMetrics(if e.pricing.Some? then e.pricing.value.input else None, e.co2eFactor, tokens)
  {
    ServedEntryFactor(e);
    ServedEntryInput(e);
  }

  /** The figures for a model whose input price and factor, when known,
      are the finite numbers given: the cost is the token count in
      thousands times the input price alone, the CO2e figure the token
      count times the factor or else 0.0002 (on finite numbers `Scale` is
      the plain product, `Js.ScaleFinite`). */
  function ExpectedMetrics(input: Option<real>, factor: Option<real>, tokens: nat): Metrics
  {
    Metrics(
      if input.Some? then Some(Scale(tokens as real / 1000.0, Finite(input.value))) else None,
      Some(Scale(tokens as real, Finite(if factor.Some? then factor.value else FallbackFactor))),
      factor.None?)
  }

  /** The metadata rows of a served entry are the display rows of exactly
      the extra columns the route kept for it. */
  lemma ServedMetadataRows(e: PricingEntry, h: Host)
    ensures MetadataRows(EntryJson(e), h) == (match e.metadata case Some(d) => DisplayEntries(d, h) case None => [])
  {
    EntryJsonMetadata(e);
  }

  /** `Math.ceil(n / 10)`. */
  function SliceSize(n: nat): (k: nat)
    ensures k * 10 >= n && (k == 0 || (k - 1) * 10 < n)
  {
    (n + 9) / 10
  }

  function Flatten(slices: seq<seq<int>>): seq<int>
  {
    if |slices| == 0 then [] else Flatten(slices[..|slices| - 1]) + slices[|slices| - 1]
  }

  function Min(a: nat, b: nat): nat
  {
    if a <= b then a else b
  }

  /** `tokens.slice(i * size, (i + 1) * size)`: the `i`-th fixed window,
      cut short at the end of the list. */
  function Window(tokens: seq<int>, size: nat, i: nat): (w: seq<int>)
    ensures |w| <= size
  {
    var n := |tokens|;
    assert i * size <= (i + 1) * size by {
      assert (i + 1) * size == i * size + size;
    }
    tokens[Min(i * size, n)..Min((i + 1) * size, n)]
  }

  /** The token slices shown under the prompt: one per token up to ten
      tokens; beyond that exactly ten consecutive slices of at most
      `ceil(n / 10)` tokens (the last ones possibly empty) that together
      give back the token list. */
  method Slices(tokens: seq<int>) returns (slices: seq<seq<int>>)
    ensures |tokens| <= 10 ==> |slices| == |tokens| && forall i :: 0 <= i < |slices| ==> slices[i] == [tokens[i]]
    ensures |tokens| > 10 ==> |slices| == 10 && forall i :: 0 <= i < 10 ==> |slices[i]| <= SliceSize(|tokens|)
    ensures |tokens| > 10 ==> forall i :: 0 <= i < 10 ==> slices[i] == Window(tokens, SliceSize(|tokens|), i)
    ensures Flatten(slices) == tokens
  {
    if |tokens| <= 10 {
      slices := TokenSlices(tokens);
    } else {
      slices := TenSlices(tokens);
    }
  }

  /** One slice per token. */
  method TokenSlices(tokens: seq<int>) returns (slices: seq<seq<int>>)
    ensures |slices| == |tokens| && forall i :: 0 <= i < |slices| ==> slices[i] == [tokens[i]]
    ensures Flatten(slices) == tokens
  {
    var n := |tokens|;
    slices := [];
    var i := 0;
    while i < n
      invariant i <= n
      invariant |slices| == i
      invariant forall j :: 0 <= j < i ==> slices[j] == [tokens[j]]
      invariant Flatten(slices) == tokens[..i]
    {
      assert (slices + [[tokens[i]]])[..i] == slices;
      assert tokens[..i + 1] == tokens[..i] + [tokens[i]];
      slices := slices + [[tokens[i]]];
      i := i + 1;
    }
    assert tokens[..n] == tokens;
  }

  /** Ten consecutive slices of `ceil(n / 10)` tokens, cut short at the
      end of the list. */
  method TenSlices(tokens: seq<int>) returns (slices: seq<seq<int>>)
    ensures |slices| == 10 && forall i :: 0 <= i < 10 ==> |slices[i]| <= SliceSize(|tokens|)
    ensures forall i :: 0 <= i < 10 ==> slices[i] == Window(tokens, SliceSize(|tokens|), i)
    ensures Flatten(slices) == tokens
  {
    var n := |tokens|;
    var size := SliceSize(n);
    slices := [];
    var i, lo := 0, 0;
    while i < 10
      invariant i <= 10 && lo <= n
      invariant lo == Min(i * size, n)
      invariant |slices| == i
      invariant forall j :: 0 <= j < i ==> |slices[j]| <= size
      invariant forall j :: 0 <= j < i ==> slices[j] == Window(tokens, size, j)
      invariant Flatten(slices) == tokens[..lo]
    {
      var hi := Min(lo + size, n);
      assert hi == Min((i + 1) * size, n) by {
        assert (i + 1) * size == i * size + size;
      }
      var piece := tokens[lo..hi];
      assert piece == Window(tokens, size, i);
      assert (slices + [piece])[..i] == slices;
      assert tokens[..hi] == tokens[..lo] + piece;
      slices := slices + [piece];
      i, lo := i + 1, hi;
    }
    assert tokens[..n] == tokens;
  }
}
