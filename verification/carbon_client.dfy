/** The client-side carbon page (app/carbon/CarbonPageClient.tsx): it loads
    the pricing map straight from the database through `fetchPricing`,
    estimates the prompt's CO2e from the chosen model's factor, derives a
    per-1,000-token figure and picks one insight message from a fixed
    list. */
module CarbonClient {
  import opened Basics
  import opened PageCommon
  import FetchPricing

  type Pricing = Dict<FetchPricing.FetchEntry>

  /** How the load ended: the map `fetchPricing` resolved with, or a throw. */
  datatype LoadOutcome = Loaded(m: Pricing) | LoadFailed

  /** The pricing state after the load settles: a failure gives the empty
      map, and nothing changes once the page has unmounted. */
  function OnLoad(mounted: bool, current: Option<Pricing>, outcome: LoadOutcome): (p: Option<Pricing>)
    ensures !mounted ==> p == current
    ensures mounted ==> p.Some?
    ensures mounted && outcome.LoadFailed? ==> p == Some([])
    ensures mounted && outcome.Loaded? ==> p == Some(outcome.m)
  {
    if !mounted then current
    else match outcome
      case Loaded(m) => Some(m)
      case LoadFailed => Some([])
  }

  /** The model options: the map's keys in order, none before it loads. */
  function ModelOptions(pricing: Option<Pricing>): (opts: seq<string>)
    ensures pricing.None? ==> opts == []
    ensures pricing.Some? ==> opts == Keys(pricing.value)
  {
    match pricing
    case Some(m) => Keys(m)
    case None => []
  }

  /** No map, no model or no tokens. An empty map is an object and so does
      not count as missing. */
  predicate Idle(pricing: Option<Pricing>, model: string, tokens: nat)
  {
    pricing.None? || model == "" || tokens == 0
  }

  /** The factor for a model: its entry's, or 0.0002 when the map has no
      entry under that name; the flag says whether the fallback was used. */
  function ClientFactor(m: Pricing, model: string): (r: (real, bool))
    ensures r.1 <==> model !in KeySet(m)
    ensures !r.1 ==> r.0 == Get(m, model).value.co2eFactor
    ensures r.1 ==> r.0 == FallbackFactor
  {
    KeyIndexInKeySet(m, model);
    match Get(m, model)
    case Some(e) => (e.co2eFactor, false)
    case None => (FallbackFactor, true)
  }

  /** A figure in grams, or `null` (shown as a dash). The factors of a map
      from `fetchPricing` are finite, so NaN does not arise here. */
  datatype Amount = Absent | Grams(g: real)

  /** The state the CO2e effect writes. */
  datatype Estimate = Estimate(co2e: Amount, fallback: bool)

  /** The CO2e effect: both cleared while idle, otherwise the token count
      times the resolved factor, with the fallback flag. */
  function ClientEffect(pricing: Option<Pricing>, model: string, tokens: nat): (r: Estimate)
    ensures Idle(pricing, model, tokens) ==> r == Estimate(Absent, false)
    ensures !Idle(pricing, model, tokens) ==> r.co2e.Grams? && (r.fallback <==> model !in KeySet(pricing.value))
  {
    if Idle(pricing, model, tokens) then Estimate(Absent, false)
    else
      var (f, fallback) := ClientFactor(pricing.value, model);
      Estimate(Grams(tokens as real * f), fallback)
  }

  /** `hasEstimate ? co2e / tokens * 1000 : null`. */
  function PerThousandFigure(co2e: Amount, tokens: nat): (r: Amount)
    ensures r.Grams? <==> co2e.Grams? && tokens > 0
  {
    if co2e.Grams? && tokens > 0 then Grams(co2e.g / tokens as real * 1000.0) else Absent
  }

  /** Once the effect has run, the per-1,000-token figure is 1,000 times the
      factor the model resolves to: it does not depend on the prompt. */
  lemma PerThousandIsFactorTimesThousand(pricing: Option<Pricing>, model: string, tokens: nat)
    requires !Idle(pricing, model, tokens)
    ensures PerThousandFigure(ClientEffect(pricing, model, tokens).co2e, tokens)
            == Grams(1000.0 * ClientFactor(pricing.value, model).0)
  {
    var f := ClientFactor(pricing.value, model).0;
    CountCancels(tokens, f);
  }

  lemma CountCancels(n: nat, f: real)
    requires n > 0
    ensures n as real * f / n as real * 1000.0 == 1000.0 * f
  {
  }

  /** The six messages, in the order they are tried. */
  datatype Insight = AddPrompt | ConnectPricing | PickModel | NoEstimate | GenericFactor | PromptOnly

  /** The first message whose condition holds. */
  function InsightOf(pricing: Option<Pricing>, model: string, tokens: nat, co2e: Amount, fallback: bool): (i: Insight)
    ensures i == AddPrompt <==> tokens == 0
    ensures i == ConnectPricing <==> tokens > 0 && |ModelOptions(pricing)| == 0
    ensures i == PickModel <==> tokens > 0 && |ModelOptions(pricing)| > 0 && model == ""
    ensures i == NoEstimate <==> tokens > 0 && |ModelOptions(pricing)| > 0 && model != "" && co2e.Absent?
    ensures i == GenericFactor <==> tokens > 0 && |ModelOptions(pricing)| > 0 && model != "" && co2e.Grams? && fallback
    ensures i == PromptOnly <==> tokens > 0 && |ModelOptions(pricing)| > 0 && model != "" && co2e.Grams? && !fallback
  {
    if tokens == 0 then AddPrompt
    else if pricing.None? || |ModelOptions(pricing)| == 0 then ConnectPricing
    else if model == "" then PickModel
    else if co2e.Absent? then NoEstimate
    else if fallback then GenericFactor
    else PromptOnly
  }

  /** The insight once the effect has run on the current state. */
  function SettledInsight(pricing: Option<Pricing>, model: string, tokens: nat): Insight
  {
    var e := ClientEffect(pricing, model, tokens);
    InsightOf(pricing, model, tokens, e.co2e, e.fallback)
  }

  /** Once the effect has run, the "could not calculate" message is never
      shown, and the generic-factor message is shown exactly when a
      prompt and a model are given but the map has no entry for it. */
  lemma SettledInsightCases(pricing: Option<Pricing>, model: string, tokens: nat)
    ensures SettledInsight(pricing, model, tokens) != NoEstimate
    ensures SettledInsight(pricing, model, tokens) == GenericFactor
            <==> tokens > 0 && pricing.Some? && |pricing.value| > 0 && model != ""
                 && model !in KeySet(pricing.value)
  {
    if pricing.Some? {
      assert |Keys(pricing.value)| == |pricing.value|;
    }
  }

  /** A failed load leaves the page asking for pricing data whenever there
      is a prompt. */
  lemma FailedLoadAsksForPricing(current: Option<Pricing>, model: string, tokens: nat)
    requires tokens > 0
    ensures SettledInsight(OnLoad(true, current, LoadFailed), model, tokens) == ConnectPricing
  {
  }

  /** Every entry's factor lies between 0.0002 and 0.0003. */
  ghost predicate FactorsInRange(m: Pricing)
  {
    forall k :: k in KeySet(m) ==> 0.0002 <= Get(m, k).value.co2eFactor <= 0.0003
  }

  /** Whatever the model, an estimate from such a map lies between 0.0002
      and 0.0003 grams per token. */
  lemma EstimateWithinRange(m: Pricing, model: string, tokens: nat)
    requires FactorsInRange(m) && tokens > 0 && model != ""
    ensures var co2e := ClientEffect(Some(m), model, tokens).co2e;
            co2e.Grams? && tokens as real * 0.0002 <= co2e.g <= tokens as real * 0.0003
  {
    var f := ClientFactor(m, model).0;
    assert 0.0002 <= f <= 0.0003;
    CountTimesBetween(tokens, f, 0.0002, 0.0003);
  }

  /** The maps `fetchPricing` builds are such maps. */
  lemma FetchedFactorsInRange(q: FetchPricing.Query, h: Js.Host, ln: real -> real)
    ensures FactorsInRange(FetchPricing.FetchPricing(q, h, ln))
  {
    forall k | k in KeySet(FetchPricing.FetchPricing(q, h, ln))
      ensures 0.0002 <= Get(FetchPricing.FetchPricing(q, h, ln), k).value.co2eFactor <= 0.0003
    {
      FetchPricing.FactorRange(q, h, ln, k);
    }
  }

  lemma CountTimesBetween(n: nat, f: real, lo: real, hi: real)
    requires lo <= f <= hi
    ensures n as real * lo <= n as real * f <= n as real * hi
  {
  }
}
