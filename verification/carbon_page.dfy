/** The carbon estimator page (app/carbon/page.tsx): the same model
    selection and metadata display as the tokenizer page, a CO2e effect
    that differs from the tokenizer page's in what it does while idle, and
    the panel that shows the estimate or explains why there is none. */
module CarbonPage {
  import opened Basics
  import opened Js
  import opened PageCommon
  import HomePage

  /** The prompt effect: an empty prompt clears the tokens and the
      estimate; any other prompt sets the tokens to its encoding (given,
      since the tokenizer is not modelled) and leaves the estimate as is. */
  function PromptEffect(prompt: string, encoded: seq<int>, co2e: Option<JsNum>): (r: (seq<int>, Option<JsNum>))
    ensures prompt == "" ==> r == ([], None)
    ensures prompt != "" ==> r.0 == encoded && r.1 == co2e
  {
    if prompt == "" then ([], None) else (encoded, co2e)
  }

  /** The CO2e effect: the estimate and the fallback flag. While idle
      both are reset (the flag to false). Otherwise the estimate is the
      token count times the entry's factor, or 0.0002 when the entry is
      missing or has no usable factor, and the flag says which. */
  function CarbonEffect(pricing: JsVal, active: string, tokens: nat): (r: (Option<JsNum>, bool))
    ensures HomePage.Idle(pricing, active, tokens) ==> r == (None, false)
    ensures !HomePage.Idle(pricing, active, tokens) ==>
              r.0 == Some(Scale(tokens as real, ResolvedFactor(SelectedEntry(pricing, active)).0))
              && r.1 == EntryFactor(SelectedEntry(pricing, active)).None?
  {
    if !Truthy(pricing) || active == "" || tokens == 0 then (None, false)
    else
      var entry := Prop(pricing, active);
      var resolved :=
        if Truthy(entry) then ResolvedFactor(entry)
        else (FalsyProp(entry, "co2eFactor"); (Finite(FallbackFactor), true));
      (Some(Scale(tokens as real, resolved.0)), resolved.1)
  }

  /** How the estimate is written: a figure from 0.0001 up, or "< 0.0001 g". */
  datatype Figure = Approx(grams: JsNum) | UnderThreshold

  /** What the result panel shows: the figure, starred when the fallback
      factor was used; or one of the two explanations for its absence. */
  datatype Panel = Shown(figure: Figure, starred: bool) | EnterPrompt | NoFactor

  /** The panel for a state: an estimate that is a number (not NaN) is
      shown; otherwise the message depends on whether there are tokens. */
  function PanelOf(co2e: Option<JsNum>, fallback: bool, tokens: nat): (p: Panel)
    ensures p.Shown? <==> co2e.Some? && !co2e.value.NaN?
    ensures p.Shown? ==> p.starred == fallback
    ensures p.Shown? ==> (p.figure.Approx? <==> AtLeast(co2e.value, 0.0001))
    ensures p.Shown? && p.figure.Approx? ==> p.figure.grams == co2e.value
    ensures !p.Shown? ==> (p.EnterPrompt? <==> tokens == 0)
  {
    if co2e.Some? && !co2e.value.NaN? then
      Shown(if AtLeast(co2e.value, 0.0001) then Approx(co2e.value) else UnderThreshold, fallback)
    else if tokens == 0 then EnterPrompt
    else NoFactor
  }

  /** Outside the idle case both pages compute the same estimate and the
      same fallback flag. */
  lemma HomeAndCarbonAgreeWhenActive(pricing: JsVal, active: string, tokens: nat, prev: HomePage.Metrics)
    requires !HomePage.Idle(pricing, active, tokens)
    ensures var m := HomePage.CostCo2eEffect(pricing, active, tokens, prev);
            CarbonEffect(pricing, active, tokens) == (m.co2e, m.fallback)
  {
  }

  /** While idle the two pages differ only in the flag: this page clears
      it, the tokenizer page keeps the previous one. */
  lemma VariantsDifferWhenIdle(pricing: JsVal, active: string, tokens: nat, prev: HomePage.Metrics)
    requires HomePage.Idle(pricing, active, tokens)
    ensures var m := HomePage.CostCo2eEffect(pricing, active, tokens, prev);
            m.co2e == CarbonEffect(pricing, active, tokens).0
            && (m.fallback == CarbonEffect(pricing, active, tokens).1 <==> !prev.fallback)
  {
  }

  /** Once both effects have run, the panel asks for a prompt exactly when
      there are no tokens, explains that no factor is available exactly
      when there are tokens but no pricing or no model, and shows an
      estimate otherwise. */
  lemma SettledPanel(pricing: JsVal, active: string, tokens: nat)
    ensures var (co2e, fallback) := CarbonEffect(pricing, active, tokens);
            var p := PanelOf(co2e, fallback, tokens);
            (p.EnterPrompt? <==> tokens == 0)
            && (p.NoFactor? <==> tokens > 0 && (!Truthy(pricing) || active == ""))
            && (p.Shown? <==> !HomePage.Idle(pricing, active, tokens))
  {
    if !HomePage.Idle(pricing, active, tokens) {
      var f := ResolvedFactor(SelectedEntry(pricing, active)).0;
      assert !Scale(tokens as real, f).NaN?;
    }
  }

  /** With the fallback factor, or any factor from 0.0001 up, a non-empty
      prompt's estimate is never written as "< 0.0001 g". */
  lemma LargeFactorShowsFigure(pricing: JsVal, active: string, tokens: nat)
    requires !HomePage.Idle(pricing, active, tokens)
    requires AtLeast(ResolvedFactor(SelectedEntry(pricing, active)).0, 0.0001)
    ensures var (co2e, fallback) := CarbonEffect(pricing, active, tokens);
            PanelOf(co2e, fallback, tokens).Shown?
            && PanelOf(co2e, fallback, tokens).figure.Approx?
  {
    var f := ResolvedFactor(SelectedEntry(pricing, active)).0;
    ScaleKeepsAtLeast(tokens, f, 0.0001);
    var r := CarbonEffect(pricing, active, tokens);
    assert r.0 == Some(Scale(tokens as real, f));
  }

  /** A positive token count keeps a factor's lower bound. */
  lemma ScaleKeepsAtLeast(n: nat, f: JsNum, c: real)
    requires n >= 1 && c >= 0.0 && AtLeast(f, c)
    ensures AtLeast(Scale(n as real, f), c)
  {
    if f.Finite? {
      CountTimesAtLeast(n, f.val, c);
      ScaleFinite(n as real, f.val);
    }
  }

  lemma CountTimesAtLeast(n: nat, v: real, c: real)
    requires n >= 1 && v >= c >= 0.0
    ensures n as real * v >= c
  {
  }

  /** An empty prompt leaves the page asking for one, whatever the
      pricing and the model. */
  lemma EmptyPromptAsksForPrompt(pricing: JsVal, active: string, encoded: seq<int>, co2e: Option<JsNum>)
    ensures var (tokens, _) := PromptEffect("", encoded, co2e);
            var (c, fallback) := CarbonEffect(pricing, active, |tokens|);
            PanelOf(c, fallback, |tokens|) == EnterPrompt
  {
  }
}
