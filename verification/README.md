# prompt-info pricing and estimate core, in Dafny

prompt-info is a web dashboard: a user pastes a prompt, picks a language
model and sees the token count, an estimated cost and an estimated CO2e
figure. It also shows the prompt rendered in several interchange formats.
This project models the logic behind those figures and proves properties of
it. It covers:

- **the pricing route** (`PricingRoute`). Database rows with loosely named
  columns become a uniform pricing map. The route serves that map, or else
  the bundled JSON file verbatim, or else a 500. An `x-data-source` header
  tells which of the three it did.
- **the direct loader** (`FetchPricing`) used by the client carbon page. It
  reads per-million prices and derives a CO2e factor per model, on a
  logarithmic price scale between 0.0002 and 0.0003 g per token.
- **the pricing hook** (`PricingLoader`). It loads the served map once,
  records its provenance, falls back to an error state, and ignores
  everything after cleanup. It also derives the sorted model list.
- **the three pages** (`PageCommon`, `HomePage`, `CarbonPage`,
  `CarbonClient`): model selection, entry lookup, the cost and CO2e
  effects, the metadata rows, the token slices, the result panel and the
  insight message.
- **the database client configuration** (`ClientConfig`): environment
  priority, trimming, and a cached shared client.
- **the format comparison page** (`FormatCards`): the six cards and which of
  them read back as the prompt.
- **the dataset script's transform** (`FetchData`): CSV text in, and the
  object it writes out.

Supporting modules:

- `Basics` holds `Option`. It also models a JavaScript object as an
  insertion-ordered association list, `Dict`, with property read,
  assignment and the fold of many assignments.
- `Text` models `trim`, `split`, `join`, `replace` and the decimal form of
  naturals.
- `Js` models JavaScript values, numbers with NaN and the infinities,
  truthiness, `??`, `Number()` and property access.
- `JsonText` models `JSON.stringify` of strings: escaping, a reader for
  string literals, and the layout that indentation adds.
- `PricingTypes` models the served entry type and its JSON form.

Built-ins whose exact behaviour the model does not interpret are fields of
a `Host` record passed to the operations that use them:

- `Number(string)`
- `String(number)`
- `parseFloat`
- `JSON.parse`

`Math.log` and `localeCompare` are function parameters. Proofs that need
them assume only that `ln` is strictly increasing on positive reals and
that the comparator is total and transitive.

Behaviour of the code worth noting:

- The home page computes an input cost only: `(tokens / 1000) * input`. No
  output cost, total cost or expected output length exists in the code.
- A page accepts a model's factor when it is any number other than NaN, so
  Infinity is accepted. "A finite number" is not what the code checks.
- The route keeps every unknown column in `metadata` with its value
  unchanged, including null and nested objects. Only the pages drop null,
  blank and non-scalar values when they display the metadata.
- The log-scaled factor is computed in `lib/fetchPricing.ts`, which only the
  client carbon page uses. The route never derives factors.
- When the bundled file cannot be read, the route answers 500 with an error
  object. The hook then holds no pricing (`null`, not an empty map), sets
  an error message and marks the source `unavailable`. A failed direct
  load on the client carbon page leaves an empty map.

## Model

| member | source | states |
|---|---|---|
| PricingRoute.ParseNumber | app/api/pricing/route.ts:18-31 | a finite number is kept; a string counts only when its trimmed text is non-empty and converts to a finite number; every other value is absent, never 0 |
| PricingRoute.ParseString | app/api/pricing/route.ts:33-44 | a string gives its trimmed text unless blank; a finite number gives its string form and any other number nothing; nothing else gives a name; a result is never empty |
| PricingRoute.ParsePricingPayload | app/api/pricing/route.ts:46-57 | an object is taken as is; a string counts exactly when it parses as JSON to an object; a parse failure or any other value gives no nested object rather than an error |
| PricingRoute.Candidates | app/api/pricing/route.ts:73-78 | the lookup list for one canonical field holds every direct column in priority order, followed by the nested keys only when a nested object exists |
| PricingRoute.Extras | app/api/pricing/route.ts:134-166 | the extra columns are exactly the row's columns outside the known set, with unchanged values; there are none exactly when every column is known; a single column is kept exactly when it is unknown |
| PricingRoute.ExtrasAppend | app/api/pricing/route.ts:166 | the extra columns of two runs of columns are those of the first followed by those of the second, so with the single-column case the extras keep the row's column order |
| PricingRoute.NormaliseRow | app/api/pricing/route.ts:59-71 | a row is rejected exactly when none of model, name, model_name, slug or id gives a name; an accepted name is that first name and is non-empty |
| PricingRoute.NormaliseRowFields | app/api/pricing/route.ts:73-132 | `pricing` is present exactly when input or output resolved, and then holds both sides, one possibly null; factor, average output, provider and description are each the first alias that parses, and absent otherwise |
| PricingRoute.NormaliseRowMetadata | app/api/pricing/route.ts:166-169 | `metadata` is present exactly when some column is outside the known set, and then holds exactly those columns with unchanged values |
| PricingRoute.DirectBeforeNested | app/api/pricing/route.ts:73-91 | a nested price matters only when no direct column parses, so a direct 0 beats any nested value |
| PricingRoute.FirstSomeNonEmpty | app/api/pricing/route.ts:99-107 | a provider or description, once found, is never empty, so `||` and `??` agree on these chains |
| PricingRoute.BuildPricingMap | app/api/pricing/route.ts:174-184 | the map has no duplicate key, and its keys are exactly the names of the rows that normalise; rows without a name are skipped and abort nothing |
| PricingRoute.BuildPricingMapLastWins | app/api/pricing/route.ts:181 | the entry under each name is that of the last row normalising to that name; no later row carries the name |
| PricingRoute.RespondWithFallback | app/api/pricing/route.ts:186-208 | a readable bundled file is served verbatim with status 200 and source fallback; an unreadable one gives a 500 with the error message and source unavailable |
| PricingRoute.Serve | app/api/pricing/route.ts:210-238 | the handler rejects, with no fallback and no source header, exactly when creating the client raises, which happens outside the `try`; otherwise the source is the database exactly when the query succeeded with rows and some row normalised, the response then carries the built map and it is non-empty, and in every other case the fallback chain answers; status 500 occurs exactly with source unavailable |
| PricingTypes.EntryJsonFactor | app/api/pricing/route.ts:118-120 | reading `co2eFactor` from a served entry's JSON gives the entry's factor, or undefined when it has none |
| PricingTypes.EntryJsonPricing | app/api/pricing/route.ts:111-116 | reading `pricing` from a served entry's JSON gives its two prices, or undefined |
| PricingTypes.EntryJsonMetadata | app/api/pricing/route.ts:166-169 | reading `metadata` from a served entry's JSON gives the extra columns, or undefined |
| PricingTypes.EntryJsonProvider | app/api/pricing/route.ts:126-128 | reading `provider` from a served entry's JSON gives the provider, or undefined |
| PricingTypes.MapJsonGet | app/api/pricing/route.ts:221 | looking a model up in the served JSON object finds that model's entry in JSON form, or nothing when the map has no such model |
| FetchPricing.NameKey | lib/fetchPricing.ts:43-45 | a record is keyed by a truthy name; a string name is used verbatim exactly when it is non-empty |
| FetchPricing.EstMaxOut | lib/fetchPricing.ts:51-60 | the estimated output length is the floor of the first present alias's number when that number is positive and finite, and 4096 otherwise |
| FetchPricing.EstMaxOutFirstPresentDecides | lib/fetchPricing.ts:51-57 | the first alias that is present decides, even when its value is unusable; later aliases are never consulted |
| FetchPricing.ExtractRow | lib/fetchPricing.ts:42-45 | a record is kept exactly when both its name and its pricing are truthy |
| FetchPricing.ExtractRowFields | lib/fetchPricing.ts:47-62 | a kept record holds its name's key, the three per-million prices as `Number()` converts them, and the estimated output length |
| FetchPricing.ExtractRows | lib/fetchPricing.ts:42-63 | the kept rows are exactly those of the records that pass the filter; a single record gives its row when it passes and nothing otherwise |
| FetchPricing.ExtractRowsAppend | lib/fetchPricing.ts:42-63 | the rows kept from two runs of records are those of the first followed by those of the second, so with the single-record case the kept rows follow record order, one per passing record |
| FetchPricing.Reference | lib/fetchPricing.ts:85 | the reference price is the blended price when that is positive and finite, and otherwise exactly the input price |
| FetchPricing.PriceValues | lib/fetchPricing.ts:66-68 | the collected prices are exactly the positive finite reference prices of the rows, and all are positive |
| FetchPricing.MinOf | lib/fetchPricing.ts:70 | the minimum is one of the prices and is no larger than any of them |
| FetchPricing.MaxOf | lib/fetchPricing.ts:71 | the maximum is one of the prices and is no smaller than any of them |
| FetchPricing.Range | lib/fetchPricing.ts:70-73 | the log range spans the logarithms of the cheapest and the dearest positive price, and is 0 to 0 when there is none |
| FetchPricing.Clamp01 | lib/fetchPricing.ts:90 | the clamped value lies in [0, 1], equals the input when the input already does, is 0 below the range and 1 above it |
| FetchPricing.Multiplier | lib/fetchPricing.ts:86-92 | the multiplier lies in [1, 1.5], and is 1 unless the range is spread and the reference is positive and finite |
| FetchPricing.PerThousand | lib/fetchPricing.ts:78-83 | the per-thousand price is finite exactly when the per-million price is, is then a thousandth of it, is NaN otherwise, and is positive exactly when that price is |
| FetchPricing.EntryOf | lib/fetchPricing.ts:94-100 | each entry's factor lies between 0.0002 and 0.0003; its prices are the per-thousand prices and its average output is the estimated length |
| FetchPricing.FetchPricing | lib/fetchPricing.ts:20-30 | a query error or missing data gives `{}`; the result never repeats a key |
| FetchPricing.BuildKeys | lib/fetchPricing.ts:77-101 | the keys are exactly the kept rows' names; each key holds the entry computed from the last kept row with that name |
| FetchPricing.FetchPricingKeys | lib/fetchPricing.ts:20-103 | a failed query has no keys; otherwise a name is a key exactly when a kept row has it, and the key holds the last such row's entry |
| FetchPricing.FactorRange | lib/fetchPricing.ts:94 | every emitted factor lies between 0.0002 and 0.0003 g per token |
| FetchPricing.PriceWithinRange | lib/fetchPricing.ts:66-71 | every positive reference price lies between the minimum and the maximum |
| FetchPricing.FlatRangeGivesBase | lib/fetchPricing.ts:86-94 | when no positive prices differ, every model gets the base factor; nothing divides by zero |
| FetchPricing.UnpricedGivesBase | lib/fetchPricing.ts:88 | a model whose reference price is not positive and finite gets the base factor |
| FetchPricing.MostExpensiveGetsMax | lib/fetchPricing.ts:88-94 | when prices differ, the dearest model gets exactly 1.5 times the base factor |
| FetchPricing.CheapestGetsBase | lib/fetchPricing.ts:88-94 | when prices differ, the cheapest model gets exactly the base factor |
| FetchPricing.FactorMonotone | lib/fetchPricing.ts:85-94 | a model with a higher reference price never gets a smaller factor |
| PricingLoader.Begin | hooks/usePricingData.ts:26-28 | a load starts loading, clears the error and the source, and keeps the pricing it held |
| PricingLoader.SourceOf | hooks/usePricingData.ts:44-48 | the header names a source exactly when it is one of the three exact source names |
| PricingLoader.Failed | hooks/usePricingData.ts:49-56 | a failure clears the pricing, sets the fixed message and marks the source unavailable |
| PricingLoader.Step | hooks/usePricingData.ts:21-69 | after cleanup nothing changes; otherwise a successful, parsable response sets the pricing and the header's source, anything else is a failure, and loading ends either way |
| PricingLoader.CancelledIsFinal | hooks/usePricingData.ts:39-41 | once cleaned up, no sequence of later events changes the state |
| PricingLoader.FailureReportsError | hooks/usePricingData.ts:32-56 | an error is reported exactly when the response is not a successful, parsable one; it never comes with pricing and always with source unavailable |
| PricingLoader.SortBy | hooks/usePricingData.ts:76 | the sort is a permutation of its input, and ordered under a total comparator |
| PricingLoader.OrderedThroughout | hooks/usePricingData.ts:76 | under a transitive comparator every earlier name may precede every later one, not just its neighbour |
| PricingLoader.Models | hooks/usePricingData.ts:71-77 | without pricing there are no names; otherwise the names are exactly the map's own keys, counted with multiplicity and sorted |
| PricingLoader.ServedModels | hooks/usePricingData.ts:71-77 | for a served map the model list holds every model name exactly once |
| PricingLoader.DeliverReply | hooks/usePricingData.ts:30-34 | a response reaches the page as the route sent it; a rejected handler reaches it as a response that is not ok and has no source header |
| PricingLoader.PageSeesRouteSource | hooks/usePricingData.ts:30-56 | the page learns the route's source, except that a rejected handler or an unparsable bundled file leaves the hook in its failed state, unavailable with the error message; database pricing arrives as the route built it |
| ClientConfig.EnvValue | lib/supabase.ts:29-35 | a variable counts exactly when it is set and not blank, and then gives its trimmed, non-empty text |
| ClientConfig.GetFirstEnvValue | lib/supabase.ts:27-38 | nothing is found exactly when every variable is unset or blank; otherwise the result is the trimmed value of the first usable variable in priority order |
| ClientConfig.EnvValueIsTrimmed | lib/supabase.ts:31-33 | a value from the environment is non-empty and has nothing left to trim |
| ClientConfig.ResolveConfig | lib/supabase.ts:40-53 | two given fields are taken verbatim; otherwise an explicit field wins and a missing one comes from the environment in priority order; a resolved URL and key are never empty |
| ClientConfig.ResolveFailsExactly | lib/supabase.ts:45-50 | resolution fails exactly when a field, after the environment fallback, is missing or empty; an explicit empty string is never replaced by the environment |
| ClientConfig.ShortcutAgreesWithGeneralPath | lib/supabase.ts:41-52 | the early return for two given fields agrees with the general path |
| ClientConfig.GetClient | lib/supabase.ts:55-70 | no configuration gives no client and leaves the cache alone; an explicit field gives a new client without touching the cache; otherwise the cached client, or on a cache miss a new client with the resolved address and key that is then cached |
| ClientConfig.CachePathNeedsNoConfig | lib/supabase.ts:61-67 | the shared client is reached only without any explicit field |
| ClientConfig.ExplicitGivesFreshClient | lib/supabase.ts:61-63 | explicit configuration gives a client no earlier call returned, and leaves the shared client alone |
| ClientConfig.SharedClientIsReused | lib/supabase.ts:65-69 | once made, the shared client is returned by every later call without configuration, even after the environment changed |
| PageCommon.ActiveModel | app/page.tsx:50 | the displayed model is the chosen one when listed, otherwise the first option, and empty without options |
| PageCommon.SelectEffect | app/page.tsx:37-48 | the selection is cleared without options, otherwise always a listed option, and a listed non-empty choice is kept |
| PageCommon.SelectEffectSettles | app/page.tsx:37-48 | running the selection effect on its own result changes nothing, so it never retriggers itself |
| PageCommon.ActiveMatchesSelection | app/page.tsx:45-50 | the displayed model agrees with the selected one except when the choice is empty while an empty option exists that is not the first |
| PageCommon.SelectedEntry | app/page.tsx:51 | there is no entry without an active model or pricing, or when the map lacks the model; when the map has the model, the entry is the map's value for it |
| PageCommon.EntryFactor | app/page.tsx:78-83 | an entry's factor is used exactly when its `co2eFactor` is a number other than NaN, and is then that number |
| PageCommon.InputRate | app/page.tsx:68-70 | the input price is used exactly when `pricing.input` is a number other than NaN, and is then that number |
| PageCommon.ResolvedFactor | app/page.tsx:76-83 | the fallback flag is set exactly when the entry has no usable factor, and the factor used is then 0.0002; the factor is never NaN |
| PageCommon.DisplayValue | app/page.tsx:95-117 | null, undefined and non-scalars are dropped; strings are trimmed and dropped when blank; numbers are written out; booleans become "true" or "false"; whatever is shown is non-empty |
| PageCommon.DisplayEntries | app/page.tsx:94-118 | every shown row comes from a field with that key and value, every displayable field is shown, and no row is empty |
| PageCommon.DisplayEntriesAppend | app/page.tsx:94-118 | order is kept: the rows for two runs of fields are the first run's rows followed by the second's |
| PageCommon.MetadataRows | app/page.tsx:89-92 | there are no rows unless the entry's `metadata` is truthy; for an object they are its displayed fields |
| HomePage.EstimatedCost | app/page.tsx:67-74 | a cost exists exactly when the entry has a usable input price |
| HomePage.CostCo2eEffect | app/page.tsx:53-87 | when idle both figures are cleared and the fallback flag keeps its value; otherwise the figures are those of the selected entry |
| HomePage.EntryMetrics | app/page.tsx:60-86 | for an entry, missing or not, the CO2e figure always exists and uses the entry's factor or else 0.0002, the flag says which, and the cost depends on the input price alone |
| HomePage.Co2eAlwaysShownWhenActive | app/page.tsx:53-87 | whenever the page is not idle it shows a CO2e figure that is not NaN, and any cost it shows is not NaN either |
| HomePage.ServedEntryMetrics | app/page.tsx:60-86 | for an entry served by the route, the page uses the entry's own factor exactly when it has one, and prices the prompt from the input price alone |
| HomePage.ServedMetadataRows | app/page.tsx:89-119 | a served entry's metadata rows are the displayed values of exactly the extra columns the route kept |
| HomePage.SliceSize | app/page.tsx:126 | the slice size is the least number whose tenfold covers the token count |
| HomePage.Slices | app/page.tsx:121-130 | up to ten tokens give one slice per token; more give exactly ten slices, slice i being the fixed window from i times the slice size to the next multiple, cut short at the end; the slices concatenate back to the tokens |
| HomePage.TenSlices | app/page.tsx:125-129 | ten slices, slice i being the fixed window from i times the slice size to the next multiple, cut short at the end, each at most the slice size, concatenating back to the tokens |
| CarbonPage.PromptEffect | app/carbon/page.tsx:22-30 | an empty prompt clears the tokens and the estimate; any other prompt sets its encoding and keeps the estimate |
| CarbonPage.CarbonEffect | app/carbon/page.tsx:79-102 | while idle the estimate and the flag are reset; otherwise the estimate is the token count times the entry's factor, or 0.0002 when there is none, and the flag says which |
| CarbonPage.PanelOf | app/carbon/page.tsx:124-168 | a figure is shown exactly when the estimate is a number other than NaN, starred exactly with the fallback, and written as a figure exactly from 0.0001 g up; otherwise the message depends on whether there are tokens |
| CarbonPage.HomeAndCarbonAgreeWhenActive | app/carbon/page.tsx:79-102 | outside the idle case the carbon page and the home page compute the same estimate and the same flag |
| CarbonPage.VariantsDifferWhenIdle | app/carbon/page.tsx:80-84 | while idle the pages differ only in the flag: this page clears it, the home page keeps the previous one |
| CarbonPage.SettledPanel | app/carbon/page.tsx:162-167 | once settled, the panel asks for a prompt exactly without tokens, says no factor exists exactly with tokens but no pricing or model, and shows an estimate otherwise |
| CarbonPage.LargeFactorShowsFigure | app/carbon/page.tsx:128 | with the fallback factor, or any factor from 0.0001 up, a non-empty prompt's estimate is written as a figure |
| CarbonPage.EmptyPromptAsksForPrompt | app/carbon/page.tsx:22-27 | an empty prompt leaves the panel asking for one, whatever the pricing and the model |
| CarbonClient.OnLoad | app/carbon/CarbonPageClient.tsx:16-36 | after unmounting nothing changes; otherwise the loaded map is stored, or the empty map when loading threw |
| CarbonClient.ModelOptions | app/carbon/CarbonPageClient.tsx:76 | the options are the map's keys in order, and none before it loads |
| CarbonClient.ClientFactor | app/carbon/CarbonPageClient.tsx:55-63 | the fallback is used exactly when the map has no entry for the model; otherwise the entry's factor is used |
| CarbonClient.ClientEffect | app/carbon/CarbonPageClient.tsx:48-67 | while idle the estimate is cleared and the flag is false; otherwise there is an estimate and the flag is set exactly when the map lacks the model |
| CarbonClient.PerThousandFigure | app/carbon/CarbonPageClient.tsx:69-75 | a per-1,000-token figure exists exactly when there is an estimate and tokens |
| CarbonClient.PerThousandIsFactorTimesThousand | app/carbon/CarbonPageClient.tsx:65-75 | once the effect has run, the per-1,000-token figure is 1,000 times the model's factor and does not depend on the prompt |
| CarbonClient.InsightOf | app/carbon/CarbonPageClient.tsx:79-96 | each of the six messages is shown exactly when its condition holds and every earlier one fails |
| CarbonClient.SettledInsightCases | app/carbon/CarbonPageClient.tsx:79-96 | once settled, the "could not calculate" message never shows, and the generic-factor message shows exactly with a prompt, a model and no entry for it |
| CarbonClient.FailedLoadAsksForPricing | app/carbon/CarbonPageClient.tsx:25-29 | a failed load leaves the page asking for pricing data whenever there is a prompt |
| CarbonClient.EstimateWithinRange | app/carbon/CarbonPageClient.tsx:55-65 | with factors between 0.0002 and 0.0003, every estimate lies between those bounds times the token count, whatever the model |
| CarbonClient.FetchedFactorsInRange | app/carbon/CarbonPageClient.tsx:21 | every factor in a map the direct loader builds lies between 0.0002 and 0.0003 |
| FormatCards.Clean | app/format-comparison/page.tsx:8 | the cards' text is the trimmed prompt, or the sample prompt when the prompt is blank; it is never empty |
| FormatCards.CleanIdempotent | app/format-comparison/page.tsx:8 | cleaning twice is cleaning once, and white space around the prompt changes nothing |
| FormatCards.ToonRoundTrip | app/format-comparison/page.tsx:17-18 | read by a reader that knows only the `\"` escape, the TOON value reads back as the text exactly when the text does not end with a backslash |
| Text.ReplaceAll | app/format-comparison/page.tsx:18 | the global replacement leaves a text without the character unchanged, maps a one-character text to the replacement or itself, and leaves no occurrence when the replacement has none |
| Text.ReplaceAllAppend | app/format-comparison/page.tsx:18 | replacing in two joined texts is replacing in each and joining, so with the one-character case every occurrence, and only those, is replaced in place |
| FormatCards.TrailingBackslashEscapesQuote | app/format-comparison/page.tsx:18 | for a reader that knows only the `\"` escape, a trailing backslash escapes the closing quote, so the value read is not the text |
| FormatCards.CsvRoundTrip | app/format-comparison/page.tsx:42-43 | the quoted CSV field reads back as the text, whatever the text, when no quote follows the closing one |
| FormatCards.PrettyStripsToCompact | app/format-comparison/page.tsx:23-24 | removing the layout from the pretty JSON card gives the compact card: both hold the same document |
| FormatCards.JsonCompactRoundTrip | app/format-comparison/page.tsx:24 | the compact JSON card's prompt value reads back as exactly the text, whatever the text |
| FormatCards.YamlKeepsLines | app/format-comparison/page.tsx:26-30 | the YAML card keeps its five-line structure exactly when the text has no line break |
| FormatCards.XmlKeepsLines | app/format-comparison/page.tsx:32-40 | the XML card keeps its nine-line structure exactly when the text has no line break |
| FormatCards.BuildFormats | app/format-comparison/page.tsx:7-55 | there are six cards |
| FormatCards.CsvCardReadsBack | app/format-comparison/page.tsx:42-45 | after its head, the CSV card reads back as the cleaned prompt followed by the rest of the card |
| FormatCards.ToonCardReadsBack | app/format-comparison/page.tsx:17-21 | after its head, read by a reader that knows only the `\"` escape, the TOON card reads back as the cleaned prompt exactly when the prompt does not end with a backslash |
| FormatCards.CardsDependOnCleanText | app/format-comparison/page.tsx:7-8 | the cards depend on the prompt only through its cleaned text |
| JsonText.EscapeChar | app/format-comparison/page.tsx:24 | an escape is one, two or six characters; a one-character escape is the character itself and never a quote or a backslash; longer ones start with a backslash and hold no further quote or backslash after their second character; none holds a line break |
| JsonText.ReadQuoted | app/format-comparison/page.tsx:24 | reading a string literal gives back exactly the string and the text after the literal |
| JsonText.QuoteInjective | app/format-comparison/page.tsx:24 | different strings give different JSON literals |
| JsonText.StripQuoted | app/format-comparison/page.tsx:23 | indentation layout never touches a quoted string |
| FetchData.DataLines | scripts/fetch-data.js:11-12 | the data lines have no line break, and together with some header line they join back to the trimmed text |
| FetchData.PriceOf | scripts/fetch-data.js:17-18 | a field without a dollar sign is parsed as it is |
| FetchData.DollarPrefix | scripts/fetch-data.js:17 | a price with one leading dollar sign reads as the number after it |
| FetchData.ParseLine | scripts/fetch-data.js:15-19 | a parsed line's name holds no comma |
| FetchData.ParseFields | scripts/fetch-data.js:15-19 | a line with a name and two prices reads as them, whatever extra fields follow |
| FetchData.ShortLineFails | scripts/fetch-data.js:15-17 | a line with no comma, or with a single comma, has fewer than three fields and so gives no prices |
| FetchData.Co2Factor | scripts/fetch-data.js:22-31 | the factor is 0.005 for the two gpt-4 names, 0.002 for gpt-3.5-turbo, and 0 for every other name |
| FetchData.Merge | scripts/fetch-data.js:27-33 | the merged object has the same keys in the same order, each with its prices and its name's factor |
| FetchData.Transform | scripts/fetch-data.js:11-33 | the script aborts exactly when some data line has fewer than three fields |
| FetchData.WrittenEntries | scripts/fetch-data.js:13-33 | the written object has one entry per distinct name, holding the prices of the last line with that name and its own factor |
| FetchData.HeaderOnlyWritesNothing | scripts/fetch-data.js:11-12 | a text with only a header writes an empty object |
| Basics.Put | app/api/pricing/route.ts:181 | assignment makes the key read as the new value and leaves every other key alone; a present key keeps its position, a new key goes last |
| Basics.AssignAll | app/api/pricing/route.ts:175-183 | folding assignments from `{}` gives distinct keys, exactly the assigned ones, each holding the value of its last assignment |
| Basics.AssignTwice | app/api/pricing/route.ts:181 | of two assignments to one key, only the second's value remains |
| Basics.FirstSome | app/api/pricing/route.ts:62-67 | an alias chain yields nothing exactly when every alias fails; otherwise it yields the first alias that succeeds |
| Basics.FirstSomeAppend | app/api/pricing/route.ts:73-78 | a later group of aliases matters only when every earlier alias failed |
| Basics.Somes | lib/fetchPricing.ts:42-45 | the kept values are exactly the present ones, no more of them than items; one item gives its value when present and nothing otherwise |
| Basics.SomesAppend | lib/fetchPricing.ts:40-63 | keeping the present values of two runs gives those of the first followed by those of the second, as pushing in loop order does |
| Basics.KeepValues | app/page.tsx:94-118 | filtering keeps exactly the fields that yield a value, with that value and their key |
| Js.OwnEntries | app/page.tsx:94 | `Object.entries` lists an object's own properties in order, an array's elements or a string's characters under their index keys, and nothing for other values |
| Js.Prop | app/page.tsx:51 | reading a property gives an object's own property or undefined; any other value gives undefined for the names the pages read |
| Js.Coalesce | lib/fetchPricing.ts:51-57 | a `??` chain yields the first value that is not null or undefined, or the last value when all of them are |
| Js.ToNumber | lib/fetchPricing.ts:47-49 | `Number()` keeps numbers; it gives NaN for undefined, 0 for null, and 1 or 0 for booleans |
| Js.Scale | app/page.tsx:85 | a token count times a finite factor is the finite product; the product is NaN exactly for NaN or for zero times an infinity |
| Js.ScaleThenDivide | app/carbon/CarbonPageClient.tsx:73-74 | multiplying by a positive count and dividing by it again gives the value back, special values included |
| Text.Trim | lib/supabase.ts:31 | `trim` removes a blank prefix and a blank suffix and keeps the slice between; the result has no white space at either end and is empty exactly for blank text |
| Text.TrimIdempotent | lib/supabase.ts:31 | trimming twice is trimming once |
| Text.Split | scripts/fetch-data.js:11 | the pieces hold no separator, there is at least one, and they join back to the text |
| Text.SplitJoin | scripts/fetch-data.js:15 | splitting undoes a join of pieces without the separator |
| Text.RemoveFirst | scripts/fetch-data.js:17 | only the first occurrence of the character is removed; text without it is unchanged |
| Text.NatToStringInjective | app/page.tsx:94 | distinct element indices give distinct property keys |

## Left out

- Network and file I/O: the database query, `fetch`, `readFile`, the
  download and the file write of the dataset script. Their outcomes are
  parameters.
- Number formatting: `toFixed`, `toExponential` and `Number.prototype.toString`
  are not modelled. `String(number)`, `Number(string)`, `parseFloat` and
  `JSON.parse` are uninterpreted fields of `Host`. The model only
  distinguishes NaN, the infinities and finite reals, and floating-point
  rounding is not modelled.
- `Math.log` and `localeCompare` are not interpreted and are function
  parameters. Of the tokenizer's `encode` only the result is a parameter.
- ClientConfig.GetClient: `createClient` is modelled as always returning a
  client, recorded only by its address, key and creation number. That it
  may raise (for example on a malformed address) appears only at the
  route, as the `ClientThrew` case of `PricingRoute.Remote`.
- JavaScript property order for integer-like keys: objects are modelled
  with insertion order for every key. Inherited and special names such as
  `__proto__` or `constructor` are not modelled, so
  `co2Factors[model]` for such a name is modelled as 0.
- `JSON.stringify` writing NaN and the infinities as `null` is not
  modelled. Served entries hold finite numbers only, as `ParseNumber`
  ensures.
- A JSON response body that parses to something other than an object is
  treated as a map without entries only through `Js.OwnEntries`. Its
  effect on the React state type is not modelled.
- A character here is a Unicode scalar value, not a 16-bit code unit as
  in JavaScript. A character outside the Basic Multilingual Plane is one
  character in the model but two code units in JavaScript, and lone
  surrogates cannot be represented at all, so a `\uD800`-style escape
  reads as nothing. No card escapes a character at or above 0x20, so the
  cards' text is the same either way; lengths of such text are counted in
  characters, not code units.
- React scheduling, re-renders and effect ordering are not modelled. Each
  effect is a function of the state it reads.
- The carbon page's details block (app/carbon/page.tsx:135-160) and its
  fallback banner (app/carbon/page.tsx:115-122) only display values, and
  are not modelled.
- The client carbon page's `modelsLoading` flag
  (app/carbon/CarbonPageClient.tsx:77) only drives the model select's
  loading look.
- The client carbon page's prompt effect
  (app/carbon/CarbonPageClient.tsx:38-46) is the same function as
  `CarbonPage.PromptEffect`.
- The home page's prompt effect (app/page.tsx:26-35) only calls the
  tokenizer's encoder and decoder.
- The table name selection from `SUPABASE_PRICING_TABLE` and
  `SUPABASE_PRICING_VIEW` (app/api/pricing/route.ts:8-11) is not
  modelled. It only names the queried table.
- The query's `.not('pricing', 'is', null)` and `.limit(1000)`
  (lib/fetchPricing.ts:21-25) run on the database side. The model takes
  the rows they return.
- The TOON, YAML and XML cards do not escape the prompt as their formats
  would require. The model keeps the code's behaviour and states when the
  cards still read back. The TOON statements are relative to a reader that
  knows only the `\"` escape; a reader of the full TOON grammar, which also
  treats a backslash before other characters, is not modelled.
- FormatCards.BuildFormats: its contract states only the card count. The
  order and labels of the cards are fixed text, and the content of each
  card is stated by the read-back lemmas.
- FetchPricing.NameKey: an array name is not converted to its joined
  string form as a property key would be, because the database column
  holds text.
- HomePage.EstimatedCost: its contract states when a cost exists. The
  value is stated for served entries by `HomePage.ServedEntryMetrics`.
