/** The pricing endpoint (app/api/pricing/route.ts): loosely typed rows
    from the database are normalised into `PricingEntry` values, folded
    into a map keyed by model name, and served with a provenance tag;
    when the database gives nothing usable the bundled file is served
    instead, and when that cannot be read the answer is a 500. */
module PricingRoute {
  import opened Basics
  import opened Text
  import opened Js
  import opened PricingTypes

  /** One row of the pricing table: an object with arbitrary columns. */
  type Row = Dict<JsVal>

  // Column aliases, in the priority the route tries them.
  const NameKeys: seq<string> := ["model", "name", "model_name", "slug", "id"]
  const InputKeys: seq<string> := ["input_cost", "inputPrice", "input_price", "pricing_input"]
  const NestedInputKeys: seq<string> := ["input", "prompt"]
  const OutputKeys: seq<string> := ["output_cost", "outputPrice", "output_price", "pricing_output"]
  const NestedOutputKeys: seq<string> := ["output", "completion"]
  const Co2eKeys: seq<string> := ["co2e_factor", "co2eFactor", "emissions_factor"]
  const NestedCo2eKeys: seq<string> := ["co2eFactor", "emissions"]
  const AvgOutputKeys: seq<string> := ["avg_output_tokens", "avgOutputTokens", "output_token_average", "avg_output"]
  const ProviderKeys: seq<string> := ["provider", "vendor", "source"]
  const DescriptionKeys: seq<string> := ["description", "notes", "summary"]

  /** Columns that never end up in `metadata`. */
  const KnownKeys: set<string> := {
    "pricing", "model", "name", "model_name", "slug", "id",
    "input_cost", "inputPrice", "input_price", "pricing_input",
    "output_cost", "outputPrice", "output_price", "pricing_output",
    "co2e_factor", "co2eFactor", "emissions_factor",
    "avg_output_tokens", "avgOutputTokens", "output_token_average", "avg_output",
    "provider", "vendor", "source",
    "description", "notes", "summary",
    "created_at", "updated_at"
  }

  const UnavailableMessage: string := "Pricing data is unavailable."

  /** `row[k]`. */
  function Field(row: Row, k: string): JsVal
  {
    Prop(Obj(row), k)
  }

  /** A finite number, or a string whose trimmed text is non-empty and
      converts to a finite number; anything else is `null`, never 0. */
  function ParseNumber(v: JsVal, h: Host): (r: Option<real>)
    ensures v.Num? ==> r == (if v.n.Finite? then Some(v.n.val) else None)
    ensures v.Str? ==> (r.Some? <==> !IsBlank(v.s) && h.stringToNumber(Trim(v.s)).Finite?)
    ensures v.Str? && r.Some? ==> h.stringToNumber(Trim(v.s)) == Finite(r.value)
    ensures !v.Num? && !v.Str? ==> r.None?
  {
    match v
    case Num(n) => if n.Finite? then Some(n.val) else None
    case Str(s) =>
      var trimmed := Trim(s);
      if |trimmed| == 0 then None
      else
        var parsed := h.stringToNumber(trimmed);
        if parsed.Finite? then Some(parsed.val) else None
    case _ => None
  }

  /** A string's trimmed text when non-empty, or a finite number's string
      form; the result is never empty. */
  function ParseString(v: JsVal, h: Host): (r: Option<string>)
    ensures r.Some? ==> |r.value| > 0
    ensures v.Str? ==> r == (if IsBlank(v.s) then None else Some(Trim(v.s)))
    ensures v.Num? ==> (r.Some? <==> v.n.Finite?)
    ensures v.Num? && v.n.Finite? ==> r == Some(h.numberToString(v.n))
    ensures !v.Num? && !v.Str? ==> r.None?
  {
    match v
    case Str(s) =>
      var trimmed := Trim(s);
      if |trimmed| > 0 then Some(trimmed) else None
    case Num(n) => if n.Finite? then Some(h.numberToString(n)) else None
    case _ => None
  }

  /** The nested `pricing` object: an object as is, or a string holding the
      JSON text of one. A string that fails to parse, or parses to anything
      but an object, counts as no nested object; the row is kept. */
  function ParsePricingPayload(v: JsVal, h: Host): (r: Option<Dict<JsVal>>)
    ensures v.Obj? ==> r == Some(v.fields)
    ensures v.Str? ==> (r.Some? <==> h.parseJson(v.s).Some? && h.parseJson(v.s).value.Obj?)
    ensures v.Str? && r.Some? ==> h.parseJson(v.s) == Some(Obj(r.value))
    ensures !v.Obj? && !v.Str? ==> r.None?
  {
    match v
    case Str(s) =>
      (match h.parseJson(s)
       case Some(Obj(fields)) => Some(fields)
       case _ => None)
    case Obj(fields) => Some(fields)
    case _ => None
  }

  /** The values a canonical field is looked up in, highest priority first:
      every direct column, then (only when a nested object exists) its
      nested keys. */
  function Candidates(row: Row, payload: Option<Dict<JsVal>>, direct: seq<string>, nested: seq<string>): (vs: seq<JsVal>)
    ensures |vs| == |direct| + (if payload.Some? then |nested| else 0)
    ensures forall i :: 0 <= i < |direct| ==> vs[i] == Field(row, direct[i])
    ensures payload.Some? ==> forall i :: 0 <= i < |nested| ==> vs[|direct| + i] == Field(payload.value, nested[i])
  {
    var own := seq(|direct|, i requires 0 <= i < |direct| => Field(row, direct[i]));
    match payload
    case Some(p) => own + seq(|nested|, i requires 0 <= i < |nested| => Field(p, nested[i]))
    case None => own
  }

  /** The first candidate that parses as a number (`a ?? b ?? …`). */
  function FirstNumber(vs: seq<JsVal>, h: Host): Option<real>
  {
    FirstSome(vs, v => ParseNumber(v, h))
  }

  /** The first candidate that parses as a non-empty string
      (`a || b || …`; `ParseString` never yields "", so `||` and `??`
      agree here). */
  function FirstString(vs: seq<JsVal>, h: Host): Option<string>
  {
    FirstSome(vs, v => ParseString(v, h))
  }

  function NameOf(row: Row, h: Host): Option<string>
  {
    FirstString(Candidates(row, None, NameKeys, []), h)
  }

  /** The row's columns outside the known set, in order, values unchanged. */
  function Extras(row: Row): (r: Dict<JsVal>)
    ensures forall p :: p in r <==> p in row && p.0 !in KnownKeys
    ensures |r| == 0 <==> forall i :: 0 <= i < |row| ==> row[i].0 in KnownKeys
    ensures |row| == 1 ==> r == (if row[0].0 in KnownKeys then [] else row)
  {
    if |row| == 0 then []
    else
      var rest := Extras(row[1..]);
      assert row == [row[0]] + row[1..];
      assert forall i :: 1 <= i < |row| ==> row[i] == row[1..][i - 1];
      if row[0].0 in KnownKeys then rest else [row[0]] + rest
  }

  /** `Extras` keeps column order: it distributes over concatenation. */
  lemma {:induction false} ExtrasAppend(a: Row, b: Row)
    ensures Extras(a + b) == Extras(a) + Extras(b)
  {
    if |a| == 0 {
      assert a + b == b;
    } else {
      assert (a + b)[0] == a[0];
      assert (a + b)[1..] == a[1..] + b;
      ExtrasAppend(a[1..], b);
    }
  }

  /** `normaliseRow`: `None` exactly when no name column yields a name;
      the accepted name is never empty. */
  function NormaliseRow(row: Row, h: Host): (r: Option<(string, PricingEntry)>)
    ensures r.None? <==> NameOf(row, h).None?
    ensures r.Some? ==> Some(r.value.0) == NameOf(row, h) && |r.value.0| > 0
  {
    var payload := ParsePricingPayload(Field(row, "pricing"), h);
    match NameOf(row, h)
    case None => None
    case Some(name) =>
      var input := FirstNumber(Candidates(row, payload, InputKeys, NestedInputKeys), h);
      var output := FirstNumber(Candidates(row, payload, OutputKeys, NestedOutputKeys), h);
      var extras := Extras(row);
      var entry := PricingEntry(
        pricing := if input.Some? || output.Some? then Some(PricingCosts(input, output)) else None,
        co2eFactor := FirstNumber(Candidates(row, payload, Co2eKeys, NestedCo2eKeys), h),
        avgOutputTokens := FirstNumber(Candidates(row, None, AvgOutputKeys, []), h),
        provider := FirstString(Candidates(row, None, ProviderKeys, []), h),
        description := FirstString(Candidates(row, None, DescriptionKeys, []), h),
        metadata := if |extras| > 0 then Some(extras) else None);
      FirstSomeNonEmpty(Candidates(row, None, NameKeys, []), h);
      Some((name, entry))
  }

  /** Which value each numeric or text field of a normalised entry takes:
      `pricing` is present exactly when one side resolved (the other side
      is then `null`); the other fields only when they resolved. */
  lemma NormaliseRowFields(row: Row, h: Host)
    requires NormaliseRow(row, h).Some?
    ensures
      var payload := ParsePricingPayload(Field(row, "pricing"), h);
      var input := FirstNumber(Candidates(row, payload, InputKeys, NestedInputKeys), h);
      var output := FirstNumber(Candidates(row, payload, OutputKeys, NestedOutputKeys), h);
      var e := NormaliseRow(row, h).value.1;
      && (e.pricing.Some? <==> input.Some? || output.Some?)
      && (e.pricing.Some? ==> e.pricing.value == PricingCosts(input, output))
      && e.co2eFactor == FirstNumber(Candidates(row, payload, Co2eKeys, NestedCo2eKeys), h)
      && e.avgOutputTokens == FirstNumber(Candidates(row, None, AvgOutputKeys, []), h)
      && e.provider == FirstString(Candidates(row, None, ProviderKeys, []), h)
      && e.description == FirstString(Candidates(row, None, DescriptionKeys, []), h)
  {
  }

  /** `metadata` holds exactly the columns outside the known set, values
      unchanged, and is absent when there are none. */
  lemma NormaliseRowMetadata(row: Row, h: Host)
    requires NormaliseRow(row, h).Some?
    ensures var e := NormaliseRow(row, h).value.1;
            && (e.metadata.Some? <==> exists i :: 0 <= i < |row| && row[i].0 !in KnownKeys)
            && (e.metadata.Some? ==> forall p :: p in e.metadata.value <==> p in row && p.0 !in KnownKeys)
  {
  }

  /** Every direct column is tried before the nested object: the nested
      keys matter only when no direct column parses, so a direct 0 beats
      any nested value. */
  lemma DirectBeforeNested(row: Row, payload: Option<Dict<JsVal>>, direct: seq<string>, nested: seq<string>, h: Host)
    requires payload.Some?
    ensures FirstNumber(Candidates(row, payload, direct, nested), h)
            == FirstNumber(Candidates(row, None, direct, []), h)
                 .OrElse(FirstNumber(Candidates(payload.value, None, nested, []), h))
  {
    var own := Candidates(row, None, direct, []);
    var deep := Candidates(payload.value, None, nested, []);
    assert Candidates(row, payload, direct, nested) == own + deep;
    FirstSomeAppend(own, deep, v => ParseNumber(v, h));
  }

  lemma FirstSomeNonEmpty(vs: seq<JsVal>, h: Host)
    ensures FirstString(vs, h).Some? ==> |FirstString(vs, h).value| > 0
  {
    var r := FirstString(vs, h);
    if r.Some? {
      var i :| 0 <= i < |vs| && ParseString(vs[i], h) == r;
    }
  }

  /** `buildPricingMap`: rows are folded in order and rows without a name
      are skipped, so the keys are exactly the names of the rows that
      normalise. */
  function BuildPricingMap(rows: seq<Row>, h: Host): (m: PricingMap)
    ensures DistinctKeys(m)
    ensures forall k :: k in KeySet(m) <==> exists i :: 0 <= i < |rows| && Assigns(NormaliseRow(rows[i], h), k)
  {
    var items := NormaliseAll(rows, h);
    var m := AssignAll(items);
    forall k ensures k in KeySet(m) <==> exists i :: 0 <= i < |rows| && Assigns(NormaliseRow(rows[i], h), k) {
      if k in KeySet(m) {
        var i := SomeAssignment(items, k);
        assert Assigns(NormaliseRow(rows[i], h), k);
      }
    }
    m
  }

  function NormaliseAll(rows: seq<Row>, h: Host): (items: seq<Option<(string, PricingEntry)>>)
    ensures |items| == |rows|
    ensures forall i :: 0 <= i < |rows| ==> items[i] == NormaliseRow(rows[i], h)
  {
    seq(|rows|, i requires 0 <= i < |rows| => NormaliseRow(rows[i], h))
  }

  /** A later row with the same name replaces the earlier entry: the entry
      under each key is that of the last row normalising to that name. */
  lemma BuildPricingMapLastWins(rows: seq<Row>, h: Host, k: string)
    requires k in KeySet(BuildPricingMap(rows, h))
    ensures exists i :: 0 <= i < |rows|
                        && NormaliseRow(rows[i], h) == Some((k, Get(BuildPricingMap(rows, h), k).value))
                        && forall j :: i < j < |rows| ==> !Assigns(NormaliseRow(rows[j], h), k)
  {
    var items := NormaliseAll(rows, h);
    var i := LastAssignment(items, k);
    forall j | i < j < |rows| ensures !Assigns(NormaliseRow(rows[j], h), k) {
      assert items[j] == NormaliseRow(rows[j], h);
    }
  }

  /** What the database query produced. */
  datatype Remote =
    | NoClient                                              // no credentials configured
    | ClientThrew                                           // creating the client raised, before the `try`
    | Threw                                                 // the query raised
    | Answered(error: bool, data: Option<seq<Row>>)         // `None`: data is not an array

  datatype ResponseBody = PricingJson(pricing: PricingMap) | FileText(raw: string) | ErrorJson(message: string)

  datatype Response = Response(status: int, source: DataSource, body: ResponseBody)

  /** The database answered without error, with rows, and some row has a name. */
  predicate RemoteUsable(remote: Remote, h: Host)
  {
    remote.Answered? && !remote.error && remote.data.Some? && |remote.data.value| > 0
    && |BuildPricingMap(remote.data.value, h)| > 0
  }

  /** `respondWithFallback`: the bundled file verbatim, or a 500. */
  function RespondWithFallback(file: Option<string>): (r: Response)
    ensures file.Some? ==> r == Response(200, Fallback, FileText(file.value))
    ensures file.None? ==> r == Response(500, Unavailable, ErrorJson(UnavailableMessage))
  {
    match file
    case Some(raw) => Response(200, Fallback, FileText(raw))
    case None => Response(500, Unavailable, ErrorJson(UnavailableMessage))
  }

  /** `GET`: the database map when it is usable, else the fallback chain.
      `file` is the bundled file's text, `None` when reading it fails. The
      client is created outside the `try`, so when creating it raises the
      handler rejects (`None`) and no fallback is attempted. */
  function Serve(remote: Remote, file: Option<string>, h: Host): (r: Option<Response>)
    ensures r.None? <==> remote.ClientThrew?
    ensures r.Some? ==> (r.value.source == Supabase <==> RemoteUsable(remote, h))
    ensures r.Some? && r.value.source == Supabase ==>
              r.value.status == 200 && r.value.body == PricingJson(BuildPricingMap(remote.data.value, h))
              && |r.value.body.pricing| > 0
    ensures !remote.ClientThrew? && !RemoteUsable(remote, h) ==> r == Some(RespondWithFallback(file))
    ensures r.Some? ==> (r.value.status == 500 <==> r.value.source == Unavailable)
  {
    if remote.ClientThrew? then None
    else if RemoteUsable(remote, h) then Some(Response(200, Supabase, PricingJson(BuildPricingMap(remote.data.value, h))))
    else Some(RespondWithFallback(file))
  }
}
