/** The server-side loader of lib/fetchPricing.ts: it turns raw
    `aa_models` rows (a name and a provider pricing object quoted per
    million tokens) into per-thousand prices, an estimated output length
    and a carbon factor scaled by where the model's price sits between
    the cheapest and the most expensive model on a logarithmic scale. */
module FetchPricing {
  import opened Basics
  import opened Js

  const MillionToThousandRatio: real := 1000.0
  const BaseCo2eFactor: real := 0.0002
  const MaxCo2eMultiplier: real := 1.5
  const DefaultOutputTokens: nat := 4096

  /** The aliases for the maximum output length, in priority order. */
  const MaxOutKeys: seq<string> :=
    ["max_output_tokens", "max_output_length", "context_window", "context_length", "output_tokens_max"]

  type Row = Dict<JsVal>

  /** The outcome of the `aa_models` query. */
  datatype Query = QueryFailed | QueryOk(data: Option<seq<Row>>)

  /** A usable row, with its prices per million tokens as `Number()` gave them. */
  datatype RowShape = RowShape(name: string, perMillionIn: JsNum, perMillionOut: JsNum,
                               blended: JsNum, estMaxOut: nat)

  /** The entry this loader emits: every field is always present. */
  datatype FetchEntry = FetchEntry(input: JsNum, output: JsNum, co2eFactor: real, avgOutputTokens: nat)

  /** `isFinite(x) && x > 0`. */
  predicate Positive(x: JsNum)
  {
    x.Finite? && x.val > 0.0
  }

  /** The property key `result[name]` writes for a truthy `name`: the
      string itself, the number's string form, `"true"` or the string form
      of a plain object. Arrays are not converted (see README). */
  function NameKey(name: JsVal, h: Host): (r: Option<string>)
    ensures r.Some? ==> Truthy(name) && |r.value| > 0
    ensures name.Str? ==> (r.Some? <==> |name.s| > 0) && (r.Some? ==> r.value == name.s)
  {
    match name
    case Str(s) => if |s| > 0 then Some(s) else None
    case Num(n) => if Truthy(name) then Some(h.numberToString(n)) else None
    case Bool(b) => if b then Some("true") else None
    case Obj(_) => Some("[object Object]")
    case _ => None
  }

  /** `Number(pricing.max_output_tokens ?? … ?? pricing.output_tokens_max)`,
      floored when it is a positive finite number and 4096 otherwise. */
  function EstMaxOut(pricing: JsVal, h: Host): (r: nat)
    ensures var raw := ToNumber(Coalesce(seq(5, i requires 0 <= i < 5 => Prop(pricing, MaxOutKeys[i]))), h);
            (Positive(raw) ==> r as real <= raw.val < r as real + 1.0)
            && (!Positive(raw) ==> r == DefaultOutputTokens)
  {
    var raw := ToNumber(Coalesce(seq(5, i requires 0 <= i < 5 => Prop(pricing, MaxOutKeys[i]))), h);
    if Positive(raw) then raw.val.Floor else DefaultOutputTokens
  }

  /** The first alias that is present decides, even when its value is not a
      usable number: later aliases are not consulted. */
  lemma EstMaxOutFirstPresentDecides(pricing: JsVal, h: Host, i: nat)
    requires i < 5
    requires !Nullish(Prop(pricing, MaxOutKeys[i]))
    requires forall j :: 0 <= j < i ==> Nullish(Prop(pricing, MaxOutKeys[j]))
    ensures var raw := ToNumber(Prop(pricing, MaxOutKeys[i]), h);
            (Positive(raw) ==> EstMaxOut(pricing, h) == raw.val.Floor)
            && (!Positive(raw) ==> EstMaxOut(pricing, h) == DefaultOutputTokens)
  {
    var vs := seq(5, j requires 0 <= j < 5 => Prop(pricing, MaxOutKeys[j]));
    var c := Coalesce(vs);
    assert vs[i] == Prop(pricing, MaxOutKeys[i]);
    assert !Nullish(c);
    var w :| 0 <= w < |vs| && vs[w] == c && forall j :: 0 <= j < w ==> Nullish(vs[j]);
    assert w == i;
  }

  /** The row kept for a database record: both `name` and `pricing` must be
      truthy. */
  function ExtractRow(row: Row, h: Host): (r: Option<RowShape>)
    ensures r.Some? <==> Truthy(Prop(Obj(row), "pricing")) && NameKey(Prop(Obj(row), "name"), h).Some?
  {
    var name := Prop(Obj(row), "name");
    var pricing := Prop(Obj(row), "pricing");
    var key := NameKey(name, h);
    if !Truthy(pricing) || key.None? then None
    else
      Some(RowShape(key.value,
                    ToNumber(Prop(pricing, "price_1m_input_tokens"), h),
                    ToNumber(Prop(pricing, "price_1m_output_tokens"), h),
                    ToNumber(Prop(pricing, "price_1m_blended_3_to_1"), h),
                    EstMaxOut(pricing, h)))
  }

  /** What a kept row holds: the name's key, the three prices as
      `Number()` converts them, and the estimated output length. */
  lemma ExtractRowFields(row: Row, h: Host)
    requires ExtractRow(row, h).Some?
    ensures var r := ExtractRow(row, h).value; var p := Prop(Obj(row), "pricing");
            r.name == NameKey(Prop(Obj(row), "name"), h).value
            && r.perMillionIn == ToNumber(Prop(p, "price_1m_input_tokens"), h)
            && r.perMillionOut == ToNumber(Prop(p, "price_1m_output_tokens"), h)
            && r.blended == ToNumber(Prop(p, "price_1m_blended_3_to_1"), h)
            && r.estMaxOut == EstMaxOut(p, h)
  {
  }

  /** The kept rows, in query order. */
  function ExtractRows(data: seq<Row>, h: Host): (rows: seq<RowShape>)
    ensures |rows| <= |data|
    ensures forall r :: r in rows <==> exists i :: 0 <= i < |data| && ExtractRow(data[i], h) == Some(r)
    ensures |data| == 1 ==> rows == (if ExtractRow(data[0], h).Some? then [ExtractRow(data[0], h).value] else [])
  {
    var rows := Somes(Extracted(data, h));
    forall r ensures r in rows <==> exists i :: 0 <= i < |data| && ExtractRow(data[i], h) == Some(r) {
      ExtractedMember(data, h, r);
    }
    rows
  }

  /** The kept rows follow the order of the records: extraction distributes
      over concatenation. */
  lemma ExtractRowsAppend(a: seq<Row>, b: seq<Row>, h: Host)
    ensures ExtractRows(a + b, h) == ExtractRows(a, h) + ExtractRows(b, h)
  {
    ExtractedAppend(a, b, h);
    KeptExtracted(a + b, h);
    KeptExtracted(a, h);
    KeptExtracted(b, h);
    SomesAppend(Extracted(a, h), Extracted(b, h));
  }

  lemma KeptExtracted(data: seq<Row>, h: Host)
    ensures ExtractRows(data, h) == Somes(Extracted(data, h))
  {
  }

  lemma ExtractedAppend(a: seq<Row>, b: seq<Row>, h: Host)
    ensures Extracted(a + b, h) == Extracted(a, h) + Extracted(b, h)
  {
    var l, r, ab := Extracted(a, h), Extracted(b, h), Extracted(a + b, h);
    forall i | 0 <= i < |ab| ensures ab[i] == (l + r)[i] {
      if i < |a| {
        assert (a + b)[i] == a[i];
      } else {
        assert (a + b)[i] == b[i - |a|];
      }
    }
  }

  lemma ExtractedMember(data: seq<Row>, h: Host, r: RowShape)
    ensures Some(r) in Extracted(data, h) <==> exists i :: 0 <= i < |data| && ExtractRow(data[i], h) == Some(r)
  {
    var items := Extracted(data, h);
    if Some(r) in items {
      var i :| 0 <= i < |items| && items[i] == Some(r);
    }
    if exists i :: 0 <= i < |data| && ExtractRow(data[i], h) == Some(r) {
      var i :| 0 <= i < |data| && ExtractRow(data[i], h) == Some(r);
      assert items[i] == Some(r);
    }
  }

  /** `ExtractRow` applied to each record. */
  function Extracted(data: seq<Row>, h: Host): (items: seq<Option<RowShape>>)
    ensures |items| == |data|
    ensures forall i :: 0 <= i < |data| ==> items[i] == ExtractRow(data[i], h)
  {
    seq(|data|, i requires 0 <= i < |data| => ExtractRow(data[i], h))
  }

  /** The price used to place a model on the scale: the blended price when
      it is positive, else the input price. */
  function Reference(r: RowShape): (x: JsNum)
    ensures x == r.blended || x == r.perMillionIn
    ensures Positive(r.blended) ==> x == r.blended
    ensures !Positive(r.blended) ==> x == r.perMillionIn
  {
    if Positive(r.blended) then r.blended else r.perMillionIn
  }

  /** `priceValues`: the positive finite reference prices, in row order. */
  function PriceValues(rows: seq<RowShape>): (vs: seq<real>)
    ensures forall v :: v in vs <==> exists i :: 0 <= i < |rows| && Positive(Reference(rows[i]))
                                               && Reference(rows[i]).val == v
    ensures forall j :: 0 <= j < |vs| ==> vs[j] > 0.0
  {
    if |rows| == 0 then []
    else
      var x := Reference(rows[0]);
      var rest := PriceValues(rows[1..]);
      assert forall v :: v in rest <==> exists i :: 1 <= i < |rows| && Positive(Reference(rows[i]))
                                                  && Reference(rows[i]).val == v by {
        forall v | v in rest ensures exists i :: 1 <= i < |rows| && Positive(Reference(rows[i]))
                                                 && Reference(rows[i]).val == v {
          var i :| 0 <= i < |rows[1..]| && Positive(Reference(rows[1..][i])) && Reference(rows[1..][i]).val == v;
          assert rows[i + 1] == rows[1..][i];
        }
        forall v, i | 1 <= i < |rows| && Positive(Reference(rows[i])) && Reference(rows[i]).val == v
          ensures v in rest {
          assert rows[1..][i - 1] == rows[i];
        }
      }
      (if Positive(x) then [x.val] else []) + rest
  }

  /** `Math.min(...vs)` of a non-empty list. */
  function MinOf(vs: seq<real>): (m: real)
    requires |vs| > 0
    ensures m in vs
    ensures forall j :: 0 <= j < |vs| ==> m <= vs[j]
  {
    if |vs| == 1 then vs[0]
    else
      var rest := MinOf(vs[1..]);
      assert forall j :: 1 <= j < |vs| ==> vs[j] == vs[1..][j - 1];
      if vs[0] <= rest then vs[0] else rest
  }

  /** `Math.max(...vs)` of a non-empty list. */
  function MaxOf(vs: seq<real>): (m: real)
    requires |vs| > 0
    ensures m in vs
    ensures forall j :: 0 <= j < |vs| ==> vs[j] <= m
  {
    if |vs| == 1 then vs[0]
    else
      var rest := MaxOf(vs[1..]);
      assert forall j :: 1 <= j < |vs| ==> vs[j] == vs[1..][j - 1];
      if rest <= vs[0] then vs[0] else rest
  }

  /** `Math.log` restricted to what the proofs use of it: it is strictly
      increasing on the positive reals. */
  ghost predicate IncreasingOnPositives(ln: real -> real)
  {
    forall x: real, y: real :: 0.0 < x < y ==> ln(x) < ln(y)
  }

  /** `logMin` and `logMax`: the logarithms of the cheapest and the most
      expensive reference price, both 0 when no model has a positive price. */
  datatype LogRange = LogRange(logMin: real, logMax: real)

  function Range(rows: seq<RowShape>, ln: real -> real): (g: LogRange)
    ensures |PriceValues(rows)| == 0 ==> g == LogRange(0.0, 0.0)
    ensures |PriceValues(rows)| > 0 ==>
              g == LogRange(ln(MinOf(PriceValues(rows))), ln(MaxOf(PriceValues(rows))))
  {
    var vs := PriceValues(rows);
    var minPrice := if |vs| > 0 then MinOf(vs) else 0.0;
    var maxPrice := if |vs| > 0 then MaxOf(vs) else 0.0;
    LogRange(if minPrice > 0.0 then ln(minPrice) else 0.0, if maxPrice > 0.0 then ln(maxPrice) else 0.0)
  }

  /** `Math.min(1, Math.max(0, x))`. */
  function Clamp01(x: real): (r: real)
    ensures 0.0 <= r <= 1.0
    ensures 0.0 <= x <= 1.0 ==> r == x
    ensures x < 0.0 ==> r == 0.0
    ensures x > 1.0 ==> r == 1.0
  {
    if x < 0.0 then 0.0 else if x > 1.0 then 1.0 else x
  }

  /** The carbon multiplier of a model with reference price `ref`. */
  function Multiplier(ref: JsNum, g: LogRange, ln: real -> real): (m: real)
    ensures 1.0 <= m <= MaxCo2eMultiplier
    ensures !(g.logMax > g.logMin && Positive(ref)) ==> m == 1.0
  {
    if g.logMax > g.logMin && Positive(ref) then
      1.0 + (MaxCo2eMultiplier - 1.0) * Clamp01((ln(ref.val) - g.logMin) / (g.logMax - g.logMin))
    else 1.0
  }

  /** `isFinite(x) ? x / 1000 : NaN`: an infinite price becomes NaN. */
  function PerThousand(x: JsNum): (r: JsNum)
    ensures Positive(x) <==> Positive(r)
    ensures r.Finite? <==> x.Finite?
    ensures r.Finite? ==> r.val * MillionToThousandRatio == x.val
    ensures !x.Finite? ==> r == NaN
  {
    if x.Finite? then Finite(x.val / MillionToThousandRatio) else NaN
  }

  /** The entry written for one kept row. */
  function EntryOf(r: RowShape, g: LogRange, ln: real -> real): (e: FetchEntry)
    ensures BaseCo2eFactor <= e.co2eFactor <= BaseCo2eFactor * MaxCo2eMultiplier
    ensures e.avgOutputTokens == r.estMaxOut
    ensures e.input == PerThousand(r.perMillionIn) && e.output == PerThousand(r.perMillionOut)
  {
    FetchEntry(PerThousand(r.perMillionIn), PerThousand(r.perMillionOut),
               BaseCo2eFactor * Multiplier(Reference(r), g, ln), r.estMaxOut)
  }

  /** The assignments `result[r.name] = …`, one per kept row. */
  function Assignments(rows: seq<RowShape>, g: LogRange, ln: real -> real): (items: seq<Option<(string, FetchEntry)>>)
    ensures |items| == |rows|
    ensures forall i :: 0 <= i < |rows| ==> items[i] == Some((rows[i].name, EntryOf(rows[i], g, ln)))
  {
    seq(|rows|, i requires 0 <= i < |rows| => Some((rows[i].name, EntryOf(rows[i], g, ln))))
  }

  /** The kept rows of a successful query (`data ?? []`). */
  function KeptRows(q: Query, h: Host): (rows: seq<RowShape>)
    requires q.QueryOk?
    ensures q.data.None? ==> rows == []
  {
    ExtractRows(match q.data case Some(d) => d case None => [], h)
  }

  /** The result object built from the kept rows, one assignment per row. */
  function Build(rows: seq<RowShape>, ln: real -> real): (m: Dict<FetchEntry>)
    ensures DistinctKeys(m)
  {
    AssignAll(Assignments(rows, Range(rows, ln), ln))
  }

  /** `fetchPricing()` given the query's outcome: `{}` on a query error. */
  function FetchPricing(q: Query, h: Host, ln: real -> real): (m: Dict<FetchEntry>)
    ensures q.QueryFailed? ==> m == []
    ensures q.QueryOk? && q.data.None? ==> m == []
    ensures DistinctKeys(m)
  {
    match q
    case QueryFailed => []
    case QueryOk(_) => Build(KeptRows(q, h), ln)
  }

  /** The keys are exactly the kept rows' names; under each key sits the
      entry computed from the LAST kept row with that name. */
  lemma BuildKeys(rows: seq<RowShape>, ln: real -> real, k: string)
    ensures k in KeySet(Build(rows, ln)) <==> exists i :: 0 <= i < |rows| && rows[i].name == k
    ensures k in KeySet(Build(rows, ln)) ==>
              exists i :: 0 <= i < |rows| && rows[i].name == k
                          && Get(Build(rows, ln), k).value == EntryOf(rows[i], Range(rows, ln), ln)
                          && forall j :: i < j < |rows| ==> rows[j].name != k
  {
    if k in KeySet(Build(rows, ln)) {
      BuildLastRow(rows, ln, k);
    } else {
      BuildMissingKey(rows, ln, k);
    }
  }

  lemma BuildLastRow(rows: seq<RowShape>, ln: real -> real, k: string)
    requires k in KeySet(Build(rows, ln))
    ensures exists i :: 0 <= i < |rows| && rows[i].name == k
                        && Get(Build(rows, ln), k).value == EntryOf(rows[i], Range(rows, ln), ln)
                        && forall j :: i < j < |rows| ==> rows[j].name != k
  {
    AssignmentsLastRow(rows, Range(rows, ln), ln, k);
  }

  lemma AssignmentsLastRow(rows: seq<RowShape>, g: LogRange, ln: real -> real, k: string)
    requires k in KeySet(AssignAll(Assignments(rows, g, ln)))
    ensures exists i :: 0 <= i < |rows| && rows[i].name == k
                        && Get(AssignAll(Assignments(rows, g, ln)), k).value == EntryOf(rows[i], g, ln)
                        && forall j :: i < j < |rows| ==> rows[j].name != k
  {
    var items := Assignments(rows, g, ln);
    var i := LastAssignment(items, k);
    forall j | i < j < |rows| ensures rows[j].name != k {
      assert !Assigns(items[j], k);
    }
  }

  lemma BuildMissingKey(rows: seq<RowShape>, ln: real -> real, k: string)
    requires k !in KeySet(Build(rows, ln))
    ensures forall i :: 0 <= i < |rows| ==> rows[i].name != k
  {
    var items := Assignments(rows, Range(rows, ln), ln);
    forall i | 0 <= i < |rows| ensures rows[i].name != k {
      assert !Assigns(items[i], k);
    }
  }

  /** The same, for the query: a failed query gives no keys at all. */
  lemma FetchPricingKeys(q: Query, h: Host, ln: real -> real, k: string)
    ensures q.QueryFailed? ==> k !in KeySet(FetchPricing(q, h, ln))
    ensures q.QueryOk? ==> var rows := KeptRows(q, h);
            (k in KeySet(FetchPricing(q, h, ln)) <==> exists i :: 0 <= i < |rows| && rows[i].name == k)
    ensures q.QueryOk? ==> var rows := KeptRows(q, h);
            (k in KeySet(FetchPricing(q, h, ln)) ==>
              exists i :: 0 <= i < |rows| && rows[i].name == k
                          && Get(FetchPricing(q, h, ln), k).value == EntryOf(rows[i], Range(rows, ln), ln)
                          && forall j :: i < j < |rows| ==> rows[j].name != k)
  {
    if q.QueryOk? {
      BuildKeys(KeptRows(q, h), ln, k);
    }
  }

  /** Every emitted factor lies between the base factor and 1.5 times it. */
  lemma FactorRange(q: Query, h: Host, ln: real -> real, k: string)
    requires k in KeySet(FetchPricing(q, h, ln))
    ensures BaseCo2eFactor <= Get(FetchPricing(q, h, ln), k).value.co2eFactor <= 0.0003
  {
    FetchPricingKeys(q, h, ln, k);
  }

  /** Every reference price counted in the range lies between its ends. */
  lemma PriceWithinRange(rows: seq<RowShape>, i: nat)
    requires i < |rows| && Positive(Reference(rows[i]))
    ensures |PriceValues(rows)| > 0
    ensures MinOf(PriceValues(rows)) <= Reference(rows[i]).val <= MaxOf(PriceValues(rows))
  {
    var vs := PriceValues(rows);
    var x := Reference(rows[i]).val;
    assert x in vs;
    var j :| 0 <= j < |vs| && vs[j] == x;
  }

  /** When no model has a positive reference price, or all positive prices
      are equal, every model gets the base factor. */
  lemma FlatRangeGivesBase(rows: seq<RowShape>, ln: real -> real, i: nat)
    requires i < |rows|
    requires forall a, b :: (0 <= a < |rows| && 0 <= b < |rows| && Positive(Reference(rows[a]))
                             && Positive(Reference(rows[b]))) ==> Reference(rows[a]) == Reference(rows[b])
    ensures EntryOf(rows[i], Range(rows, ln), ln).co2eFactor == BaseCo2eFactor
  {
    var vs := PriceValues(rows);
    if |vs| > 0 {
      var lo := MinOf(vs);
      var hi := MaxOf(vs);
      var a :| 0 <= a < |rows| && Positive(Reference(rows[a])) && Reference(rows[a]).val == lo;
      var b :| 0 <= b < |rows| && Positive(Reference(rows[b])) && Reference(rows[b]).val == hi;
      assert lo == hi;
    }
  }

  /** A model whose reference price is not a positive number gets the base
      factor. */
  lemma UnpricedGivesBase(r: RowShape, g: LogRange, ln: real -> real)
    requires !Positive(Reference(r))
    ensures EntryOf(r, g, ln).co2eFactor == BaseCo2eFactor
  {
  }

  /** When prices differ, the most expensive model gets 1.5 times the base
      factor. */
  lemma MostExpensiveGetsMax(rows: seq<RowShape>, ln: real -> real, i: nat)
    requires IncreasingOnPositives(ln)
    requires i < |rows| && Positive(Reference(rows[i]))
    requires exists j :: 0 <= j < |rows| && Positive(Reference(rows[j])) && Reference(rows[j]).val < Reference(rows[i]).val
    requires forall j :: 0 <= j < |rows| && Positive(Reference(rows[j])) ==> Reference(rows[j]).val <= Reference(rows[i]).val
    ensures EntryOf(rows[i], Range(rows, ln), ln).co2eFactor == BaseCo2eFactor * MaxCo2eMultiplier
  {
    var j :| 0 <= j < |rows| && Positive(Reference(rows[j])) && Reference(rows[j]).val < Reference(rows[i]).val;
    RangeSpread(rows, ln, j, i);
    HighestPriceIsMax(rows, i);
    MultiplierAtTop(Reference(rows[i]), Range(rows, ln), ln);
  }

  /** When prices differ, the cheapest model gets exactly the base factor. */
  lemma CheapestGetsBase(rows: seq<RowShape>, ln: real -> real, i: nat)
    requires IncreasingOnPositives(ln)
    requires i < |rows| && Positive(Reference(rows[i]))
    requires exists j :: 0 <= j < |rows| && Positive(Reference(rows[j])) && Reference(rows[i]).val < Reference(rows[j]).val
    requires forall j :: 0 <= j < |rows| && Positive(Reference(rows[j])) ==> Reference(rows[i]).val <= Reference(rows[j]).val
    ensures EntryOf(rows[i], Range(rows, ln), ln).co2eFactor == BaseCo2eFactor
  {
    var j :| 0 <= j < |rows| && Positive(Reference(rows[j])) && Reference(rows[i]).val < Reference(rows[j]).val;
    RangeSpread(rows, ln, i, j);
    LowestPriceIsMin(rows, i);
    MultiplierAtBottom(Reference(rows[i]), Range(rows, ln), ln);
  }

  /** Two different positive prices spread the logarithmic range. */
  lemma RangeSpread(rows: seq<RowShape>, ln: real -> real, i: nat, j: nat)
    requires IncreasingOnPositives(ln)
    requires i < |rows| && j < |rows| && Positive(Reference(rows[i])) && Positive(Reference(rows[j]))
    requires Reference(rows[i]).val < Reference(rows[j]).val
    ensures Range(rows, ln).logMin < Range(rows, ln).logMax
  {
    PriceWithinRange(rows, i);
    PriceWithinRange(rows, j);
    var vs := PriceValues(rows);
    assert 0.0 < MinOf(vs) < MaxOf(vs);
  }

  /** A positive price no other positive price undercuts is the minimum. */
  lemma LowestPriceIsMin(rows: seq<RowShape>, i: nat)
    requires i < |rows| && Positive(Reference(rows[i]))
    requires forall j :: 0 <= j < |rows| && Positive(Reference(rows[j])) ==> Reference(rows[i]).val <= Reference(rows[j]).val
    ensures |PriceValues(rows)| > 0 && MinOf(PriceValues(rows)) == Reference(rows[i]).val
  {
    PriceWithinRange(rows, i);
    var vs := PriceValues(rows);
    var a :| 0 <= a < |rows| && Positive(Reference(rows[a])) && Reference(rows[a]).val == MinOf(vs);
  }

  /** A positive price no other positive price exceeds is the maximum. */
  lemma HighestPriceIsMax(rows: seq<RowShape>, i: nat)
    requires i < |rows| && Positive(Reference(rows[i]))
    requires forall j :: 0 <= j < |rows| && Positive(Reference(rows[j])) ==> Reference(rows[j]).val <= Reference(rows[i]).val
    ensures |PriceValues(rows)| > 0 && MaxOf(PriceValues(rows)) == Reference(rows[i]).val
  {
    PriceWithinRange(rows, i);
    var vs := PriceValues(rows);
    var b :| 0 <= b < |rows| && Positive(Reference(rows[b])) && Reference(rows[b]).val == MaxOf(vs);
  }

  lemma MultiplierAtTop(ref: JsNum, g: LogRange, ln: real -> real)
    requires Positive(ref) && g.logMin < g.logMax && ln(ref.val) == g.logMax
    ensures Multiplier(ref, g, ln) == MaxCo2eMultiplier
  {
    assert (ln(ref.val) - g.logMin) / (g.logMax - g.logMin) == 1.0;
  }

  lemma MultiplierAtBottom(ref: JsNum, g: LogRange, ln: real -> real)
    requires Positive(ref) && g.logMin < g.logMax && ln(ref.val) == g.logMin
    ensures Multiplier(ref, g, ln) == 1.0
  {
    assert (ln(ref.val) - g.logMin) / (g.logMax - g.logMin) == 0.0;
  }

  /** A model with a higher reference price never gets a smaller factor. */
  lemma FactorMonotone(rows: seq<RowShape>, ln: real -> real, i: nat, j: nat)
    requires IncreasingOnPositives(ln)
    requires i < |rows| && j < |rows|
    requires Positive(Reference(rows[i])) && Positive(Reference(rows[j]))
    requires Reference(rows[i]).val <= Reference(rows[j]).val
    ensures EntryOf(rows[i], Range(rows, ln), ln).co2eFactor <= EntryOf(rows[j], Range(rows, ln), ln).co2eFactor
  {
    var g := Range(rows, ln);
    var x := Reference(rows[i]).val;
    var y := Reference(rows[j]).val;
    if g.logMax > g.logMin {
      assert ln(x) <= ln(y);
      QuotientMonotone(ln(x) - g.logMin, ln(y) - g.logMin, g.logMax - g.logMin);
    }
  }

  lemma QuotientMonotone(a: real, b: real, d: real)
    requires a <= b && d > 0.0
    ensures a / d <= b / d
  {
    assert b / d - a / d == (b - a) / d;
  }
}
