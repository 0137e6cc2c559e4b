/** The dataset build script (scripts/fetch-data.js): a downloaded CSV
    text of model prices becomes an object mapping each model name to its
    prices and a CO2e factor. The download and the file write are left
    out; the transform between them is modelled, including the abort on a
    short line. */
module FetchData {
  import opened Basics
  import opened Text
  import opened Js

  /** `{input, output}` as `parseFloat` returns them (NaN included). */
  datatype Prices = Prices(input: JsNum, output: JsNum)

  /** One entry of the written object. */
  datatype Merged = Merged(pricing: Prices, co2eFactor: real)

  /** The script either writes the object or exits with code 1 before
      writing anything. */
  datatype Outcome = Written(data: Dict<Merged>) | Aborted

  /** The data lines: the trimmed text split on line breaks, without the
      first (header) line. */
  function DataLines(text: string): (lines: seq<string>)
    ensures forall i :: 0 <= i < |lines| ==> '\n' !in lines[i]
    ensures exists header :: '\n' !in header && Join([header] + lines, '\n') == Trim(text)
  {
    var all := Split(Trim(text), '\n');
    assert all == [all[0]] + all[1..];
    all[1..]
  }

  /** `parseFloat(field.replace('$', ''))`: only the first dollar sign is
      removed. */
  function PriceOf(field: string, h: Host): (p: JsNum)
    ensures '$' !in field ==> p == h.parseFloat(field)
  {
    h.parseFloat(RemoveFirst(field, '$'))
  }

  /** A price written with one leading dollar sign reads as the number
      after it, and a second dollar sign stays in the parsed text. */
  lemma DollarPrefix(s: string, h: Host)
    ensures PriceOf("$" + s, h) == h.parseFloat(s)
  {
    var t := "$" + s;
    IndexOfFirst(t, '$', 0);
    assert t[..0] + t[1..] == s;
  }

  /** The name and prices of one line, or `None` when the line has fewer
      than three comma-separated fields (the destructured `inputStr` or
      `outputStr` is then `undefined` and `.replace` throws). */
  function ParseLine(line: string, h: Host): (r: Option<(string, Prices)>)
    ensures r.Some? ==> ',' !in r.value.0
  {
    var f := Split(line, ',');
    if |f| < 3 then None
    else Some((f[0], Prices(PriceOf(f[1], h), PriceOf(f[2], h))))
  }

  /** A line with a name and two prices reads as them, whatever extra
      fields follow. */
  lemma ParseFields(name: string, input: string, output: string, extra: seq<string>, h: Host)
    requires forall i :: 0 <= i < |extra| ==> ',' !in extra[i]
    requires ',' !in name && ',' !in input && ',' !in output
    ensures ParseLine(Join([name, input, output] + extra, ','), h)
            == Some((name, Prices(PriceOf(input, h), PriceOf(output, h))))
  {
    var parts := [name, input, output] + extra;
    FieldsWithoutCommas(name, input, output, extra);
    SplitJoin(parts, ',');
    var f := Split(Join(parts, ','), ',');
    assert f[0] == name && f[1] == input && f[2] == output;
  }

  lemma FieldsWithoutCommas(name: string, input: string, output: string, extra: seq<string>)
    requires forall i :: 0 <= i < |extra| ==> ',' !in extra[i]
    requires ',' !in name && ',' !in input && ',' !in output
    ensures forall i :: 0 <= i < |[name, input, output] + extra| ==> ',' !in ([name, input, output] + extra)[i]
  {
    var parts := [name, input, output] + extra;
    forall i | 0 <= i < |parts| ensures ',' !in parts[i] {
      if i >= 3 {
        assert parts[i] == extra[i - 3];
      }
    }
  }

  /** A line with no comma, or with a single comma, has no prices. */
  lemma ShortLineFails(a: string, b: string, h: Host)
    requires ',' !in a && ',' !in b
    ensures ParseLine(a, h).None?
    ensures ParseLine(a + "," + b, h).None?
  {
    SplitJoin([a], ',');
    SplitJoin([a, b], ',');
    assert Join([a, b], ',') == a + "," + b by {
      assert Join([a, b][1..], ',') == b;
    }
  }

  /** `co2Factors[model] || 0`. */
  function Co2Factor(name: string): (f: real)
    ensures f == 0.005 <==> name == "gpt-4" || name == "gpt-4-32k"
    ensures f == 0.002 <==> name == "gpt-3.5-turbo"
    ensures f == 0.0 <==> name != "gpt-4" && name != "gpt-4-32k" && name != "gpt-3.5-turbo"
  {
    if name == "gpt-4" || name == "gpt-4-32k" then 0.005
    else if name == "gpt-3.5-turbo" then 0.002
    else 0.0
  }

  /** The `for … in` loop that pairs each priced name with its factor, in
      the order the names were first assigned. */
  function Merge(pricing: Dict<Prices>): (m: Dict<Merged>)
    ensures Keys(m) == Keys(pricing)
    ensures forall i :: 0 <= i < |m| ==> m[i].1 == Merged(pricing[i].1, Co2Factor(pricing[i].0))
  {
    seq(|pricing|, i requires 0 <= i < |pricing| => (pricing[i].0, Merged(pricing[i].1, Co2Factor(pricing[i].0))))
  }

  predicate Fails(lines: seq<string>, h: Host)
  {
    exists i :: 0 <= i < |lines| && ParseLine(lines[i], h).None?
  }

  function Parsed(lines: seq<string>, h: Host): (items: seq<Option<(string, Prices)>>)
    ensures |items| == |lines|
    ensures forall i :: 0 <= i < |lines| ==> items[i] == ParseLine(lines[i], h)
  {
    seq(|lines|, i requires 0 <= i < |lines| => ParseLine(lines[i], h))
  }

  /** The transform from the downloaded text to the object written out. */
  function Transform(text: string, h: Host): (o: Outcome)
    ensures o.Aborted? <==> Fails(DataLines(text), h)
  {
    var lines := DataLines(text);
    if Fails(lines, h) then Aborted
    else Written(Merge(AssignAll(Parsed(lines, h))))
  }

  /** When the script writes, the object has one entry per distinct name
      of the data lines and nothing else, and each name carries the
      prices of the LAST line with that name and its own factor. */
  lemma WrittenEntries(text: string, h: Host)
    requires !Fails(DataLines(text), h)
    ensures var lines := DataLines(text);
            var data := Transform(text, h).data;
            DistinctKeys(data)
            && (forall k :: k in KeySet(data) <==>
                  exists i :: 0 <= i < |lines| && ParseLine(lines[i], h).value.0 == k)
            && (forall k :: k in KeySet(data) ==>
                  exists i :: 0 <= i < |lines| && ParseLine(lines[i], h) == Some((k, Get(data, k).value.pricing))
                    && Get(data, k).value.co2eFactor == Co2Factor(k)
                    && forall j :: i < j < |lines| ==> ParseLine(lines[j], h).value.0 != k)
  {
    var lines := DataLines(text);
    WrittenKeys(lines, h);
    WrittenValues(lines, h);
  }

  lemma WrittenKeys(lines: seq<string>, h: Host)
    requires !Fails(lines, h)
    ensures var data := Merge(AssignAll(Parsed(lines, h)));
            DistinctKeys(data)
            && forall k :: k in KeySet(data) <==>
                 exists i :: 0 <= i < |lines| && ParseLine(lines[i], h).value.0 == k
  {
    var items := Parsed(lines, h);
    var pricing := AssignAll(items);
    MergeFacts(pricing);
    forall k | k in KeySet(pricing)
      ensures exists i :: 0 <= i < |lines| && ParseLine(lines[i], h).value.0 == k
    {
      var i := SomeAssignment(items, k);
      assert ParseLine(lines[i], h).value.0 == k;
    }
    forall k | exists i :: 0 <= i < |lines| && ParseLine(lines[i], h).value.0 == k
      ensures k in KeySet(pricing)
    {
      var i :| 0 <= i < |lines| && ParseLine(lines[i], h).value.0 == k;
      assert Assigns(items[i], k);
    }
  }

  lemma WrittenValues(lines: seq<string>, h: Host)
    requires !Fails(lines, h)
    ensures var data := Merge(AssignAll(Parsed(lines, h)));
            forall k :: k in KeySet(data) ==>
              exists i :: 0 <= i < |lines| && ParseLine(lines[i], h) == Some((k, Get(data, k).value.pricing))
                && Get(data, k).value.co2eFactor == Co2Factor(k)
                && forall j :: i < j < |lines| ==> ParseLine(lines[j], h).value.0 != k
  {
    var items := Parsed(lines, h);
    var pricing := AssignAll(items);
    var data := Merge(pricing);
    MergeFacts(pricing);
    forall k | k in KeySet(data)
      ensures exists i :: 0 <= i < |lines| && ParseLine(lines[i], h) == Some((k, Get(data, k).value.pricing))
                && Get(data, k).value.co2eFactor == Co2Factor(k)
                && forall j :: i < j < |lines| ==> ParseLine(lines[j], h).value.0 != k
    {
      var i := LastAssignment(items, k);
      assert ParseLine(lines[i], h) == items[i];
      forall j | i < j < |lines| ensures ParseLine(lines[j], h).value.0 != k {
        assert !Assigns(items[j], k);
      }
    }
  }

  /** Looking a name up in the merged object finds the priced entry with
      that name's factor. */
  lemma MergeFacts(pricing: Dict<Prices>)
    ensures KeySet(Merge(pricing)) == KeySet(pricing)
    ensures DistinctKeys(pricing) ==> DistinctKeys(Merge(pricing))
    ensures forall k :: k in KeySet(pricing) ==>
              Get(Merge(pricing), k) == Some(Merged(Get(pricing, k).value, Co2Factor(k)))
  {
    var m := Merge(pricing);
    assert forall i :: 0 <= i < |m| ==> m[i].0 == pricing[i].0 by {
      forall i | 0 <= i < |m| ensures m[i].0 == pricing[i].0 {
        assert Keys(m)[i] == Keys(pricing)[i];
      }
    }
    forall k | k in KeySet(pricing)
      ensures Get(m, k) == Some(Merged(Get(pricing, k).value, Co2Factor(k)))
    {
      var i := KeyIndex(pricing, k);
      KeyIndexInKeySet(pricing, k);
      KeyIndexUnique(m, k, i);
      KeyIndexInKeySet(m, k);
    }
  }

  /** A header with no data lines writes an empty object. */
  lemma HeaderOnlyWritesNothing(text: string, h: Host)
    requires '\n' !in Trim(text)
    ensures Transform(text, h) == Written([])
  {
    SplitJoin([Trim(text)], '\n');
  }
}
