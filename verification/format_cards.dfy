/** The format comparison page (app/format-comparison/page.tsx): one
    prompt written out as six cards (TOON, pretty JSON, compact JSON, YAML,
    XML and CSV). Only the JSON and CSV cards escape the prompt fully; the
    TOON card escapes quotes but not backslashes, and YAML and XML insert
    the text as it is. */
module FormatCards {
  import opened Basics
  import opened Text
  import opened JsonText

  /** "Summarize the latest product launch in 3 bullet points." The text is
      written as a concatenation so that its first and last characters are
      visible to the verifier, which cannot read them out of one long literal. */
  const SamplePrompt: string := "S" + "ummarize the latest product launch in 3 bullet points" + "."

  /** The text every card shows: the trimmed prompt, or the sample prompt
      when nothing but white space was entered. */
  function Clean(prompt: string): (c: string)
    ensures |c| > 0
    ensures !IsBlank(prompt) ==> c == Trim(prompt)
    ensures IsBlank(prompt) ==> c == SamplePrompt
  {
    var t := Trim(prompt);
    if |t| > 0 then t else SamplePrompt
  }

  /** Cleaning is idempotent, and white space around a prompt changes
      nothing. */
  lemma CleanIdempotent(prompt: string)
    ensures Clean(Clean(prompt)) == Clean(prompt)
    ensures Clean(Trim(prompt)) == Clean(prompt)
  {
    TrimOfTrimmed(SamplePrompt);
    TrimIdempotent(prompt);
  }

  // ---- TOON ----

  /** `clean.replace(/"/g, '\\"')`. */
  function ToonEscape(x: string): string
  {
    ReplaceAll(x, '"', "\\\"")
  }

  const ToonHead: string := "prompt:\n  text: \""
  /** What follows the closing quote of the TOON value. */
  const ToonRest: string := "\n" + "meta:\n  source: \"prompt-info\"\n  format: \"comparison\""

  function Toon(clean: string): string
  {
    ToonHead + ToonEscape(clean) + "\"" + ToonRest
  }

  /** A reader for a double-quoted value that knows only the `\"` escape:
      the value and the text after its closing quote. */
  function ReadToon(t: string): (r: Option<(string, string)>)
    decreases |t|
  {
    if |t| == 0 then None
    else if t[0] == '"' then Some(("", t[1..]))
    else if t[0] == '\\' && |t| >= 2 && t[1] == '"' then Prepend('"', ReadToon(t[2..]))
    else Prepend(t[0], ReadToon(t[1..]))
  }

  function Prepend(c: char, r: Option<(string, string)>): Option<(string, string)>
  {
    match r
    case Some((v, rest)) => Some(([c] + v, rest))
    case None => None
  }

  function PrependAll(x: string, r: Option<(string, string)>): (p: Option<(string, string)>)
    ensures p.Some? <==> r.Some?
    ensures p.Some? ==> p.value == (x + r.value.0, r.value.1)
    ensures x == "" ==> p == r
  {
    assert forall v: string :: "" + v == v;
    match r
    case Some((v, rest)) => Some((x + v, rest))
    case None => None
  }

  predicate EndsWithBackslash(x: string)
  {
    |x| > 0 && x[|x| - 1] == '\\'
  }

  lemma PrependCons(c: char, x: string, r: Option<(string, string)>)
    ensures Prepend(c, PrependAll(x, r)) == PrependAll([c] + x, r)
  {
    if r.Some? {
      assert [c] + (x + r.value.0) == ([c] + x) + r.value.0;
    }
  }

  lemma ToonEscapeCons(c: char, y: string)
    ensures ToonEscape([c] + y) == (if c == '"' then "\\\"" else [c]) + ToonEscape(y)
  {
    ReplaceAllAppend([c], y, '"', "\\\"");
    var one: string := [c];
    assert one[1..] == "";
  }

  /** Escaped non-empty text never starts with a quote. */
  lemma ToonEscapeHead(y: string)
    requires |y| > 0
    ensures |ToonEscape(y)| > 0 && ToonEscape(y)[0] != '"'
  {
    assert y == [y[0]] + y[1..];
    ToonEscapeCons(y[0], y[1..]);
  }

  lemma ReadToonQuoteStep(w: string)
    ensures ReadToon("\\\"" + w) == Prepend('"', ReadToon(w))
  {
    assert ("\\\"" + w)[2..] == w;
  }

  lemma ReadToonPlainStep(c: char, w: string)
    requires c != '"' && !(c == '\\' && |w| > 0 && w[0] == '"')
    ensures ReadToon([c] + w) == Prepend(c, ReadToon(w))
  {
    assert ([c] + w)[1..] == w;
  }

  /** Reading escaped text prepends the text, unless a trailing backslash
      of the text and a quote after it read as one escaped quote. */
  lemma {:induction false} ReadToonEscaped(y: string, u: string)
    requires !(EndsWithBackslash(y) && |u| > 0 && u[0] == '"')
    ensures ReadToon(ToonEscape(y) + u) == PrependAll(y, ReadToon(u))
  {
    if |y| == 0 {
      assert ToonEscape(y) + u == u;
    } else {
      var c, y' := y[0], y[1..];
      assert y == [c] + y';
      ToonEscapeCons(c, y');
      var w := ToonEscape(y') + u;
      assert EndsWithBackslash(y') == (|y'| > 0 && EndsWithBackslash(y));
      ReadToonEscaped(y', u);
      PrependCons(c, y', ReadToon(u));
      if c == '"' {
        assert ToonEscape(y) + u == "\\\"" + w;
        ReadToonQuoteStep(w);
      } else {
        assert ToonEscape(y) + u == [c] + w;
        if |y'| > 0 {
          ToonEscapeHead(y');
          assert w[0] == ToonEscape(y')[0];
        }
        ReadToonPlainStep(c, w);
      }
    }
  }

  /** The TOON value reads back as the text exactly when the text does not
      end with a backslash: a trailing backslash escapes the closing quote. */
  lemma ToonRoundTrip(x: string, rest: string)
    ensures ReadToon(ToonEscape(x) + "\"" + rest) == Some((x, rest)) <==> !EndsWithBackslash(x)
  {
    if !EndsWithBackslash(x) {
      ReadToonEscaped(x, "\"" + rest);
      Reassociate3(ToonEscape(x), "\"", rest);
      ReadToonClose(rest);
      assert x + "" == x;
    } else {
      TrailingBackslashEscapesQuote(x, rest);
    }
  }

  lemma ReadToonClose(rest: string)
    ensures ReadToon("\"" + rest) == Some(("", rest))
  {
    assert ("\"" + rest)[1..] == rest;
  }

  /** A trailing backslash and the closing quote read as a quote that is
      part of the value, so the value read is not the text. */
  lemma TrailingBackslashEscapesQuote(x: string, rest: string)
    requires EndsWithBackslash(x)
    ensures ReadToon(ToonEscape(x) + "\"" + rest) != Some((x, rest))
  {
    var y := x[..|x| - 1];
    assert x == y + "\\";
    ReplaceAllAppend(y, "\\", '"', "\\\"");
    assert ToonEscape("\\") == "\\";
    var u := "\\\"" + rest;
    assert ToonEscape(x) + "\"" + rest == ToonEscape(y) + u;
    ReadToonEscaped(y, u);
    assert u[2..] == rest;
    var r := ReadToon(ToonEscape(x) + "\"" + rest);
    if r.Some? {
      assert r.value.0[|y|] == '"';
    }
  }

  // ---- CSV ----

  /** `clean.replace(/"/g, '""')`. */
  function CsvEscape(x: string): string
  {
    ReplaceAll(x, '"', "\"\"")
  }

  const CsvHead: string := "field,value\nprompt,\""
  /** What follows the closing quote of the prompt field. */
  const CsvRest: string := "\n" + "meta_source,prompt-info\nmeta_format,comparison"

  function Csv(clean: string): string
  {
    CsvHead + CsvEscape(clean) + "\"" + CsvRest
  }

  /** Reads the contents of a quoted field as section 2 of RFC 4180
      defines it: a doubled quote stands for one quote, a single quote ends
      the field. */
  function ReadCsv(t: string): (r: Option<(string, string)>)
    decreases |t|
  {
    if |t| == 0 then None
    else if t[0] == '"' then
      if |t| >= 2 && t[1] == '"' then Prepend('"', ReadCsv(t[2..])) else Some(("", t[1..]))
    else Prepend(t[0], ReadCsv(t[1..]))
  }

  lemma CsvEscapeCons(c: char, y: string)
    ensures CsvEscape([c] + y) == (if c == '"' then "\"\"" else [c]) + CsvEscape(y)
  {
    ReplaceAllAppend([c], y, '"', "\"\"");
    var one: string := [c];
    assert one[1..] == "";
  }

  lemma ReadCsvQuoteStep(w: string)
    ensures ReadCsv("\"\"" + w) == Prepend('"', ReadCsv(w))
  {
    assert ("\"\"" + w)[2..] == w;
  }

  lemma ReadCsvPlainStep(c: char, w: string)
    requires c != '"'
    ensures ReadCsv([c] + w) == Prepend(c, ReadCsv(w))
  {
    assert ([c] + w)[1..] == w;
  }

  /** Reading escaped text prepends the text, whatever follows it. */
  lemma {:induction false} ReadCsvEscaped(y: string, u: string)
    ensures ReadCsv(CsvEscape(y) + u) == PrependAll(y, ReadCsv(u))
  {
    if |y| == 0 {
      assert CsvEscape(y) + u == u;
    } else {
      var c, y' := y[0], y[1..];
      assert y == [c] + y';
      CsvEscapeCons(c, y');
      var w := CsvEscape(y') + u;
      ReadCsvEscaped(y', u);
      PrependCons(c, y', ReadCsv(u));
      if c == '"' {
        assert CsvEscape(y) + u == "\"\"" + w;
        ReadCsvQuoteStep(w);
      } else {
        assert CsvEscape(y) + u == [c] + w;
        ReadCsvPlainStep(c, w);
      }
    }
  }

  /** The quoted field reads back as the text, whatever the text, when
      what follows the closing quote does not start with another quote. */
  lemma CsvRoundTrip(x: string, rest: string)
    requires |rest| == 0 || rest[0] != '"'
    ensures ReadCsv(CsvEscape(x) + "\"" + rest) == Some((x, rest))
  {
    ReadCsvEscaped(x, "\"" + rest);
    Reassociate3(CsvEscape(x), "\"", rest);
    ReadCsvClose(rest);
    assert x + "" == x;
  }

  lemma ReadCsvClose(rest: string)
    requires |rest| == 0 || rest[0] != '"'
    ensures ReadCsv("\"" + rest) == Some(("", rest))
  {
    assert ("\"" + rest)[1..] == rest;
  }

  // ---- JSON ----

  /** `JSON.stringify(data)`: the document up to the prompt's value, the
      value as a string literal, and the rest of the document. */
  function JsonCompact(clean: string): (doc: string)
    ensures |doc| > |CompactHead()|
  {
    CompactHead() + ("\"" + (Escape(clean) + ("\"" + CompactRest())))
  }

  function CompactHead(): string
  {
    "{" + (Quote("prompt") + ":")
  }

  function CompactRest(): string
  {
    "," + (Quote("meta") + (":{" + (Quote("source") + (":" + (Quote("prompt-info") + ("," +
    (Quote("format") + (":" + (Quote("comparison") + "}}")))))))))
  }

  /** `JSON.stringify(data, null, 2)`, cut in the same parts. */
  function JsonPretty(clean: string): string
  {
    PrettyHead() + ("\"" + (Escape(clean) + ("\"" + PrettyRest())))
  }

  function PrettyHead(): string
  {
    "{\n  " + (Quote("prompt") + ": ")
  }

  function PrettyRest(): string
  {
    ",\n  " + (Quote("meta") + (": {\n    " + (Quote("source") + (": " + (Quote("prompt-info") + (",\n    " +
    (Quote("format") + (": " + (Quote("comparison") + "\n  }\n}")))))))))
  }

  /** The layout-only pieces between the members of the pretty document. */
  lemma OuterPieces()
    ensures '"' !in "{\n  " && '"' !in ": " && '"' !in ",\n  "
    ensures DropLayout("{\n  ") == "{" && DropLayout(": ") == ":" && DropLayout(",\n  ") == ","
  {
  }

  lemma InnerPieces()
    ensures '"' !in ": {\n    " && '"' !in ",\n    "
    ensures DropLayout(": {\n    ") == ":{" && DropLayout(",\n    ") == ","
  {
  }

  lemma ClosingPiece()
    ensures StripOut("\n  }\n}") == "}}"
  {
  }

  /** One member of the pretty document: layout, a string literal, and
      whatever follows. */
  lemma MemberStrips(layout: string, s: string, rest: string)
    requires '"' !in layout
    ensures StripOut(layout + (Quote(s) + rest)) == DropLayout(layout) + (Quote(s) + StripOut(rest))
  {
    StripOutPlain(layout, Quote(s) + rest);
    StripQuoted(s, rest);
  }

  /** An opening quote enters a string literal. */
  lemma EnterLiteral(u: string)
    ensures StripOut("\"" + u) == "\"" + StripIn(u)
  {
    assert ("\"" + u)[1..] == u;
  }

  /** After the prompt's value, removing the layout turns the pretty rest
      into the compact one. */
  lemma RestStrips()
    ensures StripOut(PrettyRest()) == CompactRest()
  {
    var tail := "\n  }\n}";
    var s6 := ": " + (Quote("comparison") + tail);
    var s4 := ",\n    " + (Quote("format") + s6);
    var s2 := ": " + (Quote("prompt-info") + s4);
    var s0 := ": {\n    " + (Quote("source") + s2);
    OuterPieces();
    InnerPieces();
    ClosingPiece();
    MemberStrips(": ", "comparison", tail);
    MemberStrips(",\n    ", "format", s6);
    MemberStrips(": ", "prompt-info", s4);
    MemberStrips(": {\n    ", "source", s2);
    MemberStrips(",\n  ", "meta", s0);
  }

  /** Removing the layout turns the pretty head into the compact one. */
  lemma HeadStrips(x: string)
    ensures StripOut(PrettyHead() + x) == CompactHead() + StripOut(x)
  {
    var q := Quote("prompt");
    OuterPieces();
    Regroup3("{\n  ", q, ": ", x);
    MemberStrips("{\n  ", "prompt", ": " + x);
    StripOutPlain(": ", x);
    Regroup3("{", q, ":", StripOut(x));
  }

  lemma Regroup3(a: string, b: string, c: string, x: string)
    ensures (a + (b + c)) + x == a + (b + (c + x))
  {
  }

  /** Both JSON cards hold the same document: removing the layout from the
      pretty one gives the compact one. */
  lemma PrettyStripsToCompact(clean: string)
    ensures StripOut(JsonPretty(clean)) == JsonCompact(clean)
  {
    var value := Escape(clean) + ("\"" + PrettyRest());
    HeadStrips("\"" + value);
    EnterLiteral(value);
    Reassociate3(Escape(clean), "\"", PrettyRest());
    StripInEscaped(clean, PrettyRest());
    Reassociate3(Escape(clean), "\"", StripOut(PrettyRest()));
    RestStrips();
  }

  lemma Reassociate3(a: string, b: string, c: string)
    ensures a + b + c == a + (b + c)
  {
  }

  /** The compact JSON card reads back as the text, whatever the text:
      after the head `{"prompt":` and the opening quote, the prompt's value
      reads as exactly the text, followed by the rest of the document. */
  lemma JsonCompactRoundTrip(clean: string)
    ensures ReadString(JsonCompact(clean)[|CompactHead()| + 1..]) == Some((clean, CompactRest()))
  {
    ReadsAfterHead(CompactHead(), clean, CompactRest());
  }

  lemma ReadsAfterHead(h: string, clean: string, rest: string)
    ensures ReadString((h + ("\"" + (Escape(clean) + ("\"" + rest))))[|h| + 1..]) == Some((clean, rest))
  {
    assert (h + ("\"" + (Escape(clean) + ("\"" + rest))))[|h| + 1..] == Escape(clean) + "\"" + rest;
    ReadQuoted(clean, rest);
  }

  // ---- YAML and XML ----

  function Yaml(clean: string): string
  {
    Join(YamlLines(clean), '\n')
  }

  function YamlLines(clean: string): seq<string>
  {
    ["prompt:", "  text: " + clean, "meta:", "  source: prompt-info", "  format: comparison"]
  }

  function Xml(clean: string): string
  {
    Join(XmlLines(clean), '\n')
  }

  function XmlLines(clean: string): seq<string>
  {
    ["<root>", "  <prompt>", "    <text>" + clean + "</text>", "  </prompt>", "  <meta>",
     "    <source>prompt-info</source>", "    <format>comparison</format>", "  </meta>", "</root>"]
  }

  /** Splitting joined lines gives them back exactly when none of them
      holds a line break itself. */
  lemma SplitJoinIff(lines: seq<string>)
    requires |lines| >= 1
    ensures Split(Join(lines, '\n'), '\n') == lines <==> forall i :: 0 <= i < |lines| ==> '\n' !in lines[i]
  {
    if forall i :: 0 <= i < |lines| ==> '\n' !in lines[i] {
      SplitJoin(lines, '\n');
    }
  }

  /** A line break occurs in text between two break-free pieces exactly
      when it occurs in the text. */
  lemma BreakInside(pre: string, x: string, post: string)
    requires '\n' !in pre && '\n' !in post
    ensures '\n' in pre + x + post <==> '\n' in x
  {
    var l := pre + x + post;
    if '\n' in x {
      var i :| 0 <= i < |x| && x[i] == '\n';
      assert l[|pre| + i] == '\n';
    }
    if '\n' in l {
      var j :| 0 <= j < |l| && l[j] == '\n';
      assert |pre| <= j < |pre| + |x| && x[j - |pre|] == '\n';
    }
  }

  /** All lines are free of breaks exactly when line `k` is, if all the
      others are. */
  lemma OnlyLineThatMatters(lines: seq<string>, k: nat)
    requires k < |lines|
    requires forall i :: 0 <= i < |lines| && i != k ==> '\n' !in lines[i]
    ensures (forall i :: 0 <= i < |lines| ==> '\n' !in lines[i]) <==> '\n' !in lines[k]
  {
  }

  lemma YamlFixedLines(clean: string)
    ensures forall i :: 0 <= i < 5 && i != 1 ==> '\n' !in YamlLines(clean)[i]
    ensures '\n' !in "  text: "
  {
  }

  lemma XmlFixedLines(clean: string)
    ensures forall i :: 0 <= i < 9 && i != 2 ==> '\n' !in XmlLines(clean)[i]
    ensures '\n' !in "    <text>" && '\n' !in "</text>"
  {
  }

  /** With the text inserted verbatim, the YAML card keeps its five-line
      structure only for single-line text. */
  lemma YamlKeepsLines(clean: string)
    ensures Split(Yaml(clean), '\n') == YamlLines(clean) <==> '\n' !in clean
  {
    SplitJoinIff(YamlLines(clean));
    YamlFixedLines(clean);
    OnlyLineThatMatters(YamlLines(clean), 1);
    BreakInside("  text: ", clean, "");
    assert "  text: " + clean + "" == YamlLines(clean)[1];
  }

  /** Likewise the XML card and its nine lines. */
  lemma XmlKeepsLines(clean: string)
    ensures Split(Xml(clean), '\n') == XmlLines(clean) <==> '\n' !in clean
  {
    SplitJoinIff(XmlLines(clean));
    XmlFixedLines(clean);
    OnlyLineThatMatters(XmlLines(clean), 2);
    BreakInside("    <text>", clean, "</text>");
  }

  // ---- The cards ----

  datatype Card = Card(key: string, title: string, description: string, content: string)

  /** `buildFormats`. */
  function BuildFormats(prompt: string): (cards: seq<Card>)
    ensures |cards| == 6
  {
    var clean := Clean(prompt);
    [Card("toon", "TOON", "Structured text (example)", Toon(clean)),
     Card("json", "JSON", "Readable JSON", JsonPretty(clean)),
     Card("json-compact", "JSON compact", "Minified JSON", JsonCompact(clean)),
     Card("yaml", "YAML", "Common config format", Yaml(clean)),
     Card("xml", "XML", "Tagged data", Xml(clean)),
     Card("csv", "CSV", "Flat rows", Csv(clean))]
  }

  /** After its head, the CSV card reads back as the cleaned prompt
      followed by the rest of the card. */
  lemma CsvCardReadsBack(clean: string)
    ensures ReadCsv(Csv(clean)[|CsvHead|..]) == Some((clean, CsvRest))
  {
    DropHead(CsvHead, CsvEscape(clean), "\"", CsvRest);
    CsvRoundTrip(clean, CsvRest);
  }

  /** After its head, the TOON card reads back as the cleaned prompt
      exactly when the prompt does not end with a backslash. */
  lemma ToonCardReadsBack(clean: string)
    ensures ReadToon(Toon(clean)[|ToonHead|..]) == Some((clean, ToonRest)) <==> !EndsWithBackslash(clean)
  {
    DropHead(ToonHead, ToonEscape(clean), "\"", ToonRest);
    ToonRoundTrip(clean, ToonRest);
  }

  lemma DropHead(a: string, b: string, c: string, d: string)
    ensures (a + b + c + d)[|a|..] == b + c + d
  {
  }

  /** The cards depend on the prompt only through its cleaned text. */
  lemma CardsDependOnCleanText(prompt: string)
    ensures BuildFormats(prompt) == BuildFormats(Clean(prompt))
  {
    CleanIdempotent(prompt);
  }
}
