/** JSON text as `JSON.stringify` writes it for the format cards: string
    quoting (QuoteJSONString, section 25.5.2.3 of ECMA-262), a reader for
    quoted strings that undoes it, and the layout `JSON.stringify` adds
    with an indent, which a scanner that skips white space outside string
    literals removes again. */
module JsonText {
  import opened Basics

  /** A digit of a lowercase hexadecimal number. */
  function HexDigit(n: nat): (c: char)
    requires n < 16
  {
    if n < 10 then ('0' as int + n) as char else ('a' as int + n - 10) as char
  }

  /** The value of a hexadecimal digit of either case. */
  function HexValue(c: char): (r: Option<nat>)
    ensures r.Some? ==> r.value < 16
  {
    if '0' <= c <= '9' then Some(c as int - '0' as int)
    else if 'a' <= c <= 'f' then Some(c as int - 'a' as int + 10)
    else if 'A' <= c <= 'F' then Some(c as int - 'A' as int + 10)
    else None
  }

  lemma HexRoundTrip(n: nat)
    requires n < 16
    ensures HexValue(HexDigit(n)) == Some(n)
  {
  }

  /** One character (a Unicode scalar value) as it appears inside a JSON
      string literal: the quote,
      the backslash and the five control characters with a short form are
      escaped with a backslash, the other control characters as `\u00xx`,
      everything else stands for itself. */
  function EscapeChar(c: char): (e: string)
    ensures |e| == 1 || |e| == 2 || |e| == 6
    ensures e[0] == '\\' <==> |e| > 1
    ensures |e| == 1 ==> e == [c] && c != '"' && c != '\\'
    ensures |e| == 6 ==> '"' !in e[2..] && '\\' !in e[2..]
    ensures '\n' !in e
  {
    if c == '"' then "\\\""
    else if c == '\\' then "\\\\"
    else if c == '\U{8}' then "\\b"
    else if c == '\U{C}' then "\\f"
    else if c == '\n' then "\\n"
    else if c == '\r' then "\\r"
    else if c == '\t' then "\\t"
    else if (c as int) < 0x20 then ['\\', 'u', '0', '0', HexDigit((c as int) / 16), HexDigit((c as int) % 16)]
    else [c]
  }

  /** The contents of the string literal for `s`, without the quotes. */
  function Escape(s: string): (e: string)
    ensures |e| >= |s|
    ensures '\n' !in e
  {
    if |s| == 0 then "" else EscapeChar(s[0]) + Escape(s[1..])
  }

  /** `JSON.stringify(s)` for a string `s`. */
  function Quote(s: string): (q: string)
    ensures |q| >= 2 && q[0] == '"' && q[|q| - 1] == '"'
  {
    "\"" + Escape(s) + "\""
  }

  /** Reads a string literal's contents up to its closing quote: the value
      and the text after the quote, or `None` when the text ends first or
      holds an escape JSON does not define. */
  function ReadString(t: string): (r: Option<(string, string)>)
    decreases |t|
  {
    if |t| == 0 then None
    else if t[0] == '"' then Some(("", t[1..]))
    else if t[0] != '\\' then
      match ReadString(t[1..])
      case Some((v, rest)) => Some(([t[0]] + v, rest))
      case None => None
    else if |t| < 2 then None
    else
      match Unescaped(t[1..])
      case None => None
      case Some((c, n)) =>
        match ReadString(t[1 + n..])
        case Some((v, rest)) => Some(([c] + v, rest))
        case None => None
  }

  /** The character an escape sequence (after its backslash) stands for,
      and how many characters it takes. */
  function Unescaped(t: string): (r: Option<(char, nat)>)
    ensures r.Some? ==> 1 <= r.value.1 <= |t|
  {
    if |t| == 0 then None
    else if t[0] == '"' then Some(('"', 1))
    else if t[0] == '\\' then Some(('\\', 1))
    else if t[0] == '/' then Some(('/', 1))
    else if t[0] == 'b' then Some(('\U{8}', 1))
    else if t[0] == 'f' then Some(('\U{C}', 1))
    else if t[0] == 'n' then Some(('\n', 1))
    else if t[0] == 'r' then Some(('\r', 1))
    else if t[0] == 't' then Some(('\t', 1))
    else if t[0] == 'u' && |t| >= 5 then
      match (HexValue(t[1]), HexValue(t[2]), HexValue(t[3]), HexValue(t[4]))
      case (Some(a), Some(b), Some(c), Some(d)) =>
        var n := ((a * 16 + b) * 16 + c) * 16 + d;
        // a lone surrogate is no `char`: such an escape reads as nothing
        if 0xD800 <= n < 0xE000 then None else Some((n as char, 5))
      case _ => None
    else None
  }

  /** Reading one escaped character prepends it to what follows. */
  lemma ReadEscapedChar(c: char, u: string)
    ensures ReadString(EscapeChar(c) + u)
            == match ReadString(u) case Some((v, rest)) => Some(([c] + v, rest)) case None => None
  {
    var e := EscapeChar(c);
    if |e| == 1 {
      ReadPlainChar(c, u);
    } else if |e| == 2 {
      ReadShortEscape(c, u);
    } else {
      ReadUnicodeEscape(c, u);
    }
  }

  lemma ReadPlainChar(c: char, u: string)
    requires c != '"' && c != '\\'
    ensures ReadString([c] + u)
            == match ReadString(u) case Some((v, rest)) => Some(([c] + v, rest)) case None => None
  {
    assert ([c] + u)[1..] == u;
  }

  lemma ReadShortEscape(c: char, u: string)
    requires |EscapeChar(c)| == 2
    ensures ReadString(EscapeChar(c) + u)
            == match ReadString(u) case Some((v, rest)) => Some(([c] + v, rest)) case None => None
  {
    var e := EscapeChar(c);
    assert e == ['\\', e[1]];
    assert Unescaped([e[1]] + u) == Some((c, 1));
    ReadPair(e[1], c, u);
  }

  lemma ReadPair(x: char, c: char, u: string)
    requires Unescaped([x] + u) == Some((c, 1))
    ensures ReadString(['\\', x] + u)
            == match ReadString(u) case Some((v, rest)) => Some(([c] + v, rest)) case None => None
  {
    var t := ['\\', x] + u;
    assert t[1..] == [x] + u && t[2..] == u;
  }

  lemma ReadUnicodeEscape(c: char, u: string)
    requires |EscapeChar(c)| == 6
    ensures ReadString(EscapeChar(c) + u)
            == match ReadString(u) case Some((v, rest)) => Some(([c] + v, rest)) case None => None
  {
    var t := EscapeChar(c) + u;
    var hi, lo := (c as int) / 16, (c as int) % 16;
    HexRoundTrip(hi);
    HexRoundTrip(lo);
    assert t[1..][1] == '0' && t[1..][2] == '0' && t[1..][3] == HexDigit(hi) && t[1..][4] == HexDigit(lo);
    assert Unescaped(t[1..]) == Some((c, 5));
    assert t[6..] == u;
  }

  /** Reading a quoted string gives back exactly the string and the text
      after it. */
  lemma {:induction false} ReadQuoted(s: string, rest: string)
    ensures ReadString(Escape(s) + "\"" + rest) == Some((s, rest))
  {
    if |s| == 0 {
      assert Escape(s) + "\"" + rest == "\"" + rest;
    } else {
      var e, e' := EscapeChar(s[0]), Escape(s[1..]);
      assert Escape(s) == e + e';
      ReadQuoted(s[1..], rest);
      Reassociate(e, e', "\"", rest);
      ReadEscapedChar(s[0], e' + "\"" + rest);
      assert [s[0]] + s[1..] == s;
    }
  }

  /** Quoting is injective: different strings give different literals. */
  lemma QuoteInjective(a: string, b: string)
    requires Quote(a) == Quote(b)
    ensures a == b
  {
    QuoteBody(a);
    QuoteBody(b);
    ReadQuoted(a, "");
    ReadQuoted(b, "");
  }

  /** After its opening quote, a literal reads as escaped text and a
      closing quote. */
  lemma QuoteBody(s: string)
    ensures Quote(s)[1..] == Escape(s) + "\"" + ""
  {
    var e := Escape(s);
    OpenQuote(e, "");
    assert Quote(s) + "" == Quote(s);
    AfterQuote(e + "\"" + "");
  }

  lemma AfterQuote(x: string)
    ensures ("\"" + x)[1..] == x
  {
  }

  // ---- Layout ----

  /** The white space `JSON.stringify` inserts when given an indent. */
  predicate IsLayout(c: char)
  {
    c == ' ' || c == '\n'
  }

  /** Drops layout outside string literals, keeping literals intact. */
  function StripOut(t: string): string
    decreases |t|, 1
  {
    if |t| == 0 then ""
    else if t[0] == '"' then "\"" + StripIn(t[1..])
    else if IsLayout(t[0]) then StripOut(t[1..])
    else [t[0]] + StripOut(t[1..])
  }

  /** The same, inside a string literal: copies up to the closing quote,
      stepping over escapes. */
  function StripIn(t: string): string
    decreases |t|, 0
  {
    if |t| == 0 then ""
    else if t[0] == '\\' && |t| >= 2 then t[..2] + StripIn(t[2..])
    else if t[0] == '"' then "\"" + StripOut(t[1..])
    else [t[0]] + StripIn(t[1..])
  }

  /** Drops layout from text that holds no quote. */
  function DropLayout(t: string): string
  {
    if |t| == 0 then "" else (if IsLayout(t[0]) then "" else [t[0]]) + DropLayout(t[1..])
  }

  lemma {:induction false} StripOutPlain(a: string, rest: string)
    requires '"' !in a
    ensures StripOut(a + rest) == DropLayout(a) + StripOut(rest)
  {
    if |a| > 0 {
      assert (a + rest)[1..] == a[1..] + rest;
      StripOutPlain(a[1..], rest);
    } else {
      assert a + rest == rest;
    }
  }

  lemma {:induction false} StripInPlain(a: string, rest: string)
    requires '"' !in a && '\\' !in a
    ensures StripIn(a + rest) == a + StripIn(rest)
  {
    if |a| > 0 {
      assert (a + rest)[1..] == a[1..] + rest;
      StripInPlain(a[1..], rest);
    } else {
      assert a + rest == rest;
    }
  }

  lemma StripInEscapeChar(c: char, u: string)
    ensures StripIn(EscapeChar(c) + u) == EscapeChar(c) + StripIn(u)
  {
    var e := EscapeChar(c);
    if |e| == 1 {
      StripInOne(e, u);
    } else if |e| == 2 {
      StripInPair(e, u);
    } else {
      StripInLong(e, u);
    }
  }

  lemma StripInOne(e: string, u: string)
    requires |e| == 1 && e[0] != '\\' && e[0] != '"'
    ensures StripIn(e + u) == e + StripIn(u)
  {
    assert (e + u)[1..] == u;
  }

  lemma StripInPair(e: string, u: string)
    requires |e| == 2 && e[0] == '\\'
    ensures StripIn(e + u) == e + StripIn(u)
  {
    assert (e + u)[..2] == e && (e + u)[2..] == u;
  }

  lemma StripInLong(e: string, u: string)
    requires |e| > 2 && e[0] == '\\' && '"' !in e[2..] && '\\' !in e[2..]
    ensures StripIn(e + u) == e + StripIn(u)
  {
    var t := e + u;
    assert t[..2] == e[..2] && t[2..] == e[2..] + u;
    StripInPlain(e[2..], u);
    assert e[..2] + e[2..] == e;
  }

  lemma {:induction false} StripInEscaped(s: string, rest: string)
    ensures StripIn(Escape(s) + "\"" + rest) == Escape(s) + "\"" + StripOut(rest)
  {
    if |s| == 0 {
      assert Escape(s) + "\"" + rest == "\"" + rest;
    } else {
      var e, e' := EscapeChar(s[0]), Escape(s[1..]);
      assert Escape(s) == e + e';
      var u := e' + "\"" + rest;
      StripInEscaped(s[1..], rest);
      Reassociate(e, e', "\"", rest);
      StripInEscapeChar(s[0], u);
      Reassociate(e, e', "\"", StripOut(rest));
    }
  }

  lemma Reassociate(a: string, b: string, c: string, d: string)
    ensures a + b + c + d == a + (b + c + d)
  {
  }

  /** Layout never touches a quoted string. */
  lemma StripQuoted(s: string, rest: string)
    ensures StripOut(Quote(s) + rest) == Quote(s) + StripOut(rest)
  {
    var e := Escape(s);
    OpenQuote(e, rest);
    StripInEscaped(s, rest);
    OpenQuote(e, StripOut(rest));
  }

  lemma OpenQuote(e: string, rest: string)
    ensures ("\"" + e + "\"") + rest == "\"" + (e + "\"" + rest)
  {
  }
}
