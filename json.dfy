/** The text format localStorage holds for a watched set: `JSON.stringify` of
    an array of strings, and the part of `JSON.parse` whose results the load
    effect can turn into a set (`null`, a string, an array of strings). */
module JsonCodec {
  import opened Options

  // ---------------------------------------------------------------------
  // Encoding, as JSON.stringify quotes a string (ECMAScript QuoteJSONString)
  // ---------------------------------------------------------------------

  function HexDigit(n: nat): (c: char)
    requires n < 16
  {
    "0123456789abcdef"[n]
  }

  /** The JSON text of one character inside a string literal. */
  function EscapeChar(c: char): (e: string)
  {
    if c == '"' then ['\\', '"']
    else if c == '\\' then ['\\', '\\']
    else if c as int == 0x08 then ['\\', 'b']
    else if c as int == 0x0C then ['\\', 'f']
    else if c == '\n' then ['\\', 'n']
    else if c == '\r' then ['\\', 'r']
    else if c == '\t' then ['\\', 't']
    else if (c as int) < 0x20 then ['\\', 'u', '0', '0', HexDigit(c as int / 16), HexDigit(c as int % 16)]
    else [c]
  }

  function EscapeAll(s: string): (e: string)
  {
    if s == [] then [] else EscapeChar(s[0]) + EscapeAll(s[1..])
  }

  function EncodeString(s: string): (e: string)
  {
    ['"'] + EscapeAll(s) + ['"']
  }

  function EncodeElements(xs: seq<string>): (e: string)
  {
    if xs == [] then []
    else if |xs| == 1 then EncodeString(xs[0])
    else EncodeString(xs[0]) + [','] + EncodeElements(xs[1..])
  }

  /** `JSON.stringify(xs)` for an array of strings. */
  function EncodeStringArray(xs: seq<string>): (e: string)
    ensures |e| >= 2 && e[0] == '[' && e[|e| - 1] == ']'
  {
    ['['] + EncodeElements(xs) + [']']
  }

  // ---------------------------------------------------------------------
  // Decoding
  // ---------------------------------------------------------------------

  /** The JSON values the load effect can make a set of.  Every other JSON
      value (numbers, booleans, objects) makes `new Set(...)` throw. */
  datatype JsonValue = JNull | JString(s: string) | JStringArray(items: seq<string>)

  predicate IsWhitespace(c: char)
  {
    c == ' ' || c == '\t' || c == '\n' || c == '\r'
  }

  /** Drops leading JSON whitespace. */
  function SkipWhitespace(s: string): (r: string)
    ensures |r| <= |s|
  {
    if s != [] && IsWhitespace(s[0]) then SkipWhitespace(s[1..]) else s
  }

  /** What is dropped is exactly the leading whitespace, and what is left is a
      suffix that does not start with whitespace. */
  lemma {:induction false} SkipWhitespaceSuffix(s: string)
    ensures var r := SkipWhitespace(s);
      && r == s[|s| - |r|..]
      && (r == [] || !IsWhitespace(r[0]))
      && forall i :: 0 <= i < |s| - |r| ==> IsWhitespace(s[i])
    decreases |s|
  {
    if s != [] && IsWhitespace(s[0]) {
      SkipWhitespaceSuffix(s[1..]);
    }
  }

  /** Text that does not start with whitespace is left as it is. */
  lemma SkipWhitespaceNone(s: string)
    requires s != [] && !IsWhitespace(s[0])
    ensures SkipWhitespace(s) == s
  {
  }

  function HexValue(c: char): (r: Option<nat>)
    ensures r.Some? ==> r.value < 16
  {
    if '0' <= c <= '9' then Some(c as int - '0' as int)
    else if 'a' <= c <= 'f' then Some(c as int - 'a' as int + 10)
    else if 'A' <= c <= 'F' then Some(c as int - 'A' as int + 10)
    else None
  }

  /** The UTF-16 code unit written by four hex digits at the start of `s`. */
  function CodeUnit(s: string): (r: Option<nat>)
    ensures r.Some? ==> |s| >= 4 && r.value < 0x1_0000
  {
    if |s| < 4 then None
    else match (HexValue(s[0]), HexValue(s[1]), HexValue(s[2]), HexValue(s[3]))
      case (Some(a), Some(b), Some(c), Some(d)) => Some(((a * 16 + b) * 16 + c) * 16 + d)
      case _ => None
  }

  predicate IsHighSurrogate(u: nat) { 0xD800 <= u <= 0xDBFF }
  predicate IsLowSurrogate(u: nat) { 0xDC00 <= u <= 0xDFFF }

  /** The character written by a `\u` escape whose four digits start `s`;
      a surrogate pair written as two escapes gives one character. */
  function ParseUnicodeEscape(s: string): (r: Option<(char, string)>)
    ensures r.Some? ==> |r.value.1| < |s|
  {
    match CodeUnit(s)
    case None => None
    case Some(u) =>
      if IsHighSurrogate(u) then
        if |s| >= 10 && s[4] == '\\' && s[5] == 'u' then
          match CodeUnit(s[6..])
          case Some(l) =>
            if IsLowSurrogate(l) then
              var cp := 0x1_0000 + (u - 0xD800) * 0x400 + (l - 0xDC00);
              Some((cp as char, s[10..]))
            else None
          case None => None
        else None
      else if IsLowSurrogate(u) then None
      else Some((u as char, s[4..]))
  }

  /** The character an escape sequence (after its backslash) stands for, and the rest. */
  function ParseEscape(s: string): (r: Option<(char, string)>)
    ensures r.Some? ==> |r.value.1| < |s|
  {
    if s == [] then None
    else if s[0] == '"' then Some(('"', s[1..]))
    else if s[0] == '\\' then Some(('\\', s[1..]))
    else if s[0] == '/' then Some(('/', s[1..]))
    else if s[0] == 'b' then Some((0x08 as char, s[1..]))
    else if s[0] == 'f' then Some((0x0C as char, s[1..]))
    else if s[0] == 'n' then Some(('\n', s[1..]))
    else if s[0] == 'r' then Some(('\r', s[1..]))
    else if s[0] == 't' then Some(('\t', s[1..]))
    else if s[0] == 'u' then ParseUnicodeEscape(s[1..])
    else None
  }

  /** Puts a decoded character in front of the rest of a literal's contents. */
  function ConsChar(c: char, parsed: Option<(string, string)>): (r: Option<(string, string)>)
  {
    match parsed
    case None => None
    case Some((t, rest)) => Some(([c] + t, rest))
  }

  /** The contents of a string literal whose opening quote precedes `s`,
      and the text after its closing quote. */
  function ParseChars(s: string): (r: Option<(string, string)>)
    ensures r.Some? ==> |r.value.1| < |s|
    decreases |s|
  {
    if s == [] then None
    else if s[0] == '"' then Some(([], s[1..]))
    else if s[0] == '\\' then
      match ParseEscape(s[1..])
      case None => None
      case Some((c, rest)) => ConsChar(c, ParseChars(rest))
    else if (s[0] as int) < 0x20 then None
    else ConsChar(s[0], ParseChars(s[1..]))
  }

  /** Puts a decoded element in front of the array's other elements. */
  function ConsString(x: string, parsed: Option<(seq<string>, string)>): (r: Option<(seq<string>, string)>)
  {
    match parsed
    case None => None
    case Some((xs, rest)) => Some(([x] + xs, rest))
  }

  /** One or more string elements of an array, then its closing bracket. */
  function ParseElements(s: string): (r: Option<(seq<string>, string)>)
    ensures r.Some? ==> |r.value.1| < |s|
    decreases |s|
  {
    if s == [] || s[0] != '"' then None
    else match ParseChars(s[1..])
      case None => None
      case Some((x, rest)) =>
        var t := SkipWhitespace(rest);
        if t != [] && t[0] == ']' then Some(([x], t[1..]))
        else if t != [] && t[0] == ',' then ConsString(x, ParseElements(SkipWhitespace(t[1..])))
        else None
  }

  /** The elements of an array whose opening bracket precedes `s`, and the
      text after its closing bracket. */
  function ParseArray(s: string): (r: Option<(seq<string>, string)>)
    ensures r.Some? ==> |r.value.1| < |s|
  {
    var t := SkipWhitespace(s);
    if t != [] && t[0] == ']' then Some(([], t[1..]))
    else ParseElements(t)
  }

  /** One JSON value of the kinds in JsonValue at the start of `s`. */
  function ParseValue(s: string): (r: Option<(JsonValue, string)>)
  {
    if |s| >= 4 && s[..4] == "null" then Some((JNull, s[4..]))
    else if s != [] && s[0] == '"' then
      match ParseChars(s[1..])
      case None => None
      case Some((x, rest)) => Some((JString(x), rest))
    else if s != [] && s[0] == '[' then
      match ParseArray(s[1..])
      case None => None
      case Some((xs, rest)) => Some((JStringArray(xs), rest))
    else None
  }

  /** `JSON.parse(text)`, where None stands for a text that JSON.parse rejects
      or whose value `new Set(...)` cannot iterate. */
  function Decode(text: string): (r: Option<JsonValue>)
    ensures SkipWhitespace(text) == [] ==> r.None?
    ensures text == "null" ==> r == Some(JNull)
  {
    assert "null"[..4] == "null";
    match ParseValue(SkipWhitespace(text))
    case None => None
    case Some((v, rest)) => if SkipWhitespace(rest) == [] then Some(v) else None
  }

  // ---------------------------------------------------------------------
  // Round trip
  // ---------------------------------------------------------------------

  /** Characters JSON.stringify writes as a backslash and one letter or symbol. */
  predicate HasShortEscape(c: char)
  {
    c == '"' || c == '\\' || c as int == 0x08 || c as int == 0x0C || c == '\n' || c == '\r' || c == '\t'
  }

  /** A character written as a backslash and one letter decodes back to itself. */
  lemma ShortEscapeRoundTrip(c: char, rest: string)
    requires HasShortEscape(c)
    ensures ParseChars(EscapeChar(c) + rest) == ConsChar(c, ParseChars(rest))
  {
    var s := EscapeChar(c) + rest;
    assert |EscapeChar(c)| == 2 && s[0] == '\\';
    assert ParseEscape(s[1..]) == Some((c, rest)) by {
      assert s[1..][1..] == rest;
    }
  }

  /** A control character written as `\u00XX` decodes back to itself. */
  lemma UnicodeEscapeRoundTrip(c: char, rest: string)
    requires (c as int) < 0x20 && !HasShortEscape(c)
    ensures ParseChars(EscapeChar(c) + rest) == ConsChar(c, ParseChars(rest))
  {
    var hi, lo := c as int / 16, c as int % 16;
    var digits := ['0', '0', HexDigit(hi), HexDigit(lo)] + rest;
    assert EscapeChar(c) + rest == ['\\', 'u'] + digits;
    assert HexValue(HexDigit(hi)) == Some(hi);
    assert HexValue(HexDigit(lo)) == Some(lo);
    assert CodeUnit(digits) == Some(c as int);
    assert digits[4..] == rest;
    assert ParseUnicodeEscape(digits) == Some((c, rest));
    assert (['\\', 'u'] + digits)[1..] == ['u'] + digits;
    assert ParseEscape(['u'] + digits) == Some((c, rest)) by {
      assert (['u'] + digits)[1..] == digits;
    }
  }

  /** A character written as itself decodes back to itself. */
  lemma PlainCharRoundTrip(c: char, rest: string)
    requires (c as int) >= 0x20 && c != '"' && c != '\\'
    ensures ParseChars(EscapeChar(c) + rest) == ConsChar(c, ParseChars(rest))
  {
    assert EscapeChar(c) == [c];
    assert ([c] + rest)[1..] == rest;
  }

  /** One escaped character decodes back to that character. */
  lemma EscapeCharRoundTrip(c: char, rest: string)
    ensures ParseChars(EscapeChar(c) + rest) == ConsChar(c, ParseChars(rest))
  {
    if HasShortEscape(c) {
      ShortEscapeRoundTrip(c, rest);
    } else if (c as int) < 0x20 {
      UnicodeEscapeRoundTrip(c, rest);
    } else {
      PlainCharRoundTrip(c, rest);
    }
  }

  /** The escaped contents of a string, then a closing quote, decode back to the string. */
  lemma {:induction false} EscapeAllRoundTrip(x: string, rest: string)
    ensures ParseChars(EscapeAll(x) + ['"'] + rest) == Some((x, rest))
    decreases |x|
  {
    if x == [] {
      assert EscapeAll(x) + ['"'] + rest == ['"'] + rest;
    } else {
      var tail := EscapeAll(x[1..]) + ['"'] + rest;
      assert EscapeAll(x) + ['"'] + rest == EscapeChar(x[0]) + tail;
      EscapeCharRoundTrip(x[0], tail);
      EscapeAllRoundTrip(x[1..], rest);
      assert [x[0]] + x[1..] == x;
    }
  }

  /** A quoted string literal decodes back to its string. */
  lemma EncodeStringRoundTrip(x: string, rest: string)
    ensures (EncodeString(x) + rest)[0] == '"'
    ensures ParseChars((EncodeString(x) + rest)[1..]) == Some((x, rest))
  {
    assert (EncodeString(x) + rest)[1..] == EscapeAll(x) + ['"'] + rest;
    EscapeAllRoundTrip(x, rest);
  }

  /** The text after an element: separator first, then the rest. */
  lemma AfterElement(sep: char, rest: string)
    requires !IsWhitespace(sep)
    ensures SkipWhitespace([sep] + rest) == [sep] + rest
    ensures ([sep] + rest)[0] == sep && ([sep] + rest)[1..] == rest
  {
    SkipWhitespaceNone([sep] + rest);
  }

  /** A last element decodes to itself and ends the array. */
  lemma LastElementStep(x: string, rest: string)
    ensures ParseElements(EncodeElements([x]) + [']'] + rest) == Some(([x], rest))
  {
    var t := [']'] + rest;
    var s := EncodeElements([x]) + [']'] + rest;
    assert s == EncodeString(x) + t;
    EncodeStringRoundTrip(x, t);
    AfterElement(']', rest);
  }

  /** The encoding of two or more elements is the first, a comma, and the others. */
  lemma ElementsSplit(xs: seq<string>, rest: string)
    requires |xs| >= 2
    ensures EncodeElements(xs) + [']'] + rest
         == EncodeString(xs[0]) + ([','] + (EncodeElements(xs[1..]) + [']'] + rest))
  {
    var a, c := EncodeString(xs[0]), EncodeElements(xs[1..]);
    assert EncodeElements(xs) == a + [','] + c;
    Reassociate(a, [','], c, [']'], rest);
  }

  lemma Reassociate(a: string, b: string, c: string, d: string, e: string)
    ensures a + b + c + d + e == a + (b + (c + d + e))
  {
  }

  /** The encoding of a non-empty array's elements starts with a quote. */
  lemma ElementsStartWithQuote(xs: seq<string>, rest: string)
    requires xs != []
    ensures var e := EncodeElements(xs) + [']'] + rest; e != [] && e[0] == '"'
  {
    var e := EncodeElements(xs) + [']'] + rest;
    assert EncodeElements(xs)[0] == EncodeString(xs[0])[0];
  }

  /** An element followed by a comma decodes to itself, then the other elements are parsed. */
  lemma NextElementStep(xs: seq<string>, rest: string)
    requires |xs| >= 2
    ensures ParseElements(EncodeElements(xs) + [']'] + rest)
         == ConsString(xs[0], ParseElements(EncodeElements(xs[1..]) + [']'] + rest))
  {
    var after := EncodeElements(xs[1..]) + [']'] + rest;
    var t := [','] + after;
    var s := EncodeElements(xs) + [']'] + rest;
    assert s == EncodeString(xs[0]) + t by {
      ElementsSplit(xs, rest);
    }
    assert s[0] == '"' && ParseChars(s[1..]) == Some((xs[0], t)) by {
      EncodeStringRoundTrip(xs[0], t);
    }
    AfterElement(',', after);
    assert SkipWhitespace(after) == after by {
      ElementsStartWithQuote(xs[1..], rest);
      SkipWhitespaceNone(after);
    }
  }

  /** The encoded elements of a non-empty array, then `]`, decode back to the elements. */
  lemma {:induction false} ElementsRoundTrip(xs: seq<string>, rest: string)
    requires xs != []
    ensures ParseElements(EncodeElements(xs) + [']'] + rest) == Some((xs, rest))
    decreases |xs|
  {
    if |xs| == 1 {
      assert [xs[0]] == xs;
      LastElementStep(xs[0], rest);
    } else {
      ElementsRoundTrip(xs[1..], rest);
      NextElementStep(xs, rest);
      assert [xs[0]] + xs[1..] == xs;
    }
  }

  /** The elements of an encoded array, then its closing bracket, decode back. */
  lemma ParseArrayRoundTrip(xs: seq<string>, rest: string)
    ensures ParseArray(EncodeElements(xs) + [']'] + rest) == Some((xs, rest))
  {
    var s := EncodeElements(xs) + [']'] + rest;
    if xs == [] {
      assert s == [']'] + rest;
      assert SkipWhitespace(s) == s;
      assert s[1..] == rest;
    } else {
      assert s[0] == '"';
      assert SkipWhitespace(s) == s;
      ElementsRoundTrip(xs, rest);
    }
  }

  /** An encoded array is parsed as one array value with nothing after it. */
  lemma ParseEncodedArray(xs: seq<string>)
    ensures ParseValue(EncodeStringArray(xs)) == Some((JStringArray(xs), []))
  {
    var e := EncodeStringArray(xs);
    assert e[0] == '[';
    assert |e| >= 4 ==> e[..4][0] == '[';
    assert e[1..] == EncodeElements(xs) + [']'] + [];
    ParseArrayRoundTrip(xs, []);
  }

  /** What JSON.stringify writes for an array of strings, JSON.parse reads back. */
  lemma DecodeEncode(xs: seq<string>)
    ensures Decode(EncodeStringArray(xs)) == Some(JStringArray(xs))
  {
    var e := EncodeStringArray(xs);
    assert SkipWhitespace(e) == e;
    ParseEncodedArray(xs);
  }
}
