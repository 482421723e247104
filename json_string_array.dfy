/** The JSON text of an array of strings (sections 2, 5 and 7 of RFC 8259): what serde_json
    writes for a `Vec<String>` with its compact formatter, and what `serde_json::from_str`
    accepts when it reads one back. Only this subset of JSON is modelled. */
module JsonStringArray {
  import opened Wrappers

  datatype JsonError =
    | UnexpectedEnd
    | ExpectedArray
    | ExpectedString
    | ExpectedCommaOrEnd
    | ControlCharacter
    | InvalidEscape
    | LoneSurrogate
    | TrailingCharacters

  /** The four insignificant whitespace characters of RFC 8259 section 2. */
  predicate IsWhitespace(c: char)
  {
    c == ' ' || c == '\t' || c == '\n' || c == '\r'
  }

  predicate AllWhitespace(s: string)
  {
    forall i :: 0 <= i < |s| ==> IsWhitespace(s[i])
  }

  /** A lower-case hexadecimal digit, as serde_json writes them. */
  function HexDigit(n: int): (c: char)
    requires 0 <= n < 16
  {
    if n < 10 then (48 + n) as char else (87 + n) as char
  }

  function HexValue(c: char): (r: Option<int>)
    ensures r.Some? ==> 0 <= r.value < 16
  {
    if '0' <= c <= '9' then Some(c as int - 48)
    else if 'a' <= c <= 'f' then Some(c as int - 87)
    else if 'A' <= c <= 'F' then Some(c as int - 55)
    else None
  }

  /** The four hexadecimal digits of a `\uXXXX` escape. */
  function Hex4(s: string): (r: Option<int>)
    ensures r.Some? ==> |s| >= 4 && 0 <= r.value < 0x10000
  {
    if |s| < 4 then None
    else match (HexValue(s[0]), HexValue(s[1]), HexValue(s[2]), HexValue(s[3]))
      case (Some(a), Some(b), Some(c), Some(d)) => Some(a * 4096 + b * 256 + c * 16 + d)
      case _ => None
  }

  // ---------------------------------------------------------------- encoding

  /** How serde_json writes one character inside a string: the quotation mark, the reverse
      solidus and the control characters are escaped (short forms where JSON has them,
      `\u00xx` otherwise); every other character is written as it is. */
  function EscapeChar(c: char): string
  {
    if c == '"' then ['\\', '"']
    else if c == '\\' then ['\\', '\\']
    else if c as int == 0x08 then ['\\', 'b']
    else if c as int == 0x0C then ['\\', 'f']
    else if c == '\n' then ['\\', 'n']
    else if c == '\r' then ['\\', 'r']
    else if c == '\t' then ['\\', 't']
    else if (c as int) < 0x20 then ['\\', 'u', '0', '0', HexDigit(c as int / 16), HexDigit(c as int % 16)]
    else [c]
  }

  function EscapeString(s: string): string
  {
    if s == [] then [] else EscapeChar(s[0]) + EscapeString(s[1..])
  }

  function EncodeString(s: string): string
  {
    ['"'] + EscapeString(s) + ['"']
  }

  /** The array's elements separated by a comma followed by `ws`. */
  function LayoutElements(values: seq<string>, ws: string): string
  {
    if |values| == 0 then []
    else if |values| == 1 then EncodeString(values[0])
    else EncodeString(values[0]) + [','] + ws + LayoutElements(values[1..], ws)
  }

  /** The array written with `ws` after every comma. */
  function Layout(values: seq<string>, ws: string): string
  {
    ['['] + LayoutElements(values, ws) + [']']
  }

  /** `serde_json::to_string`: the compact form, with no whitespace at all. */
  function Encode(values: seq<string>): string
  {
    Layout(values, [])
  }

  // ---------------------------------------------------------------- decoding

  /** A parsed value and the input that follows it. */
  datatype Parsed<T> = Parsed(value: T, rest: string)

  function SkipWhitespace(s: string): (r: string)
    ensures |r| <= |s|
  {
    if s != [] && IsWhitespace(s[0]) then SkipWhitespace(s[1..]) else s
  }

  /** An escape sequence, `s` starting just after the reverse solidus. A `\u` escape of a
      high surrogate must be followed by one of a low surrogate; the pair denotes one
      character. A surrogate on its own is an error. */
  function ParseEscape(s: string): (r: Result<Parsed<char>, JsonError>)
    ensures r.Ok? ==> |r.value.rest| < |s|
  {
    if s == [] then Err(UnexpectedEnd)
    else if s[0] == '"' then Ok(Parsed('"', s[1..]))
    else if s[0] == '\\' then Ok(Parsed('\\', s[1..]))
    else if s[0] == '/' then Ok(Parsed('/', s[1..]))
    else if s[0] == 'b' then Ok(Parsed(0x08 as char, s[1..]))
    else if s[0] == 'f' then Ok(Parsed(0x0C as char, s[1..]))
    else if s[0] == 'n' then Ok(Parsed('\n', s[1..]))
    else if s[0] == 'r' then Ok(Parsed('\r', s[1..]))
    else if s[0] == 't' then Ok(Parsed('\t', s[1..]))
    else if s[0] == 'u' then
      match Hex4(s[1..])
      case None => Err(InvalidEscape)
      case Some(h) =>
        if 0xD800 <= h < 0xDC00 then
          if |s| >= 7 && s[5] == '\\' && s[6] == 'u' then
            match Hex4(s[7..])
            case None => Err(InvalidEscape)
            case Some(l) =>
              if 0xDC00 <= l < 0xE000 then Ok(Parsed((0x10000 + (h - 0xD800) * 1024 + (l - 0xDC00)) as char, s[11..]))
              else Err(LoneSurrogate)
          else Err(LoneSurrogate)
        else if 0xDC00 <= h < 0xE000 then Err(LoneSurrogate)
        else Ok(Parsed(h as char, s[5..]))
    else Err(InvalidEscape)
  }

  /** The characters of a string, `s` starting just after the opening quotation mark, up to
      and including the closing one. Unescaped control characters are rejected. */
  function ParseChars(s: string): (r: Result<Parsed<string>, JsonError>)
    ensures r.Ok? ==> |r.value.rest| < |s|
    decreases |s|
  {
    if s == [] then Err(UnexpectedEnd)
    else if s[0] == '"' then Ok(Parsed([], s[1..]))
    else if s[0] == '\\' then
      match ParseEscape(s[1..])
      case Err(e) => Err(e)
      case Ok(Parsed(c, rest)) => Prepend(c, ParseChars(rest))
    else if (s[0] as int) < 0x20 then Err(ControlCharacter)
    else Prepend(s[0], ParseChars(s[1..]))
  }

  function Prepend(c: char, r: Result<Parsed<string>, JsonError>): Result<Parsed<string>, JsonError>
  {
    match r
    case Err(e) => Err(e)
    case Ok(Parsed(cs, rest)) => Ok(Parsed([c] + cs, rest))
  }

  function ParseString(s: string): (r: Result<Parsed<string>, JsonError>)
    ensures r.Ok? ==> |r.value.rest| < |s|
  {
    if s != [] && s[0] == '"' then ParseChars(s[1..]) else Err(ExpectedString)
  }

  /** One or more strings separated by commas and closed by `]`, `s` starting at the first
      string. A comma followed by `]` (a trailing comma) is an error. */
  function ParseElements(s: string): (r: Result<Parsed<seq<string>>, JsonError>)
    ensures r.Ok? ==> |r.value.rest| < |s| && |r.value.value| > 0
    decreases |s|
  {
    match ParseString(s)
    case Err(e) => Err(e)
    case Ok(Parsed(x, rest)) =>
      var t := SkipWhitespace(rest);
      if t == [] then Err(UnexpectedEnd)
      else if t[0] == ']' then Ok(Parsed([x], t[1..]))
      else if t[0] == ',' then
        PrependElement(x, ParseElements(SkipWhitespace(t[1..])))
      else Err(ExpectedCommaOrEnd)
  }

  /** The list read after a comma, with the string before the comma put in front. */
  function PrependElement(x: string, r: Result<Parsed<seq<string>>, JsonError>): (r': Result<Parsed<seq<string>>, JsonError>)
    ensures r'.Ok? <==> r.Ok?
    ensures r'.Ok? ==> r'.value == Parsed([x] + r.value.value, r.value.rest)
  {
    match r
    case Err(e) => Err(e)
    case Ok(Parsed(xs, rest)) => Ok(Parsed([x] + xs, rest))
  }

  function ParseArray(s: string): (r: Result<Parsed<seq<string>>, JsonError>)
  {
    var t := SkipWhitespace(s);
    if t == [] then Err(UnexpectedEnd)
    else if t[0] != '[' then Err(ExpectedArray)
    else
      var u := SkipWhitespace(t[1..]);
      if u != [] && u[0] == ']' then Ok(Parsed([], u[1..]))
      else ParseElements(u)
  }

  /** `serde_json::from_str::<Vec<String>>`: one array, optionally surrounded by whitespace,
      and nothing else. */
  function Decode(s: string): (r: Result<seq<string>, JsonError>)
  {
    match ParseArray(s)
    case Err(e) => Err(e)
    case Ok(Parsed(values, rest)) => if SkipWhitespace(rest) == [] then Ok(values) else Err(TrailingCharacters)
  }

  // ---------------------------------------------------------------- round trip

  lemma HexRoundTrip(n: int)
    requires 0 <= n < 16
    ensures HexValue(HexDigit(n)) == Some(n)
  {
  }

  lemma SkipWhitespaceStops(s: string)
    requires s == [] || !IsWhitespace(s[0])
    ensures SkipWhitespace(s) == s
  {
  }

  lemma {:induction false} SkipWhitespacePrefix(ws: string, s: string)
    requires AllWhitespace(ws)
    ensures SkipWhitespace(ws + s) == SkipWhitespace(s)
  {
    if ws != [] {
      assert (ws + s)[0] == ws[0];
      assert (ws + s)[1..] == ws[1..] + s;
      SkipWhitespacePrefix(ws[1..], s);
    } else {
      assert ws + s == s;
    }
  }

  /** The `\u00xx` escape of a control character reads back as that character. */
  lemma ParseControlEscape(n: int, t: string)
    requires 0 <= n < 0x20
    ensures ParseEscape(['u', '0', '0', HexDigit(n / 16), HexDigit(n % 16)] + t) == Ok(Parsed(n as char, t))
  {
    HexRoundTrip(n / 16);
    HexRoundTrip(n % 16);
    var e := ['u', '0', '0', HexDigit(n / 16), HexDigit(n % 16)] + t;
    assert e[1..][0] == '0' && e[1..][1] == '0' && e[1..][2] == HexDigit(n / 16) && e[1..][3] == HexDigit(n % 16);
    assert Hex4(e[1..]) == Some(n);
    assert e[5..] == t;
  }

  /** The two-character escapes read back as the characters they stand for. */
  lemma ParseShortEscape(c: char, t: string)
    requires c == '"' || c == '\\' || c as int == 0x08 || c as int == 0x0C || c == '\n' || c == '\r' || c == '\t'
    ensures ParseChars(EscapeChar(c) + t) == Prepend(c, ParseChars(t))
  {
    var s := EscapeChar(c) + t;
    assert s[0] == '\\' && s[1..] == [EscapeChar(c)[1]] + t;
    assert ParseEscape(s[1..]) == Ok(Parsed(c, t));
  }

  /** Reading back the escaped form of one character gives that character. */
  lemma ParseEscapedChar(c: char, t: string)
    ensures ParseChars(EscapeChar(c) + t) == Prepend(c, ParseChars(t))
  {
    var s := EscapeChar(c) + t;
    if c == '"' || c == '\\' || c as int == 0x08 || c as int == 0x0C || c == '\n' || c == '\r' || c == '\t' {
      ParseShortEscape(c, t);
    } else if (c as int) < 0x20 {
      var n := c as int;
      assert s[0] == '\\' && s[1..] == ['u', '0', '0', HexDigit(n / 16), HexDigit(n % 16)] + t;
      ParseControlEscape(n, t);
      assert (n as char) == c;
    } else {
      assert s[0] == c && s[1..] == t;
    }
  }

  lemma {:induction false} ParseEscapedString(s: string, t: string)
    ensures ParseChars(EscapeString(s) + ['"'] + t) == Ok(Parsed(s, t))
  {
    if s == [] {
      assert EscapeString(s) + ['"'] + t == ['"'] + t;
    } else {
      calc {
        EscapeString(s) + ['"'] + t;
        EscapeChar(s[0]) + EscapeString(s[1..]) + ['"'] + t;
        EscapeChar(s[0]) + (EscapeString(s[1..]) + ['"'] + t);
      }
      ParseEscapedChar(s[0], EscapeString(s[1..]) + ['"'] + t);
      ParseEscapedString(s[1..], t);
      assert [s[0]] + s[1..] == s;
    }
  }

  lemma ParseEncodedString(s: string, t: string)
    ensures ParseString(EncodeString(s) + t) == Ok(Parsed(s, t))
  {
    var u := EncodeString(s) + t;
    assert u[0] == '"';
    assert u[1..] == EscapeString(s) + ['"'] + t;
    ParseEscapedString(s, t);
  }

  /** After a string, the closing bracket ends the list. */
  lemma ParseLastElement(x: string, t: string)
    ensures ParseElements(EncodeString(x) + [']'] + t) == Ok(Parsed([x], t))
  {
    var closing := [']'] + t;
    assert EncodeString(x) + [']'] + t == EncodeString(x) + closing;
    ParseEncodedString(x, closing);
    SkipWhitespaceStops(closing);
    assert closing[1..] == t;
  }

  /** One step of the element list: a string followed directly by a comma. */
  lemma ParseElementsAfterComma(s: string, x: string, after: string)
    requires ParseString(s) == Ok(Parsed(x, after)) && after != [] && after[0] == ','
    ensures ParseElements(s) == PrependElement(x, ParseElements(SkipWhitespace(after[1..])))
  {
    SkipWhitespaceStops(after);
  }

  /** After a string, a comma and whitespace, the list goes on with the next string. */
  lemma ParseNextElement(x: string, ws: string, tail: string)
    requires AllWhitespace(ws) && tail != [] && tail[0] == '"'
    ensures ParseElements(EncodeString(x) + [','] + ws + tail) == PrependElement(x, ParseElements(tail))
  {
    var e := EncodeString(x);
    var rest := ws + tail;
    var after := [','] + rest;
    assert e + [','] + ws + tail == e + after;
    ParseEncodedString(x, after);
    assert after[1..] == rest;
    SkipWhitespacePrefix(ws, tail);
    SkipWhitespaceStops(tail);
    ParseElementsAfterComma(e + after, x, after);
  }

  lemma {:induction false} ParseLaidOutElements(values: seq<string>, ws: string, t: string)
    requires |values| > 0 && AllWhitespace(ws)
    ensures ParseElements(LayoutElements(values, ws) + [']'] + t) == Ok(Parsed(values, t))
  {
    if |values| == 1 {
      assert LayoutElements(values, ws) == EncodeString(values[0]);
      ParseLastElement(values[0], t);
      assert [values[0]] == values;
    } else {
      var tail := LayoutElements(values[1..], ws) + [']'] + t;
      assert LayoutElements(values, ws) + [']'] + t == EncodeString(values[0]) + [','] + ws + tail;
      assert tail[0] == '"';
      ParseNextElement(values[0], ws, tail);
      ParseLaidOutElements(values[1..], ws, t);
      assert [values[0]] + values[1..] == values;
    }
  }

  /** Decoding reads back any list written with any whitespace after the commas. */
  lemma DecodeLayout(values: seq<string>, ws: string)
    requires AllWhitespace(ws)
    ensures Decode(Layout(values, ws)) == Ok(values)
  {
    var s := Layout(values, ws);
    SkipWhitespaceStops(s);
    var body := LayoutElements(values, ws) + [']'];
    assert s[1..] == body;
    if values == [] {
      assert body == [']'];
    } else {
      assert body[0] == '"';
      SkipWhitespaceStops(body);
      ParseLaidOutElements(values, ws, []);
      assert body == LayoutElements(values, ws) + [']'] + [];
    }
  }

  /** `from_str(to_string(v)) == v` for every list of strings. */
  lemma DecodeEncode(values: seq<string>)
    ensures Decode(Encode(values)) == Ok(values)
  {
    DecodeLayout(values, []);
  }

  /** The encoder is compact: `["1","2"]` has no space after its comma. */
  lemma EncodeIsCompact()
    ensures Encode(["1", "2"]) == "[\"1\",\"2\"]"
  {
  }

  /** The three-element list written with a space after each comma. */
  lemma LayoutWithSpaces()
    ensures Layout(["1", "2", "3"], " ") == "[\"1\", \"2\", \"3\"]"
  {
    var values := ["1", "2", "3"];
    assert EncodeString("1") == "\"1\"" && EncodeString("2") == "\"2\"" && EncodeString("3") == "\"3\"";
    assert values[1..] == ["2", "3"] && values[1..][1..] == ["3"];
    assert LayoutElements(["3"], " ") == "\"3\"";
    assert LayoutElements(["2", "3"], " ") == "\"2\", \"3\"";
  }

  /** A space after each comma is accepted: `["1", "2", "3"]` reads as three strings. */
  lemma DecodeAcceptsSpaces()
    ensures Decode("[\"1\", \"2\", \"3\"]") == Ok(["1", "2", "3"])
  {
    LayoutWithSpaces();
    DecodeLayout(["1", "2", "3"], " ");
  }

  /** Text that is not a JSON array is rejected. */
  lemma DecodeRejectsNonArray()
    ensures Decode("invalid json").Err?
  {
  }
}
