/** JSON values as the scripts see them after `json.load`, and the part of `json.loads`
    the archive reader uses: decoding a JSON array of strings (the `hashtags` attribute).
    `EncodeStringArray` is the matching encoder (`json.dumps(tags, ensure_ascii=False)`),
    here only to state the round trip. */
module Json {

  import opened Outcomes
  import opened Seqs

  datatype Value =
    | Null
    | Bool(b: bool)
    | Num(n: int)
    | Str(s: string)
    | Arr(items: seq<Value>)
    | Obj(fields: map<string, Value>)

  /** The four whitespace characters JSON allows between tokens. */
  predicate IsWs(c: char) {
    c == ' ' || c == '\t' || c == '\n' || c == '\r'
  }

  function SkipWs(s: string): (r: string)
    ensures |r| <= |s|
    ensures r == [] || !IsWs(r[0])
  {
    if s != [] && IsWs(s[0]) then SkipWs(s[1..]) else s
  }

  function HexValue(c: char): Option<nat> {
    if '0' <= c <= '9' then Some(c as int - '0' as int)
    else if 'a' <= c <= 'f' then Some(c as int - 'a' as int + 10)
    else if 'A' <= c <= 'F' then Some(c as int - 'A' as int + 10)
    else None
  }

  /** The lower-case hexadecimal digit `json.dumps` writes. */
  function HexDigit(d: nat): (c: char)
    requires d < 16
    ensures HexValue(c) == Some(d)
  {
    if d < 10 then ('0' as int + d) as char else ('a' as int + d - 10) as char
  }

  /** The code point written as the four hex digits of a `\uXXXX` escape. */
  function Hex4(s: string): Option<nat>
    requires |s| == 4
  {
    match (HexValue(s[0]), HexValue(s[1]), HexValue(s[2]), HexValue(s[3]))
    case (Some(a), Some(b), Some(c), Some(d)) => Some(((a * 16 + b) * 16 + c) * 16 + d)
    case _ => None
  }

  /** The character an escape stands for; `s` is the text after the backslash. */
  function Unescape(s: string): (r: Result<(char, string)>)
    ensures r.Ok? ==> |r.value.1| < |s|
  {
    if s == [] then Fail(JsonDecodeError)
    else if s[0] == '"' then Ok(('"', s[1..]))
    else if s[0] == '\\' then Ok(('\\', s[1..]))
    else if s[0] == '/' then Ok(('/', s[1..]))
    else if s[0] == 'b' then Ok((8 as char, s[1..]))
    else if s[0] == 'f' then Ok((12 as char, s[1..]))
    else if s[0] == 'n' then Ok(('\n', s[1..]))
    else if s[0] == 'r' then Ok(('\r', s[1..]))
    else if s[0] == 't' then Ok(('\t', s[1..]))
    else if s[0] == 'u' && |s| >= 5 then
      match Hex4(s[1..5])
      case Some(v) =>
        if 0xD800 <= v <= 0xDFFF then Fail(JsonDecodeError)
        else Ok((v as char, s[5..]))
      case None => Fail(JsonDecodeError)
    else Fail(JsonDecodeError)
  }

  /** The characters of a string literal up to its closing quote, and the text after it. */
  function ParseChars(s: string): (r: Result<(string, string)>)
    ensures r.Ok? ==> |r.value.1| < |s|
    decreases |s|
  {
    if s == [] then Fail(JsonDecodeError)
    else if s[0] == '"' then Ok(([], s[1..]))
    else if s[0] == '\\' then
      match Unescape(s[1..])
      case Fail(e) => Fail(e)
      case Ok((c, rest)) =>
        match ParseChars(rest)
        case Fail(e) => Fail(e)
        case Ok((t, after)) => Ok(([c] + t, after))
    else if (s[0] as int) < 0x20 then Fail(JsonDecodeError)
    else
      match ParseChars(s[1..])
      case Fail(e) => Fail(e)
      case Ok((t, after)) => Ok(([s[0]] + t, after))
  }

  /** One or more string items separated by commas, up to and including the closing `]`. */
  function ParseItems(s: string): (r: Result<(seq<string>, string)>)
    ensures r.Ok? ==> |r.value.1| < |s|
    decreases |s|
  {
    if s == [] || s[0] != '"' then Fail(JsonDecodeError)
    else
      match ParseChars(s[1..])
      case Fail(e) => Fail(e)
      case Ok((t, rest)) => ItemsAfter(t, SkipWs(rest))
  }

  /** What follows the item `t`: the closing `]`, or a comma and further items. */
  function ItemsAfter(t: string, s: string): (r: Result<(seq<string>, string)>)
    ensures r.Ok? ==> |r.value.1| < |s|
    decreases |s|
  {
    if s != [] && s[0] == ']' then Ok(([t], s[1..]))
    else if s != [] && s[0] == ',' then
      match ParseItems(SkipWs(s[1..]))
      case Fail(e) => Fail(e)
      case Ok((ts, rest)) => Ok(([t] + ts, rest))
    else Fail(JsonDecodeError)
  }

  /** `json.loads(text)` when `text` holds a JSON array of strings. */
  function DecodeStringArray(text: string): Result<seq<string>> {
    var s := SkipWs(text);
    if s == [] || s[0] != '[' then Fail(JsonDecodeError)
    else ArrayBody(SkipWs(s[1..]))
  }

  /** The array after its `[`: its items, then nothing but whitespace. */
  function ArrayBody(s: string): Result<seq<string>> {
    if s != [] && s[0] == ']' then
      if SkipWs(s[1..]) == [] then Ok([]) else Fail(JsonDecodeError)
    else
      match ParseItems(s)
      case Fail(e) => Fail(e)
      case Ok((ts, rest)) => if SkipWs(rest) == [] then Ok(ts) else Fail(JsonDecodeError)
  }

  /** How `json.dumps` writes one character inside a string literal. */
  function EscapeChar(c: char): string {
    if c == '"' then "\\\""
    else if c == '\\' then "\\\\"
    else if c == '\n' then "\\n"
    else if c == '\r' then "\\r"
    else if c == '\t' then "\\t"
    else if c as int == 8 then "\\b"
    else if c as int == 12 then "\\f"
    else if (c as int) < 0x20 then "\\u00" + [HexDigit(c as int / 16), HexDigit(c as int % 16)]
    else [c]
  }

  function EncodeChars(t: string): string {
    if t == [] then [] else EscapeChar(t[0]) + EncodeChars(t[1..])
  }

  function EncodeItems(ts: seq<string>): string
    requires ts != []
  {
    "\"" + EncodeChars(ts[0]) + "\"" + (if |ts| == 1 then "" else ", " + EncodeItems(ts[1..]))
  }

  /** `json.dumps(ts, ensure_ascii=False)`. */
  function EncodeStringArray(ts: seq<string>): string {
    if ts == [] then "[]" else "[" + EncodeItems(ts) + "]"
  }

  /** A `\u00XX` escape of a control character is read back as that character. */
  lemma UnicodeEscapeRoundTrip(n: nat, rest: string)
    requires n < 0x20
    ensures Unescape("u00" + [HexDigit(n / 16), HexDigit(n % 16)] + rest) == Ok((n as char, rest))
  {
    var u := "u00" + [HexDigit(n / 16), HexDigit(n % 16)] + rest;
    assert u[0] == 'u' && |u| >= 5;
    var h := u[1..5];
    assert h[0] == '0' && h[1] == '0' && h[2] == HexDigit(n / 16) && h[3] == HexDigit(n % 16);
    assert Hex4(h) == Some(n);
    assert u[5..] == rest;
  }

  lemma EscapeCharRoundTrip(c: char, rest: string)
    ensures ParseChars(EscapeChar(c) + rest) ==
      match ParseChars(rest)
      case Fail(e) => Fail(e)
      case Ok((t, after)) => Ok(([c] + t, after))
  {
    var e := EscapeChar(c);
    var s := e + rest;
    if c == '"' || c == '\\' || c == '\n' || c == '\r' || c == '\t' || c as int == 8 || c as int == 12 {
      assert s[0] == '\\' && s[1..] == [e[1]] + rest;
    } else if (c as int) < 0x20 {
      var n := c as int;
      var u := "u00" + [HexDigit(n / 16), HexDigit(n % 16)];
      assert e == "\\" + u;
      assert s[0] == '\\' && s[1..] == u + rest;
      UnicodeEscapeRoundTrip(n, rest);
      assert (n as char) == c;
    } else {
      assert s[0] == c && s[1..] == rest;
    }
  }

  /** Decoding the encoding of a string literal's characters gives them back, with the
      text after the closing quote. */
  lemma {:induction false} CharsRoundTrip(t: string, rest: string)
    ensures ParseChars(EncodeChars(t) + "\"" + rest) == Ok((t, rest))
    decreases |t|
  {
    if t == [] {
      assert EncodeChars(t) + "\"" + rest == "\"" + rest;
    } else {
      assert EncodeChars(t) + "\"" + rest == EscapeChar(t[0]) + (EncodeChars(t[1..]) + "\"" + rest);
      CharsRoundTrip(t[1..], rest);
      EscapeCharRoundTrip(t[0], EncodeChars(t[1..]) + "\"" + rest);
      assert [t[0]] + t[1..] == t;
    }
  }

  /** An encoded item is read back, and parsing goes on with what follows it. */
  lemma ItemRoundTrip(t: string, after: string)
    ensures ParseItems("\"" + EncodeChars(t) + "\"" + after) == ItemsAfter(t, SkipWs(after))
  {
    var s := "\"" + EncodeChars(t) + "\"" + after;
    assert s[1..] == EncodeChars(t) + "\"" + after;
    CharsRoundTrip(t, after);
  }

  lemma {:induction false} ItemsRoundTrip(ts: seq<string>, rest: string)
    requires ts != []
    ensures ParseItems(EncodeItems(ts) + "]" + rest) == Ok((ts, rest))
    decreases |ts|
  {
    if |ts| == 1 {
      EncodeItemsOne(ts, rest);
      ItemRoundTrip(ts[0], "]" + rest);
      ItemsAfterClose(ts[0], rest);
      assert ts == [ts[0]];
    } else {
      var tail := EncodeItems(ts[1..]) + "]" + rest;
      EncodeItemsMore(ts, rest);
      ItemRoundTrip(ts[0], ", " + tail);
      ItemsRoundTrip(ts[1..], rest);
      EncodeItemsFirst(ts[1..], rest);
      ItemsAfterComma(ts[0], tail, ts[1..], rest);
      ConsTail(ts);
    }
  }

  /** The encoded items, followed by the closing bracket, start with a quote. */
  lemma EncodeItemsFirst(ts: seq<string>, rest: string)
    requires ts != []
    ensures EncodeItems(ts) + "]" + rest != [] && (EncodeItems(ts) + "]" + rest)[0] == '"'
  {
    var e := EncodeItems(ts);
    assert e[0] == '"';
    IndexAppend(e, "]", 0);
    IndexAppend(e + "]", rest, 0);
  }

  /** A single encoded item is its quoted text. */
  lemma EncodeItemsOne(ts: seq<string>, rest: string)
    requires |ts| == 1
    ensures EncodeItems(ts) + "]" + rest == "\"" + EncodeChars(ts[0]) + "\"" + ("]" + rest)
  {
    var q := "\"" + EncodeChars(ts[0]) + "\"";
    assert EncodeItems(ts) == q + "";
    assert q + "" == q;
    AppendAssoc(q, "]", rest);
  }

  /** Further encoded items follow the first after a comma and a space. */
  lemma EncodeItemsMore(ts: seq<string>, rest: string)
    requires |ts| > 1
    ensures EncodeItems(ts) + "]" + rest
      == "\"" + EncodeChars(ts[0]) + "\"" + (", " + (EncodeItems(ts[1..]) + "]" + rest))
  {
    var q := "\"" + EncodeChars(ts[0]) + "\"";
    var e := EncodeItems(ts[1..]);
    assert EncodeItems(ts) == q + (", " + e);
    AppendAssoc(q, ", " + e, "]");
    AppendAssoc(q, ", " + e + "]", rest);
    AppendAssoc(", ", e, "]");
    AppendAssoc(", ", e + "]", rest);
  }

  /** After the last item comes the closing bracket. */
  lemma ItemsAfterClose(t: string, rest: string)
    ensures ItemsAfter(t, SkipWs("]" + rest)) == Ok(([t], rest))
  {
    assert SkipWs("]" + rest) == "]" + rest;
    assert ("]" + rest)[1..] == rest;
  }

  /** After any other item come a comma, a space and the next items. */
  lemma ItemsAfterComma(t: string, tail: string, ts: seq<string>, rest: string)
    requires tail != [] && tail[0] == '"'
    requires ParseItems(tail) == Ok((ts, rest))
    ensures ItemsAfter(t, SkipWs(", " + tail)) == Ok(([t] + ts, rest))
  {
    assert SkipWs(", " + tail) == ", " + tail;
    assert (", " + tail)[1..] == " " + tail;
    assert SkipWs(" " + tail) == tail by {
      assert (" " + tail)[1..] == tail;
    }
  }

  /** `json.loads(json.dumps(ts)) == ts` for every list of strings. */
  lemma DecodeEncode(ts: seq<string>)
    ensures DecodeStringArray(EncodeStringArray(ts)) == Ok(ts)
  {
    if ts == [] {
      DecodeEmpty();
    } else {
      DecodeNonEmpty(ts);
    }
  }

  lemma DecodeEmpty()
    ensures DecodeStringArray("[]") == Ok([])
  {
    assert SkipWs("[]") == "[]";
    assert "[]"[1..] == "]";
    assert SkipWs("]") == "]";
    EmptyArrayBody();
  }

  lemma EmptyArrayBody()
    ensures ArrayBody("]") == Ok([])
  {
    assert "]"[1..] == [];
  }

  lemma DecodeNonEmpty(ts: seq<string>)
    requires ts != []
    ensures DecodeStringArray("[" + EncodeItems(ts) + "]") == Ok(ts)
  {
    var body := EncodeItems(ts) + "]";
    var text := "[" + body;
    assert "[" + EncodeItems(ts) + "]" == text;
    assert SkipWs(text) == text;
    assert text[1..] == body;
    assert body[0] == '"';
    assert SkipWs(body) == body;
    ItemsRoundTrip(ts, "");
    assert body + "" == body;
  }
}
