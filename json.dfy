/** The text saved under the progress key: `JSON.stringify` of an array of
    strings, and the part of `JSON.parse` that reads such an array back.

    The writer follows the string escaping of `JSON.stringify` (section
    25.5.2.3 of ECMA-262, QuoteJSONString): `"` and `\` are escaped, the
    control characters with a short form use it, the other control
    characters become `\u00xx` with lower-case hex digits, and every other
    character is written as is. The reader accepts the compact array form
    only (no whitespace between tokens) with any string escape. */
module JsonArray {
  import opened Text

  // ---------------------------------------------------------------------
  // Writing

  function HexDigit(n: nat): (c: char)
    requires n < 16
  {
    if n < 10 then ('0' as int + n) as char else ('a' as int + n - 10) as char
  }

  /** One character of a string literal. */
  function EscapeChar(c: char): string
  {
    if c == '"' then "\\\""
    else if c == '\\' then "\\\\"
    else if c == '\U{8}' then "\\b"
    else if c == '\t' then "\\t"
    else if c == '\n' then "\\n"
    else if c == '\U{C}' then "\\f"
    else if c == '\r' then "\\r"
    else if (c as int) < 0x20 then "\\u00" + [HexDigit(c as int / 16), HexDigit(c as int % 16)]
    else [c]
  }

  function Escape(s: string): string
  {
    if s == [] then [] else EscapeChar(s[0]) + Escape(s[1..])
  }

  function Quote(s: string): string
  {
    "\"" + Escape(s) + "\""
  }

  /** The elements, separated by commas. */
  function Items(xs: seq<string>): string
  {
    if xs == [] then ""
    else if |xs| == 1 then Quote(xs[0])
    else Quote(xs[0]) + "," + Items(xs[1..])
  }

  /** `JSON.stringify(xs)` for an array of strings. */
  function Encode(xs: seq<string>): (r: string)
    ensures |r| >= 2 && r[0] == '[' && r[|r| - 1] == ']'
  {
    "[" + Items(xs) + "]"
  }

  // ---------------------------------------------------------------------
  // Reading

  function HexValue(c: char): (r: Option<nat>)
    ensures r.Some? ==> r.value < 16
  {
    if '0' <= c <= '9' then Some(c as int - '0' as int)
    else if 'a' <= c <= 'f' then Some(c as int - 'a' as int + 10)
    else if 'A' <= c <= 'F' then Some(c as int - 'A' as int + 10)
    else None
  }

  /** The value of four hex digits. */
  function Hex4(s: string): (r: Option<nat>)
    requires |s| == 4
    ensures r.Some? ==> r.value < 0x10000
  {
    match (HexValue(s[0]), HexValue(s[1]), HexValue(s[2]), HexValue(s[3]))
    case (Some(a), Some(b), Some(c), Some(d)) => Some(((a * 16 + b) * 16 + c) * 16 + d)
    case _ => None
  }

  /** The escape after a backslash: the character it stands for and how
      many characters it takes. A `\u` escape naming a surrogate half is
      refused (a pair of them is not read). */
  function Unescape(s: string): (r: Option<(char, nat)>)
    ensures r.Some? ==> 1 <= r.value.1 <= |s|
  {
    if s == [] then None
    else if s[0] == '"' then Some(('"', 1))
    else if s[0] == '\\' then Some(('\\', 1))
    else if s[0] == '/' then Some(('/', 1))
    else if s[0] == 'b' then Some(('\U{8}', 1))
    else if s[0] == 't' then Some(('\t', 1))
    else if s[0] == 'n' then Some(('\n', 1))
    else if s[0] == 'f' then Some(('\U{C}', 1))
    else if s[0] == 'r' then Some(('\r', 1))
    else if s[0] == 'u' && |s| >= 5 then
      match Hex4(s[1..5])
      case Some(v) => if 0xD800 <= v < 0xE000 then None else Some((v as char, 5))
      case None => None
    else None
  }

  /** The body of a string literal up to its closing quote: the characters
      read and what follows the quote. A raw control character is refused. */
  function ParseString(s: string): (r: Option<(string, string)>)
    ensures r.Some? ==> |r.value.1| < |s|
    decreases |s|
  {
    if s == [] then None
    else if s[0] == '"' then Some(("", s[1..]))
    else if s[0] == '\\' then
      match Unescape(s[1..])
      case None => None
      case Some((c, n)) =>
        match ParseString(s[1 + n..])
        case None => None
        case Some((t, rest)) => Some(([c] + t, rest))
    else if (s[0] as int) < 0x20 then None
    else
      match ParseString(s[1..])
      case None => None
      case Some((t, rest)) => Some(([s[0]] + t, rest))
  }

  /** One or more comma-separated string literals and the closing bracket. */
  function ParseItems(s: string): (r: Option<seq<string>>)
    ensures r.Some? ==> r.value != []
    decreases |s|
  {
    if s == [] || s[0] != '"' then None
    else
      match ParseString(s[1..])
      case None => None
      case Some((x, rest)) =>
        if rest == "]" then Some([x])
        else if rest != [] && rest[0] == ',' then
          match ParseItems(rest[1..])
          case None => None
          case Some(xs) => Some([x] + xs)
        else None
  }

  /** `JSON.parse` of a saved array of strings; `None` stands for text it
      rejects. */
  function Decode(s: string): (r: Option<seq<string>>)
  {
    if |s| < 2 || s[0] != '[' then None
    else if s[1..] == "]" then Some([])
    else ParseItems(s[1..])
  }

  // ---------------------------------------------------------------------
  // Round trip

  lemma HexRoundTrip(n: nat)
    requires n < 16
    ensures HexValue(HexDigit(n)) == Some(n)
  {
  }

  /** A one-letter escape is read back as the character it stands for. */
  lemma UnescapeShort(c: char, t: string)
    requires c == '"' || c == '\\' || c == '\U{8}' || c == '\t' || c == '\n' || c == '\U{C}' || c == '\r'
    ensures |EscapeChar(c)| == 2 && EscapeChar(c)[0] == '\\'
    ensures Unescape(EscapeChar(c)[1..] + t) == Some((c, 1))
  {
  }

  /** A `\u00xx` escape is read back as the control character it names. */
  lemma UnescapeControl(c: char, t: string)
    requires (c as int) < 0x20
    ensures Unescape("u00" + [HexDigit(c as int / 16), HexDigit(c as int % 16)] + t) == Some((c, 5))
  {
    var hi, lo := c as int / 16, c as int % 16;
    var u := "u00" + [HexDigit(hi), HexDigit(lo)] + t;
    HexRoundTrip(hi);
    HexRoundTrip(lo);
    assert u[0] == 'u' && |u| >= 5;
    assert u[1..5] == ['0', '0', HexDigit(hi), HexDigit(lo)];
    assert ((0 * 16 + 0) * 16 + hi) * 16 + lo == c as int;
    assert Hex4(u[1..5]) == Some(c as int);
  }

  /** Reading an escaped character, then the rest. */
  lemma ParseEscapedChar(c: char, t: string)
    ensures ParseString(EscapeChar(c) + t) ==
      match ParseString(t)
      case None => None
      case Some((u, rest)) => Some(([c] + u, rest))
  {
    var s := EscapeChar(c) + t;
    if c == '"' || c == '\\' || c == '\U{8}' || c == '\t' || c == '\n' || c == '\U{C}' || c == '\r' {
      UnescapeShort(c, t);
      assert s[0] == '\\' && s[1..] == EscapeChar(c)[1..] + t && s[2..] == t;
    } else if (c as int) < 0x20 {
      UnescapeControl(c, t);
      var hex := [HexDigit(c as int / 16), HexDigit(c as int % 16)];
      assert EscapeChar(c) == "\\u00" + hex;
      assert s[0] == '\\' && s[1..] == "u00" + hex + t && s[6..] == t;
    } else {
      assert s[0] == c && s[1..] == t;
    }
  }

  /** A string literal written by `Quote` is read back whole. */
  lemma {:induction false} ParseEscaped(x: string, rest: string)
    ensures ParseString(Escape(x) + "\"" + rest) == Some((x, rest))
  {
    if x == [] {
      assert Escape(x) + "\"" + rest == "\"" + rest;
    } else {
      ParseEscaped(x[1..], rest);
      assert Escape(x) + "\"" + rest == EscapeChar(x[0]) + (Escape(x[1..]) + "\"" + rest);
      ParseEscapedChar(x[0], Escape(x[1..]) + "\"" + rest);
      assert [x[0]] + x[1..] == x;
    }
  }

  /** One step of reading the items, once the first literal is read. */
  lemma ParseItemsUnfold(s: string, x: string, rest: string)
    requires s != [] && s[0] == '"' && ParseString(s[1..]) == Some((x, rest))
    ensures ParseItems(s) ==
      if rest == "]" then Some([x])
      else if rest != [] && rest[0] == ',' then
        match ParseItems(rest[1..])
        case None => None
        case Some(xs) => Some([x] + xs)
      else None
  {
  }

  /** The last literal written by `Quote`, then the closing bracket. */
  lemma ParseLastItem(x: string)
    ensures ParseItems(Quote(x) + "]") == Some([x])
  {
    var s := Quote(x) + "]";
    assert s[0] == '"' && s[1..] == Escape(x) + "\"" + "]";
    ParseEscaped(x, "]");
    ParseItemsUnfold(s, x, "]");
  }

  /** A literal written by `Quote`, a comma, then the remaining items. */
  lemma ParseNextItem(x: string, rest: string)
    ensures ParseItems(Quote(x) + "," + rest) ==
      match ParseItems(rest)
      case None => None
      case Some(xs) => Some([x] + xs)
  {
    var s := Quote(x) + "," + rest;
    var tail := "," + rest;
    assert s[0] == '"' && s[1..] == Escape(x) + "\"" + tail;
    ParseEscaped(x, tail);
    assert tail != "]" && tail[0] == ',' && tail[1..] == rest;
    ParseItemsUnfold(s, x, tail);
  }

  /** The written items of a longer array: the first literal, a comma,
      then the items of the rest. */
  lemma ItemsCons(xs: seq<string>)
    requires |xs| > 1
    ensures Items(xs) + "]" == Quote(xs[0]) + "," + (Items(xs[1..]) + "]")
  {
  }

  lemma {:induction false} ParseItemsRoundTrip(xs: seq<string>)
    requires xs != []
    ensures ParseItems(Items(xs) + "]") == Some(xs)
  {
    if |xs| == 1 {
      assert Items(xs) + "]" == Quote(xs[0]) + "]";
      ParseLastItem(xs[0]);
      assert [xs[0]] == xs;
    } else {
      ItemsCons(xs);
      ParseNextItem(xs[0], Items(xs[1..]) + "]");
      ParseItemsRoundTrip(xs[1..]);
      assert [xs[0]] + xs[1..] == xs;
    }
  }

  /** What is saved is read back as the same array. */
  lemma DecodeEncode(xs: seq<string>)
    ensures Decode(Encode(xs)) == Some(xs)
  {
    var s := Encode(xs);
    assert s[1..] == Items(xs) + "]";
    if xs != [] {
      ParseItemsRoundTrip(xs);
      assert Items(xs)[0] == '"';
    }
  }
}
