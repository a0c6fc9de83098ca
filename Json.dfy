/**
 * The JSON text of the array fields (`tags`, `technologies`, `features`):
 * `JSON.stringify` of an array of strings, written out character by character,
 * and `JSON.parse` restricted to JSON texts whose value is an array of strings.
 */
module Json {
  import opened Wrappers
  import opened Text

  /** The JSON values a request body's fields are modelled with. */
  datatype JsonValue = JNull | JBool(b: bool) | JNum(n: int) | JStr(s: string) | JArr(items: seq<string>)

  function HexDigit(d: nat): (c: char)
    requires d < 16
    ensures DigitValue(c) == d
  {
    if d < 10 then ('0' as int + d) as char else ('a' as int + d - 10) as char
  }

  /** How `JSON.stringify` writes one character inside a string literal. */
  function EscapeChar(c: char): (r: string)
    ensures |r| >= 1
  {
    if c == '"' then ['\\', '"']
    else if c == '\\' then ['\\', '\\']
    else if c == 8 as char then ['\\', 'b']
    else if c == '\t' then ['\\', 't']
    else if c == '\n' then ['\\', 'n']
    else if c == 12 as char then ['\\', 'f']
    else if c == '\r' then ['\\', 'r']
    else if c < ' ' then ['\\', 'u', '0', '0', HexDigit(c as int / 16), HexDigit(c as int % 16)]
    else [c]
  }

  function Escape(s: string): string
  {
    if s == [] then [] else EscapeChar(s[0]) + Escape(s[1..])
  }

  /** A JSON string literal. */
  function Quote(s: string): (r: string)
    ensures |r| >= 2 && r[0] == '"'
  {
    ['"'] + Escape(s) + ['"']
  }

  function EncodeItems(xs: seq<string>): (r: string)
    ensures |xs| > 0 ==> |r| > 0 && r[0] == '"'
  {
    if |xs| == 0 then []
    else if |xs| == 1 then Quote(xs[0])
    else Quote(xs[0]) + [','] + EncodeItems(xs[1..])
  }

  /** `JSON.stringify(xs)` for an array of strings: compact, no whitespace; never the empty string. */
  function Encode(xs: seq<string>): (r: string)
    ensures |r| >= 2 && r[0] == '[' && r[|r| - 1] == ']'
  {
    ['['] + EncodeItems(xs) + [']']
  }

  /** `JSON.stringify(v)`. */
  function Stringify(v: JsonValue): (r: string)
    ensures v.JNum? ==> ParseInt(r) == Some(v.n)
    ensures v.JStr? ==> |r| >= 2 && r[0] == '"' && ParseChars(r[1..]) == Some((v.s, ""))
    ensures v.JArr? ==> Decode(r) == Some(v.items)
  {
    match v
    case JNull => "null"
    case JBool(b) => if b then "true" else "false"
    case JNum(n) =>
      ParseIntOfIntToString(n);
      IntToString(n)
    case JStr(s) =>
      ParseCharsOfEscape(s, "");
      assert Quote(s)[1..] == Escape(s) + ['"'] + "";
      Quote(s)
    case JArr(xs) =>
      DecodeEncode(xs);
      Encode(xs)
  }

  /** The whitespace JSON allows between tokens. */
  predicate IsJsonSpace(c: char)
  {
    c == ' ' || c == '\t' || c == '\n' || c == '\r'
  }

  function SkipSpace(t: string): (r: string)
    ensures |r| <= |t| && (r == [] || !IsJsonSpace(r[0]))
  {
    if |t| > 0 && IsJsonSpace(t[0]) then SkipSpace(t[1..]) else t
  }

  /** One escape sequence after a backslash: the character it stands for and how many characters it takes. */
  function Unescape(u: string): (r: Option<(char, nat)>)
    ensures r.Some? ==> 1 <= r.value.1 <= |u|
  {
    if |u| == 0 then None
    else if u[0] == '"' || u[0] == '\\' || u[0] == '/' then Some((u[0], 1))
    else if u[0] == 'b' then Some((8 as char, 1))
    else if u[0] == 'f' then Some((12 as char, 1))
    else if u[0] == 'n' then Some(('\n', 1))
    else if u[0] == 'r' then Some(('\r', 1))
    else if u[0] == 't' then Some(('\t', 1))
    else if u[0] == 'u' && |u| >= 5
            && DigitValue(u[1]) < 16 && DigitValue(u[2]) < 16 && DigitValue(u[3]) < 16 && DigitValue(u[4]) < 16 then
      var v := DigitValue(u[1]) * 4096 + DigitValue(u[2]) * 256 + DigitValue(u[3]) * 16 + DigitValue(u[4]);
      // A lone surrogate half is not a character here.
      if 0xD800 <= v < 0xE000 then None else Some((v as char, 5))
    else None
  }

  /** The body of a string literal after its opening quote: its characters and the text after the closing quote. */
  function ParseChars(t: string): (r: Option<(string, string)>)
    ensures r.Some? ==> |r.value.1| < |t|
    decreases |t|
  {
    if |t| == 0 then None
    else if t[0] == '"' then Some(([], t[1..]))
    else if t[0] == '\\' then
      match Unescape(t[1..])
      case None => None
      case Some((c, k)) =>
        match ParseChars(t[1 + k..])
        case None => None
        case Some((s, rest)) => Some(([c] + s, rest))
    else if t[0] < ' ' then None
    else
      match ParseChars(t[1..])
      case None => None
      case Some((s, rest)) => Some(([t[0]] + s, rest))
  }

  /** The elements of a non-empty array of strings, from the first element up to and including the closing `]`. */
  function ParseItems(t: string): (r: Option<(seq<string>, string)>)
    ensures r.Some? ==> |r.value.1| < |t|
    decreases |t|
  {
    if |t| == 0 || t[0] != '"' then None
    else
      match ParseChars(t[1..])
      case None => None
      case Some((s, rest)) =>
        var u := SkipSpace(rest);
        if |u| > 0 && u[0] == ']' then Some(([s], u[1..]))
        else if |u| > 0 && u[0] == ',' then
          match ParseItems(SkipSpace(u[1..]))
          case None => None
          case Some((ss, after)) => Some(([s] + ss, after))
        else None
  }

  /** `JSON.parse(t)` where the value must be an array of strings; every other text is a parse failure. */
  function Decode(t: string): (r: Option<seq<string>>)
    ensures r.Some? ==> SkipSpace(t) != [] && SkipSpace(t)[0] == '['
  {
    var u := SkipSpace(t);
    if |u| == 0 || u[0] != '[' then None
    else
      var v := SkipSpace(u[1..]);
      var parsed: Option<(seq<string>, string)> := if |v| > 0 && v[0] == ']' then Some(([], v[1..])) else ParseItems(v);
      match parsed
      case None => None
      case Some((xs, after)) => if SkipSpace(after) == [] then Some(xs) else None
  }

  lemma ParseEscapedChar(c: char, more: string)
    requires ParseChars(more).Some?
    ensures ParseChars(EscapeChar(c) + more) == Some(([c] + ParseChars(more).value.0, ParseChars(more).value.1))
  {
    var t := EscapeChar(c) + more;
    var e := EscapeChar(c);
    if |e| == 1 {
      assert t[0] == c && t[1..] == more;
    } else if |e| == 2 {
      assert t[0] == '\\' && t[1..][0] == e[1];
      assert Unescape(t[1..]) == Some((c, 1));
      assert t[2..] == more;
    } else {
      var hi, lo := c as int / 16, c as int % 16;
      assert t[1..][..5] == ['u', '0', '0', HexDigit(hi), HexDigit(lo)];
      assert Unescape(t[1..]) == Some((c, 5));
      assert t[6..] == more;
    }
  }

  /** The characters of an escaped string literal parse back to the string itself. */
  lemma {:induction false} ParseCharsOfEscape(s: string, tail: string)
    ensures ParseChars(Escape(s) + ['"'] + tail) == Some((s, tail))
  {
    if s == [] {
      assert Escape(s) + ['"'] + tail == ['"'] + tail;
    } else {
      var more := Escape(s[1..]) + ['"'] + tail;
      ParseCharsOfEscape(s[1..], tail);
      assert ParseChars(more) == Some((s[1..], tail));
      ParseEscapedChar(s[0], more);
      assert ParseChars(EscapeChar(s[0]) + more) == Some(([s[0]] + s[1..], tail));
      assert Escape(s) == EscapeChar(s[0]) + Escape(s[1..]);
      assert Escape(s) + ['"'] + tail == EscapeChar(s[0]) + more;
      assert [s[0]] + s[1..] == s;
    }
  }

  /** A string literal followed by `sep`: the item parser reads the string and stops at `sep`. */
  lemma QuotedThen(x: string, sep: char, next: string)
    ensures ParseChars((Quote(x) + [sep] + next)[1..]) == Some((x, [sep] + next))
  {
    assert (Quote(x) + [sep] + next)[1..] == Escape(x) + ['"'] + ([sep] + next);
    ParseCharsOfEscape(x, [sep] + next);
  }

  lemma {:induction false} ParseItemsOfEncode(xs: seq<string>, tail: string)
    requires |xs| > 0
    ensures ParseItems(EncodeItems(xs) + [']'] + tail) == Some((xs, tail))
  {
    var t := EncodeItems(xs) + [']'] + tail;
    if |xs| == 1 {
      QuotedThen(xs[0], ']', tail);
      assert t == Quote(xs[0]) + [']'] + tail;
      assert SkipSpace([']'] + tail) == [']'] + tail;
      assert ([']'] + tail)[1..] == tail;
      assert t[0] == '"';
      assert xs == [xs[0]];
    } else {
      var next := EncodeItems(xs[1..]) + [']'] + tail;
      QuotedThen(xs[0], ',', next);
      assert t == Quote(xs[0]) + [','] + next;
      assert SkipSpace([','] + next) == [','] + next;
      assert ([','] + next)[1..] == next;
      assert SkipSpace(next) == next;
      ParseItemsOfEncode(xs[1..], tail);
      assert [xs[0]] + xs[1..] == xs;
    }
  }

  /** Round trip: `JSON.parse(JSON.stringify(xs))` gives back `xs`, order and duplicates included. */
  lemma DecodeEncode(xs: seq<string>)
    ensures Decode(Encode(xs)) == Some(xs)
  {
    var t := Encode(xs);
    assert SkipSpace(t) == t;
    if xs == [] {
      assert t[1..] == [']'];
    } else {
      assert t[1..] == EncodeItems(xs) + [']'] + [];
      ParseItemsOfEncode(xs, []);
    }
  }

  /** Distinct arrays never share a stored text. */
  lemma EncodeInjective(xs: seq<string>, ys: seq<string>)
    requires Encode(xs) == Encode(ys)
    ensures xs == ys
  {
    DecodeEncode(xs);
    DecodeEncode(ys);
  }

  /**
   * An array column read with `column ? JSON.parse(column) : []`: a missing
   * or empty column reads as `[]`; `None` is a parse error.
   */
  function DecodeColumn(stored: Option<string>): (r: Option<seq<string>>)
    ensures stored == None || stored == Some("") ==> r == Some([])
  {
    match stored
    case None => Some([])
    case Some(t) => if t == "" then Some([]) else Decode(t)
  }

  /** A column written with `JSON.stringify(items)` reads back as `items`. */
  lemma ColumnRoundTrip(items: seq<string>)
    ensures DecodeColumn(Some(Encode(items))) == Some(items)
  {
    DecodeEncode(items);
  }
}
