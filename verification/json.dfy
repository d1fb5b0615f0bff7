/** The JSON text kept in the `ingredients` and `steps` columns.

    Encoding follows `json.dumps` with its default settings: items separated by
    ", ", keys by ": ", and every character outside printable ASCII escaped
    (`ensure_ascii`), characters beyond U+FFFF as a surrogate pair. Decoding follows
    `json.loads` for the two shapes the repository stores, a list of strings and a
    list of ingredients, accepting JSON whitespace between tokens. */
module Json {
  import opened Wrappers
  import opened RecipeEntity

  // ---------------------------------------------------------------- hex digits

  function HexDigit(d: int): (c: char)
    requires 0 <= d < 16
    ensures '0' <= c <= '9' || 'a' <= c <= 'f'
  {
    if d < 10 then ('0' as int + d) as char else ('a' as int + d - 10) as char
  }

  function HexValue(c: char): (r: Option<int>)
    ensures r.Some? ==> 0 <= r.value < 16
  {
    if '0' <= c <= '9' then Some(c as int - '0' as int)
    else if 'a' <= c <= 'f' then Some(c as int - 'a' as int + 10)
    else if 'A' <= c <= 'F' then Some(c as int - 'A' as int + 10)
    else None
  }

  /** `'{0:04x}'.format(n)`: four lower-case hex digits. */
  function Hex4(n: int): (s: string)
    requires 0 <= n < 0x1_0000
    ensures |s| == 4
  {
    [HexDigit(n / 0x1000), HexDigit(n / 0x100 % 0x10), HexDigit(n / 0x10 % 0x10), HexDigit(n % 0x10)]
  }

  /** Reads the four hex digits at the front of `s`, in either case. */
  function ParseHex4(s: string): (r: Option<int>)
    ensures r.Some? ==> 0 <= r.value < 0x1_0000
  {
    if |s| < 4 then None
    else
      var a :- HexValue(s[0]);
      var b :- HexValue(s[1]);
      var c :- HexValue(s[2]);
      var d :- HexValue(s[3]);
      Some(a * 0x1000 + b * 0x100 + c * 0x10 + d)
  }

  lemma HexDigitValue(d: int)
    requires 0 <= d < 16
    ensures HexValue(HexDigit(d)) == Some(d)
  {
  }

  lemma {:induction false} Hex4RoundTrip(n: int, rest: string)
    requires 0 <= n < 0x1_0000
    ensures ParseHex4(Hex4(n) + rest) == Some(n)
  {
    var s := Hex4(n) + rest;
    HexDigitValue(n / 0x1000);
    HexDigitValue(n / 0x100 % 0x10);
    HexDigitValue(n / 0x10 % 0x10);
    HexDigitValue(n % 0x10);
    assert s[..4] == Hex4(n);
    var q := n / 0x10;
    assert n == q * 0x10 + n % 0x10;
    assert q / 0x10 == n / 0x100;
    assert n / 0x100 == (n / 0x1000) * 0x10 + n / 0x100 % 0x10;
  }

  // ---------------------------------------------------------------- strings

  /** `\uXXXX` for one UTF-16 code unit. */
  function UnicodeEscape(unit: int): (e: string)
    requires 0 <= unit < 0x1_0000
    ensures |e| == 6
  {
    "\\u" + Hex4(unit)
  }

  predicate IsPrintableAscii(c: char) {
    ' ' <= c <= '~'
  }

  /** How `json.dumps` spells one character inside a string literal. */
  function EscapeChar(c: char): (e: string)
    ensures |e| > 0 && e[0] != '"'
  {
    if c == '"' then "\\\""
    else if c == '\\' then "\\\\"
    else if c == '\n' then "\\n"
    else if c == '\r' then "\\r"
    else if c == '\t' then "\\t"
    else if c as int == 0x08 then "\\b"
    else if c as int == 0x0C then "\\f"
    else if IsPrintableAscii(c) then [c]
    else if c as int < 0x1_0000 then UnicodeEscape(c as int)
    else
      var m := c as int - 0x1_0000;
      UnicodeEscape(0xD800 + m / 0x400) + UnicodeEscape(0xDC00 + m % 0x400)
  }

  function EscapeChars(s: string): string {
    if |s| == 0 then [] else EscapeChar(s[0]) + EscapeChars(s[1..])
  }

  /** A JSON string literal. */
  function EncodeString(s: string): (e: string)
    ensures |e| >= 2 && e[0] == '"' && e[|e| - 1] == '"'
  {
    "\"" + EscapeChars(s) + "\""
  }

  /** The character a `\u` escape stands for, reading a second escape when the
      first names a high surrogate. `s` starts after the `\u`. */
  function ParseUnicodeEscape(s: string): (r: Option<(char, string)>)
    ensures r.Some? ==> |r.value.1| < |s|
  {
    var hi :- ParseHex4(s);
    var after := s[4..];
    if 0xD800 <= hi < 0xDC00 then
      if |after| >= 2 && after[0] == '\\' && after[1] == 'u' then
        var lo :- ParseHex4(after[2..]);
        if 0xDC00 <= lo < 0xE000 then
          Some(((0x1_0000 + (hi - 0xD800) * 0x400 + (lo - 0xDC00)) as char, after[6..]))
        else None
      else None
    else if 0xDC00 <= hi < 0xE000 then None
    else Some((hi as char, after))
  }

  /** One character of a string literal's body, escaped or not; `s` is not at the
      closing quote. */
  function ParseStringChar(s: string): (r: Option<(char, string)>)
    ensures r.Some? ==> |r.value.1| < |s|
  {
    if |s| == 0 then None
    else if s[0] != '\\' then
      // strict mode: a raw control character ends the parse with an error
      if s[0] < ' ' then None else Some((s[0], s[1..]))
    else if |s| < 2 then None
    else
      var e := s[1];
      if e == '"' || e == '\\' || e == '/' then Some((e, s[2..]))
      else if e == 'n' then Some(('\n', s[2..]))
      else if e == 'r' then Some(('\r', s[2..]))
      else if e == 't' then Some(('\t', s[2..]))
      else if e == 'b' then Some((0x08 as char, s[2..]))
      else if e == 'f' then Some((0x0C as char, s[2..]))
      else if e == 'u' then ParseUnicodeEscape(s[2..])
      else None
  }

  /** The body of a string literal up to and including its closing quote. */
  function ParseStringBody(s: string): (r: Option<(string, string)>)
    ensures r.Some? ==> |r.value.1| < |s|
    decreases |s|
  {
    if |s| == 0 then None
    else if s[0] == '"' then Some(([], s[1..]))
    else
      var (c, rest) :- ParseStringChar(s);
      var (body, after) :- ParseStringBody(rest);
      Some(([c] + body, after))
  }

  // ---------------------------------------------------------------- tokens

  /** The lexical units of the two stored shapes: structural punctuation and
      string literals. */
  datatype Token = Punct(symbol: char) | Str(text: string)

  predicate IsPunctuation(c: char) {
    c == '[' || c == ']' || c == '{' || c == '}' || c == ',' || c == ':'
  }

  predicate IsWhitespace(c: char) {
    c == ' ' || c == '\t' || c == '\n' || c == '\r'
  }

  predicate WellFormed(ts: seq<Token>) {
    forall i :: 0 <= i < |ts| ==> (ts[i].Punct? ==> IsPunctuation(ts[i].symbol))
  }

  /** A token as `json.dumps` writes it: a separator is followed by one space. */
  function TokenText(t: Token): string {
    match t
    case Punct(c) => if c == ',' || c == ':' then [c, ' '] else [c]
    case Str(s) => EncodeString(s)
  }

  function Render(ts: seq<Token>): string {
    if |ts| == 0 then "" else TokenText(ts[0]) + Render(ts[1..])
  }

  /** Splits JSON text into tokens, skipping whitespace between them; `None` for a
      malformed string literal or any character outside the two shapes' alphabet. */
  function Tokenize(s: string): Option<seq<Token>>
    decreases |s|
  {
    if |s| == 0 then Some([])
    else if IsWhitespace(s[0]) then Tokenize(s[1..])
    else if IsPunctuation(s[0]) then
      var rest :- Tokenize(s[1..]);
      Some([Punct(s[0])] + rest)
    else if s[0] == '"' then
      var (body, after) :- ParseStringBody(s[1..]);
      var rest :- Tokenize(after);
      Some([Str(body)] + rest)
    else None
  }

  // ---------------------------------------------------------------- the steps column

  function StringItemTokens(xs: seq<string>): (ts: seq<Token>)
    ensures WellFormed(ts)
    ensures |xs| > 0 ==> |ts| > 0 && ts[0] == Str(xs[0])
  {
    if |xs| == 0 then []
    else if |xs| == 1 then [Str(xs[0])]
    else [Str(xs[0]), Punct(',')] + StringItemTokens(xs[1..])
  }

  /** The tokens of a whole list of strings, brackets included. */
  function StringListTokens(xs: seq<string>): seq<Token> {
    [Punct('[')] + StringItemTokens(xs) + [Punct(']')]
  }

  /** `json.dumps(steps)` for a list of strings: `["a", "b"]`. The text reads back
      as exactly the tokens of the list. */
  function EncodeStringList(xs: seq<string>): (text: string)
    ensures Tokenize(text) == Some(StringListTokens(xs))
  {
    TokenizeRender(StringListTokens(xs));
    Render(StringListTokens(xs))
  }

  /** The items of a non-empty array, up to and including its closing bracket. */
  function ParseStringItems(ts: seq<Token>): (r: Option<(seq<string>, seq<Token>)>)
    ensures r.Some? ==> |r.value.1| < |ts|
  {
    if |ts| < 2 || !ts[0].Str? then None
    else if ts[1] == Punct(']') then Some(([ts[0].text], ts[2..]))
    else if ts[1] == Punct(',') then
      var (xs, after) :- ParseStringItems(ts[2..]);
      Some(([ts[0].text] + xs, after))
    else None
  }

  function ParseStringList(ts: seq<Token>): Option<(seq<string>, seq<Token>)> {
    if |ts| < 2 || ts[0] != Punct('[') then None
    else if ts[1] == Punct(']') then Some(([], ts[2..]))
    else ParseStringItems(ts[1..])
  }

  /** `json.loads` of a whole column value holding a list of strings; anything but
      whitespace after the list is an error. Text is accepted only when it reads as
      the tokens of the list it decodes to, so it can differ from the encoding of
      that list only in whitespace and in how characters are spelled (escapes). */
  function DecodeStringList(text: string): (r: Option<seq<string>>)
    ensures r.Some? ==> Tokenize(text) == Some(StringListTokens(r.value))
  {
    match Tokenize(text)
    case None => None
    case Some(ts) =>
      match ParseStringList(ts)
      case None => None
      case Some((xs, rest)) =>
        if rest == [] then
          StringListParseInverse(ts);
          assert ts == StringListTokens(xs);
          Some(xs)
        else None
  }

  // ---------------------------------------------------------------- the ingredients column

  /** A mapping is written as the object `{"quantity": q, "name": n}`, keys in the
      order the menu builds them; a pair as the array `[q, n]`, since tuples become
      arrays. */
  function IngredientTokens(x: Ingredient): seq<Token> {
    match x
    case Mapping(q, n) =>
      [Punct('{'), Str("quantity"), Punct(':'), Str(q), Punct(','),
       Str("name"), Punct(':'), Str(n), Punct('}')]
    case Pair(q, n) => [Punct('['), Str(q), Punct(','), Str(n), Punct(']')]
  }

  function IngredientItemTokens(xs: seq<Ingredient>): (ts: seq<Token>)
    ensures WellFormed(ts)
    ensures |xs| > 0 ==> |ts| > 0 && (ts[0] == Punct('{') || ts[0] == Punct('['))
  {
    if |xs| == 0 then []
    else if |xs| == 1 then IngredientTokens(xs[0])
    else IngredientTokens(xs[0]) + [Punct(',')] + IngredientItemTokens(xs[1..])
  }

  /** The tokens of a whole ingredient list, brackets included. */
  function IngredientListTokens(xs: seq<Ingredient>): seq<Token> {
    [Punct('[')] + IngredientItemTokens(xs) + [Punct(']')]
  }

  /** `json.dumps(ingredients)`. The text reads back as exactly the tokens of the
      list. */
  function EncodeIngredientList(xs: seq<Ingredient>): (text: string)
    ensures Tokenize(text) == Some(IngredientListTokens(xs))
  {
    TokenizeRender(IngredientListTokens(xs));
    Render(IngredientListTokens(xs))
  }

  function ParseIngredient(ts: seq<Token>): (r: Option<(Ingredient, seq<Token>)>)
    ensures r.Some? ==> |r.value.1| < |ts|
  {
    if |ts| >= 9 && ts[0] == Punct('{') && ts[1] == Str("quantity") && ts[2] == Punct(':')
       && ts[3].Str? && ts[4] == Punct(',') && ts[5] == Str("name") && ts[6] == Punct(':')
       && ts[7].Str? && ts[8] == Punct('}')
    then Some((Mapping(ts[3].text, ts[7].text), ts[9..]))
    else if |ts| >= 5 && ts[0] == Punct('[') && ts[1].Str? && ts[2] == Punct(',')
       && ts[3].Str? && ts[4] == Punct(']')
    then Some((Pair(ts[1].text, ts[3].text), ts[5..]))
    else None
  }

  function ParseIngredientItems(ts: seq<Token>): (r: Option<(seq<Ingredient>, seq<Token>)>)
    ensures r.Some? ==> |r.value.1| < |ts|
  {
    var (x, rest) :- ParseIngredient(ts);
    if |rest| > 0 && rest[0] == Punct(']') then Some(([x], rest[1..]))
    else if |rest| > 0 && rest[0] == Punct(',') then
      var (xs, after) :- ParseIngredientItems(rest[1..]);
      Some(([x] + xs, after))
    else None
  }

  function ParseIngredientList(ts: seq<Token>): Option<(seq<Ingredient>, seq<Token>)> {
    if |ts| < 2 || ts[0] != Punct('[') then None
    else if ts[1] == Punct(']') then Some(([], ts[2..]))
    else ParseIngredientItems(ts[1..])
  }

  /** `json.loads` of a whole column value holding a list of ingredients. As for
      the steps, text is accepted only when it reads as the tokens of the list it
      decodes to. */
  function DecodeIngredientList(text: string): (r: Option<seq<Ingredient>>)
    ensures r.Some? ==> Tokenize(text) == Some(IngredientListTokens(r.value))
  {
    match Tokenize(text)
    case None => None
    case Some(ts) =>
      match ParseIngredientList(ts)
      case None => None
      case Some((xs, rest)) =>
        if rest == [] then
          IngredientListParseInverse(ts);
          assert ts == IngredientListTokens(xs);
          Some(xs)
        else None
  }

  // ---------------------------------------------------------------- round trips

  /** A `\u` escape is read by `ParseUnicodeEscape`. */
  lemma UnicodeEscapeDispatch(s: string)
    requires |s| >= 2 && s[0] == '\\' && s[1] == 'u'
    ensures ParseStringChar(s) == ParseUnicodeEscape(s[2..])
  {
  }

  /** A character of the Basic Multilingual Plane escaped as one `\uXXXX`. */
  lemma BmpEscapeRoundTrip(c: char, rest: string)
    requires c as int < 0x1_0000
    ensures ParseStringChar(UnicodeEscape(c as int) + rest) == Some((c, rest))
  {
    var s := UnicodeEscape(c as int) + rest;
    UnicodeEscapeDispatch(s);
    assert s[2..] == Hex4(c as int) + rest;
    Hex4RoundTrip(c as int, rest);
    assert (s[2..])[4..] == rest;
  }

  /** How `ParseUnicodeEscape` reads a high surrogate followed by a low one. */
  lemma HighThenLow(s: string, hi: int, lo: int)
    requires ParseHex4(s) == Some(hi) && 0xD800 <= hi < 0xDC00
    requires |s| >= 10 && s[4] == '\\' && s[5] == 'u'
    requires ParseHex4(s[6..]) == Some(lo) && 0xDC00 <= lo < 0xE000
    ensures ParseUnicodeEscape(s)
      == Some(((0x1_0000 + (hi - 0xD800) * 0x400 + (lo - 0xDC00)) as char, s[10..]))
  {
    assert s[4..][2..] == s[6..];
    assert s[4..][6..] == s[10..];
  }

  /** A high and a low surrogate escape combine into the character they encode;
      `s` starts after the first `\u`. */
  lemma SurrogatePairParse(hi: int, lo: int, rest: string)
    requires 0xD800 <= hi < 0xDC00 && 0xDC00 <= lo < 0xE000
    ensures ParseUnicodeEscape(Hex4(hi) + UnicodeEscape(lo) + rest)
      == Some(((0x1_0000 + (hi - 0xD800) * 0x400 + (lo - 0xDC00)) as char, rest))
  {
    var s := Hex4(hi) + UnicodeEscape(lo) + rest;
    Hex4RoundTrip(hi, UnicodeEscape(lo) + rest);
    assert s == Hex4(hi) + (UnicodeEscape(lo) + rest);
    assert s[6..] == Hex4(lo) + rest;
    Hex4RoundTrip(lo, rest);
    assert s[10..] == rest;
    HighThenLow(s, hi, lo);
  }

  /** The two halves of a character above U+FFFF are surrogates that recombine
      into it. */
  lemma SurrogateHalves(code: int)
    requires 0x1_0000 <= code < 0x11_0000
    ensures var m := code - 0x1_0000;
      var hi := 0xD800 + m / 0x400;
      var lo := 0xDC00 + m % 0x400;
      && 0xD800 <= hi < 0xDC00 && 0xDC00 <= lo < 0xE000
      && 0x1_0000 + (hi - 0xD800) * 0x400 + (lo - 0xDC00) == code
  {
  }

  /** A character above the Basic Multilingual Plane escaped as a surrogate pair. */
  lemma SurrogateEscapeRoundTrip(c: char, rest: string)
    requires c as int >= 0x1_0000
    ensures var m := c as int - 0x1_0000;
      ParseStringChar(UnicodeEscape(0xD800 + m / 0x400) + UnicodeEscape(0xDC00 + m % 0x400) + rest)
        == Some((c, rest))
  {
    var code := c as int;
    var m := code - 0x1_0000;
    var hi := 0xD800 + m / 0x400;
    var lo := 0xDC00 + m % 0x400;
    SurrogateHalves(code);
    var s := UnicodeEscape(hi) + UnicodeEscape(lo) + rest;
    UnicodeEscapeDispatch(s);
    assert s[2..] == Hex4(hi) + UnicodeEscape(lo) + rest;
    SurrogatePairParse(hi, lo, rest);
  }

  /** Each escaped character reads back as itself, whatever follows it. */
  lemma EscapeCharRoundTrip(c: char, rest: string)
    ensures ParseStringChar(EscapeChar(c) + rest) == Some((c, rest))
  {
    if c == '"' || c == '\\' || c == '\n' || c == '\r' || c == '\t' || c as int == 0x08 || c as int == 0x0C {
    } else if IsPrintableAscii(c) {
      assert (EscapeChar(c) + rest)[1..] == rest;
    } else if c as int < 0x1_0000 {
      BmpEscapeRoundTrip(c, rest);
    } else {
      SurrogateEscapeRoundTrip(c, rest);
    }
  }

  lemma {:induction false} EscapeCharsRoundTrip(s: string, rest: string)
    ensures ParseStringBody(EscapeChars(s) + "\"" + rest) == Some((s, rest))
  {
    if |s| == 0 {
      assert EscapeChars(s) + "\"" + rest == "\"" + rest;
    } else {
      var tail := EscapeChars(s[1..]) + "\"" + rest;
      assert EscapeChars(s) + "\"" + rest == EscapeChar(s[0]) + tail;
      EscapeCharRoundTrip(s[0], tail);
      EscapeCharsRoundTrip(s[1..], rest);
      assert [s[0]] + s[1..] == s;
    }
  }


  /** A punctuation token, and the space `json.dumps` puts after a separator, are
      read back as that token in front of whatever the rest reads as. */
  lemma PunctThenRest(c: char, rest: string)
    requires IsPunctuation(c) && Tokenize(rest).Some?
    ensures Tokenize(TokenText(Punct(c)) + rest) == Some([Punct(c)] + Tokenize(rest).value)
  {
    if c == ',' || c == ':' {
      var s := [c] + (" " + rest);
      assert TokenText(Punct(c)) + rest == s;
      assert s[1..] == " " + rest;
      assert (" " + rest)[1..] == rest;
    } else {
      assert (TokenText(Punct(c)) + rest)[1..] == rest;
    }
  }

  /** How the tokenizer reads a string literal. */
  lemma TokenizeQuote(s: string, body: string, after: string)
    requires |s| > 0 && s[0] == '"'
    requires ParseStringBody(s[1..]) == Some((body, after)) && Tokenize(after).Some?
    ensures Tokenize(s) == Some([Str(body)] + Tokenize(after).value)
  {
  }

  /** A string literal is read back as its string token in front of whatever the
      rest reads as. */
  lemma StrThenRest(x: string, rest: string)
    requires Tokenize(rest).Some?
    ensures Tokenize(TokenText(Str(x)) + rest) == Some([Str(x)] + Tokenize(rest).value)
  {
    var tail := EscapeChars(x) + "\"" + rest;
    var s := "\"" + tail;
    assert TokenText(Str(x)) + rest == s;
    assert s[1..] == tail;
    EscapeCharsRoundTrip(x, rest);
    TokenizeQuote(s, x, rest);
  }

  /** The tokenizer reads back exactly the tokens the text was rendered from. */
  lemma {:induction false} TokenizeRender(ts: seq<Token>)
    requires WellFormed(ts)
    ensures Tokenize(Render(ts)) == Some(ts)
  {
    if |ts| > 0 {
      var rest := Render(ts[1..]);
      assert Render(ts) == TokenText(ts[0]) + rest;
      TokenizeRender(ts[1..]);
      match ts[0] {
        case Punct(c) => PunctThenRest(c, rest);
        case Str(x) => StrThenRest(x, rest);
      }
      assert [ts[0]] + ts[1..] == ts;
    }
  }

  // ---- the steps column

  lemma {:induction false} StringItemsParse(xs: seq<string>, rest: seq<Token>)
    requires |xs| > 0
    ensures ParseStringItems(StringItemTokens(xs) + ([Punct(']')] + rest)) == Some((xs, rest))
  {
    var ts := StringItemTokens(xs) + ([Punct(']')] + rest);
    if |xs| == 1 {
      assert ts == [Str(xs[0]), Punct(']')] + rest;
      assert ts[2..] == rest;
      assert xs == [xs[0]];
    } else {
      var tail := StringItemTokens(xs[1..]) + ([Punct(']')] + rest);
      assert ts == [Str(xs[0]), Punct(',')] + tail;
      assert ts[2..] == tail;
      StringItemsParse(xs[1..], rest);
      assert [xs[0]] + xs[1..] == xs;
    }
  }

  lemma StringListParse(xs: seq<string>)
    ensures ParseStringList(StringListTokens(xs)) == Some((xs, []))
  {
    var ts := [Punct('[')] + StringItemTokens(xs) + [Punct(']')];
    if |xs| == 0 {
      assert StringItemTokens(xs) == [];
      assert ts == [Punct('['), Punct(']')];
      assert ts[2..] == [];
    } else {
      assert ts[1..] == StringItemTokens(xs) + ([Punct(']')] + []);
      StringItemsParse(xs, []);
    }
  }

  /** The parser only accepts what the item tokens of its result spell out. */
  lemma {:induction false} StringItemsParseInverse(ts: seq<Token>)
    requires ParseStringItems(ts).Some?
    ensures var (xs, rest) := ParseStringItems(ts).value;
      |xs| > 0 && ts == StringItemTokens(xs) + ([Punct(']')] + rest)
    decreases |ts|
  {
    var (xs, rest) := ParseStringItems(ts).value;
    if ts[1] == Punct(']') {
      assert xs == [ts[0].text];
      assert ts == [Str(ts[0].text)] + ([Punct(']')] + ts[2..]);
    } else {
      var (ys, after) := ParseStringItems(ts[2..]).value;
      StringItemsParseInverse(ts[2..]);
      assert xs == [ts[0].text] + ys && after == rest;
      assert xs[1..] == ys;
      assert ts == [ts[0], ts[1]] + ts[2..];
    }
  }

  lemma StringListParseInverse(ts: seq<Token>)
    requires ParseStringList(ts).Some?
    ensures ts == StringListTokens(ParseStringList(ts).value.0) + ParseStringList(ts).value.1
  {
    if ts[1] == Punct(']') {
      assert ts == [ts[0], ts[1]] + ts[2..];
    } else {
      StringItemsParseInverse(ts[1..]);
      assert ts == [ts[0]] + ts[1..];
    }
  }

  /** Decoding depends only on the tokens: any text that reads as the tokens of a
      list, whatever whitespace it holds between them, decodes to that list. */
  lemma StringListIgnoresLayout(text: string, xs: seq<string>)
    requires Tokenize(text) == Some(StringListTokens(xs))
    ensures DecodeStringList(text) == Some(xs)
  {
    StringListParse(xs);
  }

  /** Decoding the stored text of a list of strings gives the list back. */
  lemma StringListRoundTrip(xs: seq<string>)
    ensures DecodeStringList(EncodeStringList(xs)) == Some(xs)
  {
    StringListIgnoresLayout(EncodeStringList(xs), xs);
  }

  // ---- the ingredients column

  lemma IngredientParse(x: Ingredient, rest: seq<Token>)
    ensures ParseIngredient(IngredientTokens(x) + rest) == Some((x, rest))
  {
    var ts := IngredientTokens(x) + rest;
    assert ts[|IngredientTokens(x)|..] == rest;
  }

  /** One ingredient followed by a separator: `]` ends the items, `,` continues them. */
  lemma IngredientItemStep(x: Ingredient, tail: seq<Token>)
    ensures ParseIngredientItems(IngredientTokens(x) + ([Punct(']')] + tail)) == Some(([x], tail))
    ensures ParseIngredientItems(tail).Some? ==>
      ParseIngredientItems(IngredientTokens(x) + ([Punct(',')] + tail))
        == Some(([x] + ParseIngredientItems(tail).value.0, ParseIngredientItems(tail).value.1))
  {
    IngredientParse(x, [Punct(']')] + tail);
    assert ([Punct(']')] + tail)[1..] == tail;
    IngredientParse(x, [Punct(',')] + tail);
    assert ([Punct(',')] + tail)[1..] == tail;
  }

  lemma {:induction false} IngredientItemsParse(xs: seq<Ingredient>, rest: seq<Token>)
    requires |xs| > 0
    ensures ParseIngredientItems(IngredientItemTokens(xs) + ([Punct(']')] + rest)) == Some((xs, rest))
  {
    if |xs| == 1 {
      assert IngredientItemTokens(xs) == IngredientTokens(xs[0]);
      IngredientItemStep(xs[0], rest);
      assert xs == [xs[0]];
    } else {
      var tail := IngredientItemTokens(xs[1..]) + ([Punct(']')] + rest);
      assert [xs[0]] + xs[1..] == xs;
      ItemTokensCons(xs[0], xs[1..]);
      Regroup(IngredientTokens(xs[0]), Punct(','), IngredientItemTokens(xs[1..]), [Punct(']')] + rest);
      IngredientItemsParse(xs[1..], rest);
      IngredientItemStep(xs[0], tail);
    }
  }

  lemma IngredientListParse(xs: seq<Ingredient>)
    ensures ParseIngredientList(IngredientListTokens(xs)) == Some((xs, []))
  {
    var ts := [Punct('[')] + IngredientItemTokens(xs) + [Punct(']')];
    if |xs| == 0 {
      assert IngredientItemTokens(xs) == [];
      assert ts == [Punct('['), Punct(']')];
      assert ts[2..] == [];
    } else {
      assert IngredientItemTokens(xs)[0] != Punct(']');
      assert ts[1..] == IngredientItemTokens(xs) + ([Punct(']')] + []);
      IngredientItemsParse(xs, []);
    }
  }

  lemma IngredientParseInverse(ts: seq<Token>)
    requires ParseIngredient(ts).Some?
    ensures ts == IngredientTokens(ParseIngredient(ts).value.0) + ParseIngredient(ts).value.1
  {
    var (x, rest) := ParseIngredient(ts).value;
    var n := |IngredientTokens(x)|;
    assert ts[..n] == IngredientTokens(x);
    assert ts == ts[..n] + ts[n..];
  }

  /** What a successful item parse did with its first ingredient and separator. */
  lemma IngredientItemsUnfold(ts: seq<Token>)
    requires ParseIngredientItems(ts).Some?
    ensures ParseIngredient(ts).Some?
    ensures var (x, after) := ParseIngredient(ts).value;
      && |after| > 0
      && (after[0] == Punct(']') ==> ParseIngredientItems(ts).value == ([x], after[1..]))
      && (after[0] != Punct(']') ==>
            && after[0] == Punct(',')
            && ParseIngredientItems(after[1..]).Some?
            && ParseIngredientItems(ts).value
               == ([x] + ParseIngredientItems(after[1..]).value.0, ParseIngredientItems(after[1..]).value.1))
  {
  }

  /** Token layout of the last item: the ingredient, then the closing bracket. */
  lemma LastItemLayout(ts: seq<Token>, x: Ingredient, rest: seq<Token>)
    requires ts == IngredientTokens(x) + ([Punct(']')] + rest)
    ensures ts == IngredientItemTokens([x]) + ([Punct(']')] + rest)
  {
    assert IngredientItemTokens([x]) == IngredientTokens(x);
  }

  lemma {:induction false} ItemTokensCons(x: Ingredient, ys: seq<Ingredient>)
    requires |ys| > 0
    ensures IngredientItemTokens([x] + ys) == IngredientTokens(x) + [Punct(',')] + IngredientItemTokens(ys)
  {
    var xs := [x] + ys;
    assert xs[0] == x && xs[1..] == ys;
  }

  /** Token layout of an inner item: the ingredient, a comma, then the other items. */
  lemma {:induction false} NextItemLayout(ts: seq<Token>, x: Ingredient, ys: seq<Ingredient>, tail: seq<Token>)
    requires |ys| > 0
    requires ts == IngredientTokens(x) + ([Punct(',')] + (IngredientItemTokens(ys) + tail))
    ensures ts == IngredientItemTokens([x] + ys) + tail
  {
    ItemTokensCons(x, ys);
    Regroup(IngredientTokens(x), Punct(','), IngredientItemTokens(ys), tail);
  }

  lemma Regroup(a: seq<Token>, p: Token, b: seq<Token>, c: seq<Token>)
    ensures a + ([p] + (b + c)) == (a + [p] + b) + c
  {
  }

  /** The parser only accepts what the item tokens of its result spell out. */
  lemma {:induction false} IngredientItemsParseInverse(ts: seq<Token>)
    requires ParseIngredientItems(ts).Some?
    ensures var (xs, rest) := ParseIngredientItems(ts).value;
      |xs| > 0 && ts == IngredientItemTokens(xs) + ([Punct(']')] + rest)
    decreases |ts|
  {
    IngredientItemsUnfold(ts);
    IngredientParseInverse(ts);
    var x := ParseIngredient(ts).value.0;
    var after := ParseIngredient(ts).value.1;
    if after[0] == Punct(']') {
      assert after == [Punct(']')] + after[1..];
      LastItemLayout(ts, x, after[1..]);
    } else {
      IngredientItemsParseInverse(after[1..]);
      var ys := ParseIngredientItems(after[1..]).value.0;
      var rest := ParseIngredientItems(after[1..]).value.1;
      assert after == [Punct(',')] + after[1..];
      NextItemLayout(ts, x, ys, [Punct(']')] + rest);
    }
  }

  lemma IngredientListParseInverse(ts: seq<Token>)
    requires ParseIngredientList(ts).Some?
    ensures ts == IngredientListTokens(ParseIngredientList(ts).value.0) + ParseIngredientList(ts).value.1
  {
    if ts[1] == Punct(']') {
      assert ts == [ts[0], ts[1]] + ts[2..];
    } else {
      IngredientItemsParseInverse(ts[1..]);
      assert ts == [ts[0]] + ts[1..];
    }
  }

  /** Any text that reads as the tokens of an ingredient list, whatever whitespace
      it holds between them, decodes to that list. */
  lemma IngredientListIgnoresLayout(text: string, xs: seq<Ingredient>)
    requires Tokenize(text) == Some(IngredientListTokens(xs))
    ensures DecodeIngredientList(text) == Some(xs)
  {
    IngredientListParse(xs);
  }

  /** Decoding the stored text of an ingredient list gives the list back, each
      ingredient with its shape: mappings stay mappings and pairs stay pairs. */
  lemma IngredientListRoundTrip(xs: seq<Ingredient>)
    ensures DecodeIngredientList(EncodeIngredientList(xs)) == Some(xs)
  {
    IngredientListIgnoresLayout(EncodeIngredientList(xs), xs);
  }

  // ---------------------------------------------------------------- ensure_ascii

  predicate AllPrintableAscii(s: string) {
    forall i :: 0 <= i < |s| ==> IsPrintableAscii(s[i])
  }

  lemma EscapeCharIsAscii(c: char)
    ensures AllPrintableAscii(EscapeChar(c))
  {
    if !IsPrintableAscii(c) && c as int >= 0x1_0000 {
      var m := c as int - 0x1_0000;
      assert AllPrintableAscii(UnicodeEscape(0xD800 + m / 0x400));
      assert AllPrintableAscii(UnicodeEscape(0xDC00 + m % 0x400));
    }
  }

  lemma {:induction false} EscapeCharsIsAscii(s: string)
    ensures AllPrintableAscii(EscapeChars(s))
  {
    if |s| > 0 {
      EscapeCharIsAscii(s[0]);
      EscapeCharsIsAscii(s[1..]);
      assert EscapeChars(s) == EscapeChar(s[0]) + EscapeChars(s[1..]);
    }
  }

  /** Whatever characters a string holds, its JSON literal is printable ASCII. */
  lemma EncodeStringIsAscii(s: string)
    ensures AllPrintableAscii(EncodeString(s))
  {
    EscapeCharsIsAscii(s);
  }
}
