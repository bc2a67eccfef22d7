/** Printing a string as a Python literal, and reading a Python literal back. */
module Literals {
  import opened Wrappers

  const BACKSPACE: char := 8 as char
  const FORM_FEED: char := 12 as char
  const BELL: char := 7 as char
  const VERTICAL_TAB: char := 11 as char

  function HexChar(d: nat): char
    requires d < 16
  {
    if d < 10 then (48 + d) as char else (87 + d) as char
  }

  function HexValue(c: char): Option<nat> {
    if '0' <= c <= '9' then Some(c as nat - 48)
    else if 'a' <= c <= 'f' then Some(c as nat - 87)
    else if 'A' <= c <= 'F' then Some(c as nat - 55)
    else None
  }

  // ----- printing -----

  /** One character as `json.dumps(..., ensure_ascii=False)` prints it. */
  function EscapeChar(c: char): string {
    if c == '\\' then "\\\\"
    else if c == '\"' then "\\\""
    else if c == BACKSPACE then "\\b"
    else if c == FORM_FEED then "\\f"
    else if c == '\n' then "\\n"
    else if c == '\r' then "\\r"
    else if c == '\t' then "\\t"
    else if c as int < 32 then "\\u00" + [HexChar(c as int / 16), HexChar(c as int % 16)]
    else [c]
  }

  function Escape(text: string): string {
    if text == "" then "" else EscapeChar(text[0]) + Escape(text[1..])
  }

  /** `s.replace('\\"', '"')`: every backslash-quote pair, leftmost first, becomes a quote. */
  function UnescapeQuotes(s: string): string {
    if |s| < 2 then s
    else if s[0] == '\\' && s[1] == '\"' then "\"" + UnescapeQuotes(s[2..])
    else [s[0]] + UnescapeQuotes(s[1..])
  }

  /** The literal the formatter would leave alone: the quote character that avoids escapes. */
  function RawLiteral(text: string): string {
    if '\"' in text && '\'' !in text then "'" + UnescapeQuotes(Escape(text)) + "'"
    else "\"" + Escape(text) + "\""
  }

  // ----- reading (Python's lexical analysis of short string literals) -----

  /** The value of a whole literal, or nothing when the text is not one short string literal. */
  function ReadLiteral(literal: string): Option<string> {
    if literal != "" && (literal[0] == '\"' || literal[0] == '\'') then ReadChars(literal[1..], literal[0])
    else None
  }

  /**
   * The characters up to the closing quote, which must end the text. Octal, `\x`, `\U` and `\N` escapes
   * are refused: the printer never produces them.
   */
  function ReadChars(s: string, quote: char): Option<string> {
    if s == "" || s[0] == '\n' || s[0] == '\r' then None
    else if s[0] == quote then (if |s| == 1 then Some("") else None)
    else if s[0] != '\\' then Prepend([s[0]], ReadChars(s[1..], quote))
    else if |s| < 2 || s[1] in "01234567xUN" then None
    else if s[1] == 'u' then
      if |s| < 6 then None
      else
        var c := HexQuad(s[2..6]);
        if c.None? then None else Prepend([c.value], ReadChars(s[6..], quote))
    else Prepend(SimpleEscape(s[1]), ReadChars(s[2..], quote))
  }

  function Prepend(head: string, rest: Option<string>): Option<string> {
    if rest.Some? then Some(head + rest.value) else None
  }

  /** What a backslash and one character stand for; an unknown pair stands for itself. */
  function SimpleEscape(c: char): string {
    if c == '\n' then ""
    else if c == '\\' then "\\"
    else if c == '\'' then "'"
    else if c == '\"' then "\""
    else if c == 'a' then [BELL]
    else if c == 'b' then [BACKSPACE]
    else if c == 'f' then [FORM_FEED]
    else if c == 'n' then "\n"
    else if c == 'r' then "\r"
    else if c == 't' then "\t"
    else if c == 'v' then [VERTICAL_TAB]
    else ['\\', c]
  }

  function HexQuad(s: string): Option<char>
    requires |s| == 4
  {
    match (HexValue(s[0]), HexValue(s[1]), HexValue(s[2]), HexValue(s[3]))
    case (Some(a), Some(b), Some(c), Some(d)) =>
      var n := 4096 * a + 256 * b + 16 * c + d;
      if n < 0xD800 || 0xE000 <= n < 0x11_0000 then Some(n as char) else None
    case _ => None
  }

  // ----- round trip -----

  lemma ReadUnicodeEscape(c: char, rest: string, quote: char)
    requires quote == '\"' || quote == '\''
    requires c as int < 32
    ensures ReadChars("\\u00" + [HexChar(c as int / 16), HexChar(c as int % 16)] + rest, quote)
      == Prepend([c], ReadChars(rest, quote))
  {
    var n := c as int;
    var digits := [HexChar(n / 16), HexChar(n % 16)];
    var s := "\\u00" + digits + rest;
    assert s[6..] == rest && s[2..6] == "00" + digits;
    assert HexValue(HexChar(n / 16)) == Some(n / 16) && HexValue(HexChar(n % 16)) == Some(n % 16);
    assert HexQuad("00" + digits) == Some(c);
    hide HexQuad, HexValue, HexChar;
  }

  lemma ReadSimpleEscape(e: char, rest: string, quote: char)
    requires quote == '\"' || quote == '\''
    requires e !in "01234567xUNu"
    ensures ReadChars(['\\', e] + rest, quote) == Prepend(SimpleEscape(e), ReadChars(rest, quote))
  {
    hide SimpleEscape;
    var s := ['\\', e] + rest;
    assert s[2..] == rest;
  }

  lemma ReadBare(c: char, rest: string, quote: char)
    requires c != '\n' && c != '\r' && c != quote && c != '\\'
    ensures ReadChars([c] + rest, quote) == Prepend([c], ReadChars(rest, quote))
  {
    var s := [c] + rest;
    assert s[1..] == rest;
  }

  /** Reading one printed character and going on. */
  lemma ReadEscaped(c: char, rest: string, quote: char)
    requires quote == '\"' || quote == '\''
    requires c != '\'' || quote == '\"'
    ensures ReadChars(EscapeChar(c) + rest, quote) == Prepend([c], ReadChars(rest, quote))
  {
    hide ReadChars, HexChar;
    var e := EscapeChar(c);
    if |e| == 2 {
      assert e == ['\\', e[1]] && SimpleEscape(e[1]) == [c];
      ReadSimpleEscape(e[1], rest, quote);
    } else if |e| == 6 {
      ReadUnicodeEscape(c, rest, quote);
    } else {
      ReadBare(c, rest, quote);
    }
  }

  lemma {:induction false} ReadDoubleQuoted(text: string)
    ensures ReadChars(Escape(text) + "\"", '\"') == Some(text)
  {
    if text != "" {
      var rest := Escape(text[1..]) + "\"";
      ReadDoubleQuoted(text[1..]);
      ReadEscaped(text[0], rest, '\"');
      assert Escape(text) + "\"" == EscapeChar(text[0]) + rest;
      assert text == [text[0]] + text[1..];
    }
  }

  /** Escaped text never starts with a bare quote, so no backslash pairs up with a neighbour's quote. */
  lemma EscapeStart(text: string)
    ensures Escape(text) != "" ==> Escape(text)[0] != '\"'
  {
  }

  /** The global replacement strips exactly the quote escapes, also right after escaped backslashes. */
  lemma {:induction false} UnescapeQuotesEscape(c: char, text: string)
    ensures UnescapeQuotes(Escape([c] + text)) ==
      (if c == '\"' then "\"" else EscapeChar(c)) + UnescapeQuotes(Escape(text))
  {
    var rest := Escape(text);
    EscapeStart(text);
    assert ([c] + text)[1..] == text;
    var s := EscapeChar(c) + rest;
    if |EscapeChar(c)| == 1 {
      assert s[1..] == rest;
      if |s| < 2 { assert rest == ""; }
    } else if |EscapeChar(c)| == 2 {
      assert s[2..] == rest && s[1..] == [s[1]] + rest;
      if c != '\"' {
        assert s[1..][1..] == rest;
      }
    } else {
      UnescapePlain(EscapeChar(c), rest);
    }
  }

  /** Text without quotes passes through the replacement when what follows starts with no quote. */
  lemma {:induction false} UnescapePlain(s: string, rest: string)
    requires '\"' !in s && (rest != "" ==> rest[0] != '\"')
    ensures UnescapeQuotes(s + rest) == s + UnescapeQuotes(rest)
  {
    if s == "" {
      assert s + rest == rest;
    } else {
      assert (s + rest)[1..] == s[1..] + rest;
      assert s == [s[0]] + s[1..];
      UnescapePlain(s[1..], rest);
      if |s + rest| < 2 {
        assert s == [s[0]] && rest == "";
      } else {
        assert (s + rest)[1] != '\"' by {
          if |s| > 1 { assert (s + rest)[1] in s; }
        }
      }
    }
  }

  lemma {:induction false} ReadSingleQuoted(text: string)
    requires '\'' !in text
    ensures ReadChars(UnescapeQuotes(Escape(text)) + "'", '\'') == Some(text)
  {
    if text != "" {
      var c, tail := text[0], text[1..];
      assert text == [c] + tail;
      ReadSingleQuoted(tail);
      UnescapeQuotesEscape(c, tail);
      var rest := UnescapeQuotes(Escape(tail)) + "'";
      if c == '\"' {
        assert UnescapeQuotes(Escape(text)) + "'" == "\"" + rest;
        assert ("\"" + rest)[1..] == rest;
      } else {
        assert UnescapeQuotes(Escape(text)) + "'" == EscapeChar(c) + rest;
        ReadEscaped(c, rest, '\'');
      }
    }
  }

  /** Reading a printed literal returns the text, for every string. */
  lemma ReadRawLiteral(text: string)
    ensures ReadLiteral(RawLiteral(text)) == Some(text)
  {
    if '\"' in text && '\'' !in text {
      ReadSingleQuoted(text);
      assert RawLiteral(text)[1..] == UnescapeQuotes(Escape(text)) + "'";
    } else {
      ReadDoubleQuoted(text);
      assert RawLiteral(text)[1..] == Escape(text) + "\"";
    }
  }

  /** No two strings share a literal. */
  lemma RawLiteralInjective(a: string, b: string)
    requires RawLiteral(a) == RawLiteral(b)
    ensures a == b
  {
    ReadRawLiteral(a);
    ReadRawLiteral(b);
  }
}
