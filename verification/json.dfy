/** Quoting a Java string as a JSON string literal, as `org.json.JSONArray`
    writes its one element, and decoding such a literal back with the escapes
    of section 7 of RFC 8259, except that escaped surrogates are refused. The
    escape choices are those of Android's JSON writer: quote, reverse solidus
    and solidus get a backslash, five control characters get their short form,
    the other control characters become \u00xx with lower-case hex, the line
    and paragraph separators U+2028 and U+2029 become \u2028 and \u2029 (so
    that the output stays valid JavaScript), and everything else is copied. */
module Json {
  import opened Wrappers
  import Strings

  const Backspace: char := '\U{0008}'
  const FormFeed: char := '\U{000C}'
  const LineSeparator: char := '\U{2028}'
  const ParagraphSeparator: char := '\U{2029}'

  function HexDigit(n: nat): (c: char)
    requires n < 16
  {
    if n < 10 then ('0' as int + n) as char else ('a' as int + n - 10) as char
  }

  predicate IsHexDigit(c: char) {
    '0' <= c <= '9' || 'a' <= c <= 'f' || 'A' <= c <= 'F'
  }

  function HexValue(c: char): (n: nat)
    requires IsHexDigit(c)
    ensures n < 16
  {
    if '0' <= c <= '9' then c as int - '0' as int
    else if 'a' <= c <= 'f' then c as int - 'a' as int + 10
    else c as int - 'A' as int + 10
  }

  lemma HexRoundTrip(n: nat)
    requires n < 16
    ensures IsHexDigit(HexDigit(n)) && HexValue(HexDigit(n)) == n
  {
  }

  /** The escaped form of one character. */
  function EscapeChar(c: char): (e: string)
    ensures |e| > 0
    ensures e == [c] <==>
      c != '"' && c != '\\' && c != '/' && c as int >= 0x20 && c != LineSeparator && c != ParagraphSeparator
    ensures c == LineSeparator || c == ParagraphSeparator ==> |e| == 6 && e[..2] == "\\u"
    ensures '/' in e ==> e == ['\\', '/']
  {
    if c == '"' || c == '\\' || c == '/' then ['\\', c]
    else if c == '\t' then "\\t"
    else if c == Backspace then "\\b"
    else if c == '\n' then "\\n"
    else if c == '\r' then "\\r"
    else if c == FormFeed then "\\f"
    else if c as int < 0x20 then "\\u00" + [HexDigit(c as int / 16), HexDigit(c as int % 16)]
    else if c == LineSeparator then "\\u2028"
    else if c == ParagraphSeparator then "\\u2029"
    else [c]
  }

  /** The escaped form of a whole string, character by character. */
  function Escape(s: string): string {
    if |s| == 0 then "" else EscapeChar(s[0]) + Escape(s[1..])
  }

  /** The JSON string literal for `s`, surrounding quotes included. */
  function Quote(s: string): string {
    "\"" + Escape(s) + "\""
  }

  /** Decode one unit of a string literal's body: an unescaped character or one
      escape sequence. Answers the character and how many input characters it used. */
  function DecodeUnit(q: string): (r: Option<(char, nat)>)
    requires |q| > 0
    ensures r.Some? ==> 0 < r.value.1 <= |q|
  {
    if q[0] == '\\' then
      if |q| < 2 then None
      else if q[1] == '"' || q[1] == '\\' || q[1] == '/' then Some((q[1], 2))
      else if q[1] == 'b' then Some((Backspace, 2))
      else if q[1] == 'f' then Some((FormFeed, 2))
      else if q[1] == 'n' then Some(('\n', 2))
      else if q[1] == 'r' then Some(('\r', 2))
      else if q[1] == 't' then Some(('\t', 2))
      else if q[1] == 'u' && |q| >= 6
        && IsHexDigit(q[2]) && IsHexDigit(q[3]) && IsHexDigit(q[4]) && IsHexDigit(q[5]) then
        var v := 4096 * HexValue(q[2]) + 256 * HexValue(q[3]) + 16 * HexValue(q[4]) + HexValue(q[5]);
        // a lone surrogate code unit is not a character on its own
        if 0xD800 <= v < 0xE000 then None else Some((v as char, 6))
      else None
    else if q[0] == '"' || q[0] as int < 0x20 then None
    else Some((q[0], 1))
  }

  /** Decode the body of a string literal (the text between its quotes). */
  function DecodeBody(q: string): Option<string>
    decreases |q|
  {
    if |q| == 0 then Some("")
    else
      match DecodeUnit(q)
      case None => None
      case Some((c, n)) =>
        match DecodeBody(q[n..])
        case None => None
        case Some(t) => Some([c] + t)
  }

  /** Read a JSON string literal: a quote, a body, a quote. */
  function Unquote(q: string): Option<string> {
    if |q| >= 2 && q[0] == '"' && q[|q| - 1] == '"' then DecodeBody(q[1..|q| - 1]) else None
  }

  lemma DecodeEscapedChar(c: char, rest: string)
    ensures DecodeUnit(EscapeChar(c) + rest) == Some((c, |EscapeChar(c)|))
  {
    var q := EscapeChar(c) + rest;
    if c as int < 0x20 && c != '\t' && c != Backspace && c != '\n' && c != '\r' && c != FormFeed {
      var hi := c as int / 16;
      var lo := c as int % 16;
      HexRoundTrip(hi);
      HexRoundTrip(lo);
      assert q[2] == '0' && q[3] == '0' && q[4] == HexDigit(hi) && q[5] == HexDigit(lo);
      assert 4096 * HexValue(q[2]) + 256 * HexValue(q[3]) + 16 * HexValue(q[4]) + HexValue(q[5]) == c as int;
    }
  }

  /** Decoding the escaped body gives back the original string. */
  lemma {:induction false} DecodeEscape(s: string)
    ensures DecodeBody(Escape(s)) == Some(s)
    decreases |s|
  {
    if |s| > 0 {
      var e := EscapeChar(s[0]);
      var q := Escape(s);
      assert q == e + Escape(s[1..]);
      DecodeEscapedChar(s[0], Escape(s[1..]));
      assert q[|e|..] == Escape(s[1..]);
      DecodeEscape(s[1..]);
      assert s == [s[0]] + s[1..];
    }
  }

  /** Quoting round trip: the page's JSON reader recovers exactly the source text. */
  lemma UnquoteQuote(s: string)
    ensures Unquote(Quote(s)) == Some(s)
  {
    var q := Quote(s);
    assert q[1..|q| - 1] == Escape(s);
    DecodeEscape(s);
  }

  /** Every solidus in `s` directly follows a backslash. */
  predicate SlashesEscaped(s: string) {
    forall i :: 0 <= i < |s| && s[i] == '/' ==> 0 < i && s[i - 1] == '\\'
  }

  lemma SlashesEscapedConcat(a: string, b: string)
    requires SlashesEscaped(a) && SlashesEscaped(b)
    ensures SlashesEscaped(a + b)
  {
    var s := a + b;
    forall i | 0 <= i < |s| && s[i] == '/' ensures 0 < i && s[i - 1] == '\\' {
      if i >= |a| {
        assert s[i] == b[i - |a|];
        assert s[i - 1] == b[i - |a| - 1];
      } else {
        assert s[i] == a[i];
      }
    }
  }

  lemma {:induction false} EscapeSlashesEscaped(s: string)
    ensures SlashesEscaped(Escape(s))
    decreases |s|
  {
    if |s| > 0 {
      EscapeSlashesEscaped(s[1..]);
      SlashesEscapedConcat(EscapeChar(s[0]), Escape(s[1..]));
    }
  }

  /** A quoted string starts and ends with a quote and never holds "//": every
      solidus of the source comes out escaped. */
  lemma QuoteShape(s: string)
    ensures |Quote(s)| >= 2 && Quote(s)[0] == '"' && Quote(s)[|Quote(s)| - 1] == '"'
    ensures SlashesEscaped(Quote(s))
    ensures Strings.NoDoubleSlash(Quote(s))
  {
    EscapeSlashesEscaped(s);
    SlashesEscapedConcat("\"", Escape(s));
    SlashesEscapedConcat("\"" + Escape(s), "\"");
  }
}
