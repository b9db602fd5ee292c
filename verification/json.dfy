/** Python's `json.dumps` applied to a `str` with the default
    `ensure_ascii=True`: the text between double quotes, with `\` and `"`
    backslash-escaped, the short escapes for backspace, form feed, newline,
    carriage return and tab, and every other character outside printable
    ASCII written as `\uXXXX` in lower-case hex (a surrogate pair above
    U+FFFF).

    `Unescape` reads a JSON string body back (section 7 of RFC 8259); the
    round-trip lemma `UnescapeEscape` is what makes `Quote` a faithful
    string literal for the JavaScript the translators emit. */
module Json {
  import opened Results

  function HexDigit(d: nat): (c: char)
    requires d < 16
    ensures '0' <= c <= 'f'
  {
    if d < 10 then ('0' as int + d) as char else ('a' as int + d - 10) as char
  }

  predicate IsHex(c: char) {
    ('0' <= c <= '9') || ('a' <= c <= 'f') || ('A' <= c <= 'F')
  }

  function HexValue(c: char): (d: nat)
    requires IsHex(c)
    ensures d < 16
  {
    if '0' <= c <= '9' then c as int - '0' as int
    else if 'a' <= c <= 'f' then c as int - 'a' as int + 10
    else c as int - 'A' as int + 10
  }

  lemma HexValueOfDigit(d: nat)
    requires d < 16
    ensures IsHex(HexDigit(d)) && HexValue(HexDigit(d)) == d
  {
  }

  /** Python's `'{0:04x}'.format(n)` for `n` below 0x10000. */
  function Hex4(n: nat): (r: string)
    requires n < 0x10000
    ensures |r| == 4
  {
    var n1 := n / 16;
    var n2 := n1 / 16;
    var n3 := n2 / 16;
    [HexDigit(n3), HexDigit(n2 % 16), HexDigit(n1 % 16), HexDigit(n % 16)]
  }

  predicate AllHex(s: string) {
    forall k :: 0 <= k < |s| ==> IsHex(s[k])
  }

  function ParseHex4(s: string): (n: nat)
    requires |s| == 4 && AllHex(s)
    ensures n < 0x10000
  {
    ((HexValue(s[0]) * 16 + HexValue(s[1])) * 16 + HexValue(s[2])) * 16 + HexValue(s[3])
  }

  lemma ParseHex4Hex4(n: nat)
    requires n < 0x10000
    ensures AllHex(Hex4(n)) && ParseHex4(Hex4(n)) == n
  {
    var n1 := n / 16;
    var n2 := n1 / 16;
    var n3 := n2 / 16;
    assert n == n1 * 16 + n % 16;
    assert n1 == n2 * 16 + n1 % 16;
    assert n2 == n3 * 16 + n2 % 16;
    assert n1 < 4096 && n2 < 256 && n3 < 16;
    HexValueOfDigit(n3);
    HexValueOfDigit(n2 % 16);
    HexValueOfDigit(n1 % 16);
    HexValueOfDigit(n % 16);
  }

  function UnicodeEscape(n: nat): (r: string)
    requires n < 0x10000
    ensures |r| == 6 && r[0] == '\\'
    ensures forall k :: 0 <= k < |r| ==> IsPrintableAscii(r[k])
  {
    "\\u" + Hex4(n)
  }

  /** Printable ASCII: the characters `json.dumps` leaves as they are. */
  predicate IsPrintableAscii(c: char) {
    ' ' <= c <= '~'
  }

  /** The escape `json.dumps` writes for one character. */
  function EscapeChar(c: char): (r: string)
    ensures |r| > 0
    ensures forall k :: 0 <= k < |r| ==> IsPrintableAscii(r[k])
    ensures r[0] != '"'
  {
    if c == '\\' then "\\\\"
    else if c == '"' then "\\\""
    else if c == '\U{08}' then "\\b"
    else if c == '\U{0C}' then "\\f"
    else if c == '\n' then "\\n"
    else if c == '\r' then "\\r"
    else if c == '\t' then "\\t"
    else if IsPrintableAscii(c) then [c]
    else if c as int < 0x10000 then UnicodeEscape(c as int)
    else
      // 0xd800 | (n >> 10) and 0xdc00 | (n & 0x3ff) in the source; n < 0x100000,
      // so the bitwise or is an addition
      var n := c as int - 0x10000;
      UnicodeEscape(0xD800 + n / 0x400) + UnicodeEscape(0xDC00 + n % 0x400)
  }

  /** The escaped text between the quotes. */
  function EscapeBody(s: string): (r: string)
    ensures forall k :: 0 <= k < |r| ==> IsPrintableAscii(r[k])
  {
    if s == [] then [] else EscapeChar(s[0]) + EscapeBody(s[1..])
  }

  /** `json.dumps(s)` for a string `s`. */
  function Quote(s: string): (r: string)
    ensures |r| >= 2 && r[0] == '"' && r[|r| - 1] == '"'
    ensures r[1..|r| - 1] == EscapeBody(s)
  {
    "\"" + EscapeBody(s) + "\""
  }

  function Prepend(c: char, r: Option<string>): Option<string> {
    match r
    case None => None
    case Some(t) => Some([c] + t)
  }

  predicate IsHighSurrogate(n: nat) {
    0xD800 <= n < 0xDC00
  }

  predicate IsLowSurrogate(n: nat) {
    0xDC00 <= n < 0xE000
  }

  /** Reads a JSON string body (the text between the quotes) back into the
      characters it denotes; `None` when it is not a valid body. */
  function Unescape(s: string): Option<string>
    decreases |s|
  {
    if s == [] then Some([])
    else if s[0] == '\\' then
      if |s| < 2 then None
      else if s[1] == '"' then Prepend('"', Unescape(s[2..]))
      else if s[1] == '\\' then Prepend('\\', Unescape(s[2..]))
      else if s[1] == '/' then Prepend('/', Unescape(s[2..]))
      else if s[1] == 'b' then Prepend('\U{08}', Unescape(s[2..]))
      else if s[1] == 'f' then Prepend('\U{0C}', Unescape(s[2..]))
      else if s[1] == 'n' then Prepend('\n', Unescape(s[2..]))
      else if s[1] == 'r' then Prepend('\r', Unescape(s[2..]))
      else if s[1] == 't' then Prepend('\t', Unescape(s[2..]))
      else if s[1] == 'u' && |s| >= 6 && AllHex(s[2..6]) then
        var hi := ParseHex4(s[2..6]);
        if IsHighSurrogate(hi) then
          if |s| >= 12 && s[6] == '\\' && s[7] == 'u' && AllHex(s[8..12])
             && IsLowSurrogate(ParseHex4(s[8..12]))
          then
            var code := 0x10000 + (hi - 0xD800) * 0x400 + (ParseHex4(s[8..12]) - 0xDC00);
            Prepend(code as char, Unescape(s[12..]))
          else None
        else if IsLowSurrogate(hi) then None
        else Prepend(hi as char, Unescape(s[6..]))
      else None
    else if s[0] == '"' || s[0] as int < 0x20 then None
    else Prepend(s[0], Unescape(s[1..]))
  }

  lemma UnescapeUnicode(n: nat, rest: string)
    requires n < 0x10000 && !IsHighSurrogate(n) && !IsLowSurrogate(n)
    ensures Unescape(UnicodeEscape(n) + rest) == Prepend(n as char, Unescape(rest))
  {
    var s := UnicodeEscape(n) + rest;
    ParseHex4Hex4(n);
    assert s[2..6] == Hex4(n);
    assert s[6..] == rest;
  }

  /** The surrogate pair of a character above U+FFFF: both halves in range,
      and they combine back to the character. */
  lemma SurrogateHalves(c: char) returns (q: nat, r: nat)
    requires c as int >= 0x10000
    ensures q == (c as int - 0x10000) / 0x400 && r == (c as int - 0x10000) % 0x400
    ensures q < 0x400 && r < 0x400 && 0x10000 + q * 0x400 + r == c as int
  {
    q, r := (c as int - 0x10000) / 0x400, (c as int - 0x10000) % 0x400;
  }

  /** The escape of a character above U+FFFF is its surrogate pair. */
  lemma EscapeAstral(c: char, q: nat, r: nat)
    requires c as int >= 0x10000
    requires q == (c as int - 0x10000) / 0x400 && r == (c as int - 0x10000) % 0x400
    ensures q < 0x400 && r < 0x400
    ensures EscapeChar(c) == UnicodeEscape(0xD800 + q) + UnicodeEscape(0xDC00 + r)
  {
  }

  /** A `\uXXXX\uXXXX` surrogate pair reads back as the character it
      encodes: `q` and `r` are the payloads of its two halves. */
  lemma UnescapePair(q: nat, r: nat, rest: string)
    requires q < 0x400 && r < 0x400
    ensures 0x10000 + q * 0x400 + r < 0x110000
    ensures Unescape(UnicodeEscape(0xD800 + q) + UnicodeEscape(0xDC00 + r) + rest)
      == Prepend((0x10000 + q * 0x400 + r) as char, Unescape(rest))
  {
    var hi, lo := 0xD800 + q, 0xDC00 + r;
    PairText(hi, lo, rest);
    ParseHex4Hex4(hi);
    ParseHex4Hex4(lo);
    UnescapeHighLow(UnicodeEscape(hi) + UnicodeEscape(lo) + rest);
  }

  /** Where the parts of two `\uXXXX` escapes stand. */
  lemma PairText(hi: nat, lo: nat, rest: string)
    requires hi < 0x10000 && lo < 0x10000
    ensures var s := UnicodeEscape(hi) + UnicodeEscape(lo) + rest;
      && |s| >= 12 && s[0] == '\\' && s[1] == 'u' && s[6] == '\\' && s[7] == 'u'
      && s[2..6] == Hex4(hi) && s[8..12] == Hex4(lo) && s[12..] == rest
  {
    var s := UnicodeEscape(hi) + UnicodeEscape(lo) + rest;
    assert s[2..6] == Hex4(hi);
    assert s[8..12] == Hex4(lo);
    assert s[12..] == rest;
  }

  /** The `\u` branch of `Unescape` for a high surrogate followed by a low
      one. */
  lemma UnescapeHighLow(s: string)
    requires |s| >= 12 && s[0] == '\\' && s[1] == 'u' && s[6] == '\\' && s[7] == 'u'
    requires AllHex(s[2..6]) && IsHighSurrogate(ParseHex4(s[2..6]))
    requires AllHex(s[8..12]) && IsLowSurrogate(ParseHex4(s[8..12]))
    ensures 0x10000 + (ParseHex4(s[2..6]) - 0xD800) * 0x400 + (ParseHex4(s[8..12]) - 0xDC00) < 0x110000
    ensures Unescape(s) == Prepend(
      (0x10000 + (ParseHex4(s[2..6]) - 0xD800) * 0x400 + (ParseHex4(s[8..12]) - 0xDC00)) as char,
      Unescape(s[12..]))
  {
  }

  lemma UnescapeSurrogatePair(c: char, rest: string)
    requires c as int >= 0x10000
    ensures Unescape(EscapeChar(c) + rest) == Prepend(c, Unescape(rest))
  {
    var q, r := SurrogateHalves(c);
    EscapeAstral(c, q, r);
    UnescapePair(q, r, rest);
  }

  /** The two-character escapes read back as their characters. */
  lemma UnescapeShortEscape(c: char, rest: string)
    requires c == '\\' || c == '"' || c == '\U{08}' || c == '\U{0C}' || c == '\n' || c == '\r' || c == '\t'
    ensures Unescape(EscapeChar(c) + rest) == Prepend(c, Unescape(rest))
  {
    var s := EscapeChar(c) + rest;
    assert |EscapeChar(c)| == 2 && s[0] == '\\';
    assert s[2..] == rest;
  }

  /** Reading back the escape of one character yields that character. */
  lemma UnescapeEscapeChar(c: char, rest: string)
    ensures Unescape(EscapeChar(c) + rest) == Prepend(c, Unescape(rest))
  {
    if c == '\\' || c == '"' || c == '\U{08}' || c == '\U{0C}' || c == '\n' || c == '\r' || c == '\t' {
      UnescapeShortEscape(c, rest);
    } else if IsPrintableAscii(c) {
      assert (EscapeChar(c) + rest)[1..] == rest;
    } else if c as int < 0x10000 {
      UnescapeUnicode(c as int, rest);
    } else {
      UnescapeSurrogatePair(c, rest);
    }
  }

  /** `json.dumps` loses nothing: its body reads back to the original string. */
  lemma {:induction false} UnescapeEscape(s: string)
    ensures Unescape(EscapeBody(s)) == Some(s)
  {
    if s != [] {
      UnescapeEscapeChar(s[0], EscapeBody(s[1..]));
      UnescapeEscape(s[1..]);
      assert [s[0]] + s[1..] == s;
    }
  }

  /** Escaping works character by character, so it distributes over
      concatenation. */
  lemma {:induction false} EscapeBodyAppend(a: string, b: string)
    ensures EscapeBody(a + b) == EscapeBody(a) + EscapeBody(b)
    decreases |a|
  {
    if a != [] {
      assert (a + b)[0] == a[0] && (a + b)[1..] == a[1..] + b;
      EscapeBodyAppend(a[1..], b);
    } else {
      assert a + b == b;
    }
  }

  /** The whole `json.dumps` text is a double-quoted JSON string literal that
      reads back to `s`. */
  lemma QuoteRoundTrip(s: string)
    ensures var q := Quote(s); Unescape(q[1..|q| - 1]) == Some(s)
  {
    UnescapeEscape(s);
  }
}
