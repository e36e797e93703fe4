/** JSON string literals as the standard codec writes them without ASCII escaping, and reads them. */
module JsonStrings {
  import opened Prelude

  function HexDigit(n: nat): char
    requires n < 16
  {
    if n < 10 then '0' + n as char else 'a' + (n - 10) as char
  }

  function HexValue(c: char): Option<nat> {
    if '0' <= c <= '9' then Some(c as int - '0' as int)
    else if 'a' <= c <= 'f' then Some(c as int - 'a' as int + 10)
    else if 'A' <= c <= 'F' then Some(c as int - 'A' as int + 10)
    else None
  }

  /** Quotes, backslashes and control characters are escaped, everything else stands for itself. */
  function EscapeChar(c: char): (r: string)
    ensures r != ""
  {
    if c == '"' then ['\\', '"']
    else if c == '\\' then ['\\', '\\']
    else if c == '\n' then ['\\', 'n']
    else if c == '\r' then ['\\', 'r']
    else if c == '\t' then ['\\', 't']
    else if c as int == 8 then ['\\', 'b']
    else if c as int == 12 then ['\\', 'f']
    else if (c as int) < 32 then ['\\', 'u', '0', '0', HexDigit(c as int / 16), HexDigit(c as int % 16)]
    else [c]
  }

  function Escaped(s: string): string {
    if s == "" then "" else EscapeChar(s[0]) + Escaped(s[1..])
  }

  function Dumps(s: string): string {
    "\"" + Escaped(s) + "\""
  }

  /** The character of a one-letter escape. */
  function SimpleEscape(c: char): Option<char> {
    if c == '"' || c == '\\' || c == '/' then Some(c)
    else if c == 'b' then Some(8 as char)
    else if c == 'f' then Some(12 as char)
    else if c == 'n' then Some('\n')
    else if c == 'r' then Some('\r')
    else if c == 't' then Some('\t')
    else None
  }

  /** Four hexadecimal digits naming a character that is no surrogate. */
  function UnicodeEscape(text: string): Option<char>
    requires |text| >= 4
  {
    var a, b, c, d := HexValue(text[0]), HexValue(text[1]), HexValue(text[2]), HexValue(text[3]);
    if a.None? || b.None? || c.None? || d.None? then None
    else
      var code := 4096 * a.value + 256 * b.value + 16 * c.value + d.value;
      if 0xD800 <= code < 0xE000 || code > 0xFFFF then None else Some(code as char)
  }

  /** The contents of a literal whose opening quote has been read, and the text after its closing quote. */
  function Scan(text: string): Option<(string, string)>
    decreases |text|
  {
    if text == "" then None
    else if text[0] == '"' then Some(("", text[1..]))
    else if text[0] == '\\' then
      if |text| < 2 then None
      else if text[1] == 'u' then
        if |text| < 6 || UnicodeEscape(text[2..]).None? then None
        else Prepended(UnicodeEscape(text[2..]).value, Scan(text[6..]))
      else if SimpleEscape(text[1]).None? then None
      else Prepended(SimpleEscape(text[1]).value, Scan(text[2..]))
    else if (text[0] as int) < 32 then None
    else Prepended(text[0], Scan(text[1..]))
  }

  function Prepended(c: char, scanned: Option<(string, string)>): Option<(string, string)> {
    if scanned.None? then None else Some(([c] + scanned.value.0, scanned.value.1))
  }

  predicate JsonSpace(c: char) {
    c == ' ' || c == '\t' || c == '\n' || c == '\r'
  }

  function SkipSpace(text: string): string {
    if text != "" && JsonSpace(text[0]) then SkipSpace(text[1..]) else text
  }

  datatype Json = Text(text: string) | EmptyList

  /** `json.loads` on string literals and empty lists. */
  function Loads(text: string): Option<Json> {
    var start := SkipSpace(text);
    if start == "" then None
    else if start[0] == '"' then
      var scanned := Scan(start[1..]);
      if scanned.Some? && SkipSpace(scanned.value.1) == "" then Some(Text(scanned.value.0)) else None
    else if start[0] == '[' then
      var inside := SkipSpace(start[1..]);
      if inside != "" && inside[0] == ']' && SkipSpace(inside[1..]) == "" then Some(EmptyList) else None
    else None
  }

  lemma ScanEscaped(c: char, rest: string)
    ensures Scan(EscapeChar(c) + rest) == Prepended(c, Scan(rest))
  {
    var text := EscapeChar(c) + rest;
    if c == '"' || c == '\\' || c == '\n' || c == '\r' || c == '\t' || c as int == 8 || c as int == 12 {
      assert text[0] == '\\' && SimpleEscape(text[1]) == Some(c);
      assert text[2..] == rest;
    } else if (c as int) < 32 {
      assert text[6..] == rest;
      assert text[2..][..4] == ['0', '0', HexDigit(c as int / 16), HexDigit(c as int % 16)];
      HexRoundTrip(c as int / 16);
      HexRoundTrip(c as int % 16);
      assert UnicodeEscape(text[2..]) == Some(c);
    } else {
      assert text[1..] == rest;
    }
  }

  lemma HexRoundTrip(n: nat)
    requires n < 16
    ensures HexValue(HexDigit(n)) == Some(n)
  {
  }

  const LOWER_HEX := "0123456789abcdef"
  const UPPER_HEX := "0123456789ABCDEF"

  /** Both cases of a hexadecimal digit are read, and nothing else. */
  lemma HexMeans(c: char)
    ensures HexValue(c).Some? ==>
              var n := HexValue(c).value; n < 16 && (LOWER_HEX[n] == c || UPPER_HEX[n] == c)
    ensures HexValue(c).None? ==> c !in LOWER_HEX && c !in UPPER_HEX
  {
  }

  /** Four hexadecimal digits stand for the character of their number, unless it is a surrogate. */
  lemma EscapeMeans(n: nat)
    requires n < 0x1_0000
    ensures var digits := [HexDigit(n / 4096), HexDigit(n / 256 % 16), HexDigit(n / 16 % 16), HexDigit(n % 16)];
            UnicodeEscape(digits) == if 0xD800 <= n < 0xE000 then None else Some(n as char)
  {
    HexRoundTrip(n / 4096);
    HexRoundTrip(n / 256 % 16);
    HexRoundTrip(n / 16 % 16);
    HexRoundTrip(n % 16);
    hide HexValue, HexDigit;
    assert n == 16 * (n / 16) + n % 16;
    assert n / 16 == 16 * (n / 256) + n / 16 % 16 by { assert n / 16 / 16 == n / 256; }
    assert n / 256 == 16 * (n / 4096) + n / 256 % 16 by { assert n / 256 / 16 == n / 4096; }
  }

  lemma ScanQuote(rest: string)
    ensures Scan(Escaped("") + ("\"" + rest)) == Some(("", rest))
  {
    assert Escaped("") + ("\"" + rest) == "\"" + rest;
  }

  lemma {:induction false} ScanTail(s: string, rest: string)
    ensures Scan(Escaped(s) + ("\"" + rest)) == Some((s, rest))
    decreases |s|
  {
    hide Scan, Escaped, EscapeChar;
    var tail := "\"" + rest;
    if s == "" {
      ScanQuote(rest);
    } else {
      EscapedFirst(s, tail);
      ScanTail(s[1..], rest);
      ScanEscaped(s[0], Escaped(s[1..]) + tail);
      assert s == [s[0]] + s[1..];
    }
  }

  lemma ScanWritten(s: string, rest: string)
    ensures Scan(Escaped(s) + "\"" + rest) == Some((s, rest))
  {
    hide Scan, Escaped;
    ScanTail(s, rest);
    assert Escaped(s) + "\"" + rest == Escaped(s) + ("\"" + rest);
  }

  lemma EscapedFirst(s: string, rest: string)
    requires s != ""
    ensures Escaped(s) + rest == EscapeChar(s[0]) + (Escaped(s[1..]) + rest)
  {
    hide EscapeChar;
  }

  /** Reading a written literal gives the string back. */
  lemma LoadsDumps(s: string)
    ensures Loads(Dumps(s)) == Some(Text(s))
  {
    ScanWritten(s, "");
    assert Dumps(s)[1..] == Escaped(s) + "\"" + "";
  }

  /** A literal cut short is not read. */
  lemma {:induction false} ScanCut(s: string, n: nat)
    requires n <= |Escaped(s)|
    ensures Scan(Escaped(s)[..n]) == None
  {
    if n > 0 {
      var first := EscapeChar(s[0]);
      var text := Escaped(s)[..n];
      if n < |first| {
        assert text == first[..n];
        assert text[0] == '\\';
        assert |first| == 2 || (|first| == 6 && (n > 1 ==> text[1] == 'u'));
      } else {
        ScanCut(s[1..], n - |first|);
        ScanEscaped(s[0], Escaped(s[1..])[..n - |first|]);
        assert text == first + Escaped(s[1..])[..n - |first|];
      }
    }
  }

  lemma LoadsCut(s: string, n: nat)
    requires n <= |Escaped(s)|
    ensures Loads("\"" + Escaped(s)[..n]) == None
  {
    var text := "\"" + Escaped(s)[..n];
    assert text[1..] == Escaped(s)[..n];
    ScanCut(s, n);
  }

  lemma LoadsEmptyList()
    ensures Loads("[]") == Some(EmptyList)
  {
    assert "[]"[1..] == "]" && "]"[1..] == "";
  }
}
