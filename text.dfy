/** The string operations of the JavaScript host that the validators use:
    rendering of integers (`String(n)`), `Array.prototype.join`, the string
    quoting of `JSON.stringify`, and the canonical array-index keys that
    `Object.keys` reports for an array. */
module Text {
  import opened Options

  function Digit(d: nat): (c: char)
    requires d < 10
    ensures '0' <= c <= '9' && c as int - '0' as int == d
  {
    "0123456789"[d]
  }

  predicate IsDigit(c: char) {
    '0' <= c <= '9'
  }

  function DigitValue(c: char): (d: nat)
    requires IsDigit(c)
    ensures d < 10
  {
    c as int - '0' as int
  }

  /** Decimal rendering of a natural number, without leading zeros. */
  function NatToString(n: nat): (r: string)
    ensures |r| > 0
    ensures forall i :: 0 <= i < |r| ==> IsDigit(r[i])
    ensures n > 0 ==> r[0] != '0'
    ensures r[0] == '0' ==> r == "0"
  {
    if n < 10 then [Digit(n)] else NatToString(n / 10) + [Digit(n % 10)]
  }

  /** `String(n)` for an integral JavaScript number. */
  function IntToString(n: int): (r: string)
    ensures |r| > 0 && (r[0] == '-' || IsDigit(r[0]))
  {
    if n < 0 then "-" + NatToString(-n) else NatToString(n)
  }

  /** The value of a string of decimal digits. */
  function ParseNat(s: string): nat
    requires forall i :: 0 <= i < |s| ==> IsDigit(s[i])
  {
    if |s| == 0 then 0
    else 10 * ParseNat(s[..|s| - 1]) + DigitValue(s[|s| - 1])
  }

  /** The array index named by a property key: only canonical decimal
      strings ("0", "17", never "017" or "") name an element. */
  function ParseIndex(k: string): (r: Option<nat>)
    ensures r.Some? ==> |k| > 0 && forall i :: 0 <= i < |k| ==> IsDigit(k[i])
  {
    if |k| > 0 && (forall i :: 0 <= i < |k| ==> IsDigit(k[i])) && (k[0] != '0' || |k| == 1)
    then Some(ParseNat(k))
    else None
  }

  /** The key of element `n` of an array, read back, names element `n`. */
  lemma {:induction false} ParseNatToString(n: nat)
    ensures ParseNat(NatToString(n)) == n
    ensures ParseIndex(NatToString(n)) == Some(n)
  {
    var r := NatToString(n);
    if n >= 10 {
      ParseNatToString(n / 10);
      var q := NatToString(n / 10);
      assert r == q + [Digit(n % 10)];
      assert r[..|r| - 1] == q;
    }
  }

  /** `parts.join(sep)`. */
  function Join(parts: seq<string>, sep: string): string {
    if |parts| == 0 then ""
    else if |parts| == 1 then parts[0]
    else parts[0] + sep + Join(parts[1..], sep)
  }

  predicate IsHexDigit(c: char) {
    '0' <= c <= '9' || 'a' <= c <= 'f'
  }

  function HexValue(c: char): (d: nat)
    requires IsHexDigit(c)
    ensures d < 16
  {
    if c <= '9' then c as int - '0' as int else c as int - 'a' as int + 10
  }

  /** The lower-case hexadecimal digit of `d`; `HexValue` reads it back. */
  function HexDigit(d: nat): (c: char)
    requires d < 16
    ensures IsHexDigit(c) && HexValue(c) == d
  {
    if d < 10 then Digit(d) else ('a' as int + (d - 10)) as char
  }

  /** How `JSON.stringify` writes one character inside a string literal. */
  function EscapeJsonChar(c: char): string {
    if c == '"' then "\\\""
    else if c == '\\' then "\\\\"
    else if c as int == 0x08 then "\\b"
    else if c as int == 0x09 then "\\t"
    else if c as int == 0x0A then "\\n"
    else if c as int == 0x0C then "\\f"
    else if c as int == 0x0D then "\\r"
    else if c as int < 0x20 then "\\u00" + [HexDigit(c as int / 16), HexDigit(c as int % 16)]
    else [c]
  }

  function EscapeJson(s: string): string {
    if |s| == 0 then "" else EscapeJsonChar(s[0]) + EscapeJson(s[1..])
  }

  /** The character a two-character escape, a backslash and `e`, stands for. */
  function ShortEscape(e: char): char {
    if e == 'b' then 0x08 as char
    else if e == 't' then 0x09 as char
    else if e == 'n' then 0x0A as char
    else if e == 'f' then 0x0C as char
    else if e == 'r' then 0x0D as char
    else e
  }

  /** Reads back the escapes `EscapeJson` writes, the way `JSON.parse`
      reads the inside of a string literal. */
  function UnescapeJson(t: string): string
    decreases |t|
  {
    if |t| == 0 then ""
    else if t[0] != '\\' || |t| == 1 then [t[0]] + UnescapeJson(t[1..])
    else if t[1] == 'u' && |t| >= 6 && t[2] == '0' && t[3] == '0' && IsHexDigit(t[4]) && IsHexDigit(t[5]) then
      [(16 * HexValue(t[4]) + HexValue(t[5])) as char] + UnescapeJson(t[6..])
    else [ShortEscape(t[1])] + UnescapeJson(t[2..])
  }

  /** Each escaped character reads back as itself, whatever follows. */
  lemma UnescapeJsonChar(c: char, rest: string)
    ensures UnescapeJson(EscapeJsonChar(c) + rest) == [c] + UnescapeJson(rest)
  {
    var e := EscapeJsonChar(c);
    var t := e + rest;
    if c == '"' || c == '\\' || c as int == 0x08 || c as int == 0x09 || c as int == 0x0A || c as int == 0x0C || c as int == 0x0D {
      assert |e| == 2 && e[0] == '\\' && e[1] != 'u';
      assert ShortEscape(e[1]) == c;
      assert t[2..] == rest;
    } else if c as int < 0x20 {
      var hi, lo := HexDigit(c as int / 16), HexDigit(c as int % 16);
      assert e == ['\\', 'u', '0', '0', hi, lo];
      assert t[6..] == rest;
    } else {
      assert e == [c];
      assert t[1..] == rest;
    }
  }

  /** Escaping is undone by `UnescapeJson`, so distinct strings have
      distinct JSON texts. */
  lemma {:induction false} UnescapeEscapeJson(s: string)
    ensures UnescapeJson(EscapeJson(s)) == s
  {
    if |s| > 0 {
      UnescapeJsonChar(s[0], EscapeJson(s[1..]));
      UnescapeEscapeJson(s[1..]);
    }
  }

  /** A string without quotes, backslashes or control characters is
      written as it is. */
  lemma {:induction false} EscapeJsonPlain(s: string)
    requires forall i :: 0 <= i < |s| ==> s[i] as int >= 0x20 && s[i] != '"' && s[i] != '\\'
    ensures EscapeJson(s) == s
  {
    if |s| > 0 {
      EscapeJsonPlain(s[1..]);
      assert s == [s[0]] + s[1..];
    }
  }

  /** Two strings with the same JSON text are the same string. */
  lemma QuoteJsonInjective(s: string, t: string)
    ensures QuoteJson(s) == QuoteJson(t) <==> s == t
  {
    if QuoteJson(s) == QuoteJson(t) {
      var q := QuoteJson(s);
      assert q[1..|q| - 1] == EscapeJson(s);
      assert QuoteJson(t)[1..|q| - 1] == EscapeJson(t);
      UnescapeEscapeJson(s);
      UnescapeEscapeJson(t);
    }
  }

  /** Two integers with the same decimal text are the same integer. */
  lemma IntToStringInjective(n: int, m: int)
    ensures IntToString(n) == IntToString(m) <==> n == m
  {
    if IntToString(n) == IntToString(m) {
      ParseNatToString(if n < 0 then -n else n);
      ParseNatToString(if m < 0 then -m else m);
      var a, b := NatToString(if n < 0 then -n else n), NatToString(if m < 0 then -m else m);
      assert IsDigit(a[0]) && IsDigit(b[0]);
      if n < 0 && m < 0 {
        assert IntToString(n)[1..] == a && IntToString(m)[1..] == b;
      }
    }
  }

  /** `JSON.stringify` of a string: the escaped text between double quotes. */
  function QuoteJson(s: string): (r: string)
    ensures |r| >= 2 && r[0] == '"'
  {
    "\"" + EscapeJson(s) + "\""
  }
}
