/** url.QueryEscape and url.QueryUnescape: percent-encoding (section 2.1 of
    RFC 3986) of a query component, where every byte outside the unreserved
    set is escaped as %XX with upper-case hex digits and the space is written
    as '+', as the application/x-www-form-urlencoded serializer does (section
    5.2 of the WHATWG URL Standard). Recovery records are stored this way, one
    per line. */
module Percent {
  import opened Common
  import opened Bytes

  /** Section 2.3 of RFC 3986: letters, digits and - _ . ~ stay as they are. */
  predicate Unreserved(c: Byte)
  {
    ('a' <= c <= 'z') || ('A' <= c <= 'Z') || ('0' <= c <= '9') ||
    c == '-' || c == '_' || c == '.' || c == '~'
  }

  function HexDigit(n: int): (c: Byte)
    requires 0 <= n < 16
  {
    if n < 10 then ('0' as int + n) as char else ('A' as int + n - 10) as char
  }

  predicate IsHex(c: Byte)
  {
    ('0' <= c <= '9') || ('a' <= c <= 'f') || ('A' <= c <= 'F')
  }

  function Unhex(c: Byte): (n: int)
    requires IsHex(c)
    ensures 0 <= n < 16
  {
    if '0' <= c <= '9' then c as int - '0' as int
    else if 'a' <= c <= 'f' then c as int - 'a' as int + 10
    else c as int - 'A' as int + 10
  }

  /** The bytes an escaped text is made of. */
  predicate Escaped(c: Byte)
  {
    Unreserved(c) || c == '+' || c == '%'
  }

  function EscapeByte(c: Byte): Str
  {
    if c == ' ' then "+"
    else if Unreserved(c) then [c]
    else ['%', HexDigit(c as int / 16), HexDigit(c as int % 16)]
  }

  /** url.QueryEscape. Its output is made of unreserved bytes, '+' and '%'
      only, so it holds no space and no line break: an escaped record fits
      on one line and never splits at a space. */
  function QueryEscape(s: Str): (r: Str)
    ensures forall i :: 0 <= i < |r| ==> Escaped(r[i])
    ensures ' ' !in r && '\n' !in r && '\r' !in r
    ensures |s| <= |r| <= 3 * |s|
  {
    if s == [] then [] else EscapeByte(s[0]) + QueryEscape(s[1..])
  }

  function Prepend(c: Byte, r: Option<Str>): Option<Str>
  {
    match r
    case None => None
    case Some(t) => Some([c] + t)
  }

  /** url.QueryUnescape: '+' becomes a space, %XX (either case of hex digit)
      becomes the byte XX, and a '%' that is not followed by two hex digits
      makes the whole text fail to decode. */
  function QueryUnescape(s: Str): (r: Option<Str>)
    ensures '%' !in s ==> r.Some? && |r.value| == |s|
    ensures r.Some? ==> |r.value| <= |s|
    decreases |s|
  {
    if s == [] then Some([])
    else if s[0] == '%' then
      if |s| < 3 || !IsHex(s[1]) || !IsHex(s[2]) then None
      else Prepend((Unhex(s[1]) * 16 + Unhex(s[2])) as char, QueryUnescape(s[3..]))
    else
      assert '%' !in s ==> '%' !in s[1..];
      Prepend(if s[0] == '+' then ' ' else s[0], QueryUnescape(s[1..]))
  }

  lemma UnescapeByte(c: Byte, rest: Str)
    ensures QueryUnescape(EscapeByte(c) + rest) == Prepend(c, QueryUnescape(rest))
  {
    var e := EscapeByte(c) + rest;
    if c != ' ' && !Unreserved(c) {
      var hi, lo := c as int / 16, c as int % 16;
      assert Unhex(HexDigit(hi)) == hi && Unhex(HexDigit(lo)) == lo;
      assert e[3..] == rest;
      assert ((hi * 16 + lo) as char) == c;
    } else {
      assert e[1..] == rest;
    }
  }

  /** Unescaping an escaped text gives the text back, for every text. */
  lemma {:induction false} UnescapeEscape(s: Str)
    ensures QueryUnescape(QueryEscape(s)) == Some(s)
  {
    if s != [] {
      UnescapeByte(s[0], QueryEscape(s[1..]));
      UnescapeEscape(s[1..]);
      assert [s[0]] + s[1..] == s;
    }
  }

  /** Hence escaping loses nothing: different texts escape differently. */
  lemma EscapeInjective(a: Str, b: Str)
    requires QueryEscape(a) == QueryEscape(b)
    ensures a == b
  {
    UnescapeEscape(a);
    UnescapeEscape(b);
  }
}
